/** The repository's own tokenizer and matching examples, as proved facts. */
module TokenizerExamples {
  import opened Chars
  import opened Strings
  import opened Tokenizer

  /** One scanning step: the first token, then the rest of the text. */
  lemma TokenizeStep(s: string, next: nat, kind: Kind, n: nat, v: string)
    requires |s| > 0 && Lead(s) == (kind, n) && s[..n] == v
    ensures TokenizeFrom(s, next) == [Token(kind, v, next)] + TokenizeFrom(s[n..], next + 1)
  {
  }

  lemma ContractionLead(s: string)
    requires s == "it's okay!"
    ensures Lead(s) == (Word, 4) && s[..4] == "it's" && s[4..] == " okay!"
  {
    RunIsLongest(s, IsWordChar, 2);
    RunIsLongest(s[3..], IsLetter, 1);
  }

  lemma SpaceLead(s: string)
    requires s == " okay!"
    ensures Lead(s) == (Space, 1) && s[..1] == " " && s[1..] == "okay!"
  {
    RunIsLongest(s, IsSpace, 1);
  }

  lemma PlainWordLead(s: string)
    requires s == "okay!"
    ensures Lead(s) == (Word, 4) && s[..4] == "okay" && s[4..] == "!"
  {
    RunIsLongest(s, IsWordChar, 4);
  }

  lemma MarkLead(s: string)
    requires s == "!"
    ensures Lead(s) == (Punctuation, 1) && s[..1] == "!" && s[1..] == []
  {
  }

  /** The last mark alone is one punctuation token. */
  lemma TokenizeMark(s: string)
    requires s == "!"
    ensures TokenizeFrom(s, 3) == [Token(Punctuation, "!", 3)]
  {
    MarkLead(s);
    TokenizeStep(s, 3, Punctuation, 1, "!");
  }

  lemma TokenizeOkay(s: string)
    requires s == "okay!"
    ensures TokenizeFrom(s, 2) == [Token(Word, "okay", 2), Token(Punctuation, "!", 3)]
  {
    PlainWordLead(s);
    TokenizeMark(s[4..]);
    TokenizeStep(s, 2, Word, 4, "okay");
  }

  lemma TokenizeSpaceOkay(s: string)
    requires s == " okay!"
    ensures TokenizeFrom(s, 1) == [Token(Space, " ", 1), Token(Word, "okay", 2), Token(Punctuation, "!", 3)]
  {
    SpaceLead(s);
    TokenizeOkay(s[1..]);
    TokenizeStep(s, 1, Space, 1, " ");
  }

  /** A contraction is one word token; the rest splits at the space and the mark. */
  lemma TokenizeContraction(text: string)
    requires text == "it's okay!"
    ensures Tokenize(text) ==
      [Token(Word, "it's", 0), Token(Space, " ", 1), Token(Word, "okay", 2), Token(Punctuation, "!", 3)]
  {
    ContractionLead(text);
    TokenizeSpaceOkay(text[4..]);
    TokenizeStep(text, 0, Word, 4, "it's");
  }
}
