/**
 * The tokenizer and word comparator of utils/textTokenizer.ts.
 *
 * A line is scanned left to right with the pattern
 * `([\p{L}\p{N}]+(?:'[\p{L}]+)?)|([^\p{L}\p{N}\s])|(\s+)`: a word is a run of
 * letters/digits optionally continued by one apostrophe and a run of letters,
 * punctuation is one other non-space character, and space is a run of
 * whitespace. Typed words are compared either case-insensitively or with the
 * "flexible first letter" policy.
 */
module Tokenizer {
  import opened Base
  import opened Chars
  import opened Strings

  datatype Kind = Word | Punctuation | Space

  /** A token and its position in the token list. */
  datatype Token = Token(kind: Kind, value: string, index: nat)

  // ---------------------------------------------------------------------
  // Scanning
  // ---------------------------------------------------------------------

  /** Length of the longest prefix of `s` whose characters all satisfy `p`. */
  function Run(s: string, p: char -> bool): (n: nat)
    ensures n <= |s|
    ensures forall i :: 0 <= i < n ==> p(s[i])
    ensures n == |s| || !p(s[n])
  {
    if |s| == 0 || !p(s[0]) then 0 else 1 + Run(s[1..], p)
  }

  /** Length of the word match at the start of `s` (the first alternative). */
  function WordLength(s: string): (n: nat)
    requires |s| > 0 && IsWordChar(s[0])
    ensures 1 <= n <= |s|
  {
    var a := Run(s, IsWordChar);
    if a + 1 < |s| && s[a] == '\'' && IsLetter(s[a + 1]) then
      a + 1 + Run(s[a + 1..], IsLetter)
    else a
  }

  /** Kind and length of the token the pattern matches at the start of `s`. */
  function Lead(s: string): (r: (Kind, nat))
    requires |s| > 0
    ensures 1 <= r.1 <= |s|
  {
    if IsWordChar(s[0]) then (Word, WordLength(s))
    else if !IsSpace(s[0]) then (Punctuation, 1)
    else (Space, Run(s, IsSpace))
  }

  /** Concatenation of the token values, in order. */
  function Concat(ts: seq<Token>): string {
    if |ts| == 0 then "" else ts[0].value + Concat(ts[1..])
  }

  /** Token `i` carries index `next + i`. */
  predicate IndexedFrom(ts: seq<Token>, next: nat) {
    forall i :: 0 <= i < |ts| ==> ts[i].index == next + i
  }

  predicate NonEmptyValues(ts: seq<Token>) {
    forall i :: 0 <= i < |ts| ==> ts[i].value != ""
  }

  /** A non-empty token with index `t.index` in front of tokens numbered from `t.index + 1`. */
  function Cons(t: Token, rest: seq<Token>): (r: seq<Token>)
    requires t.value != ""
    requires IndexedFrom(rest, t.index + 1) && NonEmptyValues(rest)
    ensures Concat(r) == t.value + Concat(rest)
    ensures IndexedFrom(r, t.index) && NonEmptyValues(r)
  {
    var r := [t] + rest;
    assert r[1..] == rest;
    r
  }

  function TokenizeFrom(s: string, next: nat): (r: seq<Token>)
    ensures Concat(r) == s
    ensures IndexedFrom(r, next) && NonEmptyValues(r)
    decreases |s|
  {
    if |s| == 0 then []
    else
      var lead := Lead(s);
      var n := lead.1;
      var rest := TokenizeFrom(s[n..], next + 1);
      assert s[..n] + s[n..] == s;
      Cons(Token(lead.0, s[..n], next), rest)
  }

  /**
   * `tokenizeText`: the tokens are lossless (their values concatenate to the
   * text), never empty, and token `i` carries index `i`.
   */
  function Tokenize(text: string): (r: seq<Token>)
    ensures Concat(r) == text
    ensures forall i :: 0 <= i < |r| ==> r[i].index == i && r[i].value != ""
  {
    TokenizeFrom(text, 0)
  }

  // ---------------------------------------------------------------------
  // Token shapes
  // ---------------------------------------------------------------------

  predicate AllWordChars(s: string) {
    forall i :: 0 <= i < |s| ==> IsWordChar(s[i])
  }

  predicate AllLetters(s: string) {
    forall i :: 0 <= i < |s| ==> IsLetter(s[i])
  }

  /** A letter/digit run, optionally followed by `'` and a letter run. */
  predicate IsWordShape(v: string) {
    && |v| > 0
    && (|| AllWordChars(v)
        || exists k :: 0 < k < |v| - 1 && v[k] == '\'' && AllWordChars(v[..k]) && AllLetters(v[k + 1..]))
  }

  predicate Shaped(t: Token) {
    match t.kind
    case Word => IsWordShape(t.value)
    case Punctuation => |t.value| == 1 && !IsWordChar(t.value[0]) && !IsSpace(t.value[0])
    case Space => |t.value| > 0 && AllSpace(t.value)
  }

  /**
   * The token could not have been longer given the text `rest` that follows
   * it: a space run is not followed by whitespace, a word is never followed
   * by a letter, and a word without an apostrophe is followed neither by a
   * letter/digit nor by an apostrophe-and-letter continuation.
   */
  predicate MaximalBefore(t: Token, rest: string) {
    match t.kind
    case Word =>
      rest == "" ||
      (&& !IsLetter(rest[0])
       && ('\'' !in t.value ==>
             !IsWordChar(rest[0]) && !(|rest| > 1 && rest[0] == '\'' && IsLetter(rest[1]))))
    case Space => rest == "" || !IsSpace(rest[0])
    case Punctuation => true
  }

  lemma LeadShape(s: string)
    requires |s| > 0
    ensures Shaped(Token(Lead(s).0, s[..Lead(s).1], 0))
    ensures MaximalBefore(Token(Lead(s).0, s[..Lead(s).1], 0), s[Lead(s).1..])
  {
    var (kind, n) := Lead(s);
    var v := s[..n];
    if kind == Word {
      var a := Run(s, IsWordChar);
      if a + 1 < |s| && s[a] == '\'' && IsLetter(s[a + 1]) {
        var b := Run(s[a + 1..], IsLetter);
        assert n == a + 1 + b;
        assert v[..a] == s[..a];
        assert v[a + 1..] == s[a + 1..][..b];
        assert v[a] == '\'';
        assert IsWordShape(v);
        assert '\'' in v;
      } else {
        assert n == a;
        assert AllWordChars(v);
        assert '\'' !in v;
      }
    }
  }

  lemma {:induction false} ShapesFrom(s: string, next: nat)
    ensures forall i :: 0 <= i < |TokenizeFrom(s, next)| ==>
      var r := TokenizeFrom(s, next);
      Shaped(r[i]) && MaximalBefore(r[i], Concat(r[i + 1..]))
    decreases |s|
  {
    if |s| > 0 {
      var r := TokenizeFrom(s, next);
      var (kind, n) := Lead(s);
      var rest := TokenizeFrom(s[n..], next + 1);
      assert r == [Token(kind, s[..n], next)] + rest;
      LeadShape(s);
      ShapesFrom(s[n..], next + 1);
      forall i | 0 <= i < |r|
        ensures Shaped(r[i]) && MaximalBefore(r[i], Concat(r[i + 1..]))
      {
        if i == 0 {
          assert r[1..] == rest;
        } else {
          assert r[i] == rest[i - 1];
          assert r[i + 1..] == rest[i..];
        }
      }
    }
  }

  /** Every token has its kind's shape and is as long as the pattern allows. */
  lemma TokenShapes(text: string)
    ensures forall i :: 0 <= i < |Tokenize(text)| ==>
      var r := Tokenize(text);
      Shaped(r[i]) && MaximalBefore(r[i], Concat(r[i + 1..]))
  {
    ShapesFrom(text, 0);
  }

  /** `Run` is the unique maximal length: any `n` with the two run properties equals it. */
  lemma RunIsLongest(s: string, p: char -> bool, n: nat)
    requires n <= |s|
    requires forall i :: 0 <= i < n ==> p(s[i])
    requires n == |s| || !p(s[n])
    ensures Run(s, p) == n
  {
  }

  // ---------------------------------------------------------------------
  // Word tokens
  // ---------------------------------------------------------------------

  /** `getWordTokens`. */
  function WordTokens(ts: seq<Token>): seq<Token> {
    if |ts| == 0 then []
    else (if ts[0].kind == Word then [ts[0]] else []) + WordTokens(ts[1..])
  }

  function WordValues(ts: seq<Token>): (r: seq<string>)
    ensures |r| == |WordTokens(ts)|
  {
    var w := WordTokens(ts);
    seq(|w|, k requires 0 <= k < |w| => w[k].value)
  }

  /** Number of word tokens strictly before position `i`. */
  function WordsBefore(ts: seq<Token>, i: nat): nat
    requires i <= |ts|
  {
    |WordTokens(ts[..i])|
  }


  /** Every element of `w` is a word token of `ts` (indexed from `next`) at its own index. */
  predicate WordsOf(w: seq<Token>, ts: seq<Token>, next: nat) {
    forall k :: 0 <= k < |w| ==>
      && w[k].kind == Word
      && next <= w[k].index < next + |ts|
      && ts[w[k].index - next] == w[k]
  }

  predicate StrictlyIncreasing(w: seq<Token>) {
    forall k, l :: 0 <= k < l < |w| ==> w[k].index < w[l].index
  }

  /** Every word token of `ts` (indexed from `next`) appears in `w`. */
  predicate CoversWords(w: seq<Token>, ts: seq<Token>, next: nat) {
    forall i :: 0 <= i < |ts| && ts[i].kind == Word ==>
      exists k :: 0 <= k < |w| && w[k].index == next + i
  }

  lemma {:induction false} WordTokensFrom(ts: seq<Token>, next: nat)
    requires IndexedFrom(ts, next)
    ensures WordsOf(WordTokens(ts), ts, next)
    decreases |ts|
  {
    if |ts| > 0 {
      var w := WordTokens(ts);
      var tail := WordTokens(ts[1..]);
      WordTokensFrom(ts[1..], next + 1);
      var h: seq<Token> := if ts[0].kind == Word then [ts[0]] else [];
      assert w == h + tail;
      forall k | 0 <= k < |w|
        ensures w[k].kind == Word && next <= w[k].index < next + |ts| && ts[w[k].index - next] == w[k]
      {
        if k >= |h| {
          assert w[k] == tail[k - |h|];
          assert ts[1..][w[k].index - next - 1] == ts[w[k].index - next];
        }
      }
    }
  }

  lemma {:induction false} WordTokensOrdered(ts: seq<Token>, next: nat)
    requires IndexedFrom(ts, next)
    ensures StrictlyIncreasing(WordTokens(ts))
    decreases |ts|
  {
    if |ts| > 0 {
      var w := WordTokens(ts);
      var tail := WordTokens(ts[1..]);
      WordTokensOrdered(ts[1..], next + 1);
      WordTokensFrom(ts[1..], next + 1);
      var h: seq<Token> := if ts[0].kind == Word then [ts[0]] else [];
      assert w == h + tail;
      forall k, l | 0 <= k < l < |w|
        ensures w[k].index < w[l].index
      {
        assert w[l] == tail[l - |h|];
        if k >= |h| {
          assert w[k] == tail[k - |h|];
        }
      }
    }
  }

  lemma {:induction false} WordTokensComplete(ts: seq<Token>, next: nat)
    requires IndexedFrom(ts, next)
    ensures CoversWords(WordTokens(ts), ts, next)
    decreases |ts|
  {
    if |ts| > 0 {
      var w := WordTokens(ts);
      var tail := WordTokens(ts[1..]);
      WordTokensComplete(ts[1..], next + 1);
      var h: seq<Token> := if ts[0].kind == Word then [ts[0]] else [];
      assert w == h + tail;
      forall i | 0 <= i < |ts| && ts[i].kind == Word
        ensures exists k :: 0 <= k < |w| && w[k].index == next + i
      {
        if i == 0 {
          assert w[0] == ts[0];
        } else {
          assert ts[1..][i - 1] == ts[i];
          var k :| 0 <= k < |tail| && tail[k].index == next + 1 + (i - 1);
          assert w[k + |h|] == tail[k];
        }
      }
    }
  }

  /**
   * `getWordTokens` returns exactly the word tokens of a tokenized line, in
   * their original order: each result is the word at its own index, indices
   * increase strictly, and every word token appears.
   */
  lemma WordTokensExact(text: string)
    ensures WordsOf(WordTokens(Tokenize(text)), Tokenize(text), 0)
    ensures StrictlyIncreasing(WordTokens(Tokenize(text)))
    ensures CoversWords(WordTokens(Tokenize(text)), Tokenize(text), 0)
  {
    var ts := Tokenize(text);
    WordTokensFrom(ts, 0);
    WordTokensOrdered(ts, 0);
    WordTokensComplete(ts, 0);
  }

  // ---------------------------------------------------------------------
  // Matching policies
  // ---------------------------------------------------------------------

  /** `isInputCorrect`: trimmed, lower-cased equality. */
  predicate IsInputCorrect(input: string, target: string) {
    LowerStr(Trim(input)) == LowerStr(Trim(target))
  }

  /**
   * `isInputCorrectFlexibleCase`: equal trimmed lengths, non-empty, first
   * characters equal up to case, the rest equal exactly. Accepting implies the
   * case-insensitive policy accepts too.
   */
  function IsInputCorrectFlexibleCase(input: string, target: string): (r: bool)
    ensures r ==> Trim(input) != "" && |Trim(input)| == |Trim(target)|
    ensures r ==> IsInputCorrect(input, target)
  {
    var a := Trim(input);
    var b := Trim(target);
    if |a| != |b| then false
    else if |a| == 0 then false
    else if Lower(a[0]) != Lower(b[0]) then false
    else if |a| > 1 then
      var same := a[1..] == b[1..];
      assert same ==> LowerStr(a) == LowerStr(b) by {
        if same { FirstLetterLower(a, b); }
      }
      same
    else
      assert LowerStr(a) == LowerStr(b) by { FirstLetterLower(a, b); }
      true
  }

  /** Strings that differ at most in the case of their first letter lower-case alike. */
  lemma FirstLetterLower(a: string, b: string)
    requires |a| == |b| && |a| > 0 && Lower(a[0]) == Lower(b[0]) && a[1..] == b[1..]
    ensures LowerStr(a) == LowerStr(b)
  {
    forall i | 1 <= i < |a|
      ensures a[i] == b[i]
    {
      assert a[i] == a[1..][i - 1] && b[i] == b[1..][i - 1];
    }
  }

  /** The flexible policy, stated on the trimmed strings as a single condition. */
  lemma FlexibleCaseCharacterization(input: string, target: string)
    ensures IsInputCorrectFlexibleCase(input, target) <==>
      var a := Trim(input); var b := Trim(target);
      |a| == |b| && |a| > 0 && Lower(a[0]) == Lower(b[0]) && a[1..] == b[1..]
  {
  }

  lemma FlexibleCaseReflexive(s: string)
    requires Trim(s) != ""
    ensures IsInputCorrectFlexibleCase(s, s)
  {
  }

  lemma FlexibleCaseSymmetric(a: string, b: string)
    ensures IsInputCorrectFlexibleCase(a, b) == IsInputCorrectFlexibleCase(b, a)
  {
  }

  /** The repository's own examples of the flexible policy: the case of the first letter is free. */
  lemma FlexibleCaseAccepts(input: string, target: string)
    requires
      || (input == "Miren" && target == "miren")
      || (input == "miren" && target == "Miren")
      || (input == "Oigan" && target == "Oigan")
    ensures IsInputCorrectFlexibleCase(input, target)
  {
    if input == "Miren" {
      FirstLetterFree("Miren", "miren");
    } else if input == "miren" {
      FirstLetterFree("miren", "Miren");
    } else {
      FirstLetterFree("Oigan", "Oigan");
    }
  }

  /** Two untrimmed-free words that differ at most in the case of their first letter match. */
  lemma FirstLetterFree(a: string, b: string)
    requires |a| == |b| && |a| > 0 && !IsSpace(a[0]) && !IsSpace(a[|a| - 1]) && !IsSpace(b[0]) && !IsSpace(b[|b| - 1])
    requires Lower(a[0]) == Lower(b[0]) && a[1..] == b[1..]
    ensures IsInputCorrectFlexibleCase(a, b)
  {
    TrimNoEdgeSpace(a);
    TrimNoEdgeSpace(b);
  }

  /** Case elsewhere in the word and any length difference are mistakes. */
  lemma FlexibleCaseRejects(input: string, target: string)
    requires
      || (input == "mirEn" && target == "miren")
      || (input == "dicen" && target == "dice")
      || (input == "entrada" && target == "entrad")
    ensures !IsInputCorrectFlexibleCase(input, target)
  {
    if input == "mirEn" {
      RejectsInnerCase();
    } else {
      RejectsLength(input, target);
    }
  }

  lemma RejectsInnerCase()
    ensures !IsInputCorrectFlexibleCase("mirEn", "miren")
  {
    var a, b := "mirEn", "miren";
    assert a[1..] != b[1..] by { assert a[1..][2] != b[1..][2]; }
    assert !IsSpace(a[0]) && !IsSpace(a[|a| - 1]) && !IsSpace(b[0]) && !IsSpace(b[|b| - 1]);
    FlexibleNeedsSameTail(a, b);
  }

  lemma FlexibleNeedsSameTail(a: string, b: string)
    requires |a| > 0 && |b| > 0 && a[1..] != b[1..]
    requires !IsSpace(a[0]) && !IsSpace(a[|a| - 1]) && !IsSpace(b[0]) && !IsSpace(b[|b| - 1])
    ensures !IsInputCorrectFlexibleCase(a, b)
  {
    FlexibleOnWords(a, b);
  }

  lemma RejectsLength(input: string, target: string)
    requires (input == "dicen" && target == "dice") || (input == "entrada" && target == "entrad")
    ensures !IsInputCorrectFlexibleCase(input, target)
  {
    FlexibleOnWords(input, target);
  }

  /** On words without edge spaces the flexible policy compares the words themselves. */
  lemma FlexibleOnWords(a: string, b: string)
    requires |a| > 0 && |b| > 0
    requires !IsSpace(a[0]) && !IsSpace(a[|a| - 1]) && !IsSpace(b[0]) && !IsSpace(b[|b| - 1])
    ensures IsInputCorrectFlexibleCase(a, b) <==> |a| == |b| && Lower(a[0]) == Lower(b[0]) && a[1..] == b[1..]
  {
    TrimNoEdgeSpace(a);
    TrimNoEdgeSpace(b);
  }

  datatype Policy = CaseInsensitive | FlexibleFirstLetter

  predicate Matches(p: Policy, input: string, target: string) {
    match p
    case CaseInsensitive => IsInputCorrect(input, target)
    case FlexibleFirstLetter => IsInputCorrectFlexibleCase(input, target)
  }

  /** The body shared by `areAllWordsCorrect` and `areAllWordsCorrectFlexibleCase`. */
  predicate AllWordsCorrectUnder(p: Policy, tokens: seq<Token>, inputs: seq<string>) {
    var w := WordTokens(tokens);
    && |inputs| == |w|
    && forall k :: 0 <= k < |w| ==> inputs[k] != "" && Matches(p, inputs[k], w[k].value)
  }

  predicate AreAllWordsCorrect(tokens: seq<Token>, inputs: seq<string>) {
    AllWordsCorrectUnder(CaseInsensitive, tokens, inputs)
  }

  predicate AreAllWordsCorrectFlexibleCase(tokens: seq<Token>, inputs: seq<string>) {
    AllWordsCorrectUnder(FlexibleFirstLetter, tokens, inputs)
  }

  /** Both checks reject a wrong input count or any empty input. */
  lemma AllWordsCorrectRejects(p: Policy, tokens: seq<Token>, inputs: seq<string>)
    requires |inputs| != |WordTokens(tokens)| || exists k :: 0 <= k < |inputs| && inputs[k] == ""
    ensures !AllWordsCorrectUnder(p, tokens, inputs)
  {
  }

  /** The flexible check is the stricter of the two. */
  lemma FlexibleAllImpliesInsensitiveAll(tokens: seq<Token>, inputs: seq<string>)
    requires AreAllWordsCorrectFlexibleCase(tokens, inputs)
    ensures AreAllWordsCorrect(tokens, inputs)
  {
  }

  // ---------------------------------------------------------------------
  // compareWords
  // ---------------------------------------------------------------------

  datatype WordComparison = WordComparison(targetWord: string, inputWord: string, isCorrect: bool, tokenIndex: nat)

  /** `wordInputs[k] || ''`. */
  function InputAt(inputs: seq<string>, k: nat): string {
    if k < |inputs| then inputs[k] else ""
  }

  /** `r` is the comparison of word token `w` with `input`, judged by the flexible policy. */
  predicate Compared(r: WordComparison, w: Token, input: string) {
    && r.targetWord == w.value
    && r.tokenIndex == w.index
    && r.inputWord == input
    && (r.isCorrect <==> input != "" && IsInputCorrectFlexibleCase(input, w.value))
  }

  /** One entry of `compareWords`: the word, the input (or ''), and the flexible verdict on a non-empty input. */
  function CompareOne(w: Token, input: string): (r: WordComparison)
    ensures Compared(r, w, input)
  {
    WordComparison(w.value, input, input != "" && IsInputCorrectFlexibleCase(input, w.value), w.index)
  }

  /**
   * `compareWords`: one result per word token, in order, carrying the token's
   * index; a missing or empty input is never correct. All results are correct
   * with a full input array exactly when the flexible all-words check holds.
   */
  method CompareWords(tokens: seq<Token>, inputs: seq<string>) returns (results: seq<WordComparison>)
    ensures |results| == |WordTokens(tokens)|
    ensures forall k :: 0 <= k < |results| ==> Compared(results[k], WordTokens(tokens)[k], InputAt(inputs, k))
    ensures forall k :: 0 <= k < |results| ==> (InputAt(inputs, k) == "" ==> !results[k].isCorrect)
    ensures AreAllWordsCorrectFlexibleCase(tokens, inputs) <==>
      |inputs| == |results| && forall k :: 0 <= k < |results| ==> results[k].isCorrect
  {
    results := CompareEach(WordTokens(tokens), inputs);
    AllComparedCorrect(tokens, inputs, results);
  }

  /** The loop of `compareWords`: word `k` against input `k`, or '' past the end of the inputs. */
  method CompareEach(words: seq<Token>, inputs: seq<string>) returns (results: seq<WordComparison>)
    ensures |results| == |words|
    ensures forall k :: 0 <= k < |results| ==> Compared(results[k], words[k], InputAt(inputs, k))
  {
    results := [];
    var i := 0;
    while i < |words|
      invariant 0 <= i <= |words|
      invariant |results| == i
      invariant forall k :: 0 <= k < i ==> Compared(results[k], words[k], InputAt(inputs, k))
    {
      var c := CompareOne(words[i], InputAt(inputs, i));
      results := results + [c];
      i := i + 1;
    }
  }

  /** Comparisons of every word agree with the flexible all-words check. */
  lemma AllComparedCorrect(tokens: seq<Token>, inputs: seq<string>, results: seq<WordComparison>)
    requires |results| == |WordTokens(tokens)|
    requires forall k :: 0 <= k < |results| ==> Compared(results[k], WordTokens(tokens)[k], InputAt(inputs, k))
    ensures AreAllWordsCorrectFlexibleCase(tokens, inputs) <==>
      |inputs| == |results| && forall k :: 0 <= k < |results| ==> results[k].isCorrect
  {
    if |inputs| == |results| {
      assert forall k :: 0 <= k < |results| ==> InputAt(inputs, k) == inputs[k];
    }
  }

  // ---------------------------------------------------------------------
  // reconstructText
  // ---------------------------------------------------------------------

  function ReconstructFrom(ts: seq<Token>, inputs: seq<string>, k: nat): string
    decreases |ts|
  {
    if |ts| == 0 then ""
    else if ts[0].kind == Word then InputAt(inputs, k) + ReconstructFrom(ts[1..], inputs, k + 1)
    else ts[0].value + ReconstructFrom(ts[1..], inputs, k)
  }

  /** `reconstructText`. */
  function ReconstructText(ts: seq<Token>, inputs: seq<string>): string {
    ReconstructFrom(ts, inputs, 0)
  }

  function ConcatStrings(ps: seq<string>): string {
    if |ps| == 0 then "" else ps[0] + ConcatStrings(ps[1..])
  }

  /** What token `i` contributes: its own value, or the input for its word position. */
  function Piece(ts: seq<Token>, inputs: seq<string>, k: nat, i: nat): string
    requires i < |ts|
  {
    if ts[i].kind == Word then InputAt(inputs, k + WordsBefore(ts, i)) else ts[i].value
  }

  function Pieces(ts: seq<Token>, inputs: seq<string>, k: nat): (r: seq<string>)
    ensures |r| == |ts|
  {
    seq(|ts|, i requires 0 <= i < |ts| => Piece(ts, inputs, k, i))
  }

  lemma WordsBeforeStep(ts: seq<Token>, i: nat)
    requires 0 < |ts| && i < |ts|
    ensures WordsBefore(ts, i + 1) == (if ts[0].kind == Word then 1 else 0) + WordsBefore(ts[1..], i)
  {
    assert ts[..i + 1] == [ts[0]] + ts[1..][..i];
    assert ([ts[0]] + ts[1..][..i])[1..] == ts[1..][..i];
  }

  lemma {:induction false} ReconstructFromPieces(ts: seq<Token>, inputs: seq<string>, k: nat)
    ensures ReconstructFrom(ts, inputs, k) == ConcatStrings(Pieces(ts, inputs, k))
    decreases |ts|
  {
    if |ts| > 0 {
      var k' := if ts[0].kind == Word then k + 1 else k;
      ReconstructFromPieces(ts[1..], inputs, k');
      var p := Pieces(ts, inputs, k);
      var q := Pieces(ts[1..], inputs, k');
      assert p[1..] == q by {
        forall i | 0 <= i < |q|
          ensures p[i + 1] == q[i]
        {
          PieceStep(ts, inputs, k, i);
        }
      }
      assert p[0] == (if ts[0].kind == Word then InputAt(inputs, k) else ts[0].value) by {
        assert WordsBefore(ts, 0) == 0 by { assert ts[..0] == []; }
      }
    }
  }

  /** Dropping the first token shifts the pieces by one, with the word count moved into `k`. */
  lemma PieceStep(ts: seq<Token>, inputs: seq<string>, k: nat, i: nat)
    requires 0 < |ts| && i + 1 < |ts|
    ensures Piece(ts, inputs, k, i + 1) == Piece(ts[1..], inputs, if ts[0].kind == Word then k + 1 else k, i)
  {
    WordsBeforeStep(ts, i);
    assert ts[i + 1] == ts[1..][i];
  }

  /**
   * `reconstructText` keeps every punctuation and space token verbatim and
   * puts the k-th input (or the empty string) where the k-th word token was.
   */
  lemma ReconstructPieces(ts: seq<Token>, inputs: seq<string>)
    ensures ReconstructText(ts, inputs) == ConcatStrings(Pieces(ts, inputs, 0))
    ensures forall i :: 0 <= i < |ts| && ts[i].kind != Word ==> Pieces(ts, inputs, 0)[i] == ts[i].value
    ensures forall i :: 0 <= i < |ts| && ts[i].kind == Word ==>
      Pieces(ts, inputs, 0)[i] == InputAt(inputs, WordsBefore(ts, i))
  {
    ReconstructFromPieces(ts, inputs, 0);
  }

  lemma {:induction false} ReconstructOwnWordsFrom(ts: seq<Token>, pre: seq<string>)
    ensures ReconstructFrom(ts, pre + WordValues(ts), |pre|) == Concat(ts)
    decreases |ts|
  {
    if |ts| > 0 {
      var w := WordValues(ts);
      var tail := WordValues(ts[1..]);
      if ts[0].kind == Word {
        assert WordTokens(ts) == [ts[0]] + WordTokens(ts[1..]);
        assert w == [ts[0].value] + tail;
        assert pre + w == (pre + [ts[0].value]) + tail;
        ReconstructOwnWordsFrom(ts[1..], pre + [ts[0].value]);
      } else {
        assert WordTokens(ts) == WordTokens(ts[1..]);
        assert w == tail;
        ReconstructOwnWordsFrom(ts[1..], pre);
      }
    }
  }

  /** Feeding a line's own words back as the inputs rebuilds the line exactly. */
  lemma ReconstructRoundTrip(text: string)
    ensures var ts := Tokenize(text); ReconstructText(ts, WordValues(ts)) == text
  {
    var ts := Tokenize(text);
    ReconstructOwnWordsFrom(ts, []);
    assert [] + WordValues(ts) == WordValues(ts);
  }
}
