/**
 * The answer panel: one input box per word of the target line, typing with
 * auto-completion, pasting a whole sentence, submitting, and the
 * per-character comparison shown as feedback.
 */
module Answer {
  import opened Base
  import opened Chars
  import opened Strings
  import opened Tokenizer
  import opened Practice

  /** The word tokens of a target line, one per input box. */
  function Words(target: string): seq<Token> {
    WordTokens(Tokenize(target))
  }

  /**
   * The boxes when the mode changes: entering INPUT resets them to one
   * empty box per word of the target; any other mode keeps them.
   */
  function Enter(mode: Mode, target: string, inputs: seq<string>): (r: seq<string>)
    ensures mode == Input ==> |r| == |Words(target)| && forall i :: 0 <= i < |r| ==> r[i] == ""
    ensures mode != Input ==> r == inputs
  {
    if mode == Input then seq(|Words(target)|, _ => "") else inputs
  }

  /**
   * Write `value` into box `index`. A position past the end grows the
   * boxes, the skipped positions reading as empty (how `join` sees the
   * holes of a JavaScript array).
   */
  function SetInput(inputs: seq<string>, index: nat, value: string): (r: seq<string>)
    ensures |r| == Max(|inputs|, index + 1)
    ensures r[index] == value
    ensures forall i :: 0 <= i < |r| && i != index ==> r[i] == (if i < |inputs| then inputs[i] else "")
  {
    if index < |inputs| then inputs[index := value]
    else inputs + seq(index - |inputs|, _ => "") + [value]
  }

  /** New boxes, and whether the line is auto-completed (replayed with auto-advance armed). */
  datatype Change = Change(inputs: seq<string>, autoComplete: bool)

  /**
   * Typing into a box: only that box changes; the answer auto-completes
   * exactly when the box is the last word's, its content matches that word,
   * and every box now matches its word.
   */
  function InputChange(target: string, inputs: seq<string>, index: nat, value: string): (r: Change)
    ensures r.inputs == SetInput(inputs, index, value)
    ensures r.autoComplete <==>
      && index == |Words(target)| - 1
      && IsInputCorrect(value, Words(target)[index].value)
      && AreAllWordsCorrect(Tokenize(target), r.inputs)
  {
    var w := Words(target);
    var next := SetInput(inputs, index, value);
    var complete := index < |w| && IsInputCorrect(value, w[index].value)
                    && index >= |w| - 1 && AreAllWordsCorrect(Tokenize(target), next);
    Change(next, complete)
  }

  /**
   * Typing every word exactly as it appears in the line auto-completes the
   * line at the keystroke that fills the last box.
   */
  lemma ExactTypingCompletes(target: string, inputs: seq<string>, value: string)
    requires |Words(target)| >= 1 && |inputs| == |Words(target)|
    requires forall k :: 0 <= k < |inputs| - 1 ==> inputs[k] == Words(target)[k].value && inputs[k] != ""
    requires value == Words(target)[|inputs| - 1].value && value != ""
    ensures InputChange(target, inputs, |inputs| - 1, value).autoComplete
  {
    var next := SetInput(inputs, |inputs| - 1, value);
    assert AreAllWordsCorrect(Tokenize(target), next) by {
      assert next == inputs[|inputs| - 1 := value];
      ExactBoxes(WordTokens(Tokenize(target)), inputs, value);
    }
    assert IsInputCorrect(value, Words(target)[|inputs| - 1].value) by {
      MatchesSelf(value);
    }
  }

  /** Boxes holding exactly the words, none empty, match them all. */
  lemma ExactBoxes(w: seq<Token>, inputs: seq<string>, value: string)
    requires |w| >= 1 && |inputs| == |w|
    requires forall k :: 0 <= k < |inputs| - 1 ==> inputs[k] == w[k].value && inputs[k] != ""
    requires value == w[|inputs| - 1].value && value != ""
    ensures forall k :: 0 <= k < |w| ==>
      inputs[|w| - 1 := value][k] != "" && Matches(CaseInsensitive, inputs[|w| - 1 := value][k], w[k].value)
  {
    var next := inputs[|w| - 1 := value];
    forall k | 0 <= k < |w|
      ensures next[k] != "" && Matches(CaseInsensitive, next[k], w[k].value)
    {
      assert next[k] == w[k].value;
      MatchesSelf(next[k]);
    }
  }

  lemma MatchesSelf(x: string)
    ensures Matches(CaseInsensitive, x, x)
  {
  }

  /**
   * Pasting a sentence: its whitespace-separated words overwrite the first
   * boxes, as many as there are both words and word tokens; the other
   * boxes keep their contents.
   */
  method Paste(inputs: seq<string>, pasted: string, wordCount: nat) returns (r: seq<string>)
    ensures var words := SplitSpaces(Trim(pasted));
      && |r| == |inputs|
      && forall i :: 0 <= i < |r| ==> r[i] == (if i < Min(|words|, wordCount) then words[i] else inputs[i])
  {
    var words := SplitSpaces(Trim(pasted));
    var limit := Min(|words|, wordCount);
    r := inputs;
    var i := 0;
    while i < limit
      invariant 0 <= i <= limit
      invariant |r| == |inputs|
      invariant forall j :: 0 <= j < |r| ==> r[j] == (if j < i then words[j] else inputs[j])
    {
      if i < |r| {
        r := r[i := words[i]];
      }
      i := i + 1;
    }
  }

  /**
   * Pasted words come back as they were typed: single-spaced words without
   * whitespace split into exactly those words, and a blank clipboard into
   * one empty word (so pasting blanks clears the first box).
   */
  lemma PastedWords(words: seq<string>, blank: string)
    requires |words| >= 1
    requires SpaceFreeWords(words)
    requires AllSpace(blank)
    ensures SplitSpaces(Trim(Join(words, " "))) == words
    ensures SplitSpaces(Trim(blank)) == [""]
  {
    var s := Join(words, " ");
    JoinedWordsStart(words);
    JoinedWordsEnd(words);
    TrimNoEdgeSpace(s);
    SplitSpacesJoin(words);
    TrimAllSpace(blank);
    assert FindFirst("", IsSpace).None?;
  }

  /** Non-empty words without whitespace, joined, end with a non-space character. */
  lemma {:induction false} JoinedWordsEnd(words: seq<string>)
    requires |words| >= 1
    requires SpaceFreeWords(words)
    ensures |Join(words, " ")| > 0 && !IsSpace(Join(words, " ")[|Join(words, " ")| - 1])
    decreases |words|
  {
    if |words| > 1 {
      var rest := Join(words[1..], " ");
      assert Join(words, " ") == words[0] + " " + rest;
      JoinedWordsEnd(words[1..]);
    }
  }

  /** What the learner typed, as one sentence. */
  function Answer(inputs: seq<string>): string {
    Join(inputs, " ")
  }

  /**
   * Submitting: only in INPUT and only with a non-blank answer is a verdict
   * given, and it is "correct" iff the trimmed answer equals the trimmed
   * target after lowercasing.
   */
  function Submit(mode: Mode, inputs: seq<string>, target: string): (r: Option<bool>)
    ensures r.Some? <==> mode == Input && Trim(Answer(inputs)) != ""
    ensures r.Some? ==> (r.value <==> LowerStr(Trim(Answer(inputs))) == LowerStr(Trim(target)))
  {
    var full := Trim(Answer(inputs));
    if mode == Input && |full| > 0 then Some(LowerStr(full) == LowerStr(Trim(target))) else None
  }

  /** The submit control is disabled while every box is empty. */
  predicate SubmitDisabled(inputs: seq<string>) {
    forall i :: 0 <= i < |inputs| ==> inputs[i] == ""
  }

  /** Empty boxes joined by spaces are all whitespace. */
  lemma {:induction false} EmptyBoxesBlank(inputs: seq<string>)
    requires SubmitDisabled(inputs)
    ensures AllSpace(Answer(inputs))
    decreases |inputs|
  {
    if |inputs| > 1 {
      EmptyBoxesBlank(inputs[1..]);
      assert Answer(inputs) == inputs[0] + " " + Answer(inputs[1..]);
    }
  }

  /** While the control is disabled, submitting yields no verdict. */
  lemma DisabledSubmitsNothing(mode: Mode, inputs: seq<string>, target: string)
    requires SubmitDisabled(inputs)
    ensures Submit(mode, inputs, target).None?
  {
    EmptyBoxesBlank(inputs);
    TrimAllSpace(Answer(inputs));
  }

  /** Typing the target itself into one box is judged correct, whatever its case. */
  lemma SubmitTargetCorrect(target: string)
    requires Trim(target) != ""
    ensures Submit(Input, [target], LowerStr(target)) == Some(true)
  {
    assert Answer([target]) == target;
    TrimLower(target);
    LowerTwice(Trim(target));
  }

  /** Lowercasing commutes with trimming, since it keeps whitespace as it is. */
  lemma TrimLower(s: string)
    ensures Trim(LowerStr(s)) == LowerStr(Trim(s))
  {
    TrimStartLower(s);
    TrimEndLower(TrimStart(s));
  }

  lemma {:induction false} TrimStartLower(s: string)
    ensures TrimStart(LowerStr(s)) == LowerStr(TrimStart(s))
    decreases |s|
  {
    if |s| > 0 {
      assert LowerStr(s)[1..] == LowerStr(s[1..]);
      TrimStartLower(s[1..]);
    }
  }

  lemma {:induction false} TrimEndLower(s: string)
    ensures TrimEnd(LowerStr(s)) == LowerStr(TrimEnd(s))
    decreases |s|
  {
    if |s| > 0 {
      assert LowerStr(s)[..|s| - 1] == LowerStr(s[..|s| - 1]);
      TrimEndLower(s[..|s| - 1]);
    }
  }

  lemma LowerTwice(s: string)
    ensures LowerStr(LowerStr(s)) == LowerStr(s)
  {
  }

  /** The colour of each typed character: right iff the target has the same character there, ignoring case. */
  function Diff(typed: string, target: string): (r: seq<bool>)
    ensures |r| == |typed|
    ensures forall i :: 0 <= i < |typed| ==>
      (r[i] <==> i < |target| && Lower(typed[i]) == Lower(target[i]))
  {
    seq(|typed|, i requires 0 <= i < |typed| => i < |target| && Lower(typed[i]) == Lower(target[i]))
  }

  /** The feedback view compares the space-joined boxes with the target. */
  function Feedback(inputs: seq<string>, target: string): seq<bool> {
    Diff(Answer(inputs), target)
  }

  /**
   * An answer is shown all green exactly when it is, ignoring case, a
   * prefix of the target.
   */
  lemma DiffAllRight(typed: string, target: string)
    ensures (forall i :: 0 <= i < |typed| ==> Diff(typed, target)[i])
        <==> |typed| <= |target| && LowerStr(typed) == LowerStr(target[..|typed|])
  {
    var d := Diff(typed, target);
    if |typed| > |target| {
      assert !d[|target|];
    } else {
      var u := target[..|typed|];
      assert forall i :: 0 <= i < |typed| ==> (d[i] <==> LowerStr(typed)[i] == LowerStr(u)[i]);
    }
  }
}
