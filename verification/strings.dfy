/**
 * The JavaScript string operations the application uses, on `seq<char>`:
 * `trim`, `indexOf`/`includes`, `split`/`join` with a literal separator,
 * `endsWith`, `padStart(2, '0')` and decimal conversion of natural numbers.
 */
module Strings {
  import opened Base
  import opened Chars

  predicate AllSpace(s: string) {
    forall i :: 0 <= i < |s| ==> IsSpace(s[i])
  }

  // ---------------------------------------------------------------------
  // trim
  // ---------------------------------------------------------------------

  function TrimStart(s: string): (r: string)
    ensures |r| <= |s| && r == s[|s| - |r|..]
    ensures AllSpace(s[..|s| - |r|])
    ensures |r| == 0 || !IsSpace(r[0])
    decreases |s|
  {
    if |s| > 0 && IsSpace(s[0]) then
      var r := TrimStart(s[1..]);
      TrimStartStep(s, r);
      r
    else s
  }

  /** A leading space followed by a trimmed suffix: the suffix is trimmed from the whole. */
  lemma TrimStartStep(s: string, r: string)
    requires |s| > 0 && IsSpace(s[0])
    requires |r| <= |s| - 1 && r == s[1..][|s| - 1 - |r|..] && AllSpace(s[1..][..|s| - 1 - |r|])
    ensures r == s[|s| - |r|..] && AllSpace(s[..|s| - |r|])
  {
    assert s[|s| - |r|..] == s[1..][|s| - 1 - |r|..];
    assert s[..|s| - |r|] == [s[0]] + s[1..][..|s| - 1 - |r|];
  }

  function TrimEnd(s: string): (r: string)
    ensures |r| <= |s| && r == s[..|r|]
    ensures AllSpace(s[|r|..])
    ensures |r| == 0 || !IsSpace(r[|r| - 1])
    decreases |s|
  {
    if |s| > 0 && IsSpace(s[|s| - 1]) then
      var r := TrimEnd(s[..|s| - 1]);
      TrimEndStep(s, r);
      r
    else s
  }

  /** A trimmed prefix of all but a trailing space: the prefix is trimmed from the whole. */
  lemma TrimEndStep(s: string, r: string)
    requires |s| > 0 && IsSpace(s[|s| - 1])
    requires |r| <= |s| - 1 && r == s[..|s| - 1][..|r|] && AllSpace(s[..|s| - 1][|r|..])
    ensures r == s[..|r|] && AllSpace(s[|r|..])
  {
    assert forall i :: |r| <= i < |s| - 1 ==> s[i] == s[..|s| - 1][|r|..][i - |r|];
  }

  /** `r` is `s` with some all-space prefix and suffix removed. */
  predicate TrimmedFrom(s: string, r: string, start: nat) {
    && start + |r| <= |s|
    && r == s[start..start + |r|]
    && AllSpace(s[..start])
    && AllSpace(s[start + |r|..])
  }

  /** JavaScript `String.prototype.trim`. */
  function Trim(s: string): (r: string)
    ensures |r| == 0 || (!IsSpace(r[0]) && !IsSpace(r[|r| - 1]))
    ensures TrimmedFrom(s, r, |s| - |TrimStart(s)|)
  {
    var a := TrimStart(s);
    var r := TrimEnd(a);
    TrimComposes(s, a, r);
    r
  }

  lemma TrimComposes(s: string, a: string, r: string)
    requires |a| <= |s| && a == s[|s| - |a|..] && AllSpace(s[..|s| - |a|])
    requires |r| <= |a| && r == a[..|r|] && AllSpace(a[|r|..])
    requires |a| == 0 || !IsSpace(a[0])
    requires |r| == 0 || !IsSpace(r[|r| - 1])
    ensures TrimmedFrom(s, r, |s| - |a|)
    ensures |r| == 0 || (!IsSpace(r[0]) && !IsSpace(r[|r| - 1]))
  {
    if |r| > 0 {
      assert r[0] == a[0];
    }
    var start := |s| - |a|;
    assert s[start..start + |r|] == a[..|r|];
    assert s[start + |r|..] == a[|r|..];
  }

  lemma TrimNoEdgeSpace(s: string)
    requires |s| == 0 || (!IsSpace(s[0]) && !IsSpace(s[|s| - 1]))
    ensures Trim(s) == s
  {
  }

  lemma TrimIdempotent(s: string)
    ensures Trim(Trim(s)) == Trim(s)
  {
    TrimNoEdgeSpace(Trim(s));
  }

  lemma TrimAllSpace(s: string)
    requires AllSpace(s)
    ensures Trim(s) == ""
  {
  }

  lemma {:induction false} TrimStartSkips(l: string, a: string)
    requires AllSpace(l) && |a| > 0 && !IsSpace(a[0])
    ensures TrimStart(l + a) == a
    decreases |l|
  {
    if |l| > 0 {
      assert (l + a)[1..] == l[1..] + a;
      TrimStartSkips(l[1..], a);
    } else {
      assert l + a == a;
    }
  }

  lemma {:induction false} TrimEndSkips(a: string, r: string)
    requires AllSpace(r) && |a| > 0 && !IsSpace(a[|a| - 1])
    ensures TrimEnd(a + r) == a
    decreases |r|
  {
    if |r| > 0 {
      assert (a + r)[..|a + r| - 1] == a + r[..|r| - 1];
      TrimEndSkips(a, r[..|r| - 1]);
    } else {
      assert a + r == a;
    }
  }

  /** Trimming removes exactly the whitespace padding around a text with non-space edges. */
  lemma TrimPadded(l: string, a: string, r: string)
    requires AllSpace(l) && AllSpace(r)
    requires |a| > 0 && !IsSpace(a[0]) && !IsSpace(a[|a| - 1])
    ensures Trim(l + a + r) == a
  {
    assert l + a + r == l + (a + r);
    TrimStartSkips(l, a + r);
    TrimEndSkips(a, r);
  }

  // ---------------------------------------------------------------------
  // indexOf / includes / endsWith
  // ---------------------------------------------------------------------

  predicate OccursAt(s: string, sub: string, i: nat) {
    i + |sub| <= |s| && s[i..i + |sub|] == sub
  }

  /** An occurrence fixes the characters it covers. */
  lemma OccursChars(s: string, sub: string, i: nat)
    ensures OccursAt(s, sub, i) ==> forall k :: 0 <= k < |sub| ==> s[i + k] == sub[k]
  {
    if OccursAt(s, sub, i) {
      forall k | 0 <= k < |sub|
        ensures s[i + k] == sub[k]
      {
        assert s[i..i + |sub|][k] == s[i + k];
      }
    }
  }

  /** First position of `sub` in `s`, as `indexOf` (with `None` for -1). */
  function IndexOf(s: string, sub: string): (r: Option<nat>)
    requires |sub| > 0
    ensures r.Some? ==> OccursAt(s, sub, r.value)
    ensures r.Some? ==> forall j: nat :: j < r.value ==> !OccursAt(s, sub, j)
    ensures r.None? ==> forall j: nat :: !OccursAt(s, sub, j)
    decreases |s|
  {
    if |s| < |sub| then None
    else if s[..|sub|] == sub then Some(0)
    else
      match IndexOf(s[1..], sub)
      case None =>
        assert forall j: nat :: 1 <= j ==> (OccursAt(s, sub, j) ==> OccursAt(s[1..], sub, j - 1));
        None
      case Some(k) =>
        assert s[1..][k..k + |sub|] == s[k + 1..k + 1 + |sub|];
        assert forall j: nat :: 1 <= j <= k ==> (OccursAt(s, sub, j) ==> OccursAt(s[1..], sub, j - 1));
        Some(k + 1)
  }

  /** `s.includes(sub)`: `sub` occurs somewhere in `s` (the empty text occurs everywhere). */
  predicate Contains(s: string, sub: string) {
    exists i: nat :: i <= |s| && OccursAt(s, sub, i)
  }

  predicate StartsWith(s: string, prefix: string) {
    |prefix| <= |s| && s[..|prefix|] == prefix
  }

  predicate EndsWith(s: string, suffix: string) {
    |suffix| <= |s| && s[|s| - |suffix|..] == suffix
  }

  /** For a one-character needle, `indexOf` finds exactly the first such character. */
  lemma IndexOfChar(s: string, c: char)
    ensures IndexOf(s, [c]).None? <==> c !in s
    ensures IndexOf(s, [c]).Some? ==> s[IndexOf(s, [c]).value] == c
  {
    if c in s {
      var i :| 0 <= i < |s| && s[i] == c;
      assert OccursAt(s, [c], i);
    }
    if IndexOf(s, [c]).Some? {
      var k := IndexOf(s, [c]).value;
      assert s[k..k + 1] == [c];
      assert s[k] == s[k..k + 1][0];
    }
  }

  // ---------------------------------------------------------------------
  // split / join with a literal separator
  // ---------------------------------------------------------------------

  /** `s.split(sep)` for a non-empty literal separator. */
  function Split(s: string, sep: string): (r: seq<string>)
    requires |sep| > 0
    ensures |r| >= 1
    decreases |s|
  {
    match IndexOf(s, sep)
    case None => [s]
    case Some(i) => [s[..i]] + Split(s[i + |sep|..], sep)
  }

  /** No part of a split contains the separator. */
  lemma {:induction false} SplitPartsLack(s: string, sep: string)
    requires |sep| > 0
    ensures forall k :: 0 <= k < |Split(s, sep)| ==> !Contains(Split(s, sep)[k], sep)
    decreases |s|
  {
    match IndexOf(s, sep)
    case None =>
    case Some(i) =>
      var head := s[..i];
      var rest := Split(s[i + |sep|..], sep);
      SplitPartsLack(s[i + |sep|..], sep);
      assert !Contains(head, sep) by {
        if IndexOf(head, sep).Some? {
          PrefixOccurs(s, i, sep, IndexOf(head, sep).value);
        }
      }
      assert Split(s, sep) == [head] + rest;
      forall k | 0 <= k < |Split(s, sep)|
        ensures !Contains(Split(s, sep)[k], sep)
      {
        if k > 0 {
          assert Split(s, sep)[k] == rest[k - 1];
        }
      }
  }

  /** An occurrence inside a prefix is an occurrence in the whole text, before the prefix ends. */
  lemma PrefixOccurs(s: string, i: nat, sep: string, j: nat)
    requires i <= |s| && |sep| > 0 && OccursAt(s[..i], sep, j)
    ensures OccursAt(s, sep, j) && j < i
  {
    assert s[..i][j..j + |sep|] == s[j..j + |sep|];
  }

  /** Splitting at the first occurrence of the separator. */
  lemma SplitAt(s: string, sep: string, i: nat)
    requires |sep| > 0 && OccursAt(s, sep, i)
    requires forall j: nat :: j < i ==> !OccursAt(s, sep, j)
    ensures Split(s, sep) == [s[..i]] + Split(s[i + |sep|..], sep)
  {
    match IndexOf(s, sep)
    case None =>
    case Some(k) =>
  }

  /** A text without the separator splits into itself alone. */
  lemma SplitNone(s: string, sep: string)
    requires |sep| > 0 && forall j: nat :: !OccursAt(s, sep, j)
    ensures Split(s, sep) == [s]
  {
  }

  /** A separator whose first character occurs in neither side splits them apart. */
  lemma SplitTwo(l: string, sep: string, r: string)
    requires |sep| > 0 && sep[0] !in l && sep[0] !in r
    ensures Split(l + sep + r, sep) == [l, r]
  {
    var s := l + sep + r;
    assert Split(s, sep) == [l] + Split(r, sep) by {
      assert OccursAt(s, sep, |l|) by {
        assert s[|l|..|l| + |sep|] == sep;
      }
      forall j: nat | j < |l|
        ensures !OccursAt(s, sep, j)
      {
        assert s[j] == l[j];
        OccursChars(s, sep, j);
      }
      SplitAt(s, sep, |l|);
      assert s[..|l|] == l;
      assert s[|l| + |sep|..] == r;
    }
    forall j: nat
      ensures !OccursAt(r, sep, j)
    {
      OccursChars(r, sep, j);
    }
    SplitNone(r, sep);
  }

  /** A text containing the separator splits into at least two parts. */
  lemma SplitContains(s: string, sep: string)
    requires |sep| > 0 && Contains(s, sep)
    ensures |Split(s, sep)| >= 2
  {
  }

  /** `parts.join(sep)`. */
  function Join(parts: seq<string>, sep: string): string {
    if |parts| == 0 then ""
    else if |parts| == 1 then parts[0]
    else parts[0] + sep + Join(parts[1..], sep)
  }

  /** Splitting and re-joining with the same separator gives back the input. */
  lemma {:induction false} JoinSplit(s: string, sep: string)
    requires |sep| > 0
    ensures Join(Split(s, sep), sep) == s
    decreases |s|
  {
    match IndexOf(s, sep)
    case None =>
    case Some(i) =>
      var rest := s[i + |sep|..];
      var tail := Split(rest, sep);
      JoinSplit(rest, sep);
      assert Split(s, sep) == [s[..i]] + tail;
      assert ([s[..i]] + tail)[1..] == tail;
      assert Join([s[..i]] + tail, sep) == s[..i] + sep + Join(tail, sep);
      assert s == s[..i] + s[i..i + |sep|] + rest;
  }

  /**
   * For a one-character separator that no part contains, joining and then
   * splitting gives back the parts.
   */
  lemma {:induction false} SplitJoin(parts: seq<string>, sep: string)
    requires |sep| == 1 && |parts| >= 1
    requires forall k :: 0 <= k < |parts| ==> sep[0] !in parts[k]
    ensures Split(Join(parts, sep), sep) == parts
    decreases |parts|
  {
    assert sep == [sep[0]];
    if |parts| == 1 {
      IndexOfChar(parts[0], sep[0]);
    } else {
      var s := Join(parts, sep);
      var h := parts[0];
      assert s == h + sep + Join(parts[1..], sep);
      assert OccursAt(s, sep, |h|);
      forall j: nat | j < |h|
        ensures !OccursAt(s, sep, j)
      {
        assert s[j] == h[j];
      }
      assert IndexOf(s, sep) == Some(|h|);
      assert s[|h| + 1..] == Join(parts[1..], sep);
      SplitJoin(parts[1..], sep);
      assert s[..|h|] == h;
    }
  }

  /**
   * Joining and then splitting gives back the parts whenever the separator
   * first occurs, in each part followed by the separator, right after the part.
   */
  lemma {:induction false} SplitJoinGeneral(parts: seq<string>, sep: string)
    requires |sep| > 0 && |parts| >= 1
    requires forall k :: 0 <= k < |parts| - 1 ==>
      forall j: nat :: j < |parts[k]| ==> !OccursAt(parts[k] + sep, sep, j)
    requires var last := parts[|parts| - 1]; forall j: nat :: !OccursAt(last, sep, j)
    ensures Split(Join(parts, sep), sep) == parts
    decreases |parts|
  {
    if |parts| == 1 {
      SplitNone(parts[0], sep);
    } else {
      var h := parts[0];
      var rest := Join(parts[1..], sep);
      var s := Join(parts, sep);
      assert s == h + sep + rest;
      assert OccursAt(s, sep, |h|) by {
        assert s[|h|..|h| + |sep|] == sep;
      }
      forall j: nat | j < |h|
        ensures !OccursAt(s, sep, j)
      {
        assert !OccursAt(parts[0] + sep, sep, j);
        assert (h + sep)[j..j + |sep|] == s[j..j + |sep|];
      }
      SplitAt(s, sep, |h|);
      assert s[..|h|] == h;
      assert s[|h| + |sep|..] == rest;
      SplitJoinGeneral(parts[1..], sep);
    }
  }

  /** A character absent from every part and from the separator is absent from the join. */
  lemma {:induction false} JoinAvoids(parts: seq<string>, sep: string, c: char)
    requires c !in sep
    requires forall k :: 0 <= k < |parts| ==> c !in parts[k]
    ensures c !in Join(parts, sep)
    decreases |parts|
  {
    if |parts| > 1 {
      JoinAvoids(parts[1..], sep, c);
    }
  }

  /** A part that lacks a one-character separator lacks that character. */
  lemma SplitPartsAvoid(s: string, c: char)
    ensures forall k :: 0 <= k < |Split(s, [c])| ==> c !in Split(s, [c])[k]
  {
    var r := Split(s, [c]);
    SplitPartsLack(s, [c]);
    forall k | 0 <= k < |r|
      ensures c !in r[k]
    {
      IndexOfChar(r[k], c);
    }
  }

  /** JavaScript `s.replace(/pat/g, rep)` for a literal pattern. */
  function ReplaceAll(s: string, pat: string, rep: string): string
    requires |pat| > 0
  {
    Join(Split(s, pat), rep)
  }

  // ---------------------------------------------------------------------
  // split(/\s+/)
  // ---------------------------------------------------------------------

  predicate NotSpace(c: char) {
    !IsSpace(c)
  }

  predicate NoSpace(s: string) {
    forall i :: 0 <= i < |s| ==> !IsSpace(s[i])
  }

  /**
   * `s.split(/\s+/)`: the pieces between maximal whitespace runs (an empty
   * string gives one empty piece).
   */
  function SplitSpaces(s: string): (r: seq<string>)
    ensures |r| >= 1
    ensures forall k :: 0 <= k < |r| ==> NoSpace(r[k])
    decreases |s|
  {
    match FindFirst(s, IsSpace)
    case None => [s]
    case Some(i) =>
      var run := FindFirst(s[i..], NotSpace).GetOr(|s| - i);
      [s[..i]] + SplitSpaces(s[i + run..])
  }

  /** The first whitespace of `w + " " + rest` is the separator when `w` has none. */
  lemma FirstSpaceAfter(w: string, rest: string)
    requires NoSpace(w)
    ensures FindFirst(w + " " + rest, IsSpace) == Some(|w|)
  {
    var s := w + " " + rest;
    assert IsSpace(s[|w|]);
    assert forall j :: 0 <= j < |w| ==> s[j] == w[j];
  }

  /** A single space before a non-space character is a run of length one. */
  lemma SingleSpaceRun(rest: string)
    requires |rest| > 0 && !IsSpace(rest[0])
    ensures FindFirst(" " + rest, NotSpace) == Some(1)
  {
    assert (" " + rest)[1] == rest[0];
  }

  /** Every word is non-empty and free of whitespace. */
  predicate SpaceFreeWords(words: seq<string>) {
    forall k :: 0 <= k < |words| ==> |words[k]| > 0 && NoSpace(words[k])
  }

  /** Non-empty words without whitespace, joined, start with a non-space character. */
  lemma JoinedWordsStart(words: seq<string>)
    requires |words| >= 1
    requires SpaceFreeWords(words)
    ensures |Join(words, " ")| > 0 && !IsSpace(Join(words, " ")[0])
  {
    if |words| > 1 {
      assert Join(words, " ") == words[0] + " " + Join(words[1..], " ");
    }
  }

  /** Words without whitespace, joined by single spaces, split back into the same words. */
  lemma {:induction false} SplitSpacesJoin(words: seq<string>)
    requires |words| >= 1
    requires SpaceFreeWords(words)
    ensures SplitSpaces(Join(words, " ")) == words
    decreases |words|
  {
    if |words| == 1 {
      assert FindFirst(Join(words, " "), IsSpace).None?;
    } else {
      SpaceFreeTail(words);
      SplitSpacesJoin(words[1..]);
      SplitSpacesJoinStep(words);
      assert [words[0]] + words[1..] == words;
    }
  }

  /** The first word comes off the joined text, leaving the join of the others. */
  lemma SplitSpacesJoinStep(words: seq<string>)
    requires |words| >= 2 && SpaceFreeWords(words)
    ensures SplitSpaces(Join(words, " ")) == [words[0]] + SplitSpaces(Join(words[1..], " "))
  {
    JoinCons(words, " ");
    SpaceFreeTail(words);
    JoinedWordsStart(words[1..]);
    SplitSpacesStep(words[0], Join(words[1..], " "));
  }

  lemma JoinCons(parts: seq<string>, sep: string)
    requires |parts| >= 2
    ensures Join(parts, sep) == parts[0] + sep + Join(parts[1..], sep)
  {
  }

  lemma SpaceFreeTail(words: seq<string>)
    requires |words| >= 1
    requires SpaceFreeWords(words)
    ensures NoSpace(words[0])
    ensures SpaceFreeWords(words[1..])
  {
    assert forall k :: 0 <= k < |words[1..]| ==> words[1..][k] == words[k + 1];
  }

  /** A word, one space, and text starting with a non-space character: the word is the first piece. */
  lemma SplitSpacesStep(w: string, rest: string)
    requires NoSpace(w) && |rest| > 0 && !IsSpace(rest[0])
    ensures SplitSpaces(w + " " + rest) == [w] + SplitSpaces(rest)
  {
    SeparatedSlices(w, rest);
    FirstSpaceAfter(w, rest);
    SingleSpaceRun(rest);
  }

  lemma SeparatedSlices(w: string, rest: string)
    ensures var s := w + " " + rest;
      s[..|w|] == w && s[|w|..] == " " + rest && s[|w| + 1..] == rest
  {
  }

  // ---------------------------------------------------------------------
  // decimal numbers
  // ---------------------------------------------------------------------

  predicate AllDigits(s: string) {
    forall i :: 0 <= i < |s| ==> IsDigit(s[i])
  }

  /** The value of a decimal digit string (leading zeros allowed). */
  function DigitsValue(s: string): nat
    requires AllDigits(s)
  {
    if |s| == 0 then 0
    else DigitsValue(s[..|s| - 1]) * 10 + (s[|s| - 1] as int - '0' as int)
  }

  /** Leading zeros do not change a digit string's value. */
  lemma {:induction false} DigitsValueLeadingZero(s: string)
    requires AllDigits(s)
    ensures AllDigits("0" + s) && DigitsValue("0" + s) == DigitsValue(s)
    decreases |s|
  {
    if |s| > 0 {
      var t := "0" + s;
      assert t[..|t| - 1] == "0" + s[..|s| - 1];
      DigitsValueLeadingZero(s[..|s| - 1]);
    } else {
      assert DigitsValue("0") == 0;
    }
  }

  function DigitChar(d: nat): (c: char)
    requires d < 10
    ensures IsDigit(c) && c as int - '0' as int == d
  {
    ('0' as int + d) as char
  }

  /** `n.toString()`: the canonical decimal rendering of a natural number. */
  function NatToString(n: nat): (r: string)
    ensures |r| >= 1 && AllDigits(r)
    ensures DigitsValue(r) == n
    ensures |r| > 1 ==> r[0] != '0'
  {
    if n < 10 then [DigitChar(n)]
    else
      var h := NatToString(n / 10);
      var r := h + [DigitChar(n % 10)];
      assert r[..|r| - 1] == h;
      r
  }

  /** `s.padStart(2, '0')`. */
  function PadTwo(s: string): (r: string)
    ensures |r| == if |s| >= 2 then |s| else 2
    ensures EndsWith(r, s)
    ensures forall i :: 0 <= i < |r| - |s| ==> r[i] == '0'
  {
    if |s| >= 2 then s else if |s| == 1 then "0" + s else "00"
  }

  /** `c.repeat(n)` for a one-character string. */
  function Repeat(c: char, n: nat): (r: string)
    ensures |r| == n
    ensures forall i :: 0 <= i < n ==> r[i] == c
  {
    seq(n, _ => c)
  }
}
