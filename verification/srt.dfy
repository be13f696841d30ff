/**
 * The best-effort SRT parser of utils/srtParser.ts, with times in integer
 * milliseconds.
 *
 * The data is normalised to `\n` line endings and split into blocks at blank
 * lines. In each block the timing line is the first line containing `-->`;
 * the caption is the lines after it, joined with spaces, with `<...>` tags
 * removed and trimmed. Blocks without a timing line, without caption text or
 * with an unreadable time are dropped; the surviving captions are numbered
 * from 1.
 */
module Srt {
  import opened Base
  import opened Chars
  import opened Strings

  /** A caption line (`Subtitle` in types.ts), times in milliseconds. */
  datatype Subtitle = Subtitle(id: nat, startTime: int, endTime: int, text: string)

  /** What one block yields before it is numbered. */
  datatype Cue = Cue(startTime: int, endTime: int, text: string)

  // ---------------------------------------------------------------------
  // timeToSeconds
  // ---------------------------------------------------------------------

  /**
   * JavaScript `Number(s)` restricted to what an SRT timestamp field holds:
   * after trimming, the empty string is 0 and a digit string is its value.
   * `None` stands for NaN.
   */
  function NumberValue(s: string): (r: Option<nat>)
  {
    var t := Trim(s);
    if t == "" then Some(0)
    else if AllDigits(t) then Some(DigitsValue(t))
    else None
  }

  /** A non-empty digit string is its decimal value. */
  lemma NumberValueDigits(s: string)
    requires |s| >= 1 && AllDigits(s)
    ensures NumberValue(s) == Some(DigitsValue(s))
  {
    assert IsDigit(s[0]) && IsDigit(s[|s| - 1]);
    TrimNoEdgeSpace(s);
    assert Trim(s) == s;
  }

  /** Blank input is 0, as `Number('')` and `Number('  ')` are. */
  lemma NumberValueBlank(s: string)
    requires AllSpace(s)
    ensures NumberValue(s) == Some(0)
  {
    TrimAllSpace(s);
  }

  /** Surrounding whitespace is ignored. */
  lemma NumberValuePadded(l: string, s: string, r: string)
    requires AllSpace(l) && AllSpace(r) && |s| >= 1 && AllDigits(s)
    ensures NumberValue(l + s + r) == Some(DigitsValue(s))
  {
    assert IsDigit(s[0]) && IsDigit(s[|s| - 1]);
    TrimPadded(l, s, r);
  }

  /** A character that is neither a digit nor whitespace makes the value NaN. */
  lemma NumberValueRejects(s: string, i: nat)
    requires i < |s| && !IsDigit(s[i]) && !IsSpace(s[i])
    ensures NumberValue(s) == None
  {
    var t := Trim(s);
    var start := |s| - |TrimStart(s)|;
    assert TrimmedFrom(s, t, start);
    if start <= i < start + |t| {
      assert t[i - start] == s[i];
    }
  }

  /**
   * The clock fields `H`, `M`, `S` and the millisecond field, read as
   * H·3600000 + M·60000 + S·1000 + ms. A missing field (`undefined`) or an
   * unreadable one makes the result NaN (`None`).
   */
  function ClockMs(hms: seq<string>, msField: Option<string>): (r: Option<int>)
    ensures r.Some? ==> r.value >= 0 && |hms| >= 3 && msField.Some?
  {
    if msField.None? || |hms| < 3 then None
    else
      var h := NumberValue(hms[0]);
      var m := NumberValue(hms[1]);
      var s := NumberValue(hms[2]);
      var ms := NumberValue(msField.value);
      if h.Some? && m.Some? && s.Some? && ms.Some? then
        Some(h.value * 3600000 + m.value * 60000 + s.value * 1000 + ms.value)
      else None
  }

  /**
   * `timeToSeconds` in milliseconds: the string is split at `,` into the
   * clock part and the milliseconds, and the clock part at `:`; fields
   * beyond the third `:` part and the second `,` part are ignored.
   */
  function TimeToMs(ts: string): (r: Option<int>)
    ensures r.Some? ==> r.value >= 0
    ensures r.Some? ==> |Split(ts, ",")| >= 2 && |Split(Split(ts, ",")[0], ":")| >= 3
  {
    var commaParts := Split(ts, ",");
    ClockMs(Split(commaParts[0], ":"), if |commaParts| >= 2 then Some(commaParts[1]) else None)
  }

  // ---------------------------------------------------------------------
  // Tag removal
  // ---------------------------------------------------------------------

  /** No `<` is followed, anywhere later, by a `>`: no `<...>` tag is left. */
  predicate NoTag(s: string) {
    forall i, j :: 0 <= i < j < |s| && s[i] == '<' ==> s[j] != '>'
  }

  /** `s.replace(/<[^>]*>/g, '')`: each `<` up to the next `>` is removed. */
  function StripTags(s: string): (r: string)
    ensures NoTag(r)
    ensures |r| <= |s|
    ensures forall k :: 0 <= k < |r| ==> r[k] in s
    decreases |s|
  {
    if |s| == 0 then ""
    else if s[0] == '<' then
      match IndexOf(s, ">")
      case Some(j) =>
        var rest := s[j + 1..];
        var r := StripTags(rest);
        assert forall k :: 0 <= k < |r| ==> r[k] in s by {
          assert forall c :: c in rest ==> c in s;
        }
        r
      case None =>
        IndexOfChar(s, '>');
        var tail := StripTags(s[1..]);
        var r := [s[0]] + tail;
        assert forall k :: 0 <= k < |tail| ==> tail[k] in s[1..] && tail[k] != '>';
        r
    else
      var tail := StripTags(s[1..]);
      [s[0]] + tail
  }

  /** A text without `<` is left as it is. */
  lemma {:induction false} StripTagsPlain(s: string)
    requires '<' !in s
    ensures StripTags(s) == s
    decreases |s|
  {
    if |s| > 0 {
      assert StripTags(s[1..]) == s[1..] by {
        StripTagsPlain(s[1..]);
      }
      assert s[0] != '<';
      assert s == [s[0]] + s[1..];
    }
  }

  // ---------------------------------------------------------------------
  // parseSRT
  // ---------------------------------------------------------------------

  /** `\r\n`, then any lone `\r`, become `\n`. */
  function Normalize(data: string): (r: string)
    ensures '\r' !in r
  {
    var once := ReplaceAll(data, "\r\n", "\n");
    SplitPartsAvoid(once, '\r');
    JoinAvoids(Split(once, "\r"), "\n", '\r');
    ReplaceAll(once, "\r", "\n")
  }

  lemma NoCarriageReturnNotFound(s: string, sep: string)
    requires '\r' !in s && |sep| > 0 && sep[0] == '\r'
    ensures Split(s, sep) == [s]
  {
    SplitNone(s, sep);
  }

  /** Data that already uses `\n` endings is not changed by normalisation. */
  lemma NormalizeUnix(data: string)
    requires '\r' !in data
    ensures Normalize(data) == data
  {
    NoCarriageReturnNotFound(data, "\r\n");
    NoCarriageReturnNotFound(data, "\r");
  }

  /** Index of the first line containing `-->` (`lines.find`). */
  function FindTimingLine(lines: seq<string>): (r: Option<nat>)
    ensures r.Some? ==> r.value < |lines| && Contains(lines[r.value], "-->")
    ensures r.Some? ==> forall k :: 0 <= k < r.value ==> !Contains(lines[k], "-->")
    ensures r.None? ==> forall k :: 0 <= k < |lines| ==> !Contains(lines[k], "-->")
  {
    if |lines| == 0 then None
    else if Contains(lines[0], "-->") then Some(0)
    else
      match FindTimingLine(lines[1..])
      case None => None
      case Some(k) => Some(k + 1)
  }

  /**
   * The cue of a block whose timing line is `timeLine`: the times on either
   * side of the first `-->`, and the caption from the lines after it.
   */
  function CueOf(timeLine: string, textLines: seq<string>): (r: Option<Cue>)
    requires Contains(timeLine, "-->")
    ensures r.Some? ==> r.value.text != "" && Trim(r.value.text) == r.value.text
    ensures r.Some? ==> r.value.startTime >= 0 && r.value.endTime >= 0
  {
    SplitContains(timeLine, "-->");
    var sides := Split(timeLine, "-->");
    var startTime := TimeToMs(Trim(sides[0]));
    var endTime := TimeToMs(Trim(sides[1]));
    var text := Trim(StripTags(Join(textLines, " ")));
    TrimIdempotent(StripTags(Join(textLines, " ")));
    if text != "" && startTime.Some? && endTime.Some? then
      Some(Cue(startTime.value, endTime.value, text))
    else None
  }

  /** One block: the cue it yields, or `None` when the block is dropped. */
  function ParseBlock(block: string): (r: Option<Cue>)
    ensures r.Some? ==> r.value.text != "" && Trim(r.value.text) == r.value.text
    ensures r.Some? ==> r.value.startTime >= 0 && r.value.endTime >= 0
    ensures r.Some? ==> |Split(Trim(block), "\n")| >= 2 && FindTimingLine(Split(Trim(block), "\n")).Some?
  {
    var lines := Split(Trim(block), "\n");
    if |lines| < 2 then None
    else
      match FindTimingLine(lines)
      case None => None
      case Some(k) => CueOf(lines[k], lines[k + 1..])
  }

  /** What each block yields, in block order. */
  function ParseEach(blocks: seq<string>): (r: seq<Option<Cue>>)
    ensures |r| == |blocks|
    ensures forall k :: 0 <= k < |r| ==> r[k] == ParseBlock(blocks[k])
  {
    seq(|blocks|, k requires 0 <= k < |blocks| => ParseBlock(blocks[k]))
  }

  /** The `forEach` with `idCounter`: kept cues are numbered from `next`, dropped ones skipped. */
  function Number(cues: seq<Option<Cue>>, next: nat): (r: seq<Subtitle>)
    ensures |r| <= |cues|
    ensures forall k :: 0 <= k < |r| ==> r[k].id == next + k
    ensures forall k :: 0 <= k < |r| ==> Some(Cue(r[k].startTime, r[k].endTime, r[k].text)) in cues
  {
    if |cues| == 0 then []
    else if cues[0].Some? then
      var c := cues[0].value;
      var rest := Number(cues[1..], next + 1);
      var h := Subtitle(next, c.startTime, c.endTime, c.text);
      assert forall k :: 1 <= k < 1 + |rest| ==> ([h] + rest)[k] == rest[k - 1];
      assert forall x :: x in cues[1..] ==> x in cues;
      [h] + rest
    else
      var rest := Number(cues[1..], next);
      assert forall x :: x in cues[1..] ==> x in cues;
      rest
  }

  /** Every cue a block yields has a non-empty trimmed text and non-negative times. */
  predicate GoodCue(c: Cue) {
    c.text != "" && Trim(c.text) == c.text && c.startTime >= 0 && c.endTime >= 0
  }

  lemma ParseEachGood(blocks: seq<string>)
    ensures forall x :: x in ParseEach(blocks) && x.Some? ==> GoodCue(x.value)
  {
    var cues := ParseEach(blocks);
    forall x | x in cues && x.Some?
      ensures GoodCue(x.value)
    {
      var i :| 0 <= i < |cues| && cues[i] == x;
      assert x == ParseBlock(blocks[i]);
    }
  }

  /** The blocks of the normalised data. */
  function Blocks(data: string): (r: seq<string>)
    ensures |r| >= 1
  {
    Split(Normalize(data), "\n\n")
  }

  /**
   * `parseSRT`: ids are 1, 2, 3, … without gaps, there are at most as many
   * captions as blocks, and every caption has a non-empty trimmed text and
   * non-negative times.
   */
  function ParseSrt(data: string): (r: seq<Subtitle>)
    ensures |r| <= |Blocks(data)|
    ensures forall k :: 0 <= k < |r| ==> r[k].id == k + 1
    ensures forall k :: 0 <= k < |r| ==> GoodCue(Cue(r[k].startTime, r[k].endTime, r[k].text))
  {
    var cues := ParseEach(Blocks(data));
    ParseEachGood(Blocks(data));
    Number(cues, 1)
  }

  /**
   * Blocks are parsed independently: a dropped block never stops later blocks
   * from being parsed; the numbering just continues after the captions kept
   * before it.
   */
  lemma {:induction false} NumberAppend(a: seq<Option<Cue>>, b: seq<Option<Cue>>, next: nat)
    ensures Number(a + b, next) == Number(a, next) + Number(b, next + |Number(a, next)|)
    decreases |a|
  {
    if |a| == 0 {
      assert a + b == b;
    } else {
      assert (a + b)[0] == a[0];
      assert (a + b)[1..] == a[1..] + b;
      if a[0].Some? {
        NumberAppend(a[1..], b, next + 1);
      } else {
        NumberAppend(a[1..], b, next);
      }
    }
  }

  /** Parsing the blocks of `a + b` is parsing `a`, then `b` with the numbering carried on. */
  lemma ParseEachAppend(a: seq<string>, b: seq<string>)
    ensures ParseEach(a + b) == ParseEach(a) + ParseEach(b)
  {
  }

  /** Every kept block yields exactly one caption with the next id; a dropped block yields none. */
  lemma NumberSingle(c: Option<Cue>, next: nat)
    ensures c.None? ==> Number([c], next) == []
    ensures c.Some? ==> Number([c], next) == [Subtitle(next, c.value.startTime, c.value.endTime, c.value.text)]
  {
    assert [c][1..] == [];
  }
}
