/**
 * The saved-lines store and the stored settings, held as in-memory values:
 * time-code formatting, the de-duplicating insert, removal by text and the
 * configuration defaults.
 */
module Storage {
  import opened Base
  import opened Strings
  import opened Srt

  // ---------------------------------------------------------------------
  // Time codes
  // ---------------------------------------------------------------------

  /** `i.toString()` for any integer, negative ones with a leading minus. */
  function IntToString(i: int): (r: string)
    ensures i >= 0 ==> r == NatToString(i)
    ensures i < 0 ==> r == "-" + NatToString(-i)
  {
    if i < 0 then "-" + NatToString(-i) else NatToString(i)
  }

  /** JavaScript's `x % 60` on numbers: the remainder takes the sign of the dividend. */
  function JsMod60(x: real): (r: real)
    ensures x >= 0.0 ==> 0.0 <= r < 60.0
    ensures x < 0.0 ==> -60.0 < r <= 0.0
  {
    var q := if x >= 0.0 then (x / 60.0).Floor else -((-x / 60.0).Floor);
    x - 60.0 * q as real
  }

  /**
   * A position in seconds as "MM:SS": the minutes and the seconds within
   * the minute, each rounded down and padded to two digits; zero gives
   * "00:00".
   */
  function FormatTimeCode(seconds: real): (r: string)
    ensures seconds == 0.0 ==> r == "00:00"
  {
    if seconds == 0.0 then "00:00"
    else
      var m := (seconds / 60.0).Floor;
      var s := JsMod60(seconds).Floor;
      PadTwo(IntToString(m)) + ":" + PadTwo(IntToString(s))
  }

  /**
   * A time code of a non-negative position reads back as the whole seconds
   * of that position: two colon-separated digit fields, the second exactly
   * two digits and below 60.
   */
  lemma TimeCodeReadsBack(seconds: real)
    requires seconds >= 0.0
    ensures var parts := Split(FormatTimeCode(seconds), ":");
      && |parts| == 2 && AllDigits(parts[0]) && AllDigits(parts[1])
      && |parts[0]| >= 2 && |parts[1]| == 2
      && DigitsValue(parts[1]) < 60
      && DigitsValue(parts[0]) * 60 + DigitsValue(parts[1]) == seconds.Floor
  {
    var m, s := MinutesSeconds(seconds);
    var a, b := PadTwo(NatToString(m)), PadTwo(NatToString(s));
    assert FormatTimeCode(seconds) == a + ":" + b;
    assert Split(a + ":" + b, ":") == [a, b] by {
      PaddedReads(m);
      PaddedReads(s);
      SplitTwo(a, ":", b);
    }
    PaddedReads(m);
    PaddedReads(s);
  }

  /**
   * The minute and second fields of a non-negative position: they make up
   * its whole seconds, and the time code is their padded renderings.
   */
  lemma MinutesSeconds(seconds: real) returns (m: nat, s: nat)
    requires seconds >= 0.0
    ensures s < 60 && m * 60 + s == seconds.Floor
    ensures FormatTimeCode(seconds) == PadTwo(NatToString(m)) + ":" + PadTwo(NatToString(s))
  {
    m := (seconds / 60.0).Floor;
    var rest := seconds - 60.0 * m as real;
    assert JsMod60(seconds) == rest;
    s := rest.Floor;
    assert s + m * 60 == seconds.Floor;
    if seconds == 0.0 {
      assert m == 0 && s == 0;
      assert PadTwo(NatToString(0)) == "00";
    }
  }

  /** A padded decimal rendering holds only digits, no colon, and reads back as the number. */
  lemma PaddedReads(n: nat)
    ensures var p := PadTwo(NatToString(n));
      AllDigits(p) && ':' !in p && DigitsValue(p) == n && |p| >= 2
      && (n < 100 ==> |p| == 2)
  {
    var d := NatToString(n);
    if |d| == 1 {
      DigitsValueLeadingZero(d);
      assert PadTwo(d) == "0" + d;
    }
    if n < 100 {
      NatToStringShort(n);
    }
  }

  /** Numbers below 100 render in at most two digits. */
  lemma NatToStringShort(n: nat)
    requires n < 100
    ensures |NatToString(n)| <= 2
  {
    if n >= 10 {
      assert |NatToString(n / 10)| == 1;
    }
  }

  // ---------------------------------------------------------------------
  // Saved lines
  // ---------------------------------------------------------------------

  /** A saved line: its generated id, text, save date, video and time code. */
  datatype SavedLine = SavedLine(
    id: string,
    text: string,
    dateSaved: int,
    videoName: Option<string>,
    timeDisplay: string)

  predicate HasText(lines: seq<SavedLine>, text: string) {
    exists k :: 0 <= k < |lines| && lines[k].text == text
  }

  /** No two saved lines share a text. */
  predicate DistinctTexts(lines: seq<SavedLine>) {
    forall i, j :: 0 <= i < j < |lines| ==> lines[i].text != lines[j].text
  }

  /**
   * Save a line. A line whose text is already stored leaves the store
   * unchanged; otherwise the new line, with the given id and date and the
   * time code of the line's start, goes in front.
   */
  function SaveLine(lines: seq<SavedLine>, sub: Subtitle, videoName: string, newId: string, now: int): (r: seq<SavedLine>)
    ensures HasText(lines, sub.text) ==> r == lines
    ensures !HasText(lines, sub.text) ==>
      |r| == |lines| + 1 && r[1..] == lines
      && r[0] == SavedLine(newId, sub.text, now, Some(videoName), FormatTimeCode(sub.startTime as real / 1000.0))
    ensures HasText(r, sub.text)
    ensures DistinctTexts(lines) ==> DistinctTexts(r)
  {
    if HasText(lines, sub.text) then lines
    else
      var line := SavedLine(newId, sub.text, now, Some(videoName), FormatTimeCode(sub.startTime as real / 1000.0));
      var r := [line] + lines;
      assert r[0].text == sub.text;
      r
  }

  /** Remove every line with the given text, the others staying in order. */
  function RemoveLine(lines: seq<SavedLine>, text: string): (r: seq<SavedLine>)
    ensures |r| <= |lines|
    ensures forall i :: 0 <= i < |r| ==> r[i].text != text && r[i] in lines
    ensures forall k :: 0 <= k < |lines| && lines[k].text != text ==> lines[k] in r
    ensures !HasText(lines, text) ==> r == lines
  {
    if |lines| == 0 then []
    else
      var rest := RemoveLine(lines[1..], text);
      if lines[0].text == text then rest else [lines[0]] + rest
  }

  /** Removal works piecewise: a prefix and a suffix are filtered separately, so order is kept. */
  lemma {:induction false} RemoveLineAppend(a: seq<SavedLine>, b: seq<SavedLine>, text: string)
    ensures RemoveLine(a + b, text) == RemoveLine(a, text) + RemoveLine(b, text)
    decreases |a|
  {
    if |a| > 0 {
      assert (a + b)[1..] == a[1..] + b;
      RemoveLineAppend(a[1..], b, text);
    } else {
      assert a + b == b;
    }
  }

  /** Saving a new line and then removing its text gives back the original store. */
  lemma SaveThenRemove(lines: seq<SavedLine>, sub: Subtitle, videoName: string, newId: string, now: int)
    requires !HasText(lines, sub.text)
    ensures RemoveLine(SaveLine(lines, sub, videoName, newId, now), sub.text) == lines
  {
    var r := SaveLine(lines, sub, videoName, newId, now);
    assert r == [r[0]] + lines;
  }

  /** Saving the same text twice stores it once. */
  lemma SaveIdempotent(lines: seq<SavedLine>, sub: Subtitle, videoName: string, id1: string, id2: string, now1: int, now2: int)
    ensures var once := SaveLine(lines, sub, videoName, id1, now1);
      SaveLine(once, sub, videoName, id2, now2) == once
  {
  }

  /** Clearing the store leaves no line. */
  function Clear(): (r: seq<SavedLine>)
    ensures |r| == 0
  {
    []
  }

  // ---------------------------------------------------------------------
  // Stored settings
  // ---------------------------------------------------------------------

  /** Section length in minutes; 0 means the whole video is one section. */
  datatype PracticeConfig = PracticeConfig(sectionLength: int)

  /** Capture padding before and after a line, in milliseconds. */
  datatype AudioPadding = AudioPadding(startPadding: int, endPadding: int)

  /**
   * The practice settings: the stored value, or the whole-video default
   * when nothing usable is stored (`None` covers missing, empty and
   * unreadable entries).
   */
  function GetPracticeConfig(stored: Option<PracticeConfig>): (r: PracticeConfig)
    ensures stored.None? ==> r.sectionLength == 0
    ensures stored.Some? ==> r == stored.value
  {
    stored.GetOr(PracticeConfig(0))
  }

  /** The capture padding: the stored value, or 100 ms before and 200 ms after. */
  function GetAudioPadding(stored: Option<AudioPadding>): (r: AudioPadding)
    ensures stored.None? ==> r.startPadding == 100 && r.endPadding == 200
    ensures stored.Some? ==> r == stored.value
  {
    stored.GetOr(AudioPadding(100, 200))
  }
}
