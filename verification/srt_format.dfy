/**
 * Writing captions out as SRT and reading them back.
 *
 * The parser is best-effort, so its partner is the writer of the format it
 * reads: a caption list written as numbered `HH:MM:SS,mmm --> HH:MM:SS,mmm`
 * blocks separated by blank lines parses back to the same captions, numbered
 * from 1.
 */
module SrtFormat {
  import opened Base
  import opened Chars
  import opened Strings
  import opened Srt

  // ---------------------------------------------------------------------
  // Timestamps
  // ---------------------------------------------------------------------

  /** `s.padStart(width, '0')`. */
  function ZeroPad(s: string, width: nat): (r: string)
    ensures r == if |s| >= width then s else Repeat('0', width - |s|) + s
  {
    if |s| >= width then s else Repeat('0', width - |s|) + s
  }

  lemma {:induction false} ZeroPadValue(s: string, n: nat)
    requires AllDigits(s)
    ensures AllDigits(Repeat('0', n) + s) && DigitsValue(Repeat('0', n) + s) == DigitsValue(s)
    decreases n
  {
    if n > 0 {
      ZeroPadValue(s, n - 1);
      assert Repeat('0', n) + s == "0" + (Repeat('0', n - 1) + s);
      DigitsValueLeadingZero(Repeat('0', n - 1) + s);
    } else {
      assert Repeat('0', 0) + s == s;
    }
  }

  /** A non-negative decimal field of at least `width` digits. */
  function Field(n: nat, width: nat): string {
    ZeroPad(NatToString(n), width)
  }

  /** A field is a non-empty digit string whose value is `n`, and at least `width` long. */
  lemma FieldDigits(n: nat, width: nat)
    ensures var r := Field(n, width); |r| >= 1 && |r| >= width && AllDigits(r) && DigitsValue(r) == n
  {
    var s := NatToString(n);
    if |s| < width {
      ZeroPadValue(s, width - |s|);
    }
  }

  /** `HH:MM:SS,mmm` for a time in milliseconds. */
  function Timestamp(t: nat): string {
    var q := t / 1000;
    var minutes := q / 60;
    Field(minutes / 60, 2) + ":" + Field(minutes % 60, 2) + ":" + Field(q % 60, 2) + "," + Field(t % 1000, 3)
  }

  lemma DigitsNot(s: string, c: char)
    requires AllDigits(s) && !IsDigit(c)
    ensures c !in s
  {
  }


  /** The weighted sum of the four fields of `Timestamp(t)`. */
  function FieldSum(t: nat): int {
    var q := t / 1000;
    var minutes := q / 60;
    (minutes / 60) * 3600000 + (minutes % 60) * 60000 + (q % 60) * 1000 + t % 1000
  }

  lemma FieldSumIsTime(t: nat)
    ensures FieldSum(t) == t
  {
    var q := t / 1000;
    var minutes := q / 60;
    assert t == q * 1000 + t % 1000;
    assert q == minutes * 60 + q % 60;
    assert minutes == (minutes / 60) * 60 + minutes % 60;
  }

  /** `timeToSeconds` once the string is known to split into the four fields. */
  lemma ReadSplit(ts: string, hms: string, hh: string, mm: string, ss: string, ms: string, h: nat, m: nat, s: nat, f: nat)
    requires Split(ts, ",") == [hms, ms] && Split(hms, ":") == [hh, mm, ss]
    requires NumberValue(hh) == Some(h) && NumberValue(mm) == Some(m)
    requires NumberValue(ss) == Some(s) && NumberValue(ms) == Some(f)
    ensures TimeToMs(ts) == Some(h * 3600000 + m * 60000 + s * 1000 + f)
  {
    var commaParts := Split(ts, ",");
    assert commaParts[0] == hms && commaParts[1] == ms;
    assert TimeToMs(ts) == ClockMs([hh, mm, ss], Some(ms));
    ClockRead(hh, mm, ss, ms, h, m, s, f);
  }

  lemma ClockRead(hh: string, mm: string, ss: string, ms: string, h: nat, m: nat, s: nat, f: nat)
    requires NumberValue(hh) == Some(h) && NumberValue(mm) == Some(m)
    requires NumberValue(ss) == Some(s) && NumberValue(ms) == Some(f)
    ensures ClockMs([hh, mm, ss], Some(ms)) == Some(h * 3600000 + m * 60000 + s * 1000 + f)
  {
    var hms := [hh, mm, ss];
    assert hms[0] == hh && hms[1] == mm && hms[2] == ss;
  }

  /** Fields without `,` joined by `,` split back at the comma. */
  lemma CommaSplit(hh: string, mm: string, ss: string, ms: string)
    requires ',' !in hh && ',' !in mm && ',' !in ss && ',' !in ms
    ensures Split(hh + ":" + mm + ":" + ss + "," + ms, ",") == [hh + ":" + mm + ":" + ss, ms]
  {
    var hms := hh + ":" + mm + ":" + ss;
    assert ',' !in hms;
    SplitTwo(hms, ",", ms);
  }

  /** Fields without `:` joined by `:` split back at the colons. */
  lemma ColonSplit(hh: string, mm: string, ss: string)
    requires ':' !in hh && ':' !in mm && ':' !in ss
    ensures Split(hh + ":" + mm + ":" + ss, ":") == [hh, mm, ss]
  {
    assert Join([hh, mm, ss], ":") == hh + ":" + mm + ":" + ss by {
      assert [hh, mm, ss][1..] == [mm, ss];
      assert [mm, ss][1..] == [ss];
      assert Join([mm, ss], ":") == mm + ":" + ss;
    }
    SplitJoin([hh, mm, ss], ":");
  }

  /** `H:M:S,ms` reads as the weighted sum of its four fields. */
  lemma ReadFields(hh: string, mm: string, ss: string, ms: string, h: nat, m: nat, s: nat, f: nat)
    requires ',' !in hh && ',' !in mm && ',' !in ss && ',' !in ms
    requires ':' !in hh && ':' !in mm && ':' !in ss
    requires NumberValue(hh) == Some(h) && NumberValue(mm) == Some(m)
    requires NumberValue(ss) == Some(s) && NumberValue(ms) == Some(f)
    ensures TimeToMs(hh + ":" + mm + ":" + ss + "," + ms) == Some(h * 3600000 + m * 60000 + s * 1000 + f)
  {
    CommaSplit(hh, mm, ss, ms);
    ColonSplit(hh, mm, ss);
    ReadSplit(hh + ":" + mm + ":" + ss + "," + ms, hh + ":" + mm + ":" + ss, hh, mm, ss, ms, h, m, s, f);
  }

  /** A written field holds no separator and reads back as its value. */
  lemma FieldReads(n: nat, width: nat)
    ensures ',' !in Field(n, width) && ':' !in Field(n, width)
    ensures NumberValue(Field(n, width)) == Some(n)
  {
    var s := Field(n, width);
    FieldDigits(n, width);
    DigitsNot(s, ',');
    DigitsNot(s, ':');
    NumberValueDigits(s);
  }

  /** Four written fields read back as their weighted sum. */
  lemma FieldsRead(h: nat, m: nat, s: nat, f: nat)
    ensures TimeToMs(Field(h, 2) + ":" + Field(m, 2) + ":" + Field(s, 2) + "," + Field(f, 3))
      == Some(h * 3600000 + m * 60000 + s * 1000 + f)
  {
    FieldReads(h, 2);
    FieldReads(m, 2);
    FieldReads(s, 2);
    FieldReads(f, 3);
    ReadFields(Field(h, 2), Field(m, 2), Field(s, 2), Field(f, 3), h, m, s, f);
  }

  /** Reading a written timestamp gives back the time. */
  lemma TimestampRoundTrip(t: nat)
    ensures TimeToMs(Timestamp(t)) == Some(t)
  {
    var q := t / 1000;
    var minutes := q / 60;
    var h, m, s, f := minutes / 60, minutes % 60, q % 60, t % 1000;
    assert h * 3600000 + m * 60000 + s * 1000 + f == t by {
      FieldSumIsTime(t);
    }
    assert Timestamp(t) == Field(h, 2) + ":" + Field(m, 2) + ":" + Field(s, 2) + "," + Field(f, 3);
    FieldsRead(h, m, s, f);
  }

  // ---------------------------------------------------------------------
  // Blocks
  // ---------------------------------------------------------------------

  /** A non-empty string of digits, `:` and `,`: the shape of a written timestamp. */
  predicate Stamp(s: string) {
    |s| > 0 && forall i :: 0 <= i < |s| ==> IsDigit(s[i]) || s[i] == ':' || s[i] == ','
  }

  /** The arrow line built from two stamps has one line, no `\r`, and no edge space. */
  lemma ArrowLineChars(a: string, b: string)
    requires Stamp(a) && Stamp(b)
    ensures var line := a + " --> " + b;
      && '\n' !in line && '\r' !in line && |line| > 0
      && !IsSpace(line[0]) && !IsSpace(line[|line| - 1])
  {
    var line := a + " --> " + b;
    forall i | 0 <= i < |line|
      ensures line[i] != '\n' && line[i] != '\r'
    {
      if i < |a| {
        assert line[i] == a[i];
      } else if i >= |a| + 5 {
        assert line[i] == b[i - |a| - 5];
      }
    }
    assert line[0] == a[0];
    assert line[|line| - 1] == b[|b| - 1];
  }

  /** Four digit fields joined by `:` and `,` form a stamp. */
  lemma FieldsStamp(hh: string, mm: string, ss: string, ms: string)
    requires |hh| >= 1 && AllDigits(hh) && AllDigits(mm) && AllDigits(ss) && AllDigits(ms)
    ensures Stamp(hh + ":" + mm + ":" + ss + "," + ms)
  {
  }

  lemma TimestampIsStamp(t: nat)
    ensures Stamp(Timestamp(t))
  {
    var q := t / 1000;
    var minutes := q / 60;
    var h, m, s, f := minutes / 60, minutes % 60, q % 60, t % 1000;
    assert Timestamp(t) == Field(h, 2) + ":" + Field(m, 2) + ":" + Field(s, 2) + "," + Field(f, 3);
    FieldDigits(h, 2);
    FieldDigits(m, 2);
    FieldDigits(s, 2);
    FieldDigits(f, 3);
    FieldsStamp(Field(h, 2), Field(m, 2), Field(s, 2), Field(f, 3));
  }

  /** A caption text the format can carry: one tag-free line without edge spaces. */
  predicate PlainText(text: string) {
    && text != ""
    && '\n' !in text && '\r' !in text && '<' !in text
    && !IsSpace(text[0]) && !IsSpace(text[|text| - 1])
  }

  predicate Writable(c: Cue) {
    c.startTime >= 0 && c.endTime >= 0 && PlainText(c.text)
  }

  function TimingLine(c: Cue): string
    requires c.startTime >= 0 && c.endTime >= 0
  {
    Timestamp(c.startTime) + " --> " + Timestamp(c.endTime)
  }

  /** One numbered block: id line, timing line, text line. */
  function Block(id: nat, c: Cue): string
    requires Writable(c)
  {
    NatToString(id) + "\n" + TimingLine(c) + "\n" + c.text
  }

  lemma AbsentFirst(s: string, sub: string)
    requires |sub| > 0 && sub[0] !in s
    ensures forall j: nat :: !OccursAt(s, sub, j)
  {
  }

  /** The arrow line splits into the two space-padded timestamps. */
  lemma ArrowSides(a: string, b: string)
    requires Stamp(a) && Stamp(b)
    ensures Contains(a + " --> " + b, "-->")
    ensures Split(a + " --> " + b, "-->") == [a + " ", " " + b]
  {
    assert a + " --> " + b == (a + " ") + "-->" + (" " + b);
    assert '-' !in a + " " && '-' !in " " + b;
    SplitTwo(a + " ", "-->", " " + b);
    assert OccursAt(a + " --> " + b, "-->", |a| + 1) by {
      assert (a + " --> " + b)[|a| + 1..|a| + 4] == "-->";
    }
  }

  lemma TrimStampSides(a: string)
    requires Stamp(a)
    ensures Trim(a + " ") == a && Trim(" " + a) == a
  {
    assert !IsSpace(a[0]) && !IsSpace(a[|a| - 1]);
    assert Trim(a + " ") == a by {
      assert "" + a + " " == a + " ";
      TrimPadded("", a, " ");
    }
    assert Trim(" " + a) == a by {
      assert " " + a + "" == " " + a;
      TrimPadded(" ", a, "");
    }
  }

  /** A block has nothing to trim. */
  lemma ThreeLinesTrimmed(idLine: string, line: string, text: string)
    requires |idLine| > 0 && AllDigits(idLine)
    requires |text| > 0 && !IsSpace(text[|text| - 1])
    ensures Trim(idLine + "\n" + line + "\n" + text) == idLine + "\n" + line + "\n" + text
  {
    var b := idLine + "\n" + line + "\n" + text;
    assert b[0] == idLine[0];
    assert b[|b| - 1] == text[|text| - 1];
    TrimNoEdgeSpace(b);
  }

  /** A block reads as its three lines. */
  lemma ThreeLinesSplit(idLine: string, line: string, text: string)
    requires '\n' !in idLine && '\n' !in line && '\n' !in text
    ensures Split(idLine + "\n" + line + "\n" + text, "\n") == [idLine, line, text]
  {
    var b := idLine + "\n" + line + "\n" + text;
    assert Join([idLine, line, text], "\n") == b by {
      assert [idLine, line, text][1..] == [line, text];
      assert [line, text][1..] == [text];
      assert Join([line, text], "\n") == line + "\n" + text;
    }
    SplitJoin([idLine, line, text], "\n");
  }

  /** The caption line of a written block comes back unchanged. */
  lemma CaptionReads(text: string)
    requires PlainText(text)
    ensures Trim(StripTags(Join([text], " "))) == text
  {
    assert Join([text], " ") == text;
    StripTagsPlain(text);
    TrimNoEdgeSpace(text);
  }

  /** The timing line of a written block reads back as the cue's times. */
  lemma TimingReads(a: string, b: string, s: nat, e: nat)
    requires a == Timestamp(s) && b == Timestamp(e)
    ensures Stamp(a) && Stamp(b)
    ensures Contains(a + " --> " + b, "-->")
    ensures var sides := Split(a + " --> " + b, "-->");
      |sides| == 2 && TimeToMs(Trim(sides[0])) == Some(s) && TimeToMs(Trim(sides[1])) == Some(e)
  {
    TimestampIsStamp(s);
    TimestampIsStamp(e);
    ArrowSides(a, b);
    TrimStampSides(a);
    TrimStampSides(b);
    TimestampRoundTrip(s);
    TimestampRoundTrip(e);
  }

  /** The cue read from a timing line and one caption line. */
  lemma CueOfReads(line: string, text: string, c: Cue)
    requires Contains(line, "-->")
    requires var sides := Split(line, "-->");
      |sides| == 2 && TimeToMs(Trim(sides[0])) == Some(c.startTime) && TimeToMs(Trim(sides[1])) == Some(c.endTime)
    requires Trim(StripTags(Join([text], " "))) == text && text == c.text && c.text != ""
    ensures CueOf(line, [text]) == Some(c)
  {
  }

  /** A block whose second line is the timing line yields the cue read from it. */
  lemma ParseSecondLine(block: string, lines: seq<string>, c: Cue)
    requires Split(Trim(block), "\n") == lines && |lines| >= 2 && FindTimingLine(lines) == Some(1)
    requires CueOf(lines[1], lines[2..]) == Some(c)
    ensures ParseBlock(block) == Some(c)
  {
  }

  /** A written block parses back to its cue. */
  lemma ParseBlockRoundTrip(id: nat, c: Cue)
    requires Writable(c)
    ensures ParseBlock(Block(id, c)) == Some(c)
  {
    var idLine := NatToString(id);
    var a := Timestamp(c.startTime);
    var b := Timestamp(c.endTime);
    var line := a + " --> " + b;
    var lines := [idLine, line, c.text];
    var block := idLine + "\n" + line + "\n" + c.text;
    assert lines[2..] == [c.text];
    assert Block(id, c) == block;
    assert Stamp(a) && Stamp(b) by {
      TimestampIsStamp(c.startTime);
      TimestampIsStamp(c.endTime);
    }
    assert Split(Trim(block), "\n") == lines by {
      ArrowLineChars(a, b);
      assert '\n' !in idLine;
      ThreeLinesTrimmed(idLine, line, c.text);
      ThreeLinesSplit(idLine, line, c.text);
    }
    assert FindTimingLine(lines) == Some(1) by {
      ArrowSides(a, b);
      assert '-' !in idLine;
      AbsentFirst(idLine, "-->");
      assert !Contains(lines[0], "-->");
      assert lines[1..][0] == line;
    }
    assert CueOf(line, [c.text]) == Some(c) by {
      TimingReads(a, b, c.startTime, c.endTime);
      CaptionReads(c.text);
      CueOfReads(line, c.text, c);
    }
    ParseSecondLine(block, lines, c);
  }

  // ---------------------------------------------------------------------
  // Whole files
  // ---------------------------------------------------------------------

  function Blocks(cues: seq<Cue>): (r: seq<string>)
    requires forall k :: 0 <= k < |cues| ==> Writable(cues[k])
    ensures |r| == |cues|
  {
    seq(|cues|, k requires 0 <= k < |cues| => Block(k + 1, cues[k]))
  }

  /** The SRT text of a caption list: numbered blocks separated by blank lines. */
  function Write(cues: seq<Cue>): string
    requires forall k :: 0 <= k < |cues| ==> Writable(cues[k])
  {
    Join(Blocks(cues), "\n\n")
  }

  predicate NoBlankLine(s: string) {
    forall j :: 0 <= j < |s| - 1 ==> !(s[j] == '\n' && s[j + 1] == '\n')
  }

  lemma ThreeLineShape(idLine: string, line: string, text: string)
    requires |idLine| > 0 && AllDigits(idLine)
    requires |line| > 0 && '\n' !in line && '\r' !in line
    requires PlainText(text)
    ensures NoBlankLine(idLine + "\n" + line + "\n" + text)
    ensures '\r' !in idLine + "\n" + line + "\n" + text
  {
    var b := idLine + "\n" + line + "\n" + text;
    assert '\n' !in idLine && '\r' !in idLine;
    forall j | 0 <= j < |b| - 1
      ensures !(b[j] == '\n' && b[j + 1] == '\n')
    {
      if j < |idLine| {
        assert b[j] == idLine[j];
      } else if j == |idLine| {
        assert b[j + 1] == line[0];
      } else if j < |idLine| + 1 + |line| {
        assert b[j] == line[j - |idLine| - 1];
      } else if j == |idLine| + 1 + |line| {
        assert b[j + 1] == text[0];
      } else {
        assert b[j] == text[j - |idLine| - 2 - |line|];
      }
    }
  }

  lemma BlockShape(id: nat, c: Cue)
    requires Writable(c)
    ensures NoBlankLine(Block(id, c))
    ensures |Block(id, c)| > 0 && Block(id, c)[|Block(id, c)| - 1] != '\n'
    ensures '\r' !in Block(id, c)
  {
    var idLine := NatToString(id);
    var a := Timestamp(c.startTime);
    var b := Timestamp(c.endTime);
    TimestampIsStamp(c.startTime);
    TimestampIsStamp(c.endTime);
    var line := a + " --> " + b;
    ArrowLineChars(a, b);
    assert Block(id, c) == idLine + "\n" + line + "\n" + c.text;
    ThreeLineShape(idLine, line, c.text);
  }

  /** Where `\n\n` occurs, two newlines follow each other. */
  lemma BlankAt(s: string, j: nat)
    ensures OccursAt(s, "\n\n", j) ==> j + 1 < |s| && s[j] == '\n' && s[j + 1] == '\n'
  {
    OccursChars(s, "\n\n", j);
  }

  /** A text without a blank line, not ending in `\n`, holds no `\n\n` even with one appended. */
  lemma NoBlankLineSeparable(p: string)
    requires NoBlankLine(p) && |p| > 0 && p[|p| - 1] != '\n'
    ensures forall j: nat :: j < |p| ==> !OccursAt(p + "\n\n", "\n\n", j)
    ensures forall j: nat :: !OccursAt(p, "\n\n", j)
  {
    forall j: nat | j < |p|
      ensures !OccursAt(p + "\n\n", "\n\n", j)
    {
      var s := p + "\n\n";
      BlankAt(s, j);
      assert s[j] == p[j];
      if j + 1 < |p| {
        assert s[j + 1] == p[j + 1];
      }
    }
    forall j: nat
      ensures !OccursAt(p, "\n\n", j)
    {
      BlankAt(p, j);
    }
  }

  /** The blank lines of a written file are exactly the block separators. */
  lemma BlankLineSplits(cues: seq<Cue>)
    requires |cues| >= 1 && forall k :: 0 <= k < |cues| ==> Writable(cues[k])
    ensures Split(Write(cues), "\n\n") == Blocks(cues)
  {
    var parts := Blocks(cues);
    assert forall k :: 0 <= k < |parts| ==>
      (forall j: nat :: j < |parts[k]| ==> !OccursAt(parts[k] + "\n\n", "\n\n", j))
      && (forall j: nat :: !OccursAt(parts[k], "\n\n", j)) by {
      forall k | 0 <= k < |parts|
        ensures forall j: nat :: j < |parts[k]| ==> !OccursAt(parts[k] + "\n\n", "\n\n", j)
        ensures forall j: nat :: !OccursAt(parts[k], "\n\n", j)
      {
        BlockShape(k + 1, cues[k]);
        NoBlankLineSeparable(parts[k]);
      }
    }
    var last := parts[|parts| - 1];
    assert forall j: nat :: !OccursAt(last, "\n\n", j);
    SplitJoinGeneral(parts, "\n\n");
  }

  lemma WriteHasNoCarriageReturn(cues: seq<Cue>)
    requires forall k :: 0 <= k < |cues| ==> Writable(cues[k])
    ensures '\r' !in Write(cues)
  {
    var parts := Blocks(cues);
    assert forall k :: 0 <= k < |parts| ==> '\r' !in parts[k] by {
      forall k | 0 <= k < |parts|
        ensures '\r' !in parts[k]
      {
        BlockShape(k + 1, cues[k]);
      }
    }
    JoinAvoids(parts, "\n\n", '\r');
  }

  /** Numbering cues that were all kept: ids run from `next`, contents unchanged. */
  lemma {:induction false} NumberAllKept(cues: seq<Cue>, next: nat)
    ensures Number(seq(|cues|, k requires 0 <= k < |cues| => Some(cues[k])), next) ==
      seq(|cues|, k requires 0 <= k < |cues| => Subtitle(next + k, cues[k].startTime, cues[k].endTime, cues[k].text))
    decreases |cues|
  {
    var opts := seq(|cues|, k requires 0 <= k < |cues| => Some(cues[k]));
    if |cues| > 0 {
      NumberAllKept(cues[1..], next + 1);
      assert opts[1..] == seq(|cues[1..]|, k requires 0 <= k < |cues[1..]| => Some(cues[1..][k]));
    }
  }

  /** An empty file has no captions. */
  lemma ParseEmpty()
    ensures ParseSrt("") == []
  {
    assert Srt.Blocks("") == [""] by {
      NormalizeUnix("");
      SplitNone("", "\n\n");
    }
    assert ParseBlock("") == None by {
      TrimAllSpace("");
      SplitNone("", "\n");
    }
    assert ParseEach([""]) == [None];
    NumberSingle(None, 1);
  }

  /** The `k`-th written block parses back to the `k`-th cue. */
  lemma WrittenBlockParses(cues: seq<Cue>, k: nat)
    requires forall k :: 0 <= k < |cues| ==> Writable(cues[k])
    requires k < |cues|
    ensures ParseBlock(Blocks(cues)[k]) == Some(cues[k])
  {
    var c := cues[k];
    assert Writable(c);
    assert Blocks(cues)[k] == Block(k + 1, c);
    ParseBlockRoundTrip(k + 1, c);
  }

  /** Blocks that each parse to their cue parse, together, to all of them. */
  lemma ParseEachAll(blocks: seq<string>, cues: seq<Cue>)
    requires |blocks| == |cues|
    requires forall k :: 0 <= k < |cues| ==> ParseBlock(blocks[k]) == Some(cues[k])
    ensures ParseEach(blocks) == seq(|cues|, k requires 0 <= k < |cues| => Some(cues[k]))
  {
  }

  /** The cues of written blocks, each parsed back. */
  lemma ParseEachWritten(cues: seq<Cue>)
    requires forall k :: 0 <= k < |cues| ==> Writable(cues[k])
    ensures ParseEach(Blocks(cues)) == seq(|cues|, k requires 0 <= k < |cues| => Some(cues[k]))
  {
    var blocks := Blocks(cues);
    forall k | 0 <= k < |cues|
      ensures ParseBlock(blocks[k]) == Some(cues[k])
    {
      WrittenBlockParses(cues, k);
    }
    ParseEachAll(blocks, cues);
  }

  /** A file whose blocks all parse yields their cues numbered from 1. */
  lemma ParseSrtAllKept(data: string, cues: seq<Cue>)
    requires ParseEach(Srt.Blocks(data)) == seq(|cues|, k requires 0 <= k < |cues| => Some(cues[k]))
    ensures ParseSrt(data) ==
      seq(|cues|, k requires 0 <= k < |cues| => Subtitle(k + 1, cues[k].startTime, cues[k].endTime, cues[k].text))
  {
    NumberAllKept(cues, 1);
  }

  /**
   * Writing a list of captions as SRT and parsing it back gives the same
   * captions, numbered 1, 2, 3, … .
   */
  lemma ParseWriteRoundTrip(cues: seq<Cue>)
    requires forall k :: 0 <= k < |cues| ==> Writable(cues[k])
    ensures ParseSrt(Write(cues)) ==
      seq(|cues|, k requires 0 <= k < |cues| => Subtitle(k + 1, cues[k].startTime, cues[k].endTime, cues[k].text))
  {
    var data := Write(cues);
    if |cues| == 0 {
      assert data == "";
      ParseEmpty();
    } else {
      WrittenBlocksParse(cues);
      ParseSrtAllKept(data, cues);
    }
  }

  /** The blocks of a written non-empty file are the written blocks, each parsing to its cue. */
  lemma WrittenBlocksParse(cues: seq<Cue>)
    requires |cues| >= 1 && forall k :: 0 <= k < |cues| ==> Writable(cues[k])
    ensures ParseEach(Srt.Blocks(Write(cues))) == seq(|cues|, k requires 0 <= k < |cues| => Some(cues[k]))
  {
    var data := Write(cues);
    assert Srt.Blocks(data) == Blocks(cues) by {
      WriteHasNoCarriageReturn(cues);
      NormalizeUnix(data);
      BlankLineSplits(cues);
    }
    ParseEachWritten(cues);
  }
}
