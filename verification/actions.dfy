/**
 * The practice action handlers: skipping between lines, applying a scrub,
 * jumping to a saved line, finishing an answer, and the guard of the
 * export shortcut.
 */
module Actions {
  import opened Base
  import opened Srt
  import opened Practice
  import Player

  datatype Direction = Prev | Next

  /**
   * Skip to the previous or next line, resetting the line's mode and export
   * status; a skip past either end of the active lines does nothing.
   */
  function Skip(s: Session, d: Direction): (r: Session)
    ensures d == Prev && s.lineIndex > 0 ==>
      r == s.(lineIndex := s.lineIndex - 1, mode := Listening, status := Idle)
    ensures d == Next && s.lineIndex < |s.subtitles| - 1 ==>
      r == s.(lineIndex := s.lineIndex + 1, mode := Listening, status := Idle)
    ensures (d == Prev && s.lineIndex <= 0) || (d == Next && s.lineIndex >= |s.subtitles| - 1) ==> r == s
    ensures Valid(s) ==> Valid(r)
  {
    if d == Prev && s.lineIndex > 0 then
      s.(lineIndex := s.lineIndex - 1, mode := Listening, status := Idle)
    else if d == Next && s.lineIndex < |s.subtitles| - 1 then
      s.(lineIndex := s.lineIndex + 1, mode := Listening, status := Idle)
    else s
  }

  /** From a valid line, skipping keeps the index inside the active lines. */
  lemma SkipStaysInRange(s: Session, d: Direction)
    requires 0 <= s.lineIndex < |s.subtitles|
    ensures 0 <= Skip(s, d).lineIndex < |s.subtitles|
  {
  }

  /** A skip forward followed by a skip back returns to the same line. */
  lemma SkipNextThenPrev(s: Session)
    requires 0 <= s.lineIndex < |s.subtitles| - 1
    ensures Skip(Skip(s, Next), Prev) == s.(mode := Listening, status := Idle)
  {
  }

  /**
   * The scrub callback: a different section becomes active with its lines
   * and the chosen line; within the current section only the line changes.
   * Either way the line restarts in LISTENING with a fresh export status.
   */
  function SeekTo(s: Session, t: Player.Target): (r: Session)
    requires t.section < |s.sections|
    ensures t.section != s.sectionIndex ==>
      r.sectionIndex == t.section && r.subtitles == s.sections[t.section].subtitles
    ensures t.section == s.sectionIndex ==> r.sectionIndex == s.sectionIndex && r.subtitles == s.subtitles
    ensures r.lineIndex == t.line && r.mode == Listening && r.status == Idle
    ensures r.media == s.media && r.isPlaying == s.isPlaying && r.sections == s.sections
  {
    var moved := if t.section != s.sectionIndex
                 then s.(sectionIndex := t.section, subtitles := s.sections[t.section].subtitles)
                 else s;
    moved.(lineIndex := t.line, mode := Listening, status := Idle)
  }

  /** The progress-bar handler: scrub the media, then apply the lookup it yields. */
  function ProgressSeek(s: Session, value: int): (r: Session)
    ensures Valid(s) ==> Valid(r)
    ensures Player.ProgressSeek(s, value).target.None? ==> r == Player.ProgressSeek(s, value).session
  {
    var scrub := Player.ProgressSeek(s, value);
    match scrub.target
    case None => scrub.session
    case Some(t) => SeekTo(scrub.session, t)
  }

  /**
   * A scrub to a time inside some line of the current section selects the
   * first such line, stays in the section and restarts it in LISTENING.
   */
  lemma ScrubWithinSection(s: Session, value: int, j: nat)
    requires Valid(s) && |s.sections| > 0
    requires s.media.Some? && s.media.value.duration != 0.0
    requires var t := Player.ScrubTime(value, s.media.value.duration);
      Player.InSection(t, s.sections[s.sectionIndex])
      && (forall p :: 0 <= p < s.sectionIndex ==> !Player.InSection(t, s.sections[p]))
      && j < |s.subtitles| && Player.InLine(t, s.subtitles[j])
    ensures var r := ProgressSeek(s, value);
      var t := Player.ScrubTime(value, s.media.value.duration);
      && r.sectionIndex == s.sectionIndex && r.lineIndex <= j
      && Player.InLine(t, r.subtitles[r.lineIndex]) && r.mode == Listening
  {
    var t := Player.ScrubTime(value, s.media.value.duration);
    var scrub := Player.ProgressSeek(s, value);
    var k := s.sectionIndex;
    assert scrub.target.Some? by {
      assert InSectionAt(t, s.sections, k);
    }
  }

  /** Helper: section `k` contains `t`. */
  predicate InSectionAt(t: real, secs: seq<Section>, k: int) {
    0 <= k < |secs| && Player.InSection(t, secs[k])
  }

  /** Index of the first line with the given id. */
  function LineWithId(subs: seq<Subtitle>, id: nat): (r: Option<nat>)
    ensures r.Some? ==> r.value < |subs| && subs[r.value].id == id
    ensures r.None? ==> forall q :: 0 <= q < |subs| ==> subs[q].id != id
  {
    FindFirst(subs, (x: Subtitle) => x.id == id)
  }

  /** Whether section `sec` holds a line that starts at `start` (start included, end excluded). */
  predicate Holds(sec: Section, start: int) {
    sec.startTime <= start < sec.endTime
  }

  /**
   * Jump to a saved line by id: find it among all lines and the first
   * section whose span holds its start; in another section, enter that
   * section and select the line there if it is one of its lines; in the
   * current section, select it among the active lines. Then the line starts
   * in LISTENING, the export status is fresh and the saved list closes. An
   * unknown id, or a start outside every section, changes nothing.
   */
  function JumpToSaved(s: Session, id: nat): (r: Session)
    ensures LineWithId(s.fullSubtitles, id).None? ==> r == s
    ensures LineWithId(s.fullSubtitles, id).Some? ==>
      var start := s.fullSubtitles[LineWithId(s.fullSubtitles, id).value].startTime;
      && ((forall k :: 0 <= k < |s.sections| ==> !Holds(s.sections[k], start)) ==> r == s)
      && ((exists k :: 0 <= k < |s.sections| && Holds(s.sections[k], start)) ==>
            r.mode == Listening && r.status == Idle && !r.showSavedList)
    ensures Valid(s) ==> Valid(r)
  {
    match LineWithId(s.fullSubtitles, id)
    case None => s
    case Some(p) =>
      var start := s.fullSubtitles[p].startTime;
      match FindFirst(s.sections, (sec: Section) => Holds(sec, start))
      case None => s
      case Some(k) =>
        var selected :=
          if k != s.sectionIndex then
            var entered := SwitchSection(s, k);
            match LineWithId(s.sections[k].subtitles, id)
            case Some(j) => entered.(lineIndex := j)
            case None => entered
          else
            match LineWithId(s.subtitles, id)
            case Some(j) => s.(lineIndex := j)
            case None => s;
        selected.(mode := Listening, status := Idle, showSavedList := false)
  }

  /**
   * When the saved line belongs to the first section holding its start,
   * the jump lands on that section with that very line current.
   */
  lemma JumpLandsOnLine(s: Session, id: nat, k: nat)
    requires Valid(s)
    requires LineWithId(s.fullSubtitles, id).Some?
    requires var start := s.fullSubtitles[LineWithId(s.fullSubtitles, id).value].startTime;
      k < |s.sections| && Holds(s.sections[k], start)
      && (forall q :: 0 <= q < k ==> !Holds(s.sections[q], start))
    requires LineWithId(s.sections[k].subtitles, id).Some?
    ensures var r := JumpToSaved(s, id);
      r.sectionIndex == k && Current(r).Some? && Current(r).value.id == id && r.mode == Listening
  {
    var start := s.fullSubtitles[LineWithId(s.fullSubtitles, id).value].startTime;
    var found := FindFirst(s.sections, (sec: Section) => Holds(sec, start));
    assert found == Some(k) by {
      assert Holds(s.sections[k], start);
    }
  }

  /** Submitting an answer shows the feedback, whether it was right or not. */
  function InputComplete(s: Session, wasCorrect: bool): (r: Session)
    ensures r.mode == Feedback
    ensures r.(mode := s.mode) == s
  {
    s.(mode := Feedback)
  }

  /**
   * The export shortcut's guard: the line it would export, present only
   * when there is a current line and no export is under way.
   */
  function ShortcutExport(s: Session): (r: Option<Subtitle>)
    ensures r.Some? <==> Current(s).Some? && s.status == Idle
    ensures r.Some? ==> r == Current(s)
  {
    match Current(s)
    case None => None
    case Some(sub) => if s.status != Idle then None else Some(sub)
  }
}
