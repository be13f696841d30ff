/**
 * The video player hook: the polling step that stops playback at the end of
 * the current line, the seek made when the line changes, play/pause,
 * replay, and the progress-bar scrub with its section and line lookup.
 */
module Player {
  import opened Base
  import opened Srt
  import opened Practice

  /** Seek tolerance before a line's start, in milliseconds (0.5 s). */
  const Tolerance: real := 500.0

  /** Progress as a percentage of the duration, when the duration is known (non-zero). */
  function WithProgress(s: Session): (r: Session)
    ensures s.media.Some? && s.media.value.duration != 0.0 ==>
      r == s.(progress := s.media.value.currentTime / s.media.value.duration * 100.0)
    ensures s.media.None? || s.media.value.duration == 0.0 ==> r == s
  {
    match s.media
    case Some(m) => if m.duration != 0.0 then s.(progress := m.currentTime / m.duration * 100.0) else s
    case None => s
  }

  /**
   * The playing line has reached its end: pause the element, stop believing
   * it plays and snap its clock to the end; then LISTENING turns into INPUT,
   * or, with auto-advance armed, the flag is cleared and the learner is moved
   * on exactly as by Continue (the wiring of the auto-advance callback).
   */
  function AtBoundary(s: Session, m: Media, sub: Subtitle): Step {
    var paused := s.(media := Some(m.(playing := false, currentTime := sub.endTime as real)), isPlaying := false);
    if s.mode == Listening then Step(paused.(mode := Input), Quiet)
    else if s.shouldAutoAdvance then Continue(paused.(shouldAutoAdvance := false))
    else Step(paused, Quiet)
  }

  /** True when the poll would act on the current line. */
  predicate Polling(s: Session) {
    s.media.Some? && |s.subtitles| > 0 && 0 <= s.lineIndex < |s.subtitles|
  }

  /** Whether the current line has played to its end while the UI believes it plays. */
  predicate Reached(s: Session)
    requires Polling(s)
  {
    s.isPlaying && s.media.value.currentTime >= s.subtitles[s.lineIndex].endTime as real
  }

  /**
   * One polling step (one animation frame): without media, lines or a
   * current line nothing happens at all; otherwise the boundary is handled
   * and the progress recomputed from the (possibly snapped) clock.
   */
  function Poll(s: Session): (r: Step)
    ensures !Polling(s) ==> r == Step(s, Quiet)
    ensures Polling(s) && Reached(s) ==>
      var sub := s.subtitles[s.lineIndex];
      && r.session.media.Some?
      && !r.session.media.value.playing && !r.session.isPlaying
      && r.session.media.value.currentTime == sub.endTime as real
      && (s.mode == Listening ==> r.session.mode == Input && r.session.lineIndex == s.lineIndex && r.event == Quiet)
      && (s.mode != Listening && !s.shouldAutoAdvance ==>
            r.session.mode == s.mode && r.session.lineIndex == s.lineIndex && r.event == Quiet)
      && (s.mode != Listening && s.shouldAutoAdvance ==>
            var c := Continue(s);
            && !r.session.shouldAutoAdvance && r.event == c.event
            && r.session.lineIndex == c.session.lineIndex && r.session.mode == c.session.mode
            && r.session.status == c.session.status
            && r.session.showSectionComplete == c.session.showSectionComplete)
    ensures Polling(s) && !Reached(s) ==> r == Step(WithProgress(s), Quiet)
    ensures Valid(s) ==> Valid(r.session)
  {
    if !Polling(s) then Step(s, Quiet)
    else
      var m := s.media.value;
      var sub := s.subtitles[s.lineIndex];
      var b := if Reached(s) then AtBoundary(s, m, sub) else Step(s, Quiet);
      Step(WithProgress(b.session), b.event)
  }

  /**
   * The boundary fires only once: the step that handles it also clears
   * `isPlaying`, so polling again at the same clock changes nothing and
   * reports nothing.
   */
  lemma PollFiresOnce(s: Session)
    ensures Poll(Poll(s).session) == Step(Poll(s).session, Quiet)
  {
    var r := Poll(s);
    if Polling(s) && Reached(s) {
      assert !r.session.isPlaying;
      if Polling(r.session) {
        assert !Reached(r.session);
      }
    }
  }

  /** With the clock inside a known duration, progress is a percentage. */
  lemma ProgressIsPercentage(s: Session)
    requires s.media.Some? && 0.0 < s.media.value.duration
    requires 0.0 <= s.media.value.currentTime <= s.media.value.duration
    ensures 0.0 <= WithProgress(s).progress <= 100.0
  {
    var m := s.media.value;
    var q := m.currentTime / m.duration;
    assert q * m.duration == m.currentTime;
    assert q <= 1.0;
  }

  /**
   * The seek made when the line or mode changes: in LISTENING, with media
   * and a current line, the clock moves to the line's start iff it lies
   * more than the tolerance before that start or past the line's end; and
   * playback starts if the UI does not believe it plays.
   */
  function LineChangeSeek(s: Session): (r: Session)
    ensures !(Polling(s) && s.mode == Listening) ==> r == s
    ensures Polling(s) && s.mode == Listening ==>
      var sub := s.subtitles[s.lineIndex];
      var t := s.media.value.currentTime;
      && r.media.Some? && r.isPlaying
      && (r.media.value.currentTime == if t < sub.startTime as real - Tolerance || t > sub.endTime as real
                                       then sub.startTime as real else t)
      && r.media.value.playing == (s.media.value.playing || !s.isPlaying)
      && r.media.value.duration == s.media.value.duration
      && r.lineIndex == s.lineIndex && r.mode == s.mode && r.subtitles == s.subtitles
    ensures Valid(s) ==> Valid(r)
  {
    if !(Polling(s) && s.mode == Listening) then s
    else
      var sub := s.subtitles[s.lineIndex];
      var m := s.media.value;
      var t := if m.currentTime < sub.startTime as real - Tolerance || m.currentTime > sub.endTime as real
               then sub.startTime as real else m.currentTime;
      if s.isPlaying then s.(media := Some(m.(currentTime := t)))
      else s.(media := Some(m.(currentTime := t, playing := true)), isPlaying := true)
  }

  /**
   * After the line-change seek the clock lies within the tolerance window of
   * a well-formed line, so repeating the effect changes nothing.
   */
  lemma LineChangeSeekIdempotent(s: Session)
    requires Polling(s) && s.mode == Listening
    requires s.subtitles[s.lineIndex].startTime <= s.subtitles[s.lineIndex].endTime
    ensures var r := LineChangeSeek(s);
      var sub := s.subtitles[s.lineIndex];
      sub.startTime as real - Tolerance <= r.media.value.currentTime <= sub.endTime as real
      && LineChangeSeek(r) == r
  {
  }

  /**
   * Replay the current line from its start and arm (or disarm) the
   * auto-advance flag; without media or a current line nothing happens.
   */
  function ReplayCurrent(s: Session, autoAdvanceAfter: bool): (r: Session)
    ensures s.media.None? || Current(s).None? ==> r == s
    ensures s.media.Some? && Current(s).Some? ==>
      r.media == Some(s.media.value.(currentTime := Current(s).value.startTime as real, playing := true))
      && r.isPlaying && r.shouldAutoAdvance == autoAdvanceAfter
      && r.lineIndex == s.lineIndex && r.mode == s.mode
    ensures Valid(s) ==> Valid(r)
  {
    if s.media.Some? && Current(s).Some? then
      s.(media := Some(s.media.value.(currentTime := Current(s).value.startTime as real, playing := true)),
         isPlaying := true, shouldAutoAdvance := autoAdvanceAfter)
    else s
  }

  /**
   * The play/pause control: pause when the UI believes the video plays;
   * otherwise replay the line in INPUT and FEEDBACK, or just resume in
   * LISTENING.
   */
  function TogglePlay(s: Session): (r: Session)
    ensures s.media.None? ==> r == s
    ensures s.media.Some? && s.isPlaying ==>
      r == s.(media := Some(s.media.value.(playing := false)), isPlaying := false)
    ensures s.media.Some? && !s.isPlaying && s.mode != Listening ==> r == ReplayCurrent(s, false)
    ensures s.media.Some? && !s.isPlaying && s.mode == Listening ==>
      r == s.(media := Some(s.media.value.(playing := true)), isPlaying := true)
    ensures Valid(s) ==> Valid(r)
  {
    if s.media.None? then s
    else if s.isPlaying then s.(media := Some(s.media.value.(playing := false)), isPlaying := false)
    else if s.mode != Listening then ReplayCurrent(s, false)
    else s.(media := Some(s.media.value.(playing := true)), isPlaying := true)
  }

  /**
   * In LISTENING, when the UI's belief agrees with the element, pressing
   * play/pause twice restores the session exactly.
   */
  lemma TogglePlayTwice(s: Session)
    requires s.mode == Listening && s.media.Some? && s.isPlaying == s.media.value.playing
    ensures TogglePlay(TogglePlay(s)) == s
  {
  }

  /** A replayed line is not at its end, so the next poll lets it play on. */
  lemma ReplayThenPollPlays(s: Session, autoAdvanceAfter: bool)
    requires s.media.Some? && Current(s).Some? && Current(s).value.startTime < Current(s).value.endTime
    ensures var r := Poll(ReplayCurrent(s, autoAdvanceAfter));
      r.event == Quiet && r.session.isPlaying && r.session.lineIndex == s.lineIndex
      && r.session.shouldAutoAdvance == autoAdvanceAfter
  {
  }

  /** Whether time `t` lies in a section (its end excluded). */
  predicate InSection(t: real, sec: Section) {
    sec.startTime as real <= t < sec.endTime as real
  }

  /** Whether time `t` lies in a line (its end included). */
  predicate InLine(t: real, sub: Subtitle) {
    sub.startTime as real <= t <= sub.endTime as real
  }

  /** Where a scrub asks the session to go: a section and a line inside it. */
  datatype Target = Target(section: nat, line: nat)

  /** The media after a scrub and the section/line the scrub asks for, if any. */
  datatype Scrub = Scrub(session: Session, target: Option<Target>)

  /** The clock position a slider value (a percentage) stands for. */
  function ScrubTime(value: int, duration: real): real {
    value as real / 100.0 * duration
  }

  /** Section `k` is the first of `secs` containing `t`. */
  predicate FirstSectionAt(t: real, secs: seq<Section>, k: nat) {
    k < |secs| && InSection(t, secs[k]) && forall p :: 0 <= p < k ==> !InSection(t, secs[p])
  }

  /** Line `j` is the first of `subs` containing `t`. */
  predicate FirstLineAt(t: real, subs: seq<Subtitle>, j: nat) {
    j < |subs| && InLine(t, subs[j]) && forall q :: 0 <= q < j ==> !InLine(t, subs[q])
  }

  predicate NoLineAt(t: real, subs: seq<Subtitle>) {
    forall q :: 0 <= q < |subs| ==> !InLine(t, subs[q])
  }

  /** The first section containing `t`, if any. */
  function SectionAt(secs: seq<Section>, t: real): (r: Option<nat>)
    ensures r.Some? ==> FirstSectionAt(t, secs, r.value)
    ensures r.None? <==> forall p :: 0 <= p < |secs| ==> !InSection(t, secs[p])
  {
    FindFirst(secs, (sec: Section) => InSection(t, sec))
  }

  /** The first line containing `t`, if any. */
  function LineAt(subs: seq<Subtitle>, t: real): (r: Option<nat>)
    ensures r.Some? ==> FirstLineAt(t, subs, r.value)
    ensures r.None? <==> NoLineAt(t, subs)
  {
    FindFirst(subs, (sub: Subtitle) => InLine(t, sub))
  }

  /**
   * The progress-bar scrub: with media of known duration, move the clock to
   * the chosen fraction and show the slider value as progress; then the
   * first section containing the new time is looked up. A different section
   * yields its first line containing the time, or its first line if none
   * does; the current section yields a line only when one contains the time.
   */
  function ProgressSeek(s: Session, value: int): (r: Scrub)
    ensures s.media.None? || s.media.value.duration == 0.0 ==> r == Scrub(s, None)
    ensures s.media.Some? && s.media.value.duration != 0.0 ==>
      var t := ScrubTime(value, s.media.value.duration);
      && r.session == s.(media := Some(s.media.value.(currentTime := t)), progress := value as real)
      && (r.target.Some? ==>
            var k := r.target.value.section;
            var j := r.target.value.line;
            && FirstSectionAt(t, s.sections, k)
            && (k != s.sectionIndex ==>
                  FirstLineAt(t, s.sections[k].subtitles, j) || (j == 0 && NoLineAt(t, s.sections[k].subtitles)))
            && (k == s.sectionIndex ==> FirstLineAt(t, s.subtitles, j)))
      && (r.target.None? ==>
            (forall p :: 0 <= p < |s.sections| ==> !InSection(t, s.sections[p]))
            || (0 <= s.sectionIndex && FirstSectionAt(t, s.sections, s.sectionIndex) && NoLineAt(t, s.subtitles)))
  {
    if s.media.None? || s.media.value.duration == 0.0 then Scrub(s, None)
    else
      var t := ScrubTime(value, s.media.value.duration);
      var moved := s.(media := Some(s.media.value.(currentTime := t)), progress := value as real);
      match SectionAt(s.sections, t)
      case None => Scrub(moved, None)
      case Some(k) =>
        if k != s.sectionIndex then
          Scrub(moved, Some(Target(k, LineAt(s.sections[k].subtitles, t).GetOr(0))))
        else
          match LineAt(s.subtitles, t)
          case Some(j) => Scrub(moved, Some(Target(k, j)))
          case None => Scrub(moved, None)
  }
}
