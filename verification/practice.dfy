/**
 * The practice session: the state shared by the session, player, action and
 * export hooks, and the session hook's own transitions (switching section,
 * continuing to the next line, moving on to the next section).
 *
 * Times are integer milliseconds for subtitles and sections; the media
 * element's clock is a `real` number of milliseconds, so that a seek to an
 * arbitrary fraction of the duration is represented exactly.
 */
module Practice {
  import opened Base
  import opened Srt

  /** Per-line phase: the line plays, the learner types, the answer is shown. */
  datatype Mode = Listening | Input | Feedback

  /** Export status of the current line ('error' is `Failed`). */
  datatype Status = Idle | Recording | Adding | Success | Failed

  /** A contiguous stretch of the video with the subtitle lines inside it. */
  datatype Section = Section(id: nat, name: string, startTime: int, endTime: int, subtitles: seq<Subtitle>)

  /** The media element: its clock, its length and whether it plays. */
  datatype Media = Media(currentTime: real, duration: real, playing: bool)

  /**
   * Everything a practice handler reads or writes. `isPlaying` is the UI's
   * belief about playback and `media.playing` the element's own state; the
   * two are distinct because some handlers change only one of them.
   */
  datatype Session = Session(
    fullSubtitles: seq<Subtitle>,
    subtitles: seq<Subtitle>,
    sections: seq<Section>,
    sectionIndex: int,
    lineIndex: int,
    mode: Mode,
    showSectionComplete: bool,
    shouldAutoAdvance: bool,
    isPlaying: bool,
    progress: real,
    status: Status,
    showSavedList: bool,
    media: Option<Media>)

  /** What a handler reports beyond the state: the end of a section or of the video. */
  datatype Event = Quiet | SectionDone | PracticeDone

  datatype Step = Step(session: Session, event: Event)

  /**
   * The session's indices are usable: the line index points into the
   * active lines (or is 0 when there are none), and once sections exist the
   * section index points into them and the active lines are that section's.
   */
  predicate Valid(s: Session) {
    0 <= s.lineIndex && (|s.subtitles| == 0 || s.lineIndex < |s.subtitles|)
    && (|s.sections| > 0 ==>
          0 <= s.sectionIndex < |s.sections| && s.subtitles == s.sections[s.sectionIndex].subtitles)
  }

  /** The current line, absent when the index is outside the active lines. */
  function Current(s: Session): Option<Subtitle> {
    if 0 <= s.lineIndex < |s.subtitles| then Some(s.subtitles[s.lineIndex]) else None
  }

  /** State before any video is loaded. */
  function Initial(media: Option<Media>): (r: Session)
    ensures Valid(r)
    ensures r.sectionIndex == 0 && r.lineIndex == 0 && r.mode == Listening
    ensures !r.showSectionComplete && !r.shouldAutoAdvance && !r.isPlaying && r.status == Idle
    ensures r.subtitles == [] && r.sections == [] && Current(r).None?
  {
    Session([], [], [], 0, 0, Listening, false, false, false, 0.0, Idle, false, media)
  }

  /** Where the media is positioned when a section is entered. */
  function SectionStart(sec: Section): int {
    if |sec.subtitles| > 0 then sec.subtitles[0].startTime else sec.startTime
  }

  /**
   * Enter section `i`: its lines become active from the first, in
   * LISTENING; the UI stops believing the video plays and the media is
   * moved to the section's start, but the element itself is not paused.
   */
  function SwitchSection(s: Session, i: int): (r: Session)
    ensures i < 0 || i >= |s.sections| ==> r == s
    ensures 0 <= i < |s.sections| ==>
      r.sectionIndex == i && r.subtitles == s.sections[i].subtitles && r.lineIndex == 0
      && r.mode == Listening && !r.showSectionComplete && !r.isPlaying
    ensures 0 <= i < |s.sections| && s.media.Some? ==>
      r.media == Some(s.media.value.(currentTime := SectionStart(s.sections[i]) as real))
    ensures 0 <= i < |s.sections| && |s.sections[i].subtitles| > 0 ==>
      Current(r) == Some(s.sections[i].subtitles[0])
    ensures Valid(s) ==> Valid(r)
    ensures r.sections == s.sections && r.fullSubtitles == s.fullSubtitles && r.status == s.status
  {
    if i < 0 || i >= |s.sections| then s
    else
      var sec := s.sections[i];
      s.(sectionIndex := i, subtitles := sec.subtitles, lineIndex := 0, mode := Listening,
         showSectionComplete := false, isPlaying := false,
         media := match s.media
                  case None => None
                  case Some(m) => Some(m.(currentTime := SectionStart(sec) as real)))
  }

  /**
   * Continue after a line: move to the next line in LISTENING with a fresh
   * export status; on the last line, announce the end of the section (or,
   * in the last section, of the whole video) without moving.
   */
  function Continue(s: Session): (r: Step)
    ensures s.lineIndex < |s.subtitles| - 1 ==>
      r == Step(s.(lineIndex := s.lineIndex + 1, mode := Listening, status := Idle), Quiet)
    ensures s.lineIndex >= |s.subtitles| - 1 ==> r.session.lineIndex == s.lineIndex
    ensures s.lineIndex >= |s.subtitles| - 1 && s.sectionIndex < |s.sections| - 1 ==>
      r == Step(s.(showSectionComplete := true), SectionDone)
    ensures s.lineIndex >= |s.subtitles| - 1 && s.sectionIndex >= |s.sections| - 1 ==>
      r == Step(s, PracticeDone)
    ensures Valid(s) ==> Valid(r.session)
  {
    if s.lineIndex < |s.subtitles| - 1 then
      Step(s.(lineIndex := s.lineIndex + 1, mode := Listening, status := Idle), Quiet)
    else if s.sectionIndex < |s.sections| - 1 then
      Step(s.(showSectionComplete := true), SectionDone)
    else
      Step(s, PracticeDone)
  }

  /** Go on to the section after the current one. */
  function NextSection(s: Session): (r: Session)
    ensures s.sectionIndex + 1 >= |s.sections| ==> r == s
    ensures Valid(s) ==> Valid(r)
  {
    SwitchSection(s, s.sectionIndex + 1)
  }

  /** Entering the same section twice is the same as entering it once. */
  lemma SwitchSectionIdempotent(s: Session, i: int)
    ensures SwitchSection(SwitchSection(s, i), i) == SwitchSection(s, i)
  {
  }

  /** Continuing `n` times in a row. */
  function ContinueTimes(s: Session, n: nat): Session
    decreases n
  {
    if n == 0 then s else ContinueTimes(Continue(s).session, n - 1)
  }

  /**
   * While lines remain, each Continue moves exactly one line forward and
   * touches nothing but the line index, mode and status.
   */
  lemma {:induction false} ContinueWalks(s: Session, n: nat)
    requires s.lineIndex + n <= |s.subtitles| - 1
    ensures n > 0 ==>
      ContinueTimes(s, n) == s.(lineIndex := s.lineIndex + n, mode := Listening, status := Idle)
    decreases n
  {
    if n > 0 {
      var s1 := Continue(s).session;
      assert s1 == s.(lineIndex := s.lineIndex + 1, mode := Listening, status := Idle);
      ContinueWalks(s1, n - 1);
    }
  }

  /**
   * From any line, Continue reaches the last line of the section, and the
   * next Continue ends the section (or the practice, in the last section)
   * while staying on that last line.
   */
  lemma ContinueReachesEnd(s: Session)
    requires Valid(s) && |s.subtitles| > 0
    ensures var last := ContinueTimes(s, |s.subtitles| - 1 - s.lineIndex);
      last.lineIndex == |s.subtitles| - 1
      && Continue(last).session.lineIndex == |s.subtitles| - 1
      && Continue(last).event == (if s.sectionIndex < |s.sections| - 1 then SectionDone else PracticeDone)
  {
    var n := |s.subtitles| - 1 - s.lineIndex;
    ContinueWalks(s, n);
  }

  /** In the last section, moving to the next section does nothing. */
  lemma NextSectionAtLast(s: Session)
    requires Valid(s) && |s.sections| > 0 && s.sectionIndex == |s.sections| - 1
    ensures NextSection(s) == s
  {
  }
}
