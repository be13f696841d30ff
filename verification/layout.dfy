/**
 * The practice screen's routing: which panel shows, where a finished
 * answer goes, the section selector, the play overlay, the export button
 * and the audio padding control.
 */
module Layout {
  import opened Base
  import opened Srt
  import opened Practice
  import Player
  import Actions
  import Storage
  import Capture

  /** The answer panel: the listening prompt, the answer boxes for a line, or the end of the content. */
  datatype Panel = ListenPrompt | AnswerBoxes(target: string, mode: Mode) | EndOfContent

  /**
   * Without a current line the content has ended; in LISTENING the learner
   * is asked to listen; otherwise the answer boxes show, for the current
   * line, in INPUT or FEEDBACK.
   */
  function PanelFor(s: Session): (r: Panel)
    ensures r == EndOfContent <==> Current(s).None?
    ensures r == ListenPrompt <==> Current(s).Some? && s.mode == Listening
    ensures r.AnswerBoxes? <==> Current(s).Some? && s.mode != Listening
    ensures r.AnswerBoxes? ==> r.target == Current(s).value.text && r.mode == s.mode
  {
    match Current(s)
    case None => EndOfContent
    case Some(sub) => if s.mode == Listening then ListenPrompt else AnswerBoxes(sub.text, s.mode)
  }

  /**
   * The answer boxes report a finished answer: a correct one continues
   * straight on, without the feedback, and a wrong one shows the feedback.
   */
  function OnComplete(s: Session, correct: bool): (r: Step)
    ensures !correct ==> r == Step(s.(mode := Feedback), Quiet)
    ensures correct ==> r == Continue(s)
  {
    if correct then Continue(s) else Step(Actions.InputComplete(s, correct), Quiet)
  }

  /**
   * Before the last line, a correct answer moves to the next line in
   * LISTENING and never shows the feedback; a wrong one stays on the line
   * in FEEDBACK.
   */
  lemma CorrectSkipsFeedback(s: Session, correct: bool)
    requires Valid(s) && s.mode == Input && s.lineIndex < |s.subtitles| - 1
    ensures var r := OnComplete(s, correct).session;
      (correct ==> r.lineIndex == s.lineIndex + 1 && r.mode == Listening && PanelFor(r) == ListenPrompt)
      && (!correct ==> r.lineIndex == s.lineIndex && r.mode == Feedback && PanelFor(r).AnswerBoxes?)
  {
  }

  /** The section selector: whether its previous and next buttons can be pressed. */
  datatype Selector = Selector(prevEnabled: bool, nextEnabled: bool)

  /** Shown only with more than one section; each button is disabled at its end. */
  function SelectorFor(s: Session): (r: Option<Selector>)
    ensures r.Some? <==> |s.sections| > 1
    ensures r.Some? ==> (r.value.prevEnabled <==> s.sectionIndex != 0)
    ensures r.Some? ==> (r.value.nextEnabled <==> s.sectionIndex != |s.sections| - 1)
  {
    if |s.sections| > 1 then Some(Selector(s.sectionIndex != 0, s.sectionIndex != |s.sections| - 1)) else None
  }

  /** An enabled selector button always asks for a section that exists, and gets it. */
  lemma SelectorStaysInRange(s: Session)
    requires Valid(s) && SelectorFor(s).Some?
    ensures SelectorFor(s).value.prevEnabled ==> SwitchSection(s, s.sectionIndex - 1).sectionIndex == s.sectionIndex - 1
    ensures SelectorFor(s).value.nextEnabled ==> SwitchSection(s, s.sectionIndex + 1).sectionIndex == s.sectionIndex + 1
    ensures Valid(SwitchSection(s, s.sectionIndex - 1)) && Valid(SwitchSection(s, s.sectionIndex + 1))
  {
  }

  /**
   * The big play button over the video: shown while nothing plays in
   * LISTENING, unless audio is being recorded or the section-complete
   * dialog is up.
   */
  predicate PlayOverlay(s: Session) {
    !s.isPlaying && s.mode == Listening && s.status != Recording && !s.showSectionComplete
  }

  /** Pressing the overlay starts playback, which takes the overlay away. */
  lemma OverlayPressHides(s: Session)
    requires PlayOverlay(s) && s.media.Some?
    ensures Player.TogglePlay(s).isPlaying && !PlayOverlay(Player.TogglePlay(s))
    ensures Player.TogglePlay(s).media.value.playing
  {
  }

  /** The export button: absent without a configuration, and pressable only when idle. */
  function AddButton(config: Option<Capture.AnkiConfig>, status: Status): (r: Option<bool>)
    ensures r.Some? <==> config.Some?
    ensures r == Some(true) <==> config.Some? && status == Idle
  {
    if config.None? then None else Some(status == Idle)
  }

  /** Pressing the enabled button starts an export exactly when a card template is configured. */
  lemma EnabledButtonExports(config: Option<Capture.AnkiConfig>, status: Status)
    requires AddButton(config, status) == Some(true)
    ensures Capture.BeginExport(config, status).Some? <==> Capture.SentenceTemplate(config.value).Some?
  {
  }

  /** The two fields of the audio padding control. */
  datatype PaddingField = StartPadding | EndPadding

  /** Setting one padding field to a new value; the other keeps its value. */
  function PaddingChange(p: Storage.AudioPadding, field: PaddingField, value: int): (r: Storage.AudioPadding)
    ensures field == StartPadding ==> r.startPadding == value && r.endPadding == p.endPadding
    ensures field == EndPadding ==> r.endPadding == value && r.startPadding == p.startPadding
  {
    match field
    case StartPadding => p.(startPadding := value)
    case EndPadding => p.(endPadding := value)
  }

  /**
   * A padding change moves only its own end of a line's capture window:
   * the start padding moves the start, the end padding the end.
   */
  lemma PaddingMovesOneEnd(p: Storage.AudioPadding, field: PaddingField, value: int, sub: Subtitle, duration: real)
    requires Capture.PaddedWindow(sub, p, duration).Ok?
    requires Capture.PaddedWindow(sub, PaddingChange(p, field, value), duration).Ok?
    ensures var w := Capture.PaddedWindow(sub, p, duration).value;
      var w2 := Capture.PaddedWindow(sub, PaddingChange(p, field, value), duration).value;
      (field == StartPadding ==> w2.end == w.end && w2.start == sub.startTime - value)
      && (field == EndPadding ==> w2.start == w.start && w2.end == sub.endTime + value)
  {
  }

  /** Setting a field back to its old value restores the padding. */
  lemma PaddingChangeBack(p: Storage.AudioPadding, field: PaddingField, value: int)
    ensures PaddingChange(PaddingChange(p, field, value), field,
                          if field == StartPadding then p.startPadding else p.endPadding) == p
  {
  }
}
