/**
 * Exporting a line to Anki: the padded audio window and its hard
 * boundaries, the media a template asks for, which template an export
 * uses, and the status an export passes through. The browser's recorder,
 * canvas and file reader are reduced to what they hand back.
 */
module Capture {
  import opened Base
  import opened Strings
  import opened Srt
  import opened Practice
  import Storage
  import opened AnkiNote

  /** The Anki configuration: AnkiConnect's address and the two card templates. */
  datatype AnkiConfig = AnkiConfig(url: string, wordCard: Option<Template>, audioCard: Option<Template>)

  /** The stretch of video an audio clip covers, in milliseconds. */
  datatype Window = Window(start: int, end: int)

  /** Why an audio capture fails. */
  datatype CaptureError =
    | StartsBeforeVideo(paddedStart: int)
    | EndsAfterVideo(paddedEnd: int, duration: real)
    | PlaybackRefused

  /**
   * The line widened by the configured padding; a window reaching before
   * the video's start or past its end is an error, never clamped.
   */
  function PaddedWindow(sub: Subtitle, pad: Storage.AudioPadding, duration: real): (r: Result<Window, CaptureError>)
    ensures r.Ok? <==> 0 <= sub.startTime - pad.startPadding && (sub.endTime + pad.endPadding) as real <= duration
    ensures r.Ok? ==> r.value == Window(sub.startTime - pad.startPadding, sub.endTime + pad.endPadding)
    ensures r.Ok? ==> 0 <= r.value.start && r.value.end as real <= duration
    ensures sub.startTime - pad.startPadding < 0 ==> r == Err(StartsBeforeVideo(sub.startTime - pad.startPadding))
    ensures 0 <= sub.startTime - pad.startPadding && (sub.endTime + pad.endPadding) as real > duration ==>
      r == Err(EndsAfterVideo(sub.endTime + pad.endPadding, duration))
  {
    var start := sub.startTime - pad.startPadding;
    var end := sub.endTime + pad.endPadding;
    if start < 0 then Err(StartsBeforeVideo(start))
    else if end as real > duration then Err(EndsAfterVideo(end, duration))
    else Ok(Window(start, end))
  }

  /** A window that fits keeps fitting when the padding is reduced, as the error messages advise. */
  lemma LessPaddingFits(sub: Subtitle, p: Storage.AudioPadding, q: Storage.AudioPadding, duration: real)
    requires PaddedWindow(sub, p, duration).Ok?
    requires q.startPadding <= p.startPadding && q.endPadding <= p.endPadding
    ensures PaddedWindow(sub, q, duration).Ok?
    ensures PaddedWindow(sub, q, duration).value.start >= PaddedWindow(sub, p, duration).value.start
    ensures PaddedWindow(sub, q, duration).value.end <= PaddedWindow(sub, p, duration).value.end
  {
  }

  /**
   * How long after recording starts the stop timer fires: the window's
   * length and a 50 ms buffer, so the stop lands after the window's end
   * and at most 50 ms past it.
   */
  function StopDelay(w: Window): (r: int)
    ensures w.end < w.start + r <= w.end + 50
  {
    w.end - w.start + 50
  }

  /**
   * The stretch of video a recording holds: playback starts at the
   * window's start and runs at normal speed until the stop timer fires.
   */
  function RecordedSpan(w: Window): Window {
    Window(w.start, w.start + StopDelay(w))
  }

  /** `inner` lies inside `outer`. */
  predicate Within(inner: Window, outer: Window) {
    outer.start <= inner.start && inner.end <= outer.end
  }

  /**
   * Whenever a capture hands back a clip, the recording ran past the
   * padded window's end, so it holds the whole window; with paddings that
   * are not negative it holds the whole line too.
   */
  lemma StopCoversWindow(m: Media, sub: Subtitle, pad: Storage.AudioPadding, url: string)
    requires CaptureAudioClip(Some(m), sub, pad, Recorded(url)).0.Ok?
    ensures PaddedWindow(sub, pad, m.duration).Ok?
    ensures var w := PaddedWindow(sub, pad, m.duration).value;
      && Within(w, RecordedSpan(w)) && RecordedSpan(w).end > w.end
      && (0 <= pad.startPadding && 0 <= pad.endPadding ==> Within(Window(sub.startTime, sub.endTime), RecordedSpan(w)))
  {
  }

  /**
   * What the browser hands back for a capture: no capture stream or no
   * audio track, a refused playback, or the recording as a data URL.
   */
  datatype Recorder = NoAudioTrack | Refused | Recorded(dataUrl: string)

  /** The base64 part of a data URL: what follows the first comma, up to any second one. */
  function DataUrlPayload(s: string): (r: string)
    ensures ',' !in s ==> r == s
    ensures ',' in s ==> ',' !in r && |r| < |s|
  {
    if ',' !in s then s
    else
      IndexOfChar(s, ',');
      SplitContains(s, ",");
      SplitPartsLack(s, ",");
      var parts := Split(s, ",");
      assert ',' !in parts[1] by {
        IndexOfChar(parts[1], ',');
      }
      JoinSplit(s, ",");
      PartShorter(parts, ",", 1);
      parts[1]
  }

  /** A part of a joined list is shorter than the joined text when there are several parts. */
  lemma {:induction false} PartShorter(parts: seq<string>, sep: string, k: nat)
    requires |sep| > 0 && |parts| >= 2 && k < |parts|
    ensures |parts[k]| < |Join(parts, sep)|
    decreases |parts|
  {
    if |parts| > 2 && k > 0 {
      PartShorter(parts[1..], sep, k - 1);
      assert parts[1..][k - 1] == parts[k];
    }
  }

  /** A data URL's header is dropped and its payload kept. */
  lemma DataUrlPayloadOf(header: string, payload: string)
    requires ',' !in header && ',' !in payload
    ensures DataUrlPayload(header + "," + payload) == payload
  {
    var s := header + "," + payload;
    assert s[|header|] == ',';
    SplitTwo(header, ",", payload);
  }

  /**
   * captureAudioClip as written: no video gives nothing; the window is
   * checked; without an audio track nothing is recorded; otherwise the clip
   * plays from the window's start, the stop timer pauses the video, and
   * the restore puts back the position and pauses a video that was paused,
   * so a video that was playing stays paused.
   */
  function CaptureAudioClipAsWritten(media: Option<Media>, sub: Subtitle, pad: Storage.AudioPadding, rec: Recorder):
    (r: (Result<Option<string>, CaptureError>, Option<Media>))
    ensures media.None? ==> r == (Ok(None), None)
    ensures media.Some? && PaddedWindow(sub, pad, media.value.duration).Err? ==>
      r == (Err(PaddedWindow(sub, pad, media.value.duration).error), media)
    ensures media.Some? && PaddedWindow(sub, pad, media.value.duration).Ok? && rec != NoAudioTrack ==>
      r.1 == Some(media.value.(playing := false))
  {
    match media
    case None => (Ok(None), None)
    case Some(m) =>
      match PaddedWindow(sub, pad, m.duration)
      case Err(e) => (Err(e), media)
      case Ok(w) =>
        match rec
        case NoAudioTrack => (Ok(None), media)
        case Refused => (Err(PlaybackRefused), Some(m.(playing := false)))
        case Recorded(url) => (Ok(Some(DataUrlPayload(url))), Some(m.(playing := false)))
  }

  /** The restore as written loses playback: a playing video ends up paused. */
  lemma CaptureStopsPlayback(m: Media, sub: Subtitle, pad: Storage.AudioPadding, url: string)
    requires m.playing && PaddedWindow(sub, pad, m.duration).Ok?
    ensures CaptureAudioClipAsWritten(Some(m), sub, pad, Recorded(url)).1 != Some(m)
    ensures CaptureAudioClipAsWritten(Some(m), sub, pad, Recorded(url)).1.value.currentTime == m.currentTime
  {
  }

  /**
   * captureAudioClip with the restore the code sets out to do: position
   * and playback state both come back as they were before the capture.
   */
  function CaptureAudioClip(media: Option<Media>, sub: Subtitle, pad: Storage.AudioPadding, rec: Recorder):
    (r: (Result<Option<string>, CaptureError>, Option<Media>))
    ensures media.None? ==> r.0 == Ok(None)
    ensures media.Some? && PaddedWindow(sub, pad, media.value.duration).Err? ==>
      r.0 == Err(PaddedWindow(sub, pad, media.value.duration).error)
    ensures r.0.Ok? && r.0.value.Some? ==>
      media.Some? && PaddedWindow(sub, pad, media.value.duration).Ok? && rec.Recorded?
      && r.0.value.value == DataUrlPayload(rec.dataUrl)
    ensures rec.Refused? && media.Some? && PaddedWindow(sub, pad, media.value.duration).Ok? ==> r.0 == Err(PlaybackRefused)
  {
    (CaptureAudioClipAsWritten(media, sub, pad, rec).0, media)
  }

  /** The corrected capture leaves the media element as it found it, whatever happens. */
  lemma CaptureRestoresMedia(media: Option<Media>, sub: Subtitle, pad: Storage.AudioPadding, rec: Recorder)
    ensures CaptureAudioClip(media, sub, pad, rec).1 == media
    ensures CaptureAudioClip(media, sub, pad, rec).0 == CaptureAudioClipAsWritten(media, sub, pad, rec).0
  {
  }

  /** Some field of the template is mapped to the app data key. */
  predicate Needs(t: Template, key: string) {
    exists i :: 0 <= i < |t.fieldMapping| && t.fieldMapping[i].key == key
  }

  /** The media captured for a note. */
  datatype Captured = Captured(screenshot: Option<string>, audio: Option<string>)

  /** The capture of a line's media can reach the audio clip. */
  predicate RecordsAudio(media: Option<Media>, template: Option<Template>, includeAudio: bool) {
    template.Some? && includeAudio && Needs(template.value, "audio") && media.Some?
  }

  /**
   * captureMedia as written: nothing without a template; the current frame
   * (`frame`, absent when drawing it fails) when a field wants a
   * screenshot; the audio clip when audio is wanted and asked for, a
   * failed or empty capture leaving it out. The clip is taken with the
   * capture as written, so a recording leaves the video paused.
   */
  function CaptureMediaAsWritten(media: Option<Media>, sub: Subtitle, template: Option<Template>, includeAudio: bool,
                                 pad: Storage.AudioPadding, frame: Option<string>, rec: Recorder): (r: (Captured, Option<Media>))
    ensures template.None? ==> r == (Captured(None, None), media)
    ensures template.Some? ==> r.0.screenshot == (if media.Some? && Needs(template.value, "screenshot") then frame else None)
    ensures r.0.audio.Some? ==>
      RecordsAudio(media, template, includeAudio)
      && r.0.audio.value != "" && rec.Recorded? && r.0.audio.value == DataUrlPayload(rec.dataUrl)
    ensures
      (&& RecordsAudio(media, template, includeAudio)
       && PaddedWindow(sub, pad, media.value.duration).Ok? && rec.Recorded? && DataUrlPayload(rec.dataUrl) != "")
      ==> r.0.audio == Some(DataUrlPayload(rec.dataUrl))
    ensures r.1 != media ==> media.Some? && r.1 == Some(media.value.(playing := false))
    ensures RecordsAudio(media, template, includeAudio) && PaddedWindow(sub, pad, media.value.duration).Ok? && !rec.NoAudioTrack? ==>
      r.1 == Some(media.value.(playing := false))
  {
    match template
    case None => (Captured(None, None), media)
    case Some(t) =>
      var screenshot := if media.Some? && Needs(t, "screenshot") then frame else None;
      if RecordsAudio(media, template, includeAudio) then
        var (result, after) := CaptureAudioClipAsWritten(media, sub, pad, rec);
        var audio := if result.Ok? && result.value.Some? && result.value.value != "" then result.value else None;
        (Captured(screenshot, audio), after)
      else (Captured(screenshot, None), media)
  }

  /**
   * captureMedia over the corrected capture: the same media captured, and
   * the video element left as it was found.
   */
  function CaptureMedia(media: Option<Media>, sub: Subtitle, template: Option<Template>, includeAudio: bool,
                        pad: Storage.AudioPadding, frame: Option<string>, rec: Recorder): (r: (Captured, Option<Media>))
    ensures template.None? ==> r == (Captured(None, None), media)
    ensures r.1 == media
    ensures template.Some? ==> r.0.screenshot == (if media.Some? && Needs(template.value, "screenshot") then frame else None)
    ensures r.0.audio.Some? ==>
      template.Some? && includeAudio && Needs(template.value, "audio") && media.Some?
      && r.0.audio.value != "" && rec.Recorded? && r.0.audio.value == DataUrlPayload(rec.dataUrl)
    ensures
      (&& template.Some? && includeAudio && Needs(template.value, "audio") && media.Some?
       && PaddedWindow(sub, pad, media.value.duration).Ok? && rec.Recorded? && DataUrlPayload(rec.dataUrl) != "")
      ==> r.0.audio == Some(DataUrlPayload(rec.dataUrl))
  {
    (CaptureMediaAsWritten(media, sub, template, includeAudio, pad, frame, rec).0, media)
  }

  /**
   * A recording made while the video plays: as written the video ends up
   * paused, corrected it plays on; both capture the same media.
   */
  lemma CaptureMediaPauses(m: Media, sub: Subtitle, t: Template, pad: Storage.AudioPadding, frame: Option<string>, url: string)
    requires m.playing && Needs(t, "audio") && PaddedWindow(sub, pad, m.duration).Ok?
    ensures var w := CaptureMediaAsWritten(Some(m), sub, Some(t), true, pad, frame, Recorded(url));
      && w.1 == Some(m.(playing := false)) && w.1 != Some(m)
      && CaptureMedia(Some(m), sub, Some(t), true, pad, frame, Recorded(url)) == (w.0, Some(m))
  {
  }

  /** The template a sentence export uses: the audio card, falling back to the word card. */
  function SentenceTemplate(config: AnkiConfig): (r: Option<Template>)
    ensures config.audioCard.Some? ==> r == config.audioCard
    ensures config.audioCard.None? ==> r == config.wordCard
  {
    if config.audioCard.Some? then config.audioCard else config.wordCard
  }

  /** The template a word export uses: the word card first only when no audio is wanted. */
  function WordTemplate(config: AnkiConfig, includeAudio: bool): (r: Option<Template>)
    ensures includeAudio ==> r == SentenceTemplate(config)
    ensures !includeAudio && config.wordCard.Some? ==> r == config.wordCard
    ensures !includeAudio && config.wordCard.None? ==> r == config.audioCard
  {
    if includeAudio then SentenceTemplate(config)
    else if config.wordCard.Some? then config.wordCard else config.audioCard
  }

  /**
   * Either choice finds a template exactly when one is configured, and
   * with a single template configured both choices use it.
   */
  lemma WordTemplateChoice(config: AnkiConfig, includeAudio: bool)
    ensures WordTemplate(config, includeAudio).None? <==> config.wordCard.None? && config.audioCard.None?
    ensures config.wordCard.None? || config.audioCard.None? ==> WordTemplate(config, true) == WordTemplate(config, false)
  {
  }

  /** How an export starts: its template and the status shown while capturing. */
  datatype Begin = Begin(template: Template, status: Status)

  /**
   * The start of a sentence export: refused without a configuration, while
   * another export is under way, or without a template; the status shows
   * recording when the template takes audio and adding otherwise.
   */
  function BeginExport(config: Option<AnkiConfig>, status: Status): (r: Option<Begin>)
    ensures r.None? <==> config.None? || status != Idle || SentenceTemplate(config.value).None?
    ensures r.Some? ==> Some(r.value.template) == SentenceTemplate(config.value)
    ensures r.Some? ==> (r.value.status == Recording <==> Needs(r.value.template, "audio"))
    ensures r.Some? ==> r.value.status in {Recording, Adding}
  {
    if config.None? || status != Idle then None
    else
      match SentenceTemplate(config.value)
      case None => None
      case Some(t) => Some(Begin(t, if Needs(t, "audio") then Recording else Adding))
  }

  /** The data of a line's note: its text, the video's name, its time code, the media. */
  function LineData(sub: Subtitle, videoFileName: Option<string>, c: Captured, word: Option<string>, definition: Option<string>): NoteData {
    var name := if videoFileName.Some? && videoFileName.value != "" then videoFileName.value else "Unknown";
    NoteData(sub.text, name, Storage.FormatTimeCode(sub.startTime as real / 1000.0), c.screenshot, c.audio, word, definition)
  }

  /**
   * The end of an export: the note sent (if any), the status shown, how
   * long until the status falls back to idle, and the media element.
   */
  datatype Export = Export(note: Option<Note>, status: Status, idleAfter: int, media: Option<Media>)

  /**
   * handleAddToAnki as written: it passes AnkiConnect's address where
   * addNote expects the configuration and the template where it expects
   * the data, so reading the field mapping of a text fails and every
   * export that gets past the guards ends in the error status. The media
   * are captured before that with the capture as written, so a recording
   * leaves the video paused.
   */
  function AddToAnkiAsWritten(config: Option<AnkiConfig>, status: Status, sub: Subtitle, videoFileName: Option<string>,
                              media: Option<Media>, pad: Storage.AudioPadding, frame: Option<string>, rec: Recorder): (r: Option<Export>)
    ensures r.Some? <==> BeginExport(config, status).Some?
    ensures r.Some? ==> r.value.note.None? && r.value.status == Failed && r.value.idleAfter == 3000
    ensures r.Some? && r.value.media != media ==> media.Some? && r.value.media == Some(media.value.(playing := false))
    ensures
      (&& r.Some? && media.Some? && Needs(BeginExport(config, status).value.template, "audio")
       && PaddedWindow(sub, pad, media.value.duration).Ok? && !rec.NoAudioTrack?)
      ==> r.value.media == Some(media.value.(playing := false))
  {
    match BeginExport(config, status)
    case None => None
    case Some(b) =>
      var (_, after) := CaptureMediaAsWritten(media, sub, Some(b.template), true, pad, frame, rec);
      Some(Export(None, Failed, 3000, after))
  }

  /**
   * handleAddToAnki with addNote called as it is declared: the note is
   * built from the chosen template and the line; AnkiConnect's answer
   * (`accepted`) decides between success, idle again after 2 s, and
   * error, idle again after 3 s.
   */
  function AddToAnki(config: Option<AnkiConfig>, status: Status, sub: Subtitle, videoFileName: Option<string>,
                     media: Option<Media>, pad: Storage.AudioPadding, frame: Option<string>, rec: Recorder,
                     now: int, accepted: bool): (r: Option<Export>)
    ensures r.Some? <==> BeginExport(config, status).Some?
    ensures r.Some? ==> r.value.note.Some? && r.value.media == media
    ensures r.Some? ==>
      var n := r.value.note.value;
      Some(Template(n.deckName, n.modelName, BeginExport(config, status).value.template.fieldMapping)) == SentenceTemplate(config.value)
    ensures r.Some? ==> (r.value.status == Success <==> accepted) && r.value.status in {Success, Failed}
    ensures r.Some? ==> r.value.idleAfter == (if accepted then 2000 else 3000)
  {
    match BeginExport(config, status)
    case None => None
    case Some(b) =>
      var (c, after) := CaptureMedia(media, sub, Some(b.template), true, pad, frame, rec);
      var note := AddNote(b.template, LineData(sub, videoFileName, c, None, None), now);
      Some(Export(Some(note), if accepted then Success else Failed, if accepted then 2000 else 3000, after))
  }

  /** A field mapped to the sentence receives the exported line's text. */
  lemma ExportCarriesLine(config: Option<AnkiConfig>, sub: Subtitle, videoFileName: Option<string>,
                          media: Option<Media>, pad: Storage.AudioPadding, frame: Option<string>, rec: Recorder,
                          now: int, accepted: bool, field: string)
    requires BeginExport(config, Idle).Some?
    requires DistinctFields(BeginExport(config, Idle).value.template.fieldMapping)
    requires Entry(field, "sentence") in BeginExport(config, Idle).value.template.fieldMapping
    ensures var n := AddToAnki(config, Idle, sub, videoFileName, media, pad, frame, rec, now, accepted).value.note.value;
      field in n.fields && n.fields[field] == sub.text
  {
    var b := BeginExport(config, Idle).value;
    var (c, _) := CaptureMedia(media, sub, Some(b.template), true, pad, frame, rec);
    NoteFields(b.template, LineData(sub, videoFileName, c, None, None), now);
    var i :| 0 <= i < |b.template.fieldMapping| && b.template.fieldMapping[i] == Entry(field, "sentence");
  }

  /**
   * The end of a word export: the note sent (if any), whether the handler
   * rejected, and the media element afterwards.
   */
  datatype WordExport = WordExport(note: Option<Note>, rejected: bool, media: Option<Media>)

  /**
   * handleWordToAnki as written: after the guards it captures the media
   * (with the capture as written) and makes the same mismatched addNote
   * call as the sentence export, with no handler around it. Reading the
   * field mapping of a text fails, so the handler rejects: no note is
   * sent, and no status is touched because this export shows none.
   */
  function WordToAnkiAsWritten(config: Option<AnkiConfig>, sub: Subtitle, includeAudio: bool,
                               media: Option<Media>, pad: Storage.AudioPadding,
                               frame: Option<string>, rec: Recorder): (r: WordExport)
    ensures r.note.None?
    ensures r.rejected <==> config.Some? && WordTemplate(config.value, includeAudio).Some?
    ensures !r.rejected ==> r.media == media
    ensures r.media != media ==> media.Some? && r.media == Some(media.value.(playing := false))
  {
    if config.None? then WordExport(None, false, media)
    else
      match WordTemplate(config.value, includeAudio)
      case None => WordExport(None, false, media)
      case Some(t) =>
        var (_, after) := CaptureMediaAsWritten(media, sub, Some(t), includeAudio, pad, frame, rec);
        WordExport(None, true, after)
  }

  /**
   * Every word export that the corrected handler sends is, as written, a
   * rejection that sends nothing.
   */
  lemma WordExportLost(config: Option<AnkiConfig>, word: string, definition: string, sub: Subtitle, includeAudio: bool,
                       videoFileName: Option<string>, media: Option<Media>, pad: Storage.AudioPadding,
                       frame: Option<string>, rec: Recorder, now: int)
    ensures WordToAnki(config, word, definition, sub, includeAudio, videoFileName, media, pad, frame, rec, now).Some?
      <==> WordToAnkiAsWritten(config, sub, includeAudio, media, pad, frame, rec).rejected
    ensures WordToAnkiAsWritten(config, sub, includeAudio, media, pad, frame, rec).note.None?
  {
  }

  /**
   * handleWordToAnki with addNote called as declared: the note for the
   * word, its definition and the line, built from the word export's
   * template; nothing is sent without a configuration or a template.
   */
  function WordToAnki(config: Option<AnkiConfig>, word: string, definition: string, sub: Subtitle, includeAudio: bool,
                      videoFileName: Option<string>, media: Option<Media>, pad: Storage.AudioPadding,
                      frame: Option<string>, rec: Recorder, now: int): (r: Option<Note>)
    ensures r.None? <==> config.None? || WordTemplate(config.value, includeAudio).None?
    ensures r.Some? ==>
      r.value.deckName == WordTemplate(config.value, includeAudio).value.deckName
      && r.value.modelName == WordTemplate(config.value, includeAudio).value.modelName
    ensures r.Some? && !includeAudio ==> r.value.audio.None?
  {
    if config.None? then None
    else
      match WordTemplate(config.value, includeAudio)
      case None => None
      case Some(t) =>
        var (c, _) := CaptureMedia(media, sub, Some(t), includeAudio, pad, frame, rec);
        NoteMedia(t, LineData(sub, videoFileName, c, Some(word), Some(definition)), now);
        Some(AddNote(t, LineData(sub, videoFileName, c, Some(word), Some(definition)), now))
  }

  /** A field mapped to the word receives the word, and one mapped to the definition the definition. */
  lemma WordNoteFields(config: Option<AnkiConfig>, word: string, definition: string, sub: Subtitle, includeAudio: bool,
                       videoFileName: Option<string>, media: Option<Media>, pad: Storage.AudioPadding,
                       frame: Option<string>, rec: Recorder, now: int, i: nat)
    requires config.Some? && WordTemplate(config.value, includeAudio).Some?
    requires DistinctFields(WordTemplate(config.value, includeAudio).value.fieldMapping)
    requires i < |WordTemplate(config.value, includeAudio).value.fieldMapping|
    ensures var e := WordTemplate(config.value, includeAudio).value.fieldMapping[i];
      var n := WordToAnki(config, word, definition, sub, includeAudio, videoFileName, media, pad, frame, rec, now).value;
      && (e.key == "word" ==> e.field in n.fields && n.fields[e.field] == word)
      && (e.key == "definition" ==> e.field in n.fields && n.fields[e.field] == definition)
  {
    var t := WordTemplate(config.value, includeAudio).value;
    var (c, _) := CaptureMedia(media, sub, Some(t), includeAudio, pad, frame, rec);
    var data := LineData(sub, videoFileName, c, Some(word), Some(definition));
    assert WordToAnki(config, word, definition, sub, includeAudio, videoFileName, media, pad, frame, rec, now)
      == Some(AddNote(t, data, now));
    NoteFields(t, data, now);
    assert TextValue("word", data) == Some(word) && TextValue("definition", data) == Some(definition);
  }
}
