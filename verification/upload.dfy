/**
 * The upload form: recognising video and subtitle files by extension, the
 * two selections it keeps, and the start guard.
 */
module Upload {
  import opened Base
  import opened Chars
  import opened Strings

  /** A chosen file, known by its name. */
  datatype File = File(name: string)

  datatype FileKind = Video | Subtitle | Other

  /** The kind a file name announces, by its lower-cased extension. */
  function KindOf(name: string): FileKind {
    var n := LowerStr(name);
    if EndsWith(n, ".mp4") || EndsWith(n, ".webm") || EndsWith(n, ".mkv") then Video
    else if EndsWith(n, ".srt") || EndsWith(n, ".txt") then Subtitle
    else Other
  }

  /**
   * The extension decides, whatever its case and whatever the rest of the
   * name: ".MP4" is a video, ".SRT" a subtitle, ".png" neither.
   */
  lemma KindIgnoresCase(stem: string)
    ensures KindOf(stem + ".MP4") == Video && KindOf(stem + ".SRT") == Subtitle
    ensures KindOf(stem + ".png") == Other
  {
    var l := LowerStr(stem);
    assert LowerStr(stem + ".MP4") == l + ".mp4" by {
      LowerStrAppend(stem, ".MP4");
    }
    assert LowerStr(stem + ".SRT") == l + ".srt" by {
      LowerStrAppend(stem, ".SRT");
    }
    assert LowerStr(stem + ".png") == l + ".png" by {
      LowerStrAppend(stem, ".png");
    }
    ExtensionOf(l, ".mp4");
    ExtensionOf(l, ".srt");
    ExtensionOf(l, ".png");
  }

  /** Which of the recognised extensions a name ending in `ext` (four characters) has. */
  lemma ExtensionOf(l: string, ext: string)
    requires |ext| == 4
    ensures var n := l + ext;
      && (EndsWith(n, ".mp4") <==> ext == ".mp4") && (EndsWith(n, ".mkv") <==> ext == ".mkv")
      && (EndsWith(n, ".srt") <==> ext == ".srt") && (EndsWith(n, ".txt") <==> ext == ".txt")
      && (EndsWith(n, ".webm") ==> ext[1..] == "ebm" || ext[3] == 'm')
  {
    var n := l + ext;
    assert n[|n| - 4..] == ext;
    if EndsWith(n, ".webm") {
      assert n[|n| - 1] == 'm';
    }
  }

  /** `r` is the position of the last `k` in `kinds`, or absent when there is none. */
  predicate LastAt(kinds: seq<FileKind>, k: FileKind, r: Option<nat>) {
    match r
    case None => forall j :: 0 <= j < |kinds| ==> kinds[j] != k
    case Some(i) => i < |kinds| && kinds[i] == k && forall j :: i < j < |kinds| ==> kinds[j] != k
  }

  /** `r` is the last file of kind `k` in `files`, or absent when there is none. */
  ghost predicate LastOfKind(files: seq<File>, k: FileKind, r: Option<File>) {
    exists p: Option<nat> :: LastAt(KindsOf(files), k, p) && r == (if p.Some? then Some(files[p.value]) else None)
  }

  /** The kind of each file. */
  function KindsOf(files: seq<File>): (r: seq<FileKind>)
    ensures |r| == |files|
  {
    seq(|files|, j requires 0 <= j < |files| => KindOf(files[j].name))
  }

  /** One pass over the kinds, remembering the last video and the last subtitle seen. */
  method LastPositions(kinds: seq<FileKind>) returns (video: Option<nat>, subtitle: Option<nat>)
    ensures LastAt(kinds, Video, video) && LastAt(kinds, Subtitle, subtitle)
  {
    video, subtitle := None, None;
    var i := 0;
    while i < |kinds|
      invariant 0 <= i <= |kinds|
      invariant LastAt(kinds[..i], Video, video) && LastAt(kinds[..i], Subtitle, subtitle)
    {
      if kinds[i] == Video {
        video := Some(i);
      } else if kinds[i] == Subtitle {
        subtitle := Some(i);
      }
      i := i + 1;
    }
    assert kinds[..i] == kinds;
  }

  /** A multiple selection: the last video file and the last subtitle file in it. */
  method Detect(files: seq<File>) returns (video: Option<File>, subtitle: Option<File>)
    ensures LastOfKind(files, Video, video)
    ensures LastOfKind(files, Subtitle, subtitle)
  {
    var kinds := KindsOf(files);
    var v, s := LastPositions(kinds);
    video := if v.Some? then Some(files[v.value]) else None;
    subtitle := if s.Some? then Some(files[s.value]) else None;
  }

  /** The chosen video, the chosen subtitle, and whether both came from one selection. */
  datatype Form = Form(video: Option<File>, subtitle: Option<File>, autoDetected: bool)

  /**
   * `r` is `form` after the selection `files`: the last file of each kind
   * replaces the stored one, and the pair is marked as detected together
   * when both kinds were present.
   */
  ghost predicate Selected(form: Form, files: seq<File>, r: Form) {
    exists v: Option<File>, s: Option<File> ::
      LastOfKind(files, Video, v) && LastOfKind(files, Subtitle, s)
      && r.video == (if v.Some? then v else form.video)
      && r.subtitle == (if s.Some? then s else form.subtitle)
      && r.autoDetected == (if v.Some? && s.Some? then true else form.autoDetected)
  }

  /**
   * A multiple selection: each detected kind replaces the stored file of
   * that kind, and the pair counts as detected together only when both
   * kinds were in the selection.
   */
  method SelectMultiple(form: Form, files: seq<File>) returns (r: Form)
    ensures Selected(form, files, r)
  {
    var v, s := Detect(files);
    r := form;
    if v.Some? {
      r := r.(video := v);
    }
    if s.Some? {
      r := r.(subtitle := s);
      if v.Some? {
        r := r.(autoDetected := true);
      }
    }
  }

  /** There is at most one last position of a kind. */
  lemma LastAtUnique(kinds: seq<FileKind>, k: FileKind, a: Option<nat>, b: Option<nat>)
    requires LastAt(kinds, k, a) && LastAt(kinds, k, b)
    ensures a == b
  {
  }

  /**
   * Choosing a single video (handleVideoFileSelect) replaces it and
   * forgets that the pair was detected together. The video zone never
   * calls it: every non-empty selection there goes to SelectMultiple.
   */
  function SelectVideo(form: Form, f: File): (r: Form)
    ensures r.video == Some(f) && !r.autoDetected && r.subtitle == form.subtitle
  {
    form.(video := Some(f), autoDetected := false)
  }

  /** Starting practice hands over both files, and is refused while either is missing. */
  function Start(form: Form): (r: Option<(File, File)>)
    ensures r.Some? <==> form.video.Some? && form.subtitle.Some?
    ensures r.Some? ==> r.value == (form.video.value, form.subtitle.value)
  {
    if form.video.Some? && form.subtitle.Some? then Some((form.video.value, form.subtitle.value)) else None
  }

  /** After a selection holding both a video and a subtitle, practice can start with them. */
  lemma PairSelectionStarts(form: Form, r: Form, files: seq<File>, vi: nat, si: nat)
    requires vi < |files| && si < |files|
    requires KindOf(files[vi].name) == Video && KindOf(files[si].name) == Subtitle
    requires Selected(form, files, r)
    ensures Start(r).Some? && r.autoDetected
  {
    var v: Option<File>, s: Option<File> :|
      LastOfKind(files, Video, v) && LastOfKind(files, Subtitle, s)
      && r.video == (if v.Some? then v else form.video)
      && r.subtitle == (if s.Some? then s else form.subtitle)
      && r.autoDetected == (if v.Some? && s.Some? then true else form.autoDetected);
    assert KindsOf(files)[vi] == Video && KindsOf(files)[si] == Subtitle;
  }

  /**
   * Files dropped on, or picked in, the video zone. The zone accepts
   * several files, so every non-empty selection, a single file included,
   * goes to the multiple-selection handler; an empty one changes nothing.
   */
  method ChooseVideoFiles(form: Form, files: seq<File>) returns (r: Form)
    ensures |files| == 0 ==> r == form
    ensures |files| > 0 ==> Selected(form, files, r)
  {
    if |files| > 0 {
      r := SelectMultiple(form, files);
    } else {
      r := form;
    }
  }

  /**
   * Files dropped on, or picked in, the subtitle zone: the first file
   * becomes the subtitle whatever its extension, and the detected mark is
   * left as it was.
   */
  function ChooseSubtitleFile(form: Form, files: seq<File>): (r: Form)
    ensures r.video == form.video && r.autoDetected == form.autoDetected
    ensures |files| == 0 ==> r == form
    ensures |files| > 0 ==> r.subtitle == Some(files[0])
  {
    if |files| > 0 then form.(subtitle := Some(files[0])) else form
  }

  /** In a selection of one file, the last file of its kind is that file, and there is none of any other kind. */
  lemma LastOfSingle(f: File, k: FileKind, v: Option<File>)
    requires LastOfKind([f], k, v)
    ensures v == (if KindOf(f.name) == k then Some(f) else None)
  {
    var p: Option<nat> :| LastAt(KindsOf([f]), k, p) && v == (if p.Some? then Some([f][p.value]) else None);
    assert KindsOf([f])[0] == KindOf(f.name);
  }

  /**
   * One file chosen in the video zone: a video or a subtitle replaces the
   * stored file of its kind, anything else is ignored, and the detected
   * mark is never touched.
   */
  lemma SinglePick(form: Form, f: File, r: Form)
    requires Selected(form, [f], r)
    ensures r.autoDetected == form.autoDetected
    ensures KindOf(f.name) == Video ==> r == form.(video := Some(f))
    ensures KindOf(f.name) == Subtitle ==> r == form.(subtitle := Some(f))
    ensures KindOf(f.name) == Other ==> r == form
  {
    var v: Option<File>, s: Option<File> :|
      LastOfKind([f], Video, v) && LastOfKind([f], Subtitle, s)
      && r.video == (if v.Some? then v else form.video)
      && r.subtitle == (if s.Some? then s else form.subtitle)
      && r.autoDetected == (if v.Some? && s.Some? then true else form.autoDetected);
    LastOfSingle(f, Video, v);
    LastOfSingle(f, Subtitle, s);
  }

  /** A ".mov" file is neither a video nor a subtitle, so picking one alone changes nothing. */
  lemma MovIgnored(form: Form, stem: string, r: Form)
    requires Selected(form, [File(stem + ".mov")], r)
    ensures KindOf(stem + ".mov") == Other && r == form
  {
    assert LowerStr(stem + ".mov") == LowerStr(stem) + ".mov" by {
      LowerStrAppend(stem, ".mov");
    }
    ExtensionOf(LowerStr(stem), ".mov");
    SinglePick(form, File(stem + ".mov"), r);
  }

  /**
   * Picking one video after a pair was detected keeps the detected mark,
   * where handleVideoFileSelect would have cleared it.
   */
  lemma PickedVideoKeepsMark(form: Form, f: File, r: Form)
    requires form.autoDetected && KindOf(f.name) == Video && Selected(form, [f], r)
    ensures r.video == SelectVideo(form, f).video && r.autoDetected && !SelectVideo(form, f).autoDetected
  {
    SinglePick(form, f, r);
  }
}
