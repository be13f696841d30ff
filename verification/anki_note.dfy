/**
 * Building an Anki note from a card template and the data of one line:
 * each mapped Anki field receives the text of its app data key, and the
 * screenshot and audio keys become media files attached to their fields.
 */
module AnkiNote {
  import opened Base
  import opened Strings
  import Storage

  /** One entry of a template's field mapping: Anki field name and app data key. */
  datatype Entry = Entry(field: string, key: string)

  /**
   * A card template: deck, note type, and the field mapping as the entries
   * of the mapping object in its own order.
   */
  datatype Template = Template(deckName: string, modelName: string, fieldMapping: seq<Entry>)

  /** What a note can be made of; the optional parts may be missing or empty. */
  datatype NoteData = NoteData(
    sentence: string,
    videoName: string,
    timestamp: string,
    screenshot: Option<string>,
    audio: Option<string>,
    word: Option<string>,
    definition: Option<string>)

  /** A media file for AnkiConnect: base64 data, file name, the fields it goes into. */
  datatype MediaFile = MediaFile(data: string, filename: string, fields: seq<string>)

  /** The note handed to AnkiConnect; a media list is absent rather than empty. */
  datatype Note = Note(
    deckName: string,
    modelName: string,
    fields: map<string, string>,
    allowDuplicate: bool,
    duplicateScope: string,
    picture: Option<seq<MediaFile>>,
    audio: Option<seq<MediaFile>>)

  /** An optional text that is there and not empty. */
  predicate Given(s: Option<string>) {
    s.Some? && s.value != ""
  }

  /** An optional text, or the empty text in its absence. */
  function OrEmpty(s: Option<string>): string {
    if s.Some? then s.value else ""
  }

  /** The text an app data key puts into its field; media and unknown keys put none. */
  function TextValue(key: string, data: NoteData): (r: Option<string>)
    ensures r.Some? <==> key in {"sentence", "videoName", "timestamp", "word", "definition", "context"}
    ensures key in {"sentence", "context"} ==> r == Some(data.sentence)
    ensures key == "videoName" ==> r == Some(data.videoName)
    ensures key == "timestamp" ==> r == Some(data.timestamp)
    ensures key == "word" ==> r == Some(OrEmpty(data.word)) && (data.word.None? ==> r == Some(""))
    ensures key == "definition" ==> r == Some(OrEmpty(data.definition)) && (data.definition.None? ==> r == Some(""))
  {
    if key == "sentence" then Some(data.sentence)
    else if key == "videoName" then Some(data.videoName)
    else if key == "timestamp" then Some(data.timestamp)
    else if key == "word" then Some(OrEmpty(data.word))
    else if key == "definition" then Some(OrEmpty(data.definition))
    else if key == "context" then Some(data.sentence)
    else None
  }

  const PngPrefix := "data:image/png;base64,"
  const JpgPrefix := "data:image/jpg;base64,"
  const JpegPrefix := "data:image/jpeg;base64,"

  /** The screenshot's base64 payload: a leading PNG or JPEG data-URL header is removed. */
  function StripImagePrefix(s: string): (r: string)
    ensures |r| <= |s| && s[|s| - |r|..] == r
    ensures r == s || s == PngPrefix + r || s == JpgPrefix + r || s == JpegPrefix + r
    ensures !StartsWith(s, PngPrefix) && !StartsWith(s, JpgPrefix) && !StartsWith(s, JpegPrefix) ==> r == s
  {
    if StartsWith(s, PngPrefix) then s[|PngPrefix|..]
    else if StartsWith(s, JpgPrefix) then s[|JpgPrefix|..]
    else if StartsWith(s, JpegPrefix) then s[|JpegPrefix|..]
    else s
  }

  /** Each header is removed from in front of any payload, and nothing more. */
  lemma StripsHeader(payload: string)
    ensures StripImagePrefix(PngPrefix + payload) == payload
    ensures StripImagePrefix(JpgPrefix + payload) == payload
    ensures StripImagePrefix(JpegPrefix + payload) == payload
  {
    assert (PngPrefix + payload)[..|PngPrefix|] == PngPrefix;
    assert (JpgPrefix + payload)[..|JpgPrefix|] == JpgPrefix;
    assert (JpegPrefix + payload)[..|JpegPrefix|] == JpegPrefix;
    assert (JpgPrefix + payload)[11] == 'j' && PngPrefix[11] == 'p';
    assert (JpegPrefix + payload)[11] == 'j' && PngPrefix[11] == 'p';
    assert (JpegPrefix + payload)[13] == 'e' && JpgPrefix[13] == 'g';
  }

  /** The fields and media lists as the mapping walk has built them so far. */
  datatype Parts = Parts(fields: map<string, string>, picture: seq<MediaFile>, audio: seq<MediaFile>)

  /** One mapping entry's contribution; an entry without an app data key contributes nothing. */
  function AddEntry(p: Parts, e: Entry, data: NoteData, now: int): Parts {
    if e.key == "" then p
    else
      match TextValue(e.key, data)
      case Some(v) => p.(fields := p.fields[e.field := v])
      case None =>
        if e.key == "screenshot" && Given(data.screenshot) then
          p.(picture := p.picture + [MediaFile(StripImagePrefix(data.screenshot.value),
                                               "linguaclip_img_" + Storage.IntToString(now) + ".png", [e.field])])
        else if e.key == "audio" && Given(data.audio) then
          p.(audio := p.audio + [MediaFile(data.audio.value,
                                           "linguaclip_audio_" + Storage.IntToString(now) + ".webm", [e.field])])
        else p
  }

  /** The walk over the mapping entries in order. */
  function Collect(entries: seq<Entry>, data: NoteData, now: int): Parts
    decreases |entries|
  {
    if |entries| == 0 then Parts(map[], [], [])
    else AddEntry(Collect(entries[..|entries| - 1], data, now), entries[|entries| - 1], data, now)
  }

  /**
   * A field is filled exactly when some entry maps it to a text key, and
   * what it holds is the text of such an entry's key.
   */
  lemma {:induction false} CollectFields(entries: seq<Entry>, data: NoteData, now: int)
    ensures forall f :: f in Collect(entries, data, now).fields <==>
      exists i :: 0 <= i < |entries| && entries[i].field == f && TextValue(entries[i].key, data).Some?
    ensures forall f :: f in Collect(entries, data, now).fields ==>
      exists i :: 0 <= i < |entries| && entries[i].field == f
        && TextValue(entries[i].key, data) == Some(Collect(entries, data, now).fields[f])
    decreases |entries|
  {
    if |entries| > 0 {
      var init := entries[..|entries| - 1];
      var last := entries[|entries| - 1];
      assert FieldsFrom(Collect(init, data, now).fields, init, data) by {
        CollectFields(init, data, now);
      }
      assert entries == init + [last];
      FieldsExtend(Collect(init, data, now), init, last, data, now);
    }
  }

  /** The fields are exactly those of entries with a text key, each holding such an entry's text. */
  ghost predicate FieldsFrom(fields: map<string, string>, entries: seq<Entry>, data: NoteData) {
    && (forall f :: f in fields <==>
         exists i :: 0 <= i < |entries| && entries[i].field == f && TextValue(entries[i].key, data).Some?)
    && (forall f :: f in fields ==>
         exists i :: 0 <= i < |entries| && entries[i].field == f && TextValue(entries[i].key, data) == Some(fields[f]))
  }

  /** The fields after one more entry, by whether that entry has a text key. */
  lemma AddEntryFields(p: Parts, last: Entry, data: NoteData, now: int)
    ensures var tv := TextValue(last.key, data);
      AddEntry(p, last, data, now).fields == (if tv.Some? then p.fields[last.field := tv.value] else p.fields)
  {
    if last.key == "" { assert TextValue(last.key, data).None?; }
  }

  lemma FieldsExtend(p: Parts, init: seq<Entry>, last: Entry, data: NoteData, now: int)
    requires FieldsFrom(p.fields, init, data)
    ensures FieldsFrom(AddEntry(p, last, data, now).fields, init + [last], data)
  {
    AddEntryFields(p, last, data, now);
    FieldsKeysExtend(p.fields, init, last, data);
    FieldsValuesExtend(p.fields, init, last, data);
  }

  lemma FieldsKeysExtend(fields: map<string, string>, init: seq<Entry>, last: Entry, data: NoteData)
    requires FieldsFrom(fields, init, data)
    ensures var tv := TextValue(last.key, data);
      var r := if tv.Some? then fields[last.field := tv.value] else fields;
      forall f :: f in r <==>
        exists i :: 0 <= i < |init + [last]| && (init + [last])[i].field == f && TextValue((init + [last])[i].key, data).Some?
  {
    var entries := init + [last];
    var n := |init|;
    assert entries[n] == last;
    var tv := TextValue(last.key, data);
    var r := if tv.Some? then fields[last.field := tv.value] else fields;
    forall f
      ensures f in r <==> exists i :: 0 <= i < |entries| && entries[i].field == f && TextValue(entries[i].key, data).Some?
    {
      if f in r && !(tv.Some? && f == last.field) {
        var i :| 0 <= i < |init| && init[i].field == f && TextValue(init[i].key, data).Some?;
        assert entries[i] == init[i];
      }
      if exists i :: 0 <= i < |entries| && entries[i].field == f && TextValue(entries[i].key, data).Some? {
        var i :| 0 <= i < |entries| && entries[i].field == f && TextValue(entries[i].key, data).Some?;
        if i < n {
          assert entries[i] == init[i];
        }
      }
    }
  }

  lemma FieldsValuesExtend(fields: map<string, string>, init: seq<Entry>, last: Entry, data: NoteData)
    requires FieldsFrom(fields, init, data)
    ensures var tv := TextValue(last.key, data);
      var r := if tv.Some? then fields[last.field := tv.value] else fields;
      forall f :: f in r ==>
        exists i :: 0 <= i < |init + [last]| && (init + [last])[i].field == f && TextValue((init + [last])[i].key, data) == Some(r[f])
  {
    var entries := init + [last];
    var n := |init|;
    assert entries[n] == last;
    var tv := TextValue(last.key, data);
    var r := if tv.Some? then fields[last.field := tv.value] else fields;
    forall f | f in r
      ensures exists i :: 0 <= i < |entries| && entries[i].field == f && TextValue(entries[i].key, data) == Some(r[f])
    {
      if !(tv.Some? && f == last.field) {
        var i :| 0 <= i < |init| && init[i].field == f && TextValue(init[i].key, data) == Some(fields[f]);
        assert entries[i] == init[i];
      }
    }
  }


  /** The two app data keys that attach media rather than fill a field. */
  predicate MediaKey(key: string) {
    key == "screenshot" || key == "audio"
  }

  /** The data a media key draws on. */
  function MediaSource(key: string, data: NoteData): Option<string> {
    if key == "screenshot" then data.screenshot else data.audio
  }

  /** What a media file of that key carries: the screenshot loses its data-URL header. */
  function MediaData(key: string, data: NoteData): string
    requires Given(MediaSource(key, data))
  {
    if key == "screenshot" then StripImagePrefix(data.screenshot.value) else data.audio.value
  }

  /** The list a media key fills. */
  function MediaList(p: Parts, key: string): seq<MediaFile> {
    if key == "screenshot" then p.picture else p.audio
  }

  /**
   * `m` is `m0` after entry `e`: one more file, carrying the key's data and
   * targeting the entry's field, when the entry maps to `key` and the data
   * is given; otherwise `m0` itself.
   */
  predicate Appended(m0: seq<MediaFile>, m: seq<MediaFile>, e: Entry, data: NoteData, key: string)
    requires MediaKey(key)
  {
    if e.key == key && Given(MediaSource(key, data)) then
      |m| == |m0| + 1 && m[..|m0|] == m0 && m[|m0|].data == MediaData(key, data) && m[|m0|].fields == [e.field]
    else m == m0
  }

  /** One entry appends one file to its key's list when the data is given, and touches no other list. */
  lemma AddEntryMedia(p: Parts, e: Entry, data: NoteData, now: int, key: string)
    requires MediaKey(key)
    ensures Appended(MediaList(p, key), MediaList(AddEntry(p, e, data, now), key), e, data, key)
  {
  }

  /**
   * Each file in `m` carries the data of `key` and targets the field of one
   * entry mapped to that key; without the data there is no file.
   */
  predicate FilesFrom(m: seq<MediaFile>, entries: seq<Entry>, data: NoteData, key: string)
    requires MediaKey(key)
  {
    && (!Given(MediaSource(key, data)) ==> m == [])
    && forall j :: 0 <= j < |m| ==>
         Given(MediaSource(key, data)) && m[j].data == MediaData(key, data)
         && |m[j].fields| == 1 && Entry(m[j].fields[0], key) in entries
  }

  /** Every entry mapped to `key` has a file in `m` targeting its field. */
  predicate Covers(m: seq<MediaFile>, entries: seq<Entry>, key: string) {
    forall i :: 0 <= i < |entries| && entries[i].key == key ==>
      exists j :: 0 <= j < |m| && m[j].fields == [entries[i].field]
  }

  /** The media list of a key holds only files drawn from entries of that key. */
  lemma {:induction false} CollectMediaFiles(entries: seq<Entry>, data: NoteData, now: int, key: string)
    requires MediaKey(key)
    ensures FilesFrom(MediaList(Collect(entries, data, now), key), entries, data, key)
    decreases |entries|
  {
    if |entries| > 0 {
      var init := entries[..|entries| - 1];
      var last := entries[|entries| - 1];
      var m0 := MediaList(Collect(init, data, now), key);
      var m := MediaList(Collect(entries, data, now), key);
      assert FilesFrom(m0, init, data, key) by {
        CollectMediaFiles(init, data, now, key);
      }
      assert Appended(m0, m, last, data, key) by {
        assert Collect(entries, data, now) == AddEntry(Collect(init, data, now), last, data, now);
        AddEntryMedia(Collect(init, data, now), last, data, now, key);
      }
      assert entries == init + [last];
      FilesFromExtend(m0, m, init, last, data, key);
    }
  }

  lemma FilesFromExtend(m0: seq<MediaFile>, m: seq<MediaFile>, init: seq<Entry>, last: Entry, data: NoteData, key: string)
    requires MediaKey(key) && FilesFrom(m0, init, data, key) && Appended(m0, m, last, data, key)
    ensures FilesFrom(m, init + [last], data, key)
  {
    forall j | 0 <= j < |m|
      ensures Given(MediaSource(key, data)) && m[j].data == MediaData(key, data)
        && |m[j].fields| == 1 && Entry(m[j].fields[0], key) in init + [last]
    {
      if j < |m0| {
        assert m[j] == m0[j] by { assert m[..|m0|][j] == m0[j]; }
      }
    }
  }

  /** With the data given, every entry mapped to a media key has a file targeting its field. */
  lemma {:induction false} CollectMediaCovers(entries: seq<Entry>, data: NoteData, now: int, key: string)
    requires MediaKey(key) && Given(MediaSource(key, data))
    ensures Covers(MediaList(Collect(entries, data, now), key), entries, key)
    decreases |entries|
  {
    if |entries| > 0 {
      var init := entries[..|entries| - 1];
      var last := entries[|entries| - 1];
      var m0 := MediaList(Collect(init, data, now), key);
      var m := MediaList(Collect(entries, data, now), key);
      assert Covers(m0, init, key) by {
        CollectMediaCovers(init, data, now, key);
      }
      assert Appended(m0, m, last, data, key) by {
        assert Collect(entries, data, now) == AddEntry(Collect(init, data, now), last, data, now);
        AddEntryMedia(Collect(init, data, now), last, data, now, key);
      }
      assert entries == init + [last];
      CoversExtend(m0, m, init, last, data, key);
    }
  }

  lemma CoversExtend(m0: seq<MediaFile>, m: seq<MediaFile>, init: seq<Entry>, last: Entry, data: NoteData, key: string)
    requires MediaKey(key) && Given(MediaSource(key, data))
    requires Covers(m0, init, key) && Appended(m0, m, last, data, key)
    ensures Covers(m, init + [last], key)
  {
    var entries := init + [last];
    forall i | 0 <= i < |entries| && entries[i].key == key
      ensures exists j :: 0 <= j < |m| && m[j].fields == [entries[i].field]
    {
      if i < |init| {
        assert init[i] == entries[i];
        var j :| 0 <= j < |m0| && m0[j].fields == [init[i].field];
        assert m[j] == m0[j] by { assert m[..|m0|][j] == m0[j]; }
      } else {
        assert m[|m0|].fields == [last.field];
      }
    }
  }

  /** The note for a template: the walk's fields, and media lists only when not empty. */
  function AddNote(t: Template, data: NoteData, now: int): (r: Note)
    ensures r.deckName == t.deckName && r.modelName == t.modelName
    ensures r.allowDuplicate && r.duplicateScope == "deck"
    ensures r.picture.Some? ==> |r.picture.value| > 0
    ensures r.audio.Some? ==> |r.audio.value| > 0
  {
    var p := Collect(t.fieldMapping, data, now);
    Note(t.deckName, t.modelName, p.fields, true, "deck",
         if |p.picture| > 0 then Some(p.picture) else None,
         if |p.audio| > 0 then Some(p.audio) else None)
  }

  /** Each Anki field is named once in a mapping. */
  predicate DistinctFields(entries: seq<Entry>) {
    forall i, j :: 0 <= i < |entries| && 0 <= j < |entries| && entries[i].field == entries[j].field ==> i == j
  }

  /**
   * The note's fields: exactly the fields mapped to a text key, each holding
   * the text of its own key; media keys, unknown keys and empty keys fill
   * no field.
   */
  lemma NoteFields(t: Template, data: NoteData, now: int)
    requires DistinctFields(t.fieldMapping)
    ensures var r := AddNote(t, data, now);
      forall i :: 0 <= i < |t.fieldMapping| ==>
        var e := t.fieldMapping[i];
        (e.field in r.fields <==> TextValue(e.key, data).Some?)
        && (e.field in r.fields ==> r.fields[e.field] == TextValue(e.key, data).value)
    ensures forall f :: f in AddNote(t, data, now).fields ==> exists i :: 0 <= i < |t.fieldMapping| && t.fieldMapping[i].field == f
  {
    CollectFields(t.fieldMapping, data, now);
  }

  /**
   * A picture is attached exactly when a screenshot is given and some field
   * is mapped to it; the same for audio.
   */
  lemma NoteMedia(t: Template, data: NoteData, now: int)
    ensures var r := AddNote(t, data, now);
      && (r.picture.Some? <==> Given(data.screenshot) && exists i :: 0 <= i < |t.fieldMapping| && t.fieldMapping[i].key == "screenshot")
      && (r.audio.Some? <==> Given(data.audio) && exists i :: 0 <= i < |t.fieldMapping| && t.fieldMapping[i].key == "audio")
  {
    var p := Collect(t.fieldMapping, data, now);
    assert MediaList(p, "screenshot") == p.picture && MediaList(p, "audio") == p.audio;
    CollectMediaFiles(t.fieldMapping, data, now, "screenshot");
    CollectMediaFiles(t.fieldMapping, data, now, "audio");
    if Given(data.screenshot) {
      CollectMediaCovers(t.fieldMapping, data, now, "screenshot");
    }
    if Given(data.audio) {
      CollectMediaCovers(t.fieldMapping, data, now, "audio");
    }
    if |p.picture| > 0 {
      assert Entry(p.picture[0].fields[0], "screenshot") in t.fieldMapping;
    }
    if |p.audio| > 0 {
      assert Entry(p.audio[0].fields[0], "audio") in t.fieldMapping;
    }
  }
}
