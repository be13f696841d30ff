/**
 * The saved-line bookkeeping of a practice session: which lines of the
 * video are marked as saved (by id), and how marking, unmarking and
 * deleting keep the saved-lines store in step (by text).
 */
module SavedLines {
  import opened Base
  import opened Srt
  import opened Storage

  /** The ids marked in this session and the store they mirror. */
  datatype Saved = Saved(ids: set<nat>, store: seq<SavedLine>)

  /** The saved lines of the video, in the video's order. */
  function SavedItems(full: seq<Subtitle>, ids: set<nat>): (r: seq<Subtitle>)
    ensures |r| <= |full|
    ensures forall i :: 0 <= i < |r| ==> r[i] in full && r[i].id in ids
    ensures forall k :: 0 <= k < |full| && full[k].id in ids ==> full[k] in r
  {
    if |full| == 0 then []
    else (if full[0].id in ids then [full[0]] else []) + SavedItems(full[1..], ids)
  }

  /** The saved items of two stretches of lines are those of each, in order. */
  lemma {:induction false} SavedItemsAppend(a: seq<Subtitle>, b: seq<Subtitle>, ids: set<nat>)
    ensures SavedItems(a + b, ids) == SavedItems(a, ids) + SavedItems(b, ids)
    decreases |a|
  {
    if |a| > 0 {
      assert (a + b)[1..] == a[1..] + b;
      SavedItemsAppend(a[1..], b, ids);
    } else {
      assert a + b == b;
    }
  }

  /** Whether the shown line is marked; no line is never marked. */
  function IsCurrentSaved(sub: Option<Subtitle>, ids: set<nat>): (r: bool)
    ensures sub.None? ==> !r
    ensures sub.Some? ==> (r <==> sub.value.id in ids)
  {
    match sub
    case None => false
    case Some(s) => s.id in ids
  }

  /** On loading a video, a line counts as saved when the store holds its text. */
  function LoadSavedIds(subs: seq<Subtitle>, stored: seq<SavedLine>): (r: set<nat>)
    ensures forall id :: id in r <==>
      exists k :: 0 <= k < |subs| && subs[k].id == id && HasText(stored, subs[k].text)
  {
    if |subs| == 0 then {}
    else
      var rest := LoadSavedIds(subs[1..], stored);
      var r := (if HasText(stored, subs[0].text) then {subs[0].id} else {}) + rest;
      assert forall id :: id in rest <==>
        exists k :: 1 <= k < |subs| && subs[k].id == id && HasText(stored, subs[k].text) by {
        forall id | id in rest
          ensures exists k :: 1 <= k < |subs| && subs[k].id == id && HasText(stored, subs[k].text)
        {
          var j :| 0 <= j < |subs[1..]| && subs[1..][j].id == id && HasText(stored, subs[1..][j].text);
          assert subs[j + 1] == subs[1..][j];
        }
        forall id | exists k :: 1 <= k < |subs| && subs[k].id == id && HasText(stored, subs[k].text)
          ensures id in rest
        {
          var k :| 1 <= k < |subs| && subs[k].id == id && HasText(stored, subs[k].text);
          assert subs[1..][k - 1] == subs[k];
        }
      }
      r
  }

  /** The video name stored with a line: the file name, or a stand-in when there is none. */
  function VideoLabel(fileName: Option<string>): (r: string)
    ensures r != ""
    ensures fileName.Some? && fileName.value != "" ==> r == fileName.value
  {
    match fileName
    case Some(n) => if n != "" then n else "Unknown Video"
    case None => "Unknown Video"
  }

  /**
   * Mark or unmark a line: a marked line loses its mark and every stored
   * line with its text; an unmarked one gains the mark and is stored.
   */
  function Toggle(st: Saved, sub: Subtitle, fileName: Option<string>, newId: string, now: int): (r: Saved)
    ensures sub.id in st.ids ==> r.ids == st.ids - {sub.id} && !HasText(r.store, sub.text)
    ensures sub.id !in st.ids ==> r.ids == st.ids + {sub.id} && HasText(r.store, sub.text)
    ensures sub.id in st.ids ==> r.store == RemoveLine(st.store, sub.text)
    ensures sub.id !in st.ids ==> r.store == SaveLine(st.store, sub, VideoLabel(fileName), newId, now)
  {
    if sub.id in st.ids then Saved(st.ids - {sub.id}, RemoveLine(st.store, sub.text))
    else Saved(st.ids + {sub.id}, SaveLine(st.store, sub, VideoLabel(fileName), newId, now))
  }

  /**
   * Toggling a line twice restores the marks; when the line was neither
   * marked nor stored, the store comes back as it was too.
   */
  lemma ToggleTwice(st: Saved, sub: Subtitle, fileName: Option<string>, id1: string, id2: string, now1: int, now2: int)
    ensures Toggle(Toggle(st, sub, fileName, id1, now1), sub, fileName, id2, now2).ids == st.ids
    ensures sub.id !in st.ids && !HasText(st.store, sub.text) ==>
      Toggle(Toggle(st, sub, fileName, id1, now1), sub, fileName, id2, now2).store == st.store
  {
    if sub.id !in st.ids && !HasText(st.store, sub.text) {
      SaveThenRemove(st.store, sub, VideoLabel(fileName), id1, now1);
    }
  }

  /** Every line of the video has its own id. */
  predicate UniqueIds(full: seq<Subtitle>) {
    forall i, j :: 0 <= i < |full| && 0 <= j < |full| && full[i].id == full[j].id ==> i == j
  }

  /**
   * After a toggle, reloading the marks from the store agrees with the
   * session about the toggled line.
   */
  lemma ToggleAgreesWithReload(st: Saved, full: seq<Subtitle>, k: nat, fileName: Option<string>, newId: string, now: int)
    requires UniqueIds(full) && k < |full|
    ensures var r := Toggle(st, full[k], fileName, newId, now);
      full[k].id in LoadSavedIds(full, r.store) <==> full[k].id in r.ids
  {
  }

  /**
   * Delete a saved line from the list: a line of the video with that id
   * loses its mark and its text leaves the store; an unknown id changes
   * nothing.
   */
  function DeleteSavedItem(st: Saved, full: seq<Subtitle>, id: nat): (r: Saved)
    ensures (forall k :: 0 <= k < |full| ==> full[k].id != id) ==> r == st
    ensures (exists k :: 0 <= k < |full| && full[k].id == id) ==>
      r.ids == st.ids - {id}
      && exists k :: 0 <= k < |full| && full[k].id == id && r.store == RemoveLine(st.store, full[k].text)
           && forall j :: 0 <= j < k ==> full[j].id != id
  {
    match FindFirst(full, (s: Subtitle) => s.id == id)
    case None => st
    case Some(k) => Saved(st.ids - {id}, RemoveLine(st.store, full[k].text))
  }
}
