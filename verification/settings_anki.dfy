/**
 * The Anki settings page: the field mapping of a card template (Anki field
 * name to app data key), how it is pruned when the note type's fields are
 * fetched, and how a single field is re-assigned.
 */
module SettingsAnki {
  import opened Base

  /** Anki field name to app data key ('sentence', 'audio', ...). */
  type Mapping = map<string, string>

  /** The connection to AnkiConnect, as shown on the page. */
  datatype ConnectionStatus = Idle | Loading | Success | Error

  /** One card template's settings on the page: its note type, that type's fields, the mapping. */
  datatype CardSettings = CardSettings(modelName: string, modelFields: seq<string>, mapping: Mapping)

  /**
   * The mapping kept for a note type with `fields`: walking the fields in
   * order, a field keeps its previous key when it had a non-empty one.
   */
  function Restrict(prev: Mapping, fields: seq<string>): (r: Mapping)
    ensures forall f :: f in r <==> f in fields && f in prev && prev[f] != ""
    ensures forall f :: f in r ==> r[f] == prev[f]
    decreases |fields|
  {
    if |fields| == 0 then map[]
    else
      var init := fields[..|fields| - 1];
      var f := fields[|fields| - 1];
      assert forall g :: g in fields <==> g in init || g == f by {
        assert fields == init + [f];
      }
      var r := Restrict(prev, init);
      if f in prev && prev[f] != "" then r[f := prev[f]] else r
  }

  /** Pruning twice for the same fields prunes nothing more. */
  lemma RestrictIdempotent(prev: Mapping, fields: seq<string>)
    ensures Restrict(Restrict(prev, fields), fields) == Restrict(prev, fields)
  {
  }

  /** The order in which the fields are listed does not matter. */
  lemma RestrictIgnoresOrder(prev: Mapping, a: seq<string>, b: seq<string>)
    requires multiset(a) == multiset(b)
    ensures Restrict(prev, a) == Restrict(prev, b)
  {
    assert forall f :: f in a <==> f in b by {
      forall f
        ensures f in a <==> f in b
      {
        assert f in a <==> f in multiset(a);
        assert f in b <==> f in multiset(b);
      }
    }
  }

  /** Assign an app data key to one Anki field; every other entry stays as it was. */
  function Update(prev: Mapping, field: string, key: string): (r: Mapping)
    ensures r.Keys == prev.Keys + {field} && r[field] == key
    ensures forall f :: f in prev && f != field ==> r[f] == prev[f]
  {
    prev[field := key]
  }

  /**
   * A field of the note type that was given a non-empty key keeps it when
   * the fields are fetched again; one whose key was cleared is dropped.
   */
  lemma UpdateSurvivesRefetch(prev: Mapping, fields: seq<string>, field: string, key: string)
    requires field in fields
    ensures key != "" ==>
      field in Restrict(Update(prev, field, key), fields) && Restrict(Update(prev, field, key), fields)[field] == key
    ensures key == "" ==> field !in Restrict(Update(prev, field, key), fields)
  {
  }

  /** The fields are fetched only for a named note type over a working connection. */
  predicate Fetches(modelName: string, status: ConnectionStatus) {
    modelName != "" && status == Success
  }

  /**
   * The page reacting to a change of note type or connection status.
   * `fetched` is the answer of AnkiConnect: the field names, or an error,
   * which the fetch turns into an empty list of fields.
   */
  function ModelChanged(card: CardSettings, status: ConnectionStatus, fetched: Result<seq<string>, string>): (r: CardSettings)
    ensures !Fetches(card.modelName, status) ==> r == card
    ensures Fetches(card.modelName, status) ==>
      r.modelName == card.modelName
      && r.modelFields == (if fetched.Ok? then fetched.value else [])
    ensures forall f :: f in r.mapping ==> f in card.mapping && r.mapping[f] == card.mapping[f]
    ensures Fetches(card.modelName, status) ==>
      forall f :: f in r.mapping <==> f in r.modelFields && f in card.mapping && card.mapping[f] != ""
  {
    if !Fetches(card.modelName, status) then card
    else
      var fields := match fetched case Ok(fs) => fs case Err(_) => [];
      card.(modelFields := fields, mapping := Restrict(card.mapping, fields))
  }

  /** A failed fetch empties the mapping. */
  lemma FailedFetchClearsMapping(card: CardSettings, msg: string)
    requires Fetches(card.modelName, Success)
    ensures ModelChanged(card, Success, Err(msg)).mapping == map[]
  {
  }

  /** Fetching the same fields again changes nothing more. */
  lemma ModelChangedIdempotent(card: CardSettings, status: ConnectionStatus, fetched: Result<seq<string>, string>)
    ensures ModelChanged(ModelChanged(card, status, fetched), status, fetched) == ModelChanged(card, status, fetched)
  {
    if Fetches(card.modelName, status) {
      var fields := if fetched.Ok? then fetched.value else [];
      RestrictIdempotent(card.mapping, fields);
    }
  }
}
