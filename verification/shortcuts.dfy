/**
 * Keyboard shortcuts: whether a shortcut definition matches a key event,
 * and the dispatch that runs the first matching shortcut of a list.
 */
module Shortcuts {
  import opened Base
  import opened Chars

  /** The element an event is aimed at, when it is an HTML element. */
  datatype Element = Element(tagName: Option<string>, contentEditable: bool)

  /** A key event: which key, the modifiers held, whether it repeats and where it goes. */
  datatype KeyEvent = KeyEvent(
    code: string,
    key: string,
    shiftKey: bool,
    altKey: bool,
    ctrlKey: bool,
    metaKey: bool,
    repeat: bool,
    target: Option<Element>)

  /**
   * A shortcut definition; an absent (or, for `code` and `key`, empty) field
   * puts no constraint on the event. `ctrlOrMeta` and `preventDefault`
   * default to false, the optional condition is a test on the event.
   */
  datatype Shortcut = Shortcut(
    code: Option<string>,
    key: Option<string>,
    shiftKey: Option<bool>,
    altKey: Option<bool>,
    ctrlKey: Option<bool>,
    metaKey: Option<bool>,
    ctrlOrMeta: bool,
    allowRepeat: Option<bool>,
    allowInEditable: Option<bool>,
    preventDefault: bool,
    condition: Option<KeyEvent -> bool>)

  /**
   * Typing goes to the element: a content-editable element, or an input,
   * text area or select box. An element without a tag name never counts.
   */
  predicate IsEditable(target: Option<Element>) {
    match target
    case None => false
    case Some(e) =>
      match e.tagName
      case None => false
      case Some(tag) =>
        var t := LowerStr(tag);
        t != "" && (e.contentEditable || t == "input" || t == "textarea" || t == "select")
  }

  /** A set text field constrains the event's value; an absent or empty one does not. */
  predicate TextAgrees(field: Option<string>, value: string) {
    field.None? || field.value == "" || field.value == value
  }

  /** A set flag constrains the event's flag; an absent one does not. */
  predicate FlagAgrees(field: Option<bool>, value: bool) {
    field.None? || field.value == value
  }

  /**
   * Whether a shortcut fires on an event: a repeat is refused only by an
   * explicit `allowRepeat: false`; every set key and modifier must agree;
   * `ctrlOrMeta` wants either key held; a condition must hold.
   */
  function MatchesShortcut(s: Shortcut, ev: KeyEvent): (r: bool)
    ensures r ==> !(s.allowRepeat == Some(false) && ev.repeat)
    ensures r ==> TextAgrees(s.code, ev.code) && TextAgrees(s.key, ev.key)
    ensures r ==>
      FlagAgrees(s.shiftKey, ev.shiftKey) && FlagAgrees(s.altKey, ev.altKey)
      && FlagAgrees(s.ctrlKey, ev.ctrlKey) && FlagAgrees(s.metaKey, ev.metaKey)
    ensures r && s.ctrlOrMeta ==> ev.ctrlKey || ev.metaKey
    ensures r && s.condition.Some? ==> s.condition.value(ev)
  {
    if s.allowRepeat == Some(false) && ev.repeat then false
    else if s.code.Some? && s.code.value != "" && s.code.value != ev.code then false
    else if s.key.Some? && s.key.value != "" && s.key.value != ev.key then false
    else if s.shiftKey.Some? && s.shiftKey.value != ev.shiftKey then false
    else if s.altKey.Some? && s.altKey.value != ev.altKey then false
    else if s.ctrlKey.Some? && s.ctrlKey.value != ev.ctrlKey then false
    else if s.metaKey.Some? && s.metaKey.value != ev.metaKey then false
    else if s.ctrlOrMeta && !(ev.ctrlKey || ev.metaKey) then false
    else if s.condition.Some? && !s.condition.value(ev) then false
    else true
  }

  /** Conversely, an event meeting every constraint set by the shortcut fires it. */
  lemma ConstraintsSuffice(s: Shortcut, ev: KeyEvent)
    requires !(s.allowRepeat == Some(false) && ev.repeat)
    requires TextAgrees(s.code, ev.code) && TextAgrees(s.key, ev.key)
    requires FlagAgrees(s.shiftKey, ev.shiftKey) && FlagAgrees(s.altKey, ev.altKey)
    requires FlagAgrees(s.ctrlKey, ev.ctrlKey) && FlagAgrees(s.metaKey, ev.metaKey)
    requires s.ctrlOrMeta ==> ev.ctrlKey || ev.metaKey
    requires s.condition.Some? ==> s.condition.value(ev)
    ensures MatchesShortcut(s, ev)
  {
  }

  /** A shortcut that sets nothing fires on every event. */
  lemma UnconstrainedMatchesAll(ev: KeyEvent, preventDefault: bool, allowInEditable: Option<bool>)
    ensures MatchesShortcut(Shortcut(None, None, None, None, None, None, false, None, allowInEditable, preventDefault, None), ev)
  {
  }

  /**
   * A list entry gets the event: it is present, not kept out of editable
   * targets while the target is editable, and it matches.
   */
  predicate Eligible(entry: Option<Shortcut>, ev: KeyEvent) {
    && entry.Some?
    && !(IsEditable(ev.target) && entry.value.allowInEditable == Some(false))
    && MatchesShortcut(entry.value, ev)
  }

  /** The handler that ran, and whether the browser's default action was prevented. */
  datatype Handled = Handled(index: nat, preventDefault: bool)

  /**
   * A key press: with the listener enabled, the first eligible shortcut in
   * list order runs, and only its own `preventDefault` decides whether the
   * default action is prevented; no other handler runs.
   */
  function Dispatch(enabled: bool, shortcuts: seq<Option<Shortcut>>, ev: KeyEvent): (r: Option<Handled>)
    ensures r.Some? ==> enabled && r.value.index < |shortcuts| && Eligible(shortcuts[r.value.index], ev)
    ensures r.Some? ==> forall j :: 0 <= j < r.value.index ==> !Eligible(shortcuts[j], ev)
    ensures r.Some? ==> r.value.preventDefault == shortcuts[r.value.index].value.preventDefault
    ensures r.None? <==> !enabled || forall j :: 0 <= j < |shortcuts| ==> !Eligible(shortcuts[j], ev)
  {
    if !enabled then None
    else
      match FindFirst(shortcuts, (e: Option<Shortcut>) => Eligible(e, ev))
      case None => None
      case Some(k) => Some(Handled(k, shortcuts[k].value.preventDefault))
  }

  /** Shortcuts listed after the one that fires make no difference. */
  lemma LaterShortcutsIgnored(enabled: bool, a: seq<Option<Shortcut>>, b: seq<Option<Shortcut>>, ev: KeyEvent)
    requires Dispatch(enabled, a, ev).Some?
    ensures Dispatch(enabled, a + b, ev) == Dispatch(enabled, a, ev)
  {
    var k := Dispatch(enabled, a, ev).value.index;
    var r := Dispatch(enabled, a + b, ev);
    assert Eligible((a + b)[k], ev);
    assert r.Some? && r.value.index == k by {
      assert forall j :: 0 <= j < k ==> (a + b)[j] == a[j];
    }
  }

  /** In an editable target, a shortcut kept out of editable targets never runs. */
  lemma EditableSkipped(enabled: bool, shortcuts: seq<Option<Shortcut>>, ev: KeyEvent)
    requires IsEditable(ev.target)
    ensures var r := Dispatch(enabled, shortcuts, ev);
      r.Some? ==> shortcuts[r.value.index].value.allowInEditable != Some(false)
  {
  }
}
