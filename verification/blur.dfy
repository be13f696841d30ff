/**
 * The blurred subtitle: word tokens hidden behind underscores until the
 * learner clicks them, the selection of a word for its definition, and the
 * width clamp of the definition sidebar.
 */
module Blur {
  import opened Base
  import opened Chars
  import opened Strings
  import opened Tokenizer

  /**
   * Which word tokens (numbered among the word tokens only) are shown, the
   * selected word and whether its definition has arrived or is loading.
   */
  datatype Reveal = Reveal(
    revealed: set<nat>,
    selectedIndex: Option<nat>,
    selectedWord: Option<string>,
    definitionLoaded: bool,
    loading: bool)

  /** Nothing revealed, nothing selected. */
  function Fresh(): (r: Reveal)
    ensures r.revealed == {} && r.selectedIndex.None? && r.selectedWord.None?
    ensures !r.definitionLoaded && !r.loading
  {
    Reveal({}, None, None, false, false)
  }

  /** A new target line starts from scratch; the same line keeps its state. */
  function TextChange(st: Reveal, previous: string, next: string): (r: Reveal)
    ensures previous != next ==> r == Fresh()
    ensures previous != next ==> r.revealed == {} && r.selectedIndex.None? && !r.loading
    ensures previous == next ==> r == st
  {
    if previous != next then Fresh() else st
  }

  /**
   * Nothing of an earlier line survives a change of text: the first click
   * on the new line reveals and selects only the clicked word, and shows
   * no definition.
   */
  lemma NewLineStartsOver(st: Reveal, previous: string, next: string, i: nat, word: string)
    requires previous != next && Clean(word) != ""
    ensures var r := Click(TextChange(st, previous, next), i, word);
      && r.revealed == {i} && r.selectedIndex == Some(i) && r.selectedWord == Some(Clean(word))
      && !r.definitionLoaded && !r.loading
  {
  }

  /** The characters removed from a word before it is looked up. */
  predicate Stripped(c: char) {
    c in ".,/#!$%^&*;:{}=-_`~()?\"'"
  }

  /** The word with the stripped characters removed, the others kept in order. */
  function Clean(s: string): (r: string)
    ensures |r| <= |s|
    ensures forall i :: 0 <= i < |r| ==> !Stripped(r[i]) && r[i] in s
    ensures (forall i :: 0 <= i < |s| ==> !Stripped(s[i])) ==> r == s
  {
    if |s| == 0 then ""
    else (if Stripped(s[0]) then "" else [s[0]]) + Clean(s[1..])
  }

  /** A character that survives cleaning leaves the cleaned word non-empty. */
  lemma {:induction false} CleanKeeps(s: string, i: nat)
    requires i < |s| && !Stripped(s[i])
    ensures |Clean(s)| > 0
    decreases i
  {
    if i > 0 && Stripped(s[0]) {
      CleanKeeps(s[1..], i - 1);
    }
  }

  /** Cleaning twice is cleaning once. */
  lemma CleanIdempotent(s: string)
    ensures Clean(Clean(s)) == Clean(s)
  {
  }

  /**
   * A click on word `i` showing `word`. A word that cleans to nothing is
   * ignored. An unrevealed word is revealed and selected. Clicking the
   * selected word again while its definition is shown does nothing; any
   * other click on a revealed word selects it and starts loading its
   * definition.
   */
  function Click(st: Reveal, i: nat, word: string): (r: Reveal)
    ensures Clean(word) == "" ==> r == st
    ensures st.revealed <= r.revealed && r.revealed <= st.revealed + {i}
    ensures Clean(word) != "" ==> i in r.revealed
    ensures Clean(word) != "" && i !in st.revealed ==>
      r == st.(revealed := st.revealed + {i}, selectedIndex := Some(i), selectedWord := Some(Clean(word)))
    ensures i in st.revealed && st.selectedIndex == Some(i) && st.definitionLoaded ==> r == st
    ensures Clean(word) != "" && i in st.revealed && !(st.selectedIndex == Some(i) && st.definitionLoaded) ==>
      r.revealed == st.revealed && r.selectedIndex == Some(i) && r.selectedWord == Some(Clean(word))
      && !r.definitionLoaded && r.loading
  {
    var clean := Clean(word);
    if clean == "" then st
    else if i !in st.revealed then
      st.(revealed := st.revealed + {i}, selectedIndex := Some(i), selectedWord := Some(clean))
    else if st.selectedIndex == Some(i) && st.definitionLoaded then st
    else st.(selectedWord := Some(clean), selectedIndex := Some(i), definitionLoaded := false, loading := true)
  }

  /**
   * The definition lookup a click started finishes: loading ends, and the
   * definition is shown only when the lookup `found` one; a failed lookup
   * leaves it absent. Nothing else changes.
   */
  function DefinitionArrives(st: Reveal, found: bool): (r: Reveal)
    ensures !r.loading && (r.definitionLoaded <==> found)
    ensures r.revealed == st.revealed && r.selectedIndex == st.selectedIndex && r.selectedWord == st.selectedWord
  {
    st.(definitionLoaded := found, loading := false)
  }

  /**
   * Once the definition of a clicked word has arrived, clicking the word
   * again changes nothing; after a failed lookup the click asks again.
   */
  lemma ArrivedDefinitionStays(st: Reveal, i: nat, word: string)
    requires Clean(word) != "" && i in st.revealed
    ensures var shown := DefinitionArrives(Click(st, i, word), true);
      Click(shown, i, word) == shown
    ensures var failed := DefinitionArrives(Click(st, i, word), false);
      Click(failed, i, word).loading
  {
  }

  /** Every word token cleans to something, so clicking it always reveals it. */
  lemma WordClickReveals(st: Reveal, i: nat, t: Token)
    requires t.kind == Word && Shaped(t)
    ensures Clean(t.value) != ""
    ensures Click(st, i, t.value).revealed == st.revealed + {i}
  {
    assert |Clean(t.value)| > 0 by {
      WordStartsClean(t.value);
    }
  }

  /** A word shape starts with a letter or digit, which cleaning keeps. */
  lemma WordStartsClean(v: string)
    requires IsWordShape(v)
    ensures |Clean(v)| > 0
  {
    assert IsWordChar(v[0]) by {
      if !AllWordChars(v) {
        var k :| 0 < k < |v| - 1 && v[k] == '\'' && AllWordChars(v[..k]) && AllLetters(v[k + 1..]);
        assert v[..k][0] == v[0];
      }
    }
    assert !Stripped(v[0]);
    CleanKeeps(v, 0);
  }

  /** Clicks applied in order. */
  function ClickAll(st: Reveal, clicks: seq<(nat, string)>): Reveal
    decreases |clicks|
  {
    if |clicks| == 0 then st else ClickAll(Click(st, clicks[0].0, clicks[0].1), clicks[1..])
  }

  /** The indices a sequence of clicks points at. */
  function Clicked(clicks: seq<(nat, string)>): set<nat> {
    set k | 0 <= k < |clicks| :: clicks[k].0
  }

  /**
   * Between resets the revealed set only grows, and only by indices that
   * were clicked.
   */
  lemma {:induction false} ClicksOnlyGrow(st: Reveal, clicks: seq<(nat, string)>)
    ensures st.revealed <= ClickAll(st, clicks).revealed
    ensures ClickAll(st, clicks).revealed <= st.revealed + Clicked(clicks)
    decreases |clicks|
  {
    if |clicks| > 0 {
      var next := Click(st, clicks[0].0, clicks[0].1);
      ClicksOnlyGrow(next, clicks[1..]);
      assert Clicked(clicks) == {clicks[0].0} + Clicked(clicks[1..]) by {
        forall x | x in Clicked(clicks) ensures x in {clicks[0].0} + Clicked(clicks[1..]) {
          var k :| 0 <= k < |clicks| && clicks[k].0 == x;
          if k > 0 {
            assert clicks[1..][k - 1].0 == x;
          }
        }
        forall x | x in Clicked(clicks[1..]) ensures x in Clicked(clicks) {
          var k :| 0 <= k < |clicks[1..]| && clicks[1..][k].0 == x;
          assert clicks[k + 1].0 == x;
        }
      }
    }
  }

  /**
   * What one token shows: a word its text when revealed and one underscore
   * per character otherwise, punctuation itself, a space nothing.
   */
  function Cell(t: Token, shown: bool): Option<string> {
    match t.kind
    case Word => Some(if shown then t.value else Repeat('_', |t.value|))
    case Punctuation => Some(t.value)
    case Space => None
  }

  lemma WordTokensSnoc(ts: seq<Token>, t: Token)
    ensures WordTokens(ts + [t]) == WordTokens(ts) + (if t.kind == Word then [t] else [])
  {
    if |ts| > 0 {
      assert (ts + [t])[1..] == ts[1..] + [t];
    }
  }

  /**
   * The rendering walk: token by token, counting the word tokens passed so
   * far, so that each word is looked up in the revealed set under its
   * position among the words.
   */
  method Render(ts: seq<Token>, revealed: set<nat>) returns (cells: seq<Option<string>>)
    ensures |cells| == |ts|
    ensures forall i :: 0 <= i < |ts| ==> cells[i] == Cell(ts[i], WordsBefore(ts, i) in revealed)
  {
    cells := [];
    var wordIndex := 0;
    var i := 0;
    while i < |ts|
      invariant 0 <= i <= |ts|
      invariant |cells| == i
      invariant wordIndex == WordsBefore(ts, i)
      invariant forall j :: 0 <= j < i ==> cells[j] == Cell(ts[j], WordsBefore(ts, j) in revealed)
    {
      var t := ts[i];
      cells := cells + [Cell(t, wordIndex in revealed)];
      if t.kind == Word {
        wordIndex := wordIndex + 1;
      }
      assert ts[..i + 1] == ts[..i] + [t];
      WordTokensSnoc(ts[..i], t);
      i := i + 1;
    }
  }

  /**
   * Whatever is revealed, every token but a space occupies a cell as long as
   * its own text; a hidden word shows only underscores, a revealed one the
   * word itself.
   */
  lemma CellsKeepLength(t: Token, shown: bool)
    ensures t.kind == Space <==> Cell(t, shown).None?
    ensures Cell(t, shown).Some? ==> |Cell(t, shown).value| == |t.value|
    ensures shown && t.kind != Space ==> Cell(t, shown) == Some(t.value)
    ensures !shown && t.kind == Word ==> forall j :: 0 <= j < |t.value| ==> Cell(t, shown).value[j] == '_'
  {
  }

  /**
   * The sidebar width while dragging its edge: the distance from the
   * pointer to the window's right edge, at least 200 pixels and at most half
   * the window (the minimum wins on a window narrower than 400 pixels).
   */
  function SidebarWidth(clientX: real, innerWidth: real): (r: real)
    ensures r >= 200.0
    ensures r <= innerWidth - clientX || r == 200.0 || r == innerWidth * 0.5
    ensures innerWidth >= 400.0 ==> r <= innerWidth * 0.5
    ensures 200.0 <= innerWidth - clientX <= innerWidth * 0.5 ==> r == innerWidth - clientX
    ensures innerWidth - clientX > innerWidth * 0.5 >= 200.0 ==> r == innerWidth * 0.5
    ensures innerWidth - clientX < 200.0 || innerWidth * 0.5 < 200.0 ==> r == 200.0
  {
    var wanted := innerWidth - clientX;
    var capped := if wanted <= innerWidth * 0.5 then wanted else innerWidth * 0.5;
    if capped >= 200.0 then capped else 200.0
  }
}
