/**
 * The saved-lines library page: searching the stored lines by text or
 * video name, ignoring case. Deleting from the page is `Storage.RemoveLine`.
 */
module Library {
  import opened Base
  import opened Chars
  import opened Strings
  import opened Storage

  /**
   * A line matches the search term when its text, or its video name when it
   * has a non-empty one, contains the term, ignoring case.
   */
  predicate Matches(line: SavedLine, term: string) {
    || Contains(LowerStr(line.text), LowerStr(term))
    || (line.videoName.Some? && line.videoName.value != ""
        && Contains(LowerStr(line.videoName.value), LowerStr(term)))
  }

  /** The lines shown for a search term: the matching ones, in stored order. */
  function Search(lines: seq<SavedLine>, term: string): (r: seq<SavedLine>)
    ensures |r| <= |lines|
    ensures forall i :: 0 <= i < |r| ==> r[i] in lines && Matches(r[i], term)
    ensures forall k :: 0 <= k < |lines| && Matches(lines[k], term) ==> lines[k] in r
  {
    if |lines| == 0 then []
    else (if Matches(lines[0], term) then [lines[0]] else []) + Search(lines[1..], term)
  }

  /** Searching two stretches of lines gives the results of each, in order. */
  lemma {:induction false} SearchAppend(a: seq<SavedLine>, b: seq<SavedLine>, term: string)
    ensures Search(a + b, term) == Search(a, term) + Search(b, term)
    decreases |a|
  {
    if |a| > 0 {
      assert (a + b)[1..] == a[1..] + b;
      SearchAppend(a[1..], b, term);
    } else {
      assert a + b == b;
    }
  }

  /** An empty search shows every line. */
  lemma {:induction false} EmptySearchKeepsAll(lines: seq<SavedLine>)
    ensures Search(lines, "") == lines
    decreases |lines|
  {
    if |lines| > 0 {
      assert OccursAt(LowerStr(lines[0].text), LowerStr(""), 0);
      EmptySearchKeepsAll(lines[1..]);
    }
  }

  /** A line without a video name is found only through its text. */
  lemma NamelessMatchesOnText(line: SavedLine, term: string)
    requires line.videoName.None? || line.videoName == Some("")
    ensures Matches(line, term) <==> Contains(LowerStr(line.text), LowerStr(term))
  {
  }

  /** After a text is deleted, no search shows a line with that text. */
  lemma DeletedNotFoundByText(lines: seq<SavedLine>, text: string, term: string)
    ensures forall i :: 0 <= i < |Search(RemoveLine(lines, text), term)| ==>
      Search(RemoveLine(lines, text), term)[i].text != text
  {
  }
}
