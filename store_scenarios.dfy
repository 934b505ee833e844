/**
 * Concrete runs of the paper store: each method drives a fresh store through a short
 * sequence of actions and states what the store holds at the end.
 */
module StoreScenarios {
  import opened Wrappers
  import opened Models
  import opened HighlightLists
  import opened HighlightSort
  import opened PaperStore

  /** An anchored highlight on page `page` whose bounding rectangle starts at `y1`. */
  function AnchoredAt(id: string, page: int, y1: real): (h: Highlight)
    ensures h.Anchored? && h.id == id && KeyOf(h) == SortKey(page, y1)
  {
    Anchored(id, ScaledPosition(ScaledRect(0.0, y1, 0.0, 0.0, 0.0, 0.0), [], page, None),
      Content(None, None), Comment(""), Visibility(Public, None), "", [], User(""), true)
  }

  /** A general note. */
  function Note(id: string): (h: Highlight)
    ensures h.General? && h.id == id
  {
    General(id, Content(None, None), Comment(""), Visibility(Public, None), "", [], User(""), true)
  }

  lemma FiltersOfOne(h: Highlight)
    ensures Generals([h]) == (if h.General? then [h] else [])
    ensures Anchoreds([h]) == (if h.Anchored? then [h] else [])
  {
    assert [h][1..] == [];
  }

  lemma FiltersOfTwo(h: Highlight, k: Highlight)
    ensures Generals([h, k]) == Generals([h]) + Generals([k])
    ensures Anchoreds([h, k]) == Anchoreds([h]) + Anchoreds([k])
  {
    assert [h, k] == [h] + [k];
    GeneralsAppend([h], [k]);
    AnchoredsAppend([h], [k]);
  }

  lemma SortOne(h: Highlight)
    requires h.Anchored?
    ensures SortByPosition([h]) == [h]
  {
    assert [h][..0] == [];
  }

  /** The sorted list of one highlight is that highlight. */
  lemma SortedOne(h: Highlight)
    ensures SortedHighlights([h]) == [h]
  {
    FiltersOfOne(h);
    if h.Anchored? {
      SortOne(h);
    }
  }

  /** Two anchored highlights come out in key order, the earlier one first on equal keys. */
  lemma SortedTwoAnchored(a: Highlight, b: Highlight)
    requires a.Anchored? && b.Anchored?
    ensures SortedHighlights([a, b]) == if KeyLess(KeyOf(b), KeyOf(a)) then [b, a] else [a, b]
  {
    FiltersOfTwo(a, b);
    FiltersOfOne(a);
    FiltersOfOne(b);
    assert [a, b][..1] == [a];
    SortOne(a);
    assert SortByPosition([a, b]) == InsertByKey(b, [a]);
    assert [a][1..] == [];
  }

  /** A general note comes before an anchored highlight whatever their input order. */
  lemma SortedAnchoredAndNote(x: Highlight, g: Highlight)
    requires x.Anchored? && g.General?
    ensures SortedHighlights([x, g]) == [g, x]
  {
    FiltersOfTwo(x, g);
    FiltersOfOne(x);
    FiltersOfOne(g);
    SortOne(x);
  }

  /** Loaded with `a` (page 2), adding `b` (page 1) puts `b` first. */
  method CreateThenSort() returns (order: seq<string>, tab: SidebarTab)
    ensures order == ["b", "a"] && tab == Comments
  {
    var store := new PaperStore();
    var a := AnchoredAt("a", 2, 100.0);
    var b := AnchoredAt("b", 1, 50.0);
    store.ReceiveComments(Success([a]));
    SortedOne(a);
    var r, requests := store.AddHighlight("p", NewAnchored(NewPart(b)), true, Success(b));
    assert [a] + [b] == [a, b];
    SortedTwoAnchored(a, b);
    order := Ids(store.state.highlights);
    tab := store.state.sidebarTab;
  }

  /** Loaded with one anchored highlight, adding a general note puts the note first. */
  method GeneralNoteFirst() returns (order: seq<string>)
    ensures order == ["g", "x"]
  {
    var store := new PaperStore();
    var x := AnchoredAt("x", 1, 10.0);
    var g := Note("g");
    store.ReceiveComments(Success([x]));
    SortedOne(x);
    var r, requests := store.AddHighlight("p", NewGeneral(g.content, g.comment, g.visibility), true, Success(g));
    assert [x] + [g] == [x, g];
    SortedAnchoredAndNote(x, g);
    order := Ids(store.state.highlights);
  }

  /** Two toggles from `[h1, h2]` hide both and then show both again, in the same order. */
  method ToggleRoundTrip() returns (hiddenOnce: seq<string>, shownOnce: seq<string>, shownTwice: seq<string>)
    ensures shownOnce == [] && hiddenOnce == ["h1", "h2"] && shownTwice == ["h1", "h2"]
  {
    var store := new PaperStore();
    var h1 := AnchoredAt("h1", 1, 10.0);
    var h2 := AnchoredAt("h2", 1, 20.0);
    store.ReceiveComments(Success([h1, h2]));
    SortedTwoAnchored(h1, h2);
    store.ToggleHighlightsVisibility();
    shownOnce := Ids(store.state.highlights);
    hiddenOnce := Ids(store.state.hiddenHighlights);
    store.ToggleHighlightsVisibility();
    assert [] + [h1, h2] == [h1, h2];
    shownTwice := Ids(store.state.highlights);
  }

  /** A failed metadata fetch rejects, requests neither comments nor references, and leaves the reset state. */
  method FailedFetch() returns (r: Result<FetchPaperResponse>, requests: seq<Request>, highlightCount: nat)
    ensures r.Failure? && requests == [GetPaper("missing")] && highlightCount == 0
  {
    var store := new PaperStore();
    r, requests := store.FetchPaper("missing", None, Failure("404"));
    highlightCount := |store.state.highlights|;
  }

  /**
   * A highlight removed while the list is hidden is back after the next toggle: the removal
   * filters only the visible list.
   */
  method RemoveWhileHidden() returns (shown: seq<string>)
    ensures shown == ["h"]
  {
    var store := new PaperStore();
    var h := AnchoredAt("h", 1, 10.0);
    var data := FetchPaperResponse("p", [], None, None, "u", "t", None, [], false, None);
    var r, requests := store.FetchPaper("p", None, Success(data));
    store.ReceiveComments(Success([h]));
    SortedOne(h);
    store.ToggleHighlightsVisibility();
    var deleteRequests := store.RemoveHighlight("h", true);
    store.ToggleHighlightsVisibility();
    assert [] + [h] == [h];
    shown := Ids(store.state.highlights);
  }

  /**
   * A highlight jump stores the highlight's own position; clearing the slot empties it, and
   * clearing it again changes nothing.
   */
  method JumpThenClearTwice() returns (stored: Option<PaperJump>, once: Option<PaperJump>, twice: Option<PaperJump>)
    ensures stored == Some(HighlightJump("h", AnchoredAt("h", 3, 7.0).position))
    ensures once == None && twice == None
  {
    var store := new PaperStore();
    var h := AnchoredAt("h", 3, 7.0);
    store.ReceiveComments(Success([h]));
    SortedOne(h);
    assert FirstWithId([h], "h", 0) by { assert [h][..0] == []; }
    store.SetPaperJumpTo(HighlightTarget, "h", (sec: Section) => SimplePosition(sec.page, 0.0));
    stored := store.state.paperJumpData;
    store.ClearPaperJumpTo();
    once := store.state.paperJumpData;
    store.ClearPaperJumpTo();
    twice := store.state.paperJumpData;
  }
}
