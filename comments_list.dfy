/**
 * The legacy comment list: it follows `#comment-<id>` location hashes by focusing the
 * comment with that id for a while. The scroll offsets are left out; the module-level
 * dictionary of element refs is kept as the set of its keys.
 */
module CommentsList {
  import opened Wrappers
  import opened Text
  import opened Models
  import opened HighlightLists

  const CommentHashPrefix: string := "#comment-"

  /** The id in a location hash: everything after the first nine characters, prefix unchecked. */
  function ParseIdFromHash(hash: string): (r: string)
    ensures |hash| >= |CommentHashPrefix| ==> r == hash[|CommentHashPrefix|..]
    ensures |hash| < |CommentHashPrefix| ==> r == ""
  {
    SliceFrom(hash, |CommentHashPrefix|)
  }

  /** A comment hash reads back as its id. */
  lemma ParseCommentHash(id: string)
    ensures ParseIdFromHash(CommentHashPrefix + id) == id
  {
    assert (CommentHashPrefix + id)[|CommentHashPrefix|..] == id;
  }

  /** Any other nine-character prefix is cut off just the same. */
  lemma ParseIgnoresPrefix(prefix: string, id: string)
    requires |prefix| == |CommentHashPrefix|
    ensures ParseIdFromHash(prefix + id) == ParseIdFromHash(CommentHashPrefix + id)
  {
    assert (prefix + id)[|prefix|..] == id;
    ParseCommentHash(id);
  }

  class CommentList {
    /** The highlights prop. */
    var highlights: seq<Highlight>
    /** The keys of the module-level ref dictionary; it is never cleared. */
    var refKeys: set<string>
    var focusedId: Option<string>
    /** Focus-clearing timers started and not yet fired. */
    var pendingTimers: nat

    constructor(highlights: seq<Highlight>)
      ensures this.highlights == highlights && refKeys == {} && focusedId.None? && pendingTimers == 0
    {
      this.highlights := highlights;
      refKeys := {};
      focusedId := None;
      pendingTimers := 0;
    }

    /** Every highlight has an entry in the ref dictionary. */
    predicate RefsCover()
      reads this
    {
      forall i :: 0 <= i < |highlights| ==> highlights[i].id in refKeys
    }

    /** Entry `i` is rendered focused exactly when its id is the focused id. */
    predicate IsFocused(i: int)
      reads this
      requires 0 <= i < |highlights|
    {
      focusedId == Some(highlights[i].id)
    }

    /** A render registers a ref for every highlight, one after the other. */
    method Render()
      modifies this
      ensures refKeys == old(refKeys) + set i | 0 <= i < |highlights| :: highlights[i].id
      ensures RefsCover()
      ensures highlights == old(highlights) && focusedId == old(focusedId) && pendingTimers == old(pendingTimers)
    {
      var k := 0;
      while k < |highlights|
        invariant 0 <= k <= |highlights|
        invariant refKeys == old(refKeys) + set i | 0 <= i < k :: highlights[i].id
        invariant highlights == old(highlights) && focusedId == old(focusedId) && pendingTimers == old(pendingTimers)
      {
        refKeys := refKeys + {highlights[k].id};
        k := k + 1;
      }
    }

    /** New highlights from the parent. */
    method ReceiveHighlights(hs: seq<Highlight>)
      modifies this
      ensures highlights == hs
      ensures refKeys == old(refKeys) && focusedId == old(focusedId) && pendingTimers == old(pendingTimers)
    {
      highlights := hs;
    }

    /**
     * The hash changed to `hash`: with no comment of that id nothing happens; otherwise
     * the comment's ref is read (which fails if it was never registered), the comment is
     * focused and a timer to clear the focus starts.
     */
    method ScrollToComment(hash: string) returns (ok: bool)
      modifies this
      ensures var found := FindById(old(highlights), ParseIdFromHash(hash));
        && (found.None? ==> ok && focusedId == old(focusedId) && pendingTimers == old(pendingTimers))
        && (found.Some? ==> (ok <==> found.value.id in old(refKeys)))
        && (found.Some? && ok ==> focusedId == Some(ParseIdFromHash(hash)) && pendingTimers == old(pendingTimers) + 1)
        && (!ok ==> focusedId == old(focusedId) && pendingTimers == old(pendingTimers))
      ensures highlights == old(highlights) && refKeys == old(refKeys)
    {
      var id := ParseIdFromHash(hash);
      var highlight := FindById(highlights, id);
      if highlight.None? {
        return true;
      }
      if highlight.value.id !in refKeys {
        return false;
      }
      focusedId := Some(highlight.value.id);
      pendingTimers := pendingTimers + 1;
      ok := true;
    }

    /** A focus timer fired after 1000 ms: no comment is focused any more. */
    method TimerFired()
      requires pendingTimers > 0
      modifies this
      ensures focusedId.None? && pendingTimers == old(pendingTimers) - 1
      ensures highlights == old(highlights) && refKeys == old(refKeys)
    {
      focusedId := None;
      pendingTimers := pendingTimers - 1;
    }
  }

  /**
   * Once rendered, a hash naming a listed comment never fails: exactly the entries with that
   * id are focused, and none is after the timer fires.
   */
  method FocusThenClear(hs: seq<Highlight>, id: string, i: int)
    returns (ok: bool, focusedAfterHash: bool, focusedAfterTimer: bool)
    requires 0 <= i < |hs| && hs[i].id == id
    ensures ok && focusedAfterHash && !focusedAfterTimer
  {
    var list := new CommentList(hs);
    list.Render();
    ParseCommentHash(id);
    assert id in Ids(hs) by { assert Ids(hs)[i] == id; }
    ok := list.ScrollToComment(CommentHashPrefix + id);
    focusedAfterHash := list.IsFocused(i);
    list.TimerFired();
    focusedAfterTimer := list.IsFocused(i);
  }

  /** A hash naming no listed comment changes nothing. */
  method UnknownHash(hs: seq<Highlight>, id: string) returns (ok: bool, anyFocused: bool)
    requires id !in Ids(hs)
    ensures ok && !anyFocused
  {
    var list := new CommentList(hs);
    list.Render();
    ParseCommentHash(id);
    ok := list.ScrollToComment(CommentHashPrefix + id);
    anyFocused := list.focusedId.Some?;
  }
}
