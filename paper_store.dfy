/**
 * The paper store (src/stores/paper.ts): one state record per open paper, changed only by
 * named actions. Every `set` of the store MERGES the given keys into the record, so the
 * reset to the initial state rewrites exactly the keys the initial state lists.
 * Network calls are abstract: an action receives the outcome of its call as a parameter
 * and returns the requests it issues.
 */
module PaperStore {
  import opened Wrappers
  import opened Text
  import opened Models
  import opened HighlightLists
  import opened HighlightSort

  datatype HighlightsState = Loading | Loaded

  /** The store record. Optional keys are `Option`s; `None` is an absent or undefined key. */
  datatype PaperState = PaperState(
    id: string,
    url: string,
    title: string,
    abstractText: string,
    timePublished: string,
    authors: seq<Author>,
    isDocumentReady: bool,
    sections: Option<seq<Section>>,
    references: map<string, Reference>,
    acronyms: map<string, string>,
    highlights: seq<Highlight>,
    highlightsState: HighlightsState,
    isEditable: bool,
    groupIds: seq<string>,
    hiddenHighlights: seq<Highlight>,
    readingProgress: real,
    sidebarTab: SidebarTab,
    sidebarJumpData: Option<CommentJump>,
    paperJumpData: Option<PaperJump>,
    codeMeta: Option<CodeMeta>,
    commentVisibility: Visibility,
    tempHighlight: Option<TempHighlight>,
    arxivId: Option<string>)

  /** The record a new store starts from: the initial keys, every other key absent. */
  const InitialState: PaperState := PaperState(
    "", "", "", "", "", [], false, None, map[], map[], [], Loading, false, [], [], 0.0, Sections,
    None, None, None, Visibility(Public, None), None, None)

  /** `set(initialState)`: the keys of the initial state get their initial values, the others stay. */
  function Reset(s: PaperState): PaperState {
    s.(id := "", url := "", title := "", abstractText := "", timePublished := "", authors := [],
       readingProgress := 0.0, references := map[], highlightsState := Loading, highlights := [],
       hiddenHighlights := [], acronyms := map[], sidebarTab := Sections, groupIds := [],
       commentVisibility := Visibility(Public, None), isEditable := false, isDocumentReady := false)
  }

  /**
   * The reset is the initial state except for the six keys the initial state does not list
   * (sections, the two jump slots, code metadata, the pending highlight and the arXiv id),
   * which keep their values; resetting twice is resetting once.
   */
  lemma ResetSpec(s: PaperState)
    ensures Reset(s) == InitialState.(sections := s.sections, sidebarJumpData := s.sidebarJumpData,
      paperJumpData := s.paperJumpData, codeMeta := s.codeMeta, tempHighlight := s.tempHighlight,
      arxivId := s.arxivId)
    ensures Reset(Reset(s)) == Reset(s) && Reset(InitialState) == InitialState
  {
  }

  /** The body of `GET /paper/{id}`. */
  datatype FetchPaperResponse = FetchPaperResponse(
    id: string,
    authors: seq<Author>,
    timePublished: Option<string>,
    abstractText: Option<string>,
    url: string,
    title: string,
    code: Option<CodeMeta>,
    groups: seq<string>,
    isEditable: bool,
    arxivId: Option<string>)

  /** The requests the store sends to the backend. */
  datatype Request =
    | GetPaper(paperId: string)                    // GET /paper/{paperId}
    | GetComments(paperId: string)                 // GET /paper/{paperId}/comments
    | GetReferences(paperId: string)               // GET /paper/{paperId}/references
    | PostComment(paperId: string, payload: AllNewHighlight)   // POST /paper/{paperId}/new_comment
    | DeleteComment(commentId: string)             // DELETE /paper/comment/{commentId}
    | PatchComment(commentId: string, text: string, visibility: Visibility)   // PATCH /paper/comment/{commentId}
    | PostReply(commentId: string, text: string)   // POST /paper/comment/{commentId}/reply

  /**
   * The merge of the fetched paper: url, code metadata, groups, editability and arXiv id are
   * always written (an absent one as undefined), the picked keys only when the response has
   * them, and a group scope as comment visibility when a selected group id is given.
   */
  function SetPaper(s: PaperState, data: FetchPaperResponse, selectedGroupId: Option<string>): PaperState {
    s.(url := data.url, codeMeta := data.code, groupIds := data.groups, isEditable := data.isEditable,
       arxivId := data.arxivId, id := data.id, title := data.title, authors := data.authors,
       timePublished := if data.timePublished.Some? then data.timePublished.value else s.timePublished,
       abstractText := if data.abstractText.Some? then data.abstractText.value else s.abstractText,
       commentVisibility := if Truthy(selectedGroupId) then Visibility(GroupScope, selectedGroupId)
                            else s.commentVisibility)
  }

  /**
   * What a successful `fetchPaper` leaves: the server's paper in place of the old one, no
   * highlights yet, and comment visibility from the selected group or else public, which is
   * always well formed; the keys the reset does not list are the old ones.
   */
  lemma FetchedPaper(s: PaperState, data: FetchPaperResponse, g: Option<string>)
    ensures var r := SetPaper(Reset(s), data, g);
      && r.id == data.id && r.url == data.url && r.groupIds == data.groups && r.codeMeta == data.code
      && r.commentVisibility == (if Truthy(g) then Visibility(GroupScope, g) else Visibility(Public, None))
      && WellFormedVisibility(r.commentVisibility)
      && r.highlights == [] && r.hiddenHighlights == [] && r.highlightsState == Loading
      && r.references == map[] && r.sidebarTab == Sections && r.readingProgress == 0.0
      && r.timePublished == (if data.timePublished.Some? then data.timePublished.value else "")
      && r.abstractText == (if data.abstractText.Some? then data.abstractText.value else "")
      && r.sections == s.sections && r.paperJumpData == s.paperJumpData
      && r.sidebarJumpData == s.sidebarJumpData && r.tempHighlight == s.tempHighlight
  {
  }

  /** `toggleHighlightsVisibility`: hide everything when nothing is hidden, else show everything. */
  function Toggle(s: PaperState): PaperState {
    if s.hiddenHighlights == [] then s.(highlights := [], hiddenHighlights := s.highlights)
    else s.(highlights := s.highlights + s.hiddenHighlights, hiddenHighlights := [])
  }

  /**
   * Toggling loses and invents nothing and touches no other key; afterwards one of the two
   * lists is empty; toggling twice from an empty hidden list restores the record exactly.
   */
  lemma {:induction false} ToggleSpec(s: PaperState)
    ensures multiset(Toggle(s).highlights) + multiset(Toggle(s).hiddenHighlights)
         == multiset(s.highlights) + multiset(s.hiddenHighlights)
    ensures Toggle(s).highlights == [] || Toggle(s).hiddenHighlights == []
    ensures Toggle(s).(highlights := s.highlights, hiddenHighlights := s.hiddenHighlights) == s
    ensures s.hiddenHighlights == [] ==> Toggle(Toggle(s)) == s
  {
    if s.hiddenHighlights == [] && s.highlights != [] {
      assert [] + s.highlights == s.highlights;
    }
  }

  /** The visible and the hidden list share no id. */
  predicate ListsDisjoint(s: PaperState) {
    IdsDisjoint(s.highlights, s.hiddenHighlights)
  }

  /** A toggle always ends with one list empty, so with the lists disjoint. */
  lemma ToggleMakesDisjoint(s: PaperState)
    ensures ListsDisjoint(Toggle(s))
  {
  }

  /** The state after a created highlight comes back from the server. */
  function Added(s: PaperState, h: Highlight, clearTemp: bool): PaperState {
    s.(highlights := SortedHighlights(s.highlights + [h]), sidebarTab := Comments,
       tempHighlight := if clearTemp then None else s.tempHighlight)
  }

  /**
   * Adding keeps every visible highlight and adds exactly the new one, in the order
   * `sortHighlights` promises: general notes first in their old order with the new one last
   * among them, then anchored ones by position, equal positions in arrival order.
   */
  lemma {:induction false} AddedSpec(s: PaperState, h: Highlight, clearTemp: bool)
    ensures multiset(Added(s, h, clearTemp).highlights) == multiset(s.highlights) + multiset{h}
    ensures GeneralsFirst(Added(s, h, clearTemp).highlights)
    ensures Generals(Added(s, h, clearTemp).highlights)
         == Generals(s.highlights) + (if h.General? then [h] else [])
    ensures SortedByKey(Anchoreds(Added(s, h, clearTemp).highlights))
    ensures forall k :: WithKey(Anchoreds(Added(s, h, clearTemp).highlights), k)
                     == WithKey(Anchoreds(s.highlights + [h]), k)
  {
    SortedHighlightsSpec(s.highlights + [h]);
    GeneralsAppend(s.highlights, [h]);
    var tail: seq<Highlight> := if h.General? then [h] else [];
    assert Generals([h]) == tail by {
      assert [h][1..] == [];
      assert Generals([h]) == tail + Generals([]);
    }
  }

  /**
   * Besides the highlights, adding switches the sidebar to the comments and drops the
   * temporary highlight only when asked; nothing else changes, the hidden list included.
   */
  lemma AddedOtherFields(s: PaperState, h: Highlight, clearTemp: bool)
    ensures Added(s, h, clearTemp).sidebarTab == Comments
    ensures Added(s, h, clearTemp).tempHighlight == (if clearTemp then None else s.tempHighlight)
    ensures Added(s, h, clearTemp).hiddenHighlights == s.hiddenHighlights
    ensures Added(s, h, clearTemp).(highlights := s.highlights, sidebarTab := s.sidebarTab,
                                    tempHighlight := s.tempHighlight) == s
  {
  }

  /** Adding a highlight whose id is not hidden keeps the lists disjoint. */
  lemma {:induction false} AddKeepsDisjoint(s: PaperState, h: Highlight, clearTemp: bool)
    requires ListsDisjoint(s) && h.id !in Ids(s.hiddenHighlights)
    ensures ListsDisjoint(Added(s, h, clearTemp))
  {
    var r := Added(s, h, clearTemp).highlights;
    SortedHighlightsSpec(s.highlights + [h]);
    forall x | x in r ensures x.id !in Ids(s.hiddenHighlights) {
      assert x in multiset(s.highlights + [h]);
    }
  }

  /** Removing from the visible list keeps the lists disjoint. */
  lemma RemoveKeepsDisjoint(s: PaperState, id: string)
    requires ListsDisjoint(s)
    ensures ListsDisjoint(s.(highlights := RemoveById(s.highlights, id)))
  {
  }

  /** Replacing a visible entry by a record with the same id keeps the lists disjoint. */
  lemma {:induction false} ReplaceKeepsDisjoint(s: PaperState, rec: Highlight)
    requires ListsDisjoint(s)
    ensures ListsDisjoint(s.(highlights := ReplaceById(s.highlights, rec)))
  {
    var r := ReplaceById(s.highlights, rec);
    forall x | x in r ensures x.id !in Ids(s.hiddenHighlights) {
      var i :| 0 <= i < |r| && r[i] == x;
      assert x.id == s.highlights[i].id;
    }
  }

  /**
   * Removing only filters the visible list: a highlight removed while hidden is still in
   * the hidden list and comes back with the next toggle.
   */
  lemma {:induction false} RemovedWhileHiddenReturns(s: PaperState, h: Highlight)
    requires s.highlights == [] && h in s.hiddenHighlights
    ensures h in Toggle(s.(highlights := RemoveById(s.highlights, h.id))).highlights
  {
  }

  /** `updatePaperGroups`' filter: the group ids other than `g`, in order. */
  function WithoutGroup(ids: seq<string>, g: string): (r: seq<string>)
    ensures forall x :: x in r <==> x in ids && x != g
    ensures |r| <= |ids|
  {
    if ids == [] then []
    else if ids[0] == g then WithoutGroup(ids[1..], g)
    else [ids[0]] + WithoutGroup(ids[1..], g)
  }

  /** Removing a group after adding it removes every copy, the added one and the old ones. */
  lemma {:induction false} WithoutGroupAfterAdd(ids: seq<string>, g: string)
    ensures WithoutGroup(ids + [g], g) == WithoutGroup(ids, g)
    ensures WithoutGroup(WithoutGroup(ids, g), g) == WithoutGroup(ids, g)
  {
    if ids == [] {
      assert [] + [g] == [g];
    } else {
      assert (ids + [g])[1..] == ids[1..] + [g];
      WithoutGroupAfterAdd(ids[1..], g);
    }
  }

  /** The filter keeps every other group id as often as it occurs, and drops every copy of `g`. */
  lemma {:induction false} WithoutGroupCounts(ids: seq<string>, g: string)
    ensures multiset(WithoutGroup(ids, g))[g] == 0
    ensures forall x :: x != g ==> multiset(WithoutGroup(ids, g))[x] == multiset(ids)[x]
  {
    if ids != [] {
      assert ids == [ids[0]] + ids[1..];
      WithoutGroupCounts(ids[1..], g);
    }
  }

  /** The filter keeps the order: filtering a concatenation filters each part in place. */
  lemma {:induction false} WithoutGroupAppend(a: seq<string>, b: seq<string>, g: string)
    ensures WithoutGroup(a + b, g) == WithoutGroup(a, g) + WithoutGroup(b, g)
  {
    if a == [] {
      assert a + b == b;
    } else {
      assert (a + b)[1..] == a[1..] + b;
      WithoutGroupAppend(a[1..], b, g);
    }
  }

  datatype JumpRequestType = SectionTarget | HighlightTarget

  /** The section list, or no sections when it was never set. */
  function SectionsOrEmpty(s: PaperState): seq<Section> {
    if s.sections.Some? then s.sections.value else []
  }

  /**
   * The jump descriptor `setPaperJumpTo` stores, or `None` where it returns early:
   * a section id that does not parse to an index of the section list, or a highlight id whose
   * first entry is missing or is a general note.
   */
  function PaperJumpFor(s: PaperState, kind: JumpRequestType, id: string, sectionPosition: Section -> SimplePosition)
    : (r: Option<PaperJump>)
    ensures kind == SectionTarget ==>
      (r.Some? <==> ParseInt(id).Some? && 0 <= ParseInt(id).value < |SectionsOrEmpty(s)|)
    ensures kind == SectionTarget && r.Some? ==>
      r.value == SectionJump(id, sectionPosition(SectionsOrEmpty(s)[ParseInt(id).value]))
    ensures kind == HighlightTarget ==>
      (r.Some? <==> exists i :: FirstWithId(s.highlights, id, i) && s.highlights[i].Anchored?)
    ensures kind == HighlightTarget && r.Some? ==>
      exists i :: FirstWithId(s.highlights, id, i) && s.highlights[i].Anchored?
        && r.value == HighlightJump(id, s.highlights[i].position)
  {
    match kind
    case SectionTarget =>
      var sections := SectionsOrEmpty(s);
      var n := ParseInt(id);
      if n.None? || n.value < 0 || n.value >= |sections| then None
      else Some(SectionJump(id, sectionPosition(sections[n.value])))
    case HighlightTarget =>
      var m := FindById(s.highlights, id);
      if m.None? then None
      else
        var j :| FirstWithId(s.highlights, id, j) && s.highlights[j] == m.value;
        assert forall i :: FirstWithId(s.highlights, id, i) ==> i == j by {
          forall i | FirstWithId(s.highlights, id, i) ensures i == j {
            FirstWithIdUnique(s.highlights, id, i, j);
          }
        }
        if IsGeneralHighlight(m.value) then None
        else Some(HighlightJump(m.value.id, m.value.position))
  }

  /**
   * A section jump to the numeral of an index of the section list is stored with the
   * position of that section.
   */
  lemma SectionJumpByIndex(s: PaperState, n: nat, sectionPosition: Section -> SimplePosition)
    requires n < |SectionsOrEmpty(s)|
    ensures PaperJumpFor(s, SectionTarget, NatToString(n), sectionPosition)
         == Some(SectionJump(NatToString(n), sectionPosition(SectionsOrEmpty(s)[n])))
  {
    ParseIntOfNatToString(n, "");
    assert NatToString(n) + "" == NatToString(n);
  }

  /** The store object: the record `set` merges into. */
  class PaperStore {
    var state: PaperState

    constructor()
      ensures state == InitialState
    {
      state := InitialState;
    }

    /** `clearPaper`: the reset (merge of the initial state). */
    method ClearPaper()
      modifies this
      ensures state == Reset(old(state))
    {
      state := Reset(state);
    }

    /**
     * `fetchPaper`: reset, then `GET /paper/{paperId}`. On success the paper is merged in and
     * the comments and references of the SERVER'S id are requested; on failure the call
     * rejects with the store left reset and nothing else requested.
     */
    method FetchPaper(paperId: string, selectedGroupId: Option<string>, response: Result<FetchPaperResponse>)
      returns (r: Result<FetchPaperResponse>, requests: seq<Request>)
      modifies this
      ensures r == response
      ensures response.Failure? ==> state == Reset(old(state)) && requests == [GetPaper(paperId)]
      ensures response.Success? ==>
        && state == SetPaper(Reset(old(state)), response.value, selectedGroupId)
        && requests == [GetPaper(paperId), GetComments(response.value.id), GetReferences(response.value.id)]
    {
      state := Reset(state);
      requests := [GetPaper(paperId)];
      r := response;
      if response.Success? {
        var data := response.value;
        state := SetPaper(state, data, selectedGroupId);
        requests := requests + [GetComments(data.id), GetReferences(data.id)];
      }
    }

    /** The completion of the comments request: sorted comments and the loaded flag, or nothing on failure. */
    method ReceiveComments(outcome: Result<seq<Highlight>>)
      modifies this
      ensures outcome.Failure? ==> state == old(state)
      ensures outcome.Success? ==>
        state == old(state).(highlights := SortedHighlights(outcome.value), highlightsState := Loaded)
    {
      if outcome.Success? {
        var sorted := SortHighlights(outcome.value);
        state := state.(highlights := sorted, highlightsState := Loaded);
      }
    }

    /** The completion of the references request. */
    method ReceiveReferences(outcome: Result<map<string, Reference>>)
      modifies this
      ensures outcome.Failure? ==> state == old(state)
      ensures outcome.Success? ==> state == old(state).(references := outcome.value)
    {
      if outcome.Success? {
        state := state.(references := outcome.value);
      }
    }

    method ToggleHighlightsVisibility()
      modifies this
      ensures state == Toggle(old(state))
      ensures ListsDisjoint(state)
    {
      if state.hiddenHighlights == [] {
        state := state.(highlights := [], hiddenHighlights := state.highlights);
      } else {
        state := state.(highlights := state.highlights + state.hiddenHighlights, hiddenHighlights := []);
      }
      ToggleMakesDisjoint(old(state));
    }

    /**
     * `addHighlight`: post the payload; on success merge the server's record in by
     * `sortHighlights`, switch to the comments tab and clear the pending highlight when asked;
     * on failure reject and change nothing.
     */
    method AddHighlight(paperId: string, payload: AllNewHighlight, clearTempHighlight: bool, response: Result<Highlight>)
      returns (r: Result<Highlight>, requests: seq<Request>)
      modifies this
      ensures requests == [PostComment(paperId, payload)] && r == response
      ensures response.Failure? ==> state == old(state)
      ensures response.Success? ==> state == Added(old(state), response.value, clearTempHighlight)
      ensures response.Success? && ListsDisjoint(old(state)) && response.value.id !in Ids(old(state).hiddenHighlights)
        ==> ListsDisjoint(state)
    {
      requests := [PostComment(paperId, payload)];
      r := response;
      if response.Success? {
        var newHighlight := response.value;
        var sorted := SortHighlights(state.highlights + [newHighlight]);
        state := state.(highlights := sorted, sidebarTab := Comments,
                        tempHighlight := if clearTempHighlight then None else state.tempHighlight);
        if ListsDisjoint(old(state)) && newHighlight.id !in Ids(old(state).hiddenHighlights) {
          AddKeepsDisjoint(old(state), newHighlight, clearTempHighlight);
        }
      }
    }

    /**
     * `removeHighlight`: without a paper id a no-op that sends nothing; otherwise
     * `DELETE /paper/comment/{id}`, and when it succeeds every visible entry with that id
     * is dropped. The hidden list is not touched.
     */
    method RemoveHighlight(highlightId: string, deleteSucceeded: bool) returns (requests: seq<Request>)
      modifies this
      ensures old(state).id == "" ==> requests == [] && state == old(state)
      ensures old(state).id != "" ==> requests == [DeleteComment(highlightId)]
      ensures old(state).id != "" && deleteSucceeded ==>
        state == old(state).(highlights := RemoveById(old(state).highlights, highlightId))
      ensures !deleteSucceeded ==> state == old(state)
      ensures ListsDisjoint(old(state)) ==> ListsDisjoint(state)
    {
      if state.id == "" {
        return [];
      }
      requests := [DeleteComment(highlightId)];
      if deleteSucceeded {
        if ListsDisjoint(state) {
          RemoveKeepsDisjoint(state, highlightId);
        }
        state := state.(highlights := RemoveById(state.highlights, highlightId));
      }
    }

    /** `updateHighlightHelper`: the server's record replaces every visible entry with its id. */
    method ReplaceHighlight(rec: Highlight)
      modifies this
      ensures state == old(state).(highlights := ReplaceById(old(state).highlights, rec))
      ensures Ids(state.highlights) == Ids(old(state).highlights)
      ensures ListsDisjoint(old(state)) ==> ListsDisjoint(state)
    {
      ReplaceKeepsIds(state.highlights, rec);
      if ListsDisjoint(state) {
        ReplaceKeepsDisjoint(state, rec);
      }
      state := state.(highlights := ReplaceById(state.highlights, rec));
    }

    /**
     * `updateHighlight`: rejects with "Paper id is missing" when there is no paper id, but
     * the guard does not return, so the patch is sent all the same and a successful response
     * is still applied; otherwise the call settles with the response.
     */
    method UpdateHighlight(highlightId: string, text: string, visibility: Visibility, response: Result<Highlight>)
      returns (r: Result<Highlight>, requests: seq<Request>)
      modifies this
      ensures requests == [PatchComment(highlightId, text, visibility)]
      ensures old(state).id == "" ==> r == Failure("Paper id is missing")
      ensures old(state).id != "" ==> r == response
      ensures response.Failure? ==> state == old(state)
      ensures response.Success? ==> state == old(state).(highlights := ReplaceById(old(state).highlights, response.value))
    {
      requests := [PatchComment(highlightId, text, visibility)];
      var settled := false;
      if state.id == "" {
        r := Failure("Paper id is missing");
        settled := true;
      }
      if response.Success? {
        ReplaceHighlight(response.value);
      }
      if !settled {
        r := response;
      }
    }

    /** `replyToHighlight`: post the reply; on success the server's updated record replaces the entry. */
    method ReplyToHighlight(highlightId: string, replyText: string, response: Result<Highlight>)
      returns (r: Result<Highlight>, requests: seq<Request>)
      modifies this
      ensures requests == [PostReply(highlightId, replyText)] && r == response
      ensures response.Failure? ==> state == old(state)
      ensures response.Success? ==> state == old(state).(highlights := ReplaceById(old(state).highlights, response.value))
    {
      requests := [PostReply(highlightId, replyText)];
      r := response;
      if response.Success? {
        ReplaceHighlight(response.value);
      }
    }

    /**
     * `updatePaperGroups`: when the remote helper throws nothing changes; otherwise the group
     * id is appended (even if present) or every copy of it is removed.
     */
    method UpdatePaperGroups(groupId: string, shouldAdd: bool, helperThrows: bool)
      modifies this
      ensures helperThrows ==> state == old(state)
      ensures !helperThrows && shouldAdd ==> state == old(state).(groupIds := old(state).groupIds + [groupId])
      ensures !helperThrows && !shouldAdd ==> state == old(state).(groupIds := WithoutGroup(old(state).groupIds, groupId))
    {
      if helperThrows {
        return;
      }
      var draft := state.groupIds;
      if shouldAdd {
        draft := draft + [groupId];
      } else {
        draft := WithoutGroup(draft, groupId);
      }
      state := state.(groupIds := draft);
    }

    method UpdateReadingProgress(progress: real)
      modifies this
      ensures state == old(state).(readingProgress := progress)
    {
      state := state.(readingProgress := progress);
    }

    method SetSidebarJumpTo(jumpData: CommentJump)
      modifies this
      ensures state == old(state).(sidebarJumpData := Some(jumpData))
    {
      state := state.(sidebarJumpData := Some(jumpData));
    }

    /** `setPaperJumpTo`: store the jump descriptor, or return early and change nothing. */
    method SetPaperJumpTo(kind: JumpRequestType, id: string, sectionPosition: Section -> SimplePosition)
      modifies this
      ensures PaperJumpFor(old(state), kind, id, sectionPosition).None? ==> state == old(state)
      ensures PaperJumpFor(old(state), kind, id, sectionPosition).Some? ==>
        state == old(state).(paperJumpData := PaperJumpFor(old(state), kind, id, sectionPosition))
    {
      var jumpData := PaperJumpFor(state, kind, id, sectionPosition);
      if jumpData.None? {
        return;
      }
      state := state.(paperJumpData := jumpData);
    }

    method ClearSidebarJumpTo()
      modifies this
      ensures state == old(state).(sidebarJumpData := None)
    {
      state := state.(sidebarJumpData := None);
    }

    method ClearPaperJumpTo()
      modifies this
      ensures state == old(state).(paperJumpData := None)
    {
      state := state.(paperJumpData := None);
    }

    method SetCommentVisibilitySettings(visibility: Visibility)
      modifies this
      ensures state == old(state).(commentVisibility := visibility)
    {
      state := state.(commentVisibility := visibility);
    }

    method SetSidebarTab(tab: SidebarTab)
      modifies this
      ensures state == old(state).(sidebarTab := tab)
    {
      state := state.(sidebarTab := tab);
    }

    method SetSections(sections: seq<Section>)
      modifies this
      ensures state == old(state).(sections := Some(sections))
    {
      state := state.(sections := Some(sections));
    }

    method SetTempHighlight(highlight: TempHighlight)
      modifies this
      ensures state == old(state).(tempHighlight := Some(highlight))
    {
      state := state.(tempHighlight := Some(highlight));
    }

    method ClearTempHighlight()
      modifies this
      ensures state == old(state).(tempHighlight := None)
    {
      state := state.(tempHighlight := None);
    }

    method SetDocumentReady()
      modifies this
      ensures state == old(state).(isDocumentReady := true)
    {
      state := state.(isDocumentReady := true);
    }
  }
}
