/**
 * The bookmark star and its collection pop-over: the groups list filtered by the typed
 * name, the add / remove request a click on a group sends, creating a group, and the
 * login gate. The filter is the anchored, case-insensitive pattern built from the input;
 * the input is taken to hold no pattern metacharacters.
 */
module Bookmarks {
  import opened Wrappers
  import opened Text
  import opened Models
  import PaperStore

  /** The anchored case-insensitive test `^input` on a group name, character by character. */
  function PrefixTest(name: string, input: string): bool {
    if input == [] then true
    else name != [] && LowerChar(name[0]) == LowerChar(input[0]) && PrefixTest(name[1..], input[1..])
  }

  /** The reference: the lower-cased name starts with the lower-cased input. */
  predicate StartsWithIgnoringCase(name: string, input: string) {
    StartsWith(Lower(name), Lower(input))
  }

  lemma {:induction false} PrefixTestIgnoresCase(name: string, input: string)
    ensures PrefixTest(name, input) <==> StartsWithIgnoringCase(name, input)
  {
    if input != [] && name != [] {
      PrefixTestIgnoresCase(name[1..], input[1..]);
      assert Lower(name)[1..] == Lower(name[1..]);
      assert Lower(input)[1..] == Lower(input[1..]);
      if StartsWithIgnoringCase(name, input) {
        assert Lower(name)[0] == Lower(input)[0];
        assert Lower(name)[1..][..|input| - 1] == Lower(name)[..|input|][1..];
      }
      if PrefixTest(name, input) {
        assert Lower(name)[..|input|] == [Lower(name)[0]] + Lower(name)[1..][..|input| - 1];
        assert Lower(input) == [Lower(input)[0]] + Lower(input)[1..];
      }
    }
  }

  /** The groups the pop-over lists for the typed name, in their original order. */
  function FilteredGroups(groups: seq<Group>, input: string): (r: seq<Group>)
    ensures |r| <= |groups|
  {
    if groups == [] then []
    else (if PrefixTest(groups[0].name, input) then [groups[0]] else []) + FilteredGroups(groups[1..], input)
  }

  /** The list holds exactly the groups whose name passes the test. */
  lemma {:induction false} FilterMembers(groups: seq<Group>, input: string)
    ensures forall g :: g in FilteredGroups(groups, input) <==> g in groups && PrefixTest(g.name, input)
  {
    if groups != [] {
      FilterMembers(groups[1..], input);
      assert forall g :: g in groups <==> g == groups[0] || g in groups[1..];
    }
  }

  /** Filtering keeps order: the filter of a concatenation is the concatenation of the filters. */
  lemma {:induction false} FilterAppend(a: seq<Group>, b: seq<Group>, input: string)
    ensures FilteredGroups(a + b, input) == FilteredGroups(a, input) + FilteredGroups(b, input)
  {
    if a == [] {
      assert a + b == b;
    } else {
      var head := if PrefixTest(a[0].name, input) then [a[0]] else [];
      assert (a + b)[0] == a[0] && (a + b)[1..] == a[1..] + b;
      assert FilteredGroups(a + b, input) == head + FilteredGroups(a[1..] + b, input);
      FilterAppend(a[1..], b, input);
      assert head + (FilteredGroups(a[1..], input) + FilteredGroups(b, input))
          == (head + FilteredGroups(a[1..], input)) + FilteredGroups(b, input);
    }
  }

  /** An empty input lists every group. */
  lemma {:induction false} EmptyInputKeepsAll(groups: seq<Group>)
    ensures FilteredGroups(groups, "") == groups
  {
    if groups != [] {
      EmptyInputKeepsAll(groups[1..]);
    }
  }

  /**
   * Typing more narrows the list: filtering the list for `a` by an extension `b` of `a`
   * is filtering for `b` at once.
   */
  lemma {:induction false} TypingNarrows(groups: seq<Group>, a: string, b: string)
    requires StartsWithIgnoringCase(b, a)
    ensures FilteredGroups(FilteredGroups(groups, a), b) == FilteredGroups(groups, b)
  {
    if groups != [] {
      var n := groups[0].name;
      PrefixTestIgnoresCase(n, a);
      PrefixTestIgnoresCase(n, b);
      if StartsWithIgnoringCase(n, b) {
        assert Lower(n)[..|a|] == Lower(n)[..|Lower(b)|][..|a|];
        assert StartsWithIgnoringCase(n, a);
      }
      TypingNarrows(groups[1..], a, b);
      var rest := FilteredGroups(groups[1..], a);
      if PrefixTest(n, a) {
        assert FilteredGroups(groups, a) == [groups[0]] + rest;
        assert ([groups[0]] + rest)[0] == groups[0];
        assert ([groups[0]] + rest)[1..] == rest;
      } else {
        assert FilteredGroups(groups, a) == rest;
        assert !PrefixTest(n, b);
      }
    }
  }

  /** A listed group is marked selected exactly when the paper is in it. */
  predicate Selected(selectedGroupIds: seq<string>, group: Group) {
    exists i :: 0 <= i < |selectedGroupIds| && selectedGroupIds[i] == group.id
  }

  /** The request the store's `updatePaperGroups` receives. */
  datatype GroupRequest = GroupRequest(paperId: string, groupId: string, shouldAdd: bool)

  /** A click on a group asks to add the paper when it is not in the group and to remove it when it is. */
  function ClickRequest(paperId: string, group: Group, selectedGroupIds: seq<string>): (r: GroupRequest)
    ensures r.paperId == paperId && r.groupId == group.id
    ensures r.shouldAdd <==> !Selected(selectedGroupIds, group)
  {
    GroupRequest(paperId, group.id, !Selected(selectedGroupIds, group))
  }

  /** The paper's group ids after the store applies a request (the push or the filter). */
  function AppliedToGroupIds(ids: seq<string>, req: GroupRequest): (r: seq<string>)
    ensures req.shouldAdd ==> r == ids + [req.groupId]
    ensures !req.shouldAdd ==> r == PaperStore.WithoutGroup(ids, req.groupId)
  {
    if req.shouldAdd then ids + [req.groupId] else PaperStore.WithoutGroup(ids, req.groupId)
  }

  /** Once the store applies it, a click flips the group's selected mark. */
  lemma {:induction false} ClickFlipsSelection(paperId: string, group: Group, ids: seq<string>)
    ensures var after := AppliedToGroupIds(ids, ClickRequest(paperId, group, ids));
      Selected(after, group) <==> !Selected(ids, group)
  {
    var req := ClickRequest(paperId, group, ids);
    var after := AppliedToGroupIds(ids, req);
    if req.shouldAdd {
      assert after[|ids|] == group.id;
    } else {
      assert Selected(ids, group);
      forall i | 0 <= i < |after| ensures after[i] != group.id {
        assert after[i] in after;
      }
    }
  }

  /** One row of the groups list. */
  datatype GroupRow = GroupRow(group: Group, selected: bool)

  /** The rows for a list of groups, each marked by its selection. */
  function Rows(groups: seq<Group>, selectedGroupIds: seq<string>): (r: seq<GroupRow>)
    ensures |r| == |groups|
    ensures forall i :: 0 <= i < |groups| ==> r[i] == GroupRow(groups[i], Selected(selectedGroupIds, groups[i]))
  {
    if groups == [] then [] else [GroupRow(groups[0], Selected(selectedGroupIds, groups[0]))] + Rows(groups[1..], selectedGroupIds)
  }

  /** What the pop-over shows: the group editor, or the input, the rows and the create button. */
  datatype PopoverContent =
    | EditorFor(group: Group)
    | GroupsList(input: string, rows: seq<GroupRow>, showList: bool, createButton: Option<string>)

  /**
   * The list part: the rows of the matching groups (shown when there is at least one), and
   * a create button for a non-empty input.
   */
  function ListContent(groups: seq<Group>, selectedGroupIds: seq<string>, input: string): (r: PopoverContent)
    ensures r.GroupsList? && r.input == input
    ensures r.rows == Rows(FilteredGroups(groups, input), selectedGroupIds)
    ensures r.showList <==> exists g :: g in groups && PrefixTest(g.name, input)
    ensures r.createButton.Some? <==> input != ""
    ensures r.createButton.Some? ==> r.createButton.value == input
  {
    var filtered := FilteredGroups(groups, input);
    FilterMembers(groups, input);
    assert filtered != [] ==> filtered[0] in filtered;
    GroupsList(input, Rows(filtered, selectedGroupIds), |filtered| > 0, if input != "" then Some(input) else None)
  }

  /** The star is filled when the paper is in at least one group. */
  predicate StarFilled(selectedGroupIds: seq<string>) {
    selectedGroupIds != []
  }

  /** The star fills once the paper is added to a group, and empties when it leaves its only group. */
  lemma {:induction false} StarFollowsMembership(ids: seq<string>, req: GroupRequest)
    ensures req.shouldAdd ==> StarFilled(AppliedToGroupIds(ids, req))
    ensures !req.shouldAdd && (forall i :: 0 <= i < |ids| ==> ids[i] == req.groupId) ==> !StarFilled(AppliedToGroupIds(ids, req))
  {
    var after := AppliedToGroupIds(ids, req);
    if !req.shouldAdd && after != [] {
      assert after[0] in after;
    }
  }

  class BookmarkButton {
    const paperId: string
    const isLoggedIn: bool
    var isOpen: bool
    var groupInEdit: Option<Group>
    var newGroupValue: string

    constructor(paperId: string, isLoggedIn: bool)
      ensures this.paperId == paperId && this.isLoggedIn == isLoggedIn
      ensures !isOpen && groupInEdit.None? && newGroupValue == ""
    {
      this.paperId := paperId;
      this.isLoggedIn := isLoggedIn;
      isOpen := false;
      groupInEdit := None;
      newGroupValue := "";
    }

    /** The pop-over body: the editor while a group is being edited, the groups list otherwise. */
    function Content(groups: seq<Group>, selectedGroupIds: seq<string>): PopoverContent
      reads this
    {
      if groupInEdit.Some? then EditorFor(groupInEdit.value) else ListContent(groups, selectedGroupIds, newGroupValue)
    }

    /** A click on the star: a visitor gets the login prompt and no pop-over; a user opens it. */
    method StarClick() returns (loginPrompt: Option<string>)
      modifies this
      ensures !isLoggedIn ==> loginPrompt == Some("Please log in to save manage lists and bookmarks") && isOpen == old(isOpen)
      ensures isLoggedIn ==> loginPrompt.None? && isOpen
      ensures groupInEdit == old(groupInEdit) && newGroupValue == old(newGroupValue)
    {
      if !isLoggedIn {
        return Some("Please log in to save manage lists and bookmarks");
      }
      isOpen := true;
      loginPrompt := None;
    }

    /**
     * Closing the pop-over unmounts the groups list, so the half-typed group name is lost;
     * the group in edit is kept.
     */
    method Close()
      modifies this
      ensures !isOpen && groupInEdit == old(groupInEdit) && newGroupValue == ""
    {
      isOpen := false;
      newGroupValue := "";
    }

    method Type(value: string)
      modifies this
      ensures newGroupValue == value && isOpen == old(isOpen) && groupInEdit == old(groupInEdit)
    {
      newGroupValue := value;
    }

    /**
     * The pencil of a row opens the editor for that group; the groups list it replaces is
     * unmounted, and the name typed into it is lost.
     */
    method EditGroup(g: Group)
      modifies this
      ensures groupInEdit == Some(g) && isOpen == old(isOpen) && newGroupValue == ""
    {
      groupInEdit := Some(g);
      newGroupValue := "";
    }

    /** Leaving the editor mounts a fresh groups list, whose name input starts empty. */
    method FinishEdit()
      modifies this
      ensures groupInEdit.None? && isOpen == old(isOpen) && newGroupValue == ""
    {
      groupInEdit := None;
      newGroupValue := "";
    }

    /** Enter or the create button: the name of the group to create; nothing for an empty input. */
    method SubmitGroup() returns (createName: Option<string>)
      ensures createName.None? <==> newGroupValue == ""
      ensures createName.Some? ==> createName.value == newGroupValue
    {
      if newGroupValue == "" {
        return None;
      }
      createName := Some(newGroupValue);
    }

    /**
     * The create call answered: with the new group's id the input clears and the paper is
     * added to the new group; an empty answer changes nothing.
     */
    method GroupCreated(response: Option<string>) returns (request: Option<GroupRequest>)
      modifies this
      ensures response.None? ==> request.None? && newGroupValue == old(newGroupValue)
      ensures response.Some? ==> request == Some(GroupRequest(paperId, response.value, true)) && newGroupValue == ""
      ensures isOpen == old(isOpen) && groupInEdit == old(groupInEdit)
    {
      if response.None? {
        return None;
      }
      newGroupValue := "";
      request := Some(GroupRequest(paperId, response.value, true));
    }
  }

  /** A visitor's click on the star opens nothing. */
  method VisitorClicksStar(paperId: string) returns (prompted: bool, open: bool)
    ensures prompted && !open
  {
    var b := new BookmarkButton(paperId, false);
    var prompt := b.StarClick();
    prompted := prompt.Some?;
    open := b.isOpen;
  }

  /** Creating a group adds the paper to it, and the new group is then marked selected. */
  method CreateGroupFlow(paperId: string, name: string, newId: string, ids: seq<string>)
    returns (createName: Option<string>, selectedAfter: bool, cleared: bool)
    requires name != ""
    ensures createName == Some(name) && selectedAfter && cleared
  {
    var b := new BookmarkButton(paperId, true);
    var prompt := b.StarClick();
    b.Type(name);
    createName := b.SubmitGroup();
    var request := b.GroupCreated(Some(newId));
    var after := AppliedToGroupIds(ids, request.value);
    assert after[|ids|] == newId;
    selectedAfter := Selected(after, Group(newId, name, "", 0));
    cleared := b.newGroupValue == "";
  }

  /** A name typed before editing a group is gone when the groups list comes back. */
  method TypedNameLostOnEdit(paperId: string, name: string, g: Group, groups: seq<Group>, ids: seq<string>)
    returns (content: PopoverContent)
    ensures content == ListContent(groups, ids, "")
  {
    var b := new BookmarkButton(paperId, true);
    var prompt := b.StarClick();
    b.Type(name);
    b.EditGroup(g);
    b.FinishEdit();
    content := b.Content(groups, ids);
  }

  /** A name typed before closing the pop-over is gone when it is opened again. */
  method TypedNameLostOnClose(paperId: string, name: string, groups: seq<Group>, ids: seq<string>)
    returns (content: PopoverContent, open: bool)
    ensures open && content == ListContent(groups, ids, "")
  {
    var b := new BookmarkButton(paperId, true);
    var prompt := b.StarClick();
    b.Type(name);
    b.Close();
    prompt := b.StarClick();
    content := b.Content(groups, ids);
    open := b.isOpen;
  }
}
