/**
 * The comment tip shown over a fresh text selection: a compact button bar that expands
 * into a form with a comment field, a scope menu and an "anonymous" check box. Only the
 * component state and the visibility sent with the comment are modelled, not the markup.
 */
module TipForm {
  import opened Wrappers
  import opened Models

  /** The group selected in the user's store, as the tip receives it. */
  datatype TipGroup = TipGroup(id: string, name: string)

  /** The visibility object sent with a comment: the menu value as its type, and a group id. */
  datatype RequestVisibility = RequestVisibility(vtype: string, id: Option<string>)

  /** What the tip hands to its confirm callback: the comment object and the visibility. */
  datatype Submission = Submission(comment: Comment, visibility: RequestVisibility)

  /**
   * The visibility built at submit time from the menu value and the check box. The group
   * branch reads the id of the selected group, which fails when no group is selected.
   */
  function SubmitVisibility(visibility: string, anonymous: bool, selectedGroup: Option<TipGroup>): (r: Result<RequestVisibility>)
    ensures r.Failure? <==> visibility == "group" && selectedGroup.None?
    ensures r.Success? ==> (r.value.vtype == "anonymous" <==> (visibility == "public" && anonymous) || visibility == "anonymous")
    ensures r.Success? ==> (r.value.id.Some? <==> visibility == "group")
    ensures r.Success? && visibility == "group" ==> r.value.id == Some(selectedGroup.value.id)
    ensures r.Success? && !(visibility == "public" && anonymous) ==> r.value.vtype == visibility
  {
    if visibility == "public" && anonymous then Success(RequestVisibility("anonymous", None))
    else if visibility == "group" then
      if selectedGroup.Some? then Success(RequestVisibility(visibility, Some(selectedGroup.value.id)))
      else Failure("selectedGroup is undefined")
    else Success(RequestVisibility(visibility, None))
  }

  /** The check box only matters while the menu says public. */
  lemma AnonymousIgnoredUnlessPublic(visibility: string, selectedGroup: Option<TipGroup>)
    requires visibility != "public"
    ensures SubmitVisibility(visibility, true, selectedGroup) == SubmitVisibility(visibility, false, selectedGroup)
  {
  }

  /** The backend form of a request visibility, when its type is one of the four scope names. */
  function AsVisibility(req: RequestVisibility): (r: Option<Visibility>)
    ensures r.Some? <==> req.vtype in {"public", "private", "anonymous", "group"}
    ensures r.Some? ==> TypeName(r.value.vtype) == req.vtype && r.value.id == req.id
  {
    match ParseVisibilityType(req.vtype)
    case Some(t) => Some(Visibility(t, req.id))
    case None => None
  }

  /**
   * Every value the menu offers ("group", "public", "private") submits a well-formed
   * visibility: a group id exactly for the group scope, anonymous exactly for public with
   * the check box ticked.
   */
  lemma {:induction false} MenuValuesSubmitWellFormed(visibility: string, anonymous: bool, selectedGroup: Option<TipGroup>)
    requires visibility in {"group", "public", "private"}
    requires SubmitVisibility(visibility, anonymous, selectedGroup).Success?
    ensures var v := AsVisibility(SubmitVisibility(visibility, anonymous, selectedGroup).value);
      && v.Some? && WellFormedVisibility(v.value)
      && (v.value.vtype == Anonymous <==> visibility == "public" && anonymous)
  {
    var req := SubmitVisibility(visibility, anonymous, selectedGroup).value;
    var v := AsVisibility(req);
    assert v.Some?;
    assert TypeName(v.value.vtype) == req.vtype;
  }

  class Tip {
    var compact: bool
    var text: string
    var visibility: string
    var anonymous: bool
    /** The selected-group prop; it can change while the tip is open. */
    var selectedGroup: Option<TipGroup>
    /** Whether the container passed an update callback. */
    const hasOnUpdate: bool

    /** Compact, no text, not anonymous; the group scope when a group is selected, else public. */
    constructor(selectedGroup: Option<TipGroup>, hasOnUpdate: bool)
      ensures this.selectedGroup == selectedGroup && this.hasOnUpdate == hasOnUpdate
      ensures compact && text == "" && !anonymous
      ensures visibility == (if selectedGroup.Some? then "group" else "public")
    {
      this.selectedGroup := selectedGroup;
      this.hasOnUpdate := hasOnUpdate;
      compact := true;
      text := "";
      visibility := if selectedGroup.Some? then "group" else "public";
      anonymous := false;
    }

    /**
     * The comment button of the compact bar: the form opens. The update callback fires
     * after a state change exactly when the compact flag changed.
     */
    method Expand() returns (onUpdateFired: bool)
      modifies this
      ensures !compact
      ensures text == old(text) && visibility == old(visibility) && anonymous == old(anonymous)
      ensures selectedGroup == old(selectedGroup)
      ensures onUpdateFired <==> hasOnUpdate && old(compact) != compact
    {
      var before := compact;
      compact := false;
      onUpdateFired := hasOnUpdate && before != compact;
    }

    /** Typing in the comment field. */
    method ChangeText(t: string) returns (onUpdateFired: bool)
      modifies this
      ensures text == t
      ensures compact == old(compact) && visibility == old(visibility) && anonymous == old(anonymous)
      ensures selectedGroup == old(selectedGroup)
      ensures !onUpdateFired
    {
      var before := compact;
      text := t;
      onUpdateFired := hasOnUpdate && before != compact;
    }

    /** Picking a value in the scope menu. */
    method ChangeVisibility(v: string) returns (onUpdateFired: bool)
      modifies this
      ensures visibility == v
      ensures compact == old(compact) && text == old(text) && anonymous == old(anonymous)
      ensures selectedGroup == old(selectedGroup)
      ensures !onUpdateFired
    {
      var before := compact;
      visibility := v;
      onUpdateFired := hasOnUpdate && before != compact;
    }

    /** Ticking or clearing the check box. */
    method ChangeAnonymous(checked: bool) returns (onUpdateFired: bool)
      modifies this
      ensures anonymous == checked
      ensures compact == old(compact) && text == old(text) && visibility == old(visibility)
      ensures selectedGroup == old(selectedGroup)
      ensures !onUpdateFired
    {
      var before := compact;
      anonymous := checked;
      onUpdateFired := hasOnUpdate && before != compact;
    }

    /** A new selected-group prop; the scope chosen in the constructor is not re-derived. */
    method ReceiveSelectedGroup(g: Option<TipGroup>) returns (onUpdateFired: bool)
      modifies this
      ensures selectedGroup == g
      ensures compact == old(compact) && text == old(text) && visibility == old(visibility)
      ensures anonymous == old(anonymous)
      ensures !onUpdateFired
    {
      var before := compact;
      selectedGroup := g;
      onUpdateFired := hasOnUpdate && before != compact;
    }

    /**
     * Submitting (from the highlighter button or the form): the confirm callback receives
     * exactly the current text and the derived visibility; the state is left as it is.
     */
    method Submit() returns (r: Result<Submission>)
      ensures r.Failure? <==> visibility == "group" && selectedGroup.None?
      ensures r.Success? ==> r.value.comment == Comment(text)
      ensures r.Success? ==> Success(r.value.visibility) == SubmitVisibility(visibility, anonymous, selectedGroup)
    {
      var requestVisibility: RequestVisibility;
      if visibility == "public" && anonymous {
        requestVisibility := RequestVisibility("anonymous", None);
      } else if visibility == "group" {
        if selectedGroup.None? {
          return Failure("selectedGroup is undefined");
        }
        requestVisibility := RequestVisibility(visibility, Some(selectedGroup.value.id));
      } else {
        requestVisibility := RequestVisibility(visibility, None);
      }
      r := Success(Submission(Comment(text), requestVisibility));
    }
  }

  /**
   * A tip created under a selected group and submitted straight from the compact bar sends
   * an empty comment to that group; without a group it sends a public one.
   */
  method SubmitFromCompactBar(g: Option<TipGroup>) returns (r: Result<Submission>)
    ensures r.Success?
    ensures r.value.comment == Comment("")
    ensures r.value.visibility == (if g.Some? then RequestVisibility("group", Some(g.value.id)) else RequestVisibility("public", None))
  {
    var tip := new Tip(g, true);
    r := tip.Submit();
  }

  /** Expanding the tip fires the update callback once; expanding it again does not. */
  method ExpandTwice() returns (first: bool, second: bool)
    ensures first && !second
  {
    var tip := new Tip(None, true);
    first := tip.Expand();
    second := tip.Expand();
  }
}
