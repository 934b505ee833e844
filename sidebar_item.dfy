/**
 * One highlight card of the sidebar: the quote preview, which controls it shows, the
 * visibility icon, the jump on click and the edit / reply flags.
 */
module SidebarItem {
  import opened Wrappers
  import opened Text
  import opened Models

  /** Upper-cases the first character only; the empty string stays empty. */
  function Capitalize(s: string): (r: string)
    ensures |r| == |s|
    ensures s != [] ==> r[0] == UpperChar(s[0]) && r[1..] == s[1..]
  {
    if s == [] then [] else [UpperChar(s[0])] + s[1..]
  }

  /** The scope names capitalize to the tooltip labels. */
  lemma CapitalizedScopeNames()
    ensures Capitalize(TypeName(Public)) == "Public" && Capitalize(TypeName(Private)) == "Private"
    ensures Capitalize(TypeName(Anonymous)) == "Anonymous" && Capitalize(TypeName(GroupScope)) == "Group"
  {
  }

  const TextMaxLen: nat := 50

  /** The quote preview: the first 50 characters, then "..." exactly when the text is longer. */
  function Preview(text: string): (r: string)
    ensures |text| <= TextMaxLen ==> r == text
    ensures |text| > TextMaxLen ==> r == text[..TextMaxLen] + "..."
  {
    (if |text| <= TextMaxLen then text else text[..TextMaxLen]) + (if |text| > TextMaxLen then "..." else "")
  }

  /** A preview is at most 53 characters and starts with the text's first characters. */
  lemma {:induction false} PreviewBounds(text: string)
    ensures |Preview(text)| <= TextMaxLen + 3
    ensures var n := if |text| < TextMaxLen then |text| else TextMaxLen; Preview(text)[..n] == text[..n]
    ensures EndsWith(Preview(text), "...") ==> |text| > TextMaxLen || EndsWith(text, "...")
  {
    if |text| > TextMaxLen {
      assert Preview(text) == text[..TextMaxLen] + "...";
      assert (text[..TextMaxLen] + "...")[..TextMaxLen] == text[..TextMaxLen];
    }
  }

  /** The icon class of each scope. */
  function IconFor(t: VisibilityType): string {
    match t
    case Private => "fas fa-user-shield"
    case Public => "fas fa-globe"
    case Anonymous => "fas fa-globe"
    case GroupScope => "fas fa-users"
  }

  /** Two scopes share an icon exactly when they are equal or both public-facing. */
  lemma IconsShared(a: VisibilityType, b: VisibilityType)
    ensures IconFor(a) == IconFor(b) <==> a == b || (a in {Public, Anonymous} && b in {Public, Anonymous})
  {
  }

  /** What the card shows. */
  datatype ItemView = ItemView(
    image: Option<string>,
    quote: Option<string>,
    editor: bool,
    actions: bool,
    editAndDelete: bool,
    visibilityIcon: Option<string>,
    visibilityLabel: Option<string>,
    replyForm: bool)

  predicate HasCommentText(h: Highlight) {
    h.comment.text != ""
  }

  /**
   * The card for `h`: the screenshot when there is one; the quote only for a text
   * highlight without comment; the action row (reply, and for editable comments the
   * visibility icon, plus edit and delete while hovered) only under a comment with text.
   */
  function View(h: Highlight, isHover: bool, editMode: bool, showReply: bool): (v: ItemView)
    ensures v.image.Some? <==> Truthy(h.content.image)
    ensures v.quote.Some? <==> Truthy(h.content.text) && !HasCommentText(h)
    ensures v.quote.Some? ==> v.quote.value == Preview(h.content.text.value)
    ensures v.actions <==> HasCommentText(h)
    ensures v.editAndDelete <==> HasCommentText(h) && h.canEdit && isHover
    ensures v.visibilityIcon.Some? <==> HasCommentText(h) && h.canEdit
    ensures v.visibilityIcon.Some? ==> v.visibilityIcon.value == IconFor(h.visibility.vtype)
    ensures v.visibilityIcon.Some? ==> v.visibilityLabel == Some(Capitalize(TypeName(h.visibility.vtype)))
    ensures v.editor == editMode && v.replyForm == showReply
  {
    var hasComment := HasCommentText(h);
    ItemView(
      if Truthy(h.content.image) then h.content.image else None,
      if Truthy(h.content.text) && !hasComment then Some(Preview(h.content.text.value)) else None,
      editMode,
      hasComment,
      hasComment && h.canEdit && isHover,
      if hasComment && h.canEdit then Some(IconFor(h.visibility.vtype)) else None,
      if hasComment && h.canEdit then Some(Capitalize(TypeName(h.visibility.vtype))) else None,
      showReply)
  }

  /** A card never shows both the quote and the action row; edit and delete imply the icon. */
  lemma ViewExclusions(h: Highlight, isHover: bool, editMode: bool, showReply: bool)
    ensures var v := View(h, isHover, editMode, showReply);
      !(v.quote.Some? && v.actions) && (v.editAndDelete ==> v.visibilityIcon.Some? && v.actions)
  {
  }

  /** The location hash a click on a card pushes. */
  function HighlightHash(id: string): (r: string)
    ensures StartsWith(r, "highlight-") && r[|"highlight-"|..] == id
  {
    "highlight-" + id
  }

  /** Different highlights push different hashes. */
  lemma HighlightHashInjective(a: string, b: string)
    ensures HighlightHash(a) == HighlightHash(b) <==> a == b
  {
    assert HighlightHash(a)[|"highlight-"|..] == a;
    assert HighlightHash(b)[|"highlight-"|..] == b;
  }

  class HighlightCard {
    const highlight: Highlight
    var isHover: bool
    var editMode: bool
    var showReply: bool

    constructor(h: Highlight)
      ensures highlight == h && !isHover && !editMode && !showReply
    {
      highlight := h;
      isHover := false;
      editMode := false;
      showReply := false;
    }

    function Current(): ItemView
      reads this
    {
      View(highlight, isHover, editMode, showReply)
    }

    method MouseEnter()
      modifies this
      ensures isHover && editMode == old(editMode) && showReply == old(showReply)
    {
      isHover := true;
    }

    method MouseLeave()
      modifies this
      ensures !isHover && editMode == old(editMode) && showReply == old(showReply)
    {
      isHover := false;
    }

    /** The pencil button flips the editor. */
    method ToggleEdit()
      modifies this
      ensures editMode == !old(editMode) && isHover == old(isHover) && showReply == old(showReply)
    {
      editMode := !editMode;
    }

    /** The reply button flips the reply form. */
    method ToggleReply()
      modifies this
      ensures showReply == !old(showReply) && isHover == old(isHover) && editMode == old(editMode)
    {
      showReply := !showReply;
    }

    /** A click on the card asks for a jump to the highlight and pushes its hash. */
    method Click() returns (jumpRequested: bool, hash: string)
      ensures jumpRequested && hash == HighlightHash(highlight.id)
    {
      jumpRequested := true;
      hash := "highlight-" + highlight.id;
    }

    /** The edit was saved: the editor closes and the server record goes to the parent. */
    method CommentUpdated(response: Result<Highlight>) returns (updated: Option<Highlight>)
      modifies this
      ensures response.Success? ==> !editMode && updated == Some(response.value)
      ensures response.Failure? ==> editMode == old(editMode) && updated.None?
      ensures isHover == old(isHover) && showReply == old(showReply)
    {
      if response.Failure? {
        return None;
      }
      editMode := false;
      updated := Some(response.value);
    }

    /** The reply was posted: the reply form closes and the server record goes to the parent. */
    method ReplySubmitted(response: Result<Highlight>) returns (updated: Option<Highlight>)
      modifies this
      ensures response.Success? ==> !showReply && updated == Some(response.value)
      ensures response.Failure? ==> showReply == old(showReply) && updated.None?
      ensures isHover == old(isHover) && editMode == old(editMode)
    {
      if response.Failure? {
        return None;
      }
      showReply := false;
      updated := Some(response.value);
    }
  }

  /** Hovering an editable comment reveals edit and delete, and leaving hides them again. */
  method HoverEditableComment(h: Highlight) returns (before: bool, during: bool, after: bool)
    requires h.canEdit && HasCommentText(h)
    ensures !before && during && !after
  {
    var card := new HighlightCard(h);
    before := card.Current().editAndDelete;
    card.MouseEnter();
    during := card.Current().editAndDelete;
    card.MouseLeave();
    after := card.Current().editAndDelete;
  }
}
