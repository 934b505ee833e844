/**
 * The highlight data model of the annotation client: positions, visibility scopes,
 * new / persisted / pending highlights and the jump requests the renderer consumes.
 * Numbers that the client keeps as floating point are `real` here.
 */
module Models {
  import opened Wrappers

  /** A rectangle in live pixel coordinates of the current render. */
  datatype LTWH = LTWH(left: real, top: real, width: real, height: real)

  /** A rectangle stored relative to the page it was captured on. */
  datatype ScaledRect = ScaledRect(x1: real, y1: real, x2: real, y2: real, width: real, height: real)

  /** A position in viewport (pixel) form. */
  datatype Position = Position(pageNumber: int, boundingRect: LTWH, rects: seq<LTWH>)

  /** A position in resolution-independent form; `usePdfCoordinates` is an optional flag. */
  datatype ScaledPosition = ScaledPosition(
    boundingRect: ScaledRect,
    rects: seq<ScaledRect>,
    pageNumber: int,
    usePdfCoordinates: Option<bool>)

  /** The location of a section jump: a page and an offset on it. */
  datatype SimplePosition = SimplePosition(pageNumber: int, position: real)

  /** The four sharing scopes of a highlight. */
  datatype VisibilityType = Public | Private | Anonymous | GroupScope

  /** The scope list, in the order the client declares it. */
  const Visibilities: seq<VisibilityType> := [Public, Private, Anonymous, GroupScope]

  /** The wire name of a scope. */
  function TypeName(t: VisibilityType): string {
    match t
    case Public => "public"
    case Private => "private"
    case Anonymous => "anonymous"
    case GroupScope => "group"
  }

  /** Reads a wire name back; anything that is not one of the four names is rejected. */
  function ParseVisibilityType(s: string): (r: Option<VisibilityType>)
    ensures r.Some? ==> TypeName(r.value) == s
    ensures s in {"public", "private", "anonymous", "group"} <==> r.Some?
  {
    if s == "public" then Some(Public)
    else if s == "private" then Some(Private)
    else if s == "anonymous" then Some(Anonymous)
    else if s == "group" then Some(GroupScope)
    else None
  }

  /** A visibility is a scope with an optional group id. */
  datatype Visibility = Visibility(vtype: VisibilityType, id: Option<string>)

  /** The shape the backend expects: an id exactly for the group scope. */
  predicate WellFormedVisibility(v: Visibility) {
    v.vtype == GroupScope <==> v.id.Some?
  }

  datatype Content = Content(text: Option<string>, image: Option<string>)
  datatype Comment = Comment(text: string)
  datatype Reply = Reply(id: string, user: string, text: string, createdAt: string)
  datatype User = User(username: string)

  /** The fields of a highlight that the user supplies when creating it. */
  datatype NewHighlight = NewHighlight(
    position: ScaledPosition,
    content: Content,
    comment: Comment,
    visibility: Visibility)

  /**
   * A persisted highlight: an anchored highlight carries a position, a general note
   * (attached to the whole paper) does not. Both carry the server-assigned fields.
   */
  datatype Highlight =
    | Anchored(
        id: string, position: ScaledPosition, content: Content, comment: Comment, visibility: Visibility,
        createdAt: string, replies: seq<Reply>, user: User, canEdit: bool)
    | General(
        id: string, content: Content, comment: Comment, visibility: Visibility,
        createdAt: string, replies: seq<Reply>, user: User, canEdit: bool)

  /** The classification the store uses: a general note is a highlight without a position. */
  predicate IsGeneralHighlight(h: Highlight) {
    h.General?
  }

  /** A persisted anchored highlight is the new-highlight fields plus the server-assigned ones. */
  function Persist(n: NewHighlight, id: string, createdAt: string, replies: seq<Reply>, user: User, canEdit: bool)
    : (h: Highlight)
    ensures h.Anchored? && h.id == id && h.createdAt == createdAt && h.replies == replies
    ensures h.user == user && h.canEdit == canEdit
    ensures NewPart(h) == n
  {
    Anchored(id, n.position, n.content, n.comment, n.visibility, createdAt, replies, user, canEdit)
  }

  /** The new-highlight fields of an anchored highlight. */
  function NewPart(h: Highlight): NewHighlight
    requires h.Anchored?
  {
    NewHighlight(h.position, h.content, h.comment, h.visibility)
  }

  /**
   * What the client posts to create a highlight: the new-highlight fields, or those of a
   * general note, which has no position.
   */
  datatype AllNewHighlight =
    | NewAnchored(highlight: NewHighlight)
    | NewGeneral(content: Content, comment: Comment, visibility: Visibility)

  /** A highlight under construction: only the position is required. */
  datatype TempHighlight = TempHighlight(
    position: ScaledPosition,
    content: Option<Content>,
    comment: Option<Comment>,
    visibility: Option<Visibility>)

  /** Either a persisted highlight or a pending one, as the renderer receives them. */
  datatype ExtendedHighlight = Full(highlight: Highlight) | Temp(temp: TempHighlight)

  /** The own property names of the object that stands for `e`. */
  function FieldNames(e: ExtendedHighlight): set<string> {
    match e
    case Full(Anchored(_, _, _, _, _, _, _, _, _)) =>
      {"id", "position", "content", "comment", "visibility", "createdAt", "replies", "user", "canEdit"}
    case Full(General(_, _, _, _, _, _, _, _)) =>
      {"id", "content", "comment", "visibility", "createdAt", "replies", "user", "canEdit"}
    case Temp(t) =>
      {"position"}
      + (if t.content.Some? then {"content"} else {})
      + (if t.comment.Some? then {"comment"} else {})
      + (if t.visibility.Some? then {"visibility"} else {})
  }

  /** `isValidHighlight`: the object has an own `id` property. */
  function IsValidHighlight(e: ExtendedHighlight): (r: bool)
    ensures r <==> e.Full?
  {
    "id" in FieldNames(e)
  }

  /** A pending highlight always carries its position and never an id. */
  lemma TempHighlightFields(t: TempHighlight)
    ensures "position" in FieldNames(Temp(t)) && "id" !in FieldNames(Temp(t))
    ensures FieldNames(Temp(t)) <= {"position", "content", "comment", "visibility"}
  {
  }

  /** A section of the table of contents, as the text layer produced it. */
  datatype Section = Section(str: string, page: int)

  /** A reference of the bibliography. */
  datatype Reference = Reference(html: string, arxivId: string)

  datatype CodeMeta = CodeMeta(github: string, stars: int, paperswithcode: string)

  datatype Author = Author(name: string)

  datatype Group = Group(id: string, name: string, createdAt: string, numPapers: int)

  datatype SidebarTab = Sections | Comments

  /** The jump request of the sidebar channel: scroll the comment list to a comment. */
  datatype CommentJump = CommentJump(id: string)

  /** The jump request of the paper channel: a section jump or a highlight jump. */
  datatype PaperJump =
    | SectionJump(id: string, sectionLocation: SimplePosition)
    | HighlightJump(id: string, highlightLocation: ScaledPosition)
  {
    /** Every paper jump targets the paper area. */
    function Area(): string {
      "paper"
    }

    function JumpType(): (t: string)
      ensures t == "section" <==> SectionJump?
      ensures t == "highlight" <==> HighlightJump?
    {
      if SectionJump? then "section" else "highlight"
    }
  }

  /** The wire name round-trips: it names every scope differently and reads back as the same scope. */
  lemma {:induction false} VisibilityNamesRoundTrip(t: VisibilityType, u: VisibilityType)
    ensures ParseVisibilityType(TypeName(t)) == Some(t)
    ensures TypeName(t) == TypeName(u) ==> t == u
    ensures t in Visibilities && |Visibilities| == 4
  {
  }
}
