/**
 * The legacy paper page: the highlight list it keeps in component state, the paper url
 * slot that doubles as the fetch status, the viewer it renders for each status and the
 * collapsible sidebar.
 */
module PdfCommenter {
  import opened Wrappers
  import opened Models
  import opened HighlightLists

  /** The url slot while the paper metadata is being fetched. */
  const Fetching: string := "-1"
  /** The url slot after the metadata fetch failed. */
  const Failed: string := "0"

  /** What the page shows in place of the document. */
  datatype ViewerRender = Loader | Missing | Viewer(url: string)

  /** The loader while fetching, the "PDF file does not exist" message after a failure, the viewer otherwise. */
  function ViewerFor(url: string): (r: ViewerRender)
    ensures r.Loader? <==> url == Fetching
    ensures r.Missing? <==> url == Failed
    ensures r.Viewer? <==> url != Fetching && url != Failed
    ensures r.Viewer? ==> r.url == url
  {
    if url == Fetching then Loader else if url == Failed then Missing else Viewer(url)
  }

  /** The fields of the paper metadata the page reads. */
  datatype PaperMeta = PaperMeta(url: string, savedInLibrary: bool, title: Option<string>)

  /** The fractions of the page given to the document; a field can be missing from the object. */
  datatype PdfSection = PdfSection(width: Option<real>, height: Option<real>)

  const DefaultPdfPrct: real := 0.75

  /**
   * The layout after a collapse click as written: the new object spreads the setter
   * function rather than the current layout, so only `width` survives.
   */
  function CollapsedLayoutAsWritten(layout: PdfSection, collapsed: bool): (r: PdfSection)
    ensures r.width == Some(if collapsed then 1.0 else DefaultPdfPrct)
  {
    PdfSection(Some(if collapsed then 1.0 else DefaultPdfPrct), None)
  }

  /** The layout after a collapse click, keeping the height fraction. */
  function CollapsedLayout(layout: PdfSection, collapsed: bool): (r: PdfSection)
    ensures r.width == Some(if collapsed then 1.0 else DefaultPdfPrct)
    ensures r.height == layout.height
  {
    layout.(width := Some(if collapsed then 1.0 else DefaultPdfPrct))
  }

  /** As written, a collapse click drops the height fraction that the vertical layout sizes the document by. */
  lemma CollapseDropsHeight(layout: PdfSection, collapsed: bool)
    requires layout.height.Some?
    ensures CollapsedLayoutAsWritten(layout, collapsed).height.None?
    ensures CollapsedLayout(layout, collapsed).height == layout.height
    ensures CollapsedLayoutAsWritten(layout, collapsed) != CollapsedLayout(layout, collapsed)
  {
  }

  /** Collapsing and expanding again restores the default layout. */
  lemma {:induction false} CollapseRoundTrip(height: Option<real>)
    ensures CollapsedLayout(CollapsedLayout(PdfSection(Some(DefaultPdfPrct), height), true), false)
      == PdfSection(Some(DefaultPdfPrct), height)
  {
  }

  class PaperPage {
    var highlights: seq<Highlight>
    var url: string
    var title: string
    var isSidebarCollapsed: bool
    var pdfSection: PdfSection

    /** No highlights, fetching, the site title, the sidebar open and the default layout. */
    constructor()
      ensures highlights == [] && url == Fetching && title == "SciHive"
      ensures !isSidebarCollapsed && pdfSection == PdfSection(Some(DefaultPdfPrct), Some(DefaultPdfPrct))
    {
      highlights := [];
      url := Fetching;
      title := "SciHive";
      isSidebarCollapsed := false;
      pdfSection := PdfSection(Some(DefaultPdfPrct), Some(DefaultPdfPrct));
    }

    /** The viewer the page renders now. */
    function Render(): ViewerRender
      reads this
    {
      ViewerFor(url)
    }

    /** No sidebar is rendered while it is collapsed. */
    predicate SidebarShown()
      reads this
    {
      !isSidebarCollapsed
    }

    /**
     * The metadata fetch settled: the url slot takes the paper's url, or the failure mark;
     * a non-empty title is shown after the site name. Returns the bookmark flag passed on.
     */
    method PaperFetched(outcome: Result<PaperMeta>) returns (bookmark: Option<bool>)
      modifies this
      ensures outcome.Failure? ==> url == Failed && title == old(title) && bookmark.None?
      ensures outcome.Success? ==> url == outcome.value.url && bookmark == Some(outcome.value.savedInLibrary)
      ensures outcome.Success? && Truthy(outcome.value.title) ==> title == "SciHive - " + outcome.value.title.value
      ensures outcome.Success? && !Truthy(outcome.value.title) ==> title == old(title)
      ensures highlights == old(highlights) && isSidebarCollapsed == old(isSidebarCollapsed)
      ensures pdfSection == old(pdfSection)
    {
      if outcome.Failure? {
        url := Failed;
        return None;
      }
      var data := outcome.value;
      url := data.url;
      bookmark := Some(data.savedInLibrary);
      if Truthy(data.title) {
        title := "SciHive - " + data.title.value;
      }
    }

    /** The comments arrived: the list is replaced; a failure is only logged. */
    method CommentsFetched(outcome: Result<seq<Highlight>>)
      modifies this
      ensures highlights == (if outcome.Success? then outcome.value else old(highlights))
      ensures url == old(url) && title == old(title)
      ensures isSidebarCollapsed == old(isSidebarCollapsed) && pdfSection == old(pdfSection)
    {
      if outcome.Success? {
        highlights := outcome.value;
      }
    }

    /** A new highlight goes to the front; the rest keep their order. */
    method AddHighlight(h: Highlight)
      modifies this
      ensures highlights == [h] + old(highlights)
      ensures url == old(url) && title == old(title)
      ensures isSidebarCollapsed == old(isSidebarCollapsed) && pdfSection == old(pdfSection)
    {
      highlights := [h] + highlights;
    }

    /** The entries with the record's id are replaced by it; length and order are kept. */
    method UpdateHighlight(h: Highlight)
      modifies this
      ensures highlights == ReplaceById(old(highlights), h)
      ensures Ids(highlights) == Ids(old(highlights))
      ensures url == old(url) && title == old(title)
      ensures isSidebarCollapsed == old(isSidebarCollapsed) && pdfSection == old(pdfSection)
    {
      ReplaceKeepsIds(highlights, h);
      highlights := ReplaceById(highlights, h);
    }

    /** The entries with that id are dropped once the delete succeeds; a failure keeps the list. */
    method RemoveHighlight(highlightId: string, deleteSucceeded: bool)
      modifies this
      ensures highlights == (if deleteSucceeded then RemoveById(old(highlights), highlightId) else old(highlights))
      ensures deleteSucceeded ==> highlightId !in Ids(highlights)
      ensures url == old(url) && title == old(title)
      ensures isSidebarCollapsed == old(isSidebarCollapsed) && pdfSection == old(pdfSection)
    {
      if deleteSucceeded {
        highlights := RemoveById(highlights, highlightId);
        assert forall i :: 0 <= i < |highlights| ==> highlights[i] in highlights;
      }
    }

    /**
     * The collapse button: the sidebar hides or shows and the document takes the whole
     * width or the default fraction, keeping the height fraction.
     */
    method ToggleSidebar()
      modifies this
      ensures isSidebarCollapsed == !old(isSidebarCollapsed)
      ensures pdfSection == CollapsedLayout(old(pdfSection), isSidebarCollapsed)
      ensures highlights == old(highlights) && url == old(url) && title == old(title)
    {
      var newState := !isSidebarCollapsed;
      isSidebarCollapsed := newState;
      pdfSection := CollapsedLayout(pdfSection, newState);
    }
  }

  /**
   * Loading a paper: the loader shows until the metadata arrives, then the viewer for its
   * url; a failed fetch shows the missing-file message instead.
   */
  method LoadPaper(paperUrl: string, fetchSucceeded: bool) returns (before: ViewerRender, after: ViewerRender)
    requires paperUrl != Fetching && paperUrl != Failed
    ensures before == Loader
    ensures after == (if fetchSucceeded then Viewer(paperUrl) else Missing)
  {
    var page := new PaperPage();
    before := page.Render();
    var outcome := if fetchSucceeded then Success(PaperMeta(paperUrl, false, None)) else Failure("404");
    var bookmark := page.PaperFetched(outcome);
    after := page.Render();
  }

  /** Collapsing hides the sidebar and widens the document; a second click restores both. */
  method CollapseTwice() returns (shownWhileCollapsed: bool, shownAfter: bool, layoutAfter: PdfSection)
    ensures !shownWhileCollapsed && shownAfter
    ensures layoutAfter == PdfSection(Some(DefaultPdfPrct), Some(DefaultPdfPrct))
  {
    var page := new PaperPage();
    page.ToggleSidebar();
    shownWhileCollapsed := page.SidebarShown();
    page.ToggleSidebar();
    shownAfter := page.SidebarShown();
    layoutAfter := page.pdfSection;
  }
}
