/**
 * The collaborative paper page: the loading hook steps a status slot and a document slot
 * through fetching the url, downloading the PDF and the outcome of each; the page shows a
 * loader, a message or the viewer, and opens the invite once the paper is on its way.
 */
module CollabPaper {
  import opened Wrappers

  datatype LoadStatus = FetchingURL | UrlNotFound | DownloadingPdf | Ready | PdfError

  /** The loaded PDF document; only its identity matters here. */
  datatype PdfDocument = PdfDocument(url: string)

  /** The loader spins while the url is fetched and while the PDF downloads. */
  predicate ShowsLoader(status: LoadStatus) {
    status == FetchingURL || status == DownloadingPdf
  }

  /** The error message for the two failures. */
  function Message(status: LoadStatus): (r: Option<string>)
    ensures r.Some? <==> status == PdfError || status == UrlNotFound
    ensures status == PdfError ==> r == Some("PDF file does not exist")
    ensures status == UrlNotFound ==> r == Some("URL not found")
  {
    match status
    case PdfError => Some("PDF file does not exist")
    case UrlNotFound => Some("URL not found")
    case _ => None
  }

  /** The statuses in which the invite dialog opens on load. */
  const ShowInviteStatus: seq<LoadStatus> := [DownloadingPdf, Ready]

  /** The invite opens once the url was found (during the download or after it), if asked for. */
  function OpensInvite(status: LoadStatus, showInviteOnLoad: bool): (r: bool)
    ensures r <==> showInviteOnLoad && (status == DownloadingPdf || status == Ready)
  {
    status in ShowInviteStatus && showInviteOnLoad
  }

  /** Every status but `Ready` shows exactly one of the loader and a message; `Ready` shows neither. */
  lemma DisplayExclusive(status: LoadStatus)
    ensures status != Ready <==> (ShowsLoader(status) != Message(status).Some?)
    ensures !(ShowsLoader(status) && Message(status).Some?)
  {
  }

  /** The invite never opens for a paper whose url was not found or is still being fetched. */
  lemma InviteNeedsUrl(status: LoadStatus, showInviteOnLoad: bool)
    ensures OpensInvite(status, showInviteOnLoad) ==> status != FetchingURL && status != UrlNotFound
  {
  }

  class PaperLoader {
    var status: LoadStatus
    var pdfDocument: Option<PdfDocument>

    constructor()
      ensures status == FetchingURL && pdfDocument.None?
    {
      status := FetchingURL;
      pdfDocument := None;
    }

    /** The viewer is rendered once there is a document. */
    predicate ShowsViewer()
      reads this
    {
      pdfDocument.Some?
    }

    /**
     * A load starts (on mount and on every location change): fetching, no document, the
     * store's paper cleared; the selected group is the `list` query parameter.
     */
    method StartLoad(query: map<string, string>) returns (selectedGroupId: Option<string>, clearedPaper: bool)
      modifies this
      ensures status == FetchingURL && pdfDocument.None? && clearedPaper
      ensures "list" in query ==> selectedGroupId == Some(query["list"])
      ensures "list" !in query ==> selectedGroupId.None?
    {
      status := FetchingURL;
      pdfDocument := None;
      clearedPaper := true;
      selectedGroupId := if "list" in query then Some(query["list"]) else None;
    }

    /** The paper fetch settled: a failure ends in `UrlNotFound`; a url starts the PDF download. */
    method UrlFetched(outcome: Result<string>) returns (download: Option<string>)
      modifies this
      ensures outcome.Failure? ==> status == UrlNotFound && download.None?
      ensures outcome.Success? ==> status == DownloadingPdf && download == Some(outcome.value)
      ensures pdfDocument == old(pdfDocument)
    {
      if outcome.Failure? {
        status := UrlNotFound;
        return None;
      }
      status := DownloadingPdf;
      download := Some(outcome.value);
    }

    /** The download settled: the document is kept and its sections extracted, or the status is `PdfError`. */
    method DocumentSettled(outcome: Result<PdfDocument>) returns (sectionsExtracted: bool)
      modifies this
      ensures outcome.Success? ==> status == Ready && pdfDocument == Some(outcome.value) && sectionsExtracted
      ensures outcome.Failure? ==> status == PdfError && pdfDocument == old(pdfDocument) && !sectionsExtracted
    {
      if outcome.Failure? {
        status := PdfError;
        return false;
      }
      pdfDocument := Some(outcome.value);
      sectionsExtracted := true;
      status := Ready;
    }
  }

  /**
   * A load that finds the url and the document: the loader shows while fetching and while
   * downloading, the invite opens from the download on, and the viewer shows at the end.
   */
  method SuccessfulLoad(query: map<string, string>, url: string, showInviteOnLoad: bool)
    returns (loaderWhileFetching: bool, loaderWhileDownloading: bool, inviteWhileDownloading: bool,
             loaderAtEnd: bool, viewerAtEnd: bool)
    ensures loaderWhileFetching && loaderWhileDownloading && !loaderAtEnd && viewerAtEnd
    ensures inviteWhileDownloading == showInviteOnLoad
  {
    var loader := new PaperLoader();
    var group, cleared := loader.StartLoad(query);
    loaderWhileFetching := ShowsLoader(loader.status);
    var download := loader.UrlFetched(Success(url));
    loaderWhileDownloading := ShowsLoader(loader.status);
    inviteWhileDownloading := OpensInvite(loader.status, showInviteOnLoad);
    var extracted := loader.DocumentSettled(Success(PdfDocument(download.value)));
    loaderAtEnd := ShowsLoader(loader.status);
    viewerAtEnd := loader.ShowsViewer();
  }

  /** A url that is not found shows its message, never starts a download and never opens the invite. */
  method UrlNotFoundLoad(query: map<string, string>) returns (message: Option<string>, download: Option<string>, invite: bool)
    ensures message == Some("URL not found") && download.None? && !invite
  {
    var loader := new PaperLoader();
    var group, cleared := loader.StartLoad(query);
    download := loader.UrlFetched(Failure("404"));
    message := Message(loader.status);
    invite := OpensInvite(loader.status, true);
  }
}
