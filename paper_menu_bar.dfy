/**
 * The link menus of the paper top bar: the desktop pop-over and the mobile list, built
 * from the paper store's id, url, editability, code links and arXiv id.
 */
module PaperMenuBar {
  import opened Wrappers
  import opened Models

  /** A menu entry: a labelled link, or the divider. */
  datatype MenuEntry = Link(caption: string, href: string) | Divider

  /**
   * The PDF link: the stored url of an uploaded (editable) paper, else the arXiv download of
   * an arXiv paper, else empty.
   */
  function PdfHref(isEditable: bool, url: string, arxivId: Option<string>): (r: string)
    ensures isEditable ==> r == url
    ensures !isEditable && Truthy(arxivId) ==> r == "https://arxiv.org/pdf/" + arxivId.value + ".pdf?download=1"
    ensures !isEditable && !Truthy(arxivId) ==> r == ""
  {
    if isEditable then url
    else if Truthy(arxivId) then "https://arxiv.org/pdf/" + arxivId.value + ".pdf?download=1"
    else ""
  }

  predicate HasGithub(codeMeta: Option<CodeMeta>) {
    codeMeta.Some? && codeMeta.value.github != ""
  }

  predicate HasPapersWithCode(codeMeta: Option<CodeMeta>) {
    codeMeta.Some? && codeMeta.value.paperswithcode != ""
  }

  /** An arXiv paper that was not uploaded by the user. */
  predicate IsArxivPaper(isEditable: bool, arxivId: Option<string>) {
    !isEditable && Truthy(arxivId)
  }

  /** The Github entry, when the code metadata has a Github url. */
  function GithubEntry(codeMeta: Option<CodeMeta>): (r: seq<MenuEntry>)
    ensures |r| == (if HasGithub(codeMeta) then 1 else 0)
    ensures HasGithub(codeMeta) ==> r == [Link("Github", codeMeta.value.github)]
  {
    if HasGithub(codeMeta) then [Link("Github", codeMeta.value.github)] else []
  }

  /** The PapersWithCode entry, when the code metadata has such a url. */
  function PapersWithCodeEntry(codeMeta: Option<CodeMeta>): (r: seq<MenuEntry>)
    ensures |r| == (if HasPapersWithCode(codeMeta) then 1 else 0)
    ensures HasPapersWithCode(codeMeta) ==> r == [Link("PapersWithCode", codeMeta.value.paperswithcode)]
  {
    if HasPapersWithCode(codeMeta) then [Link("PapersWithCode", codeMeta.value.paperswithcode)] else []
  }

  /** A link to an arXiv page of the paper under `base`, for an arXiv paper. */
  function ArxivEntry(isEditable: bool, arxivId: Option<string>, caption: string, base: string): (r: seq<MenuEntry>)
    ensures |r| == (if IsArxivPaper(isEditable, arxivId) then 1 else 0)
    ensures IsArxivPaper(isEditable, arxivId) ==> r == [Link(caption, base + arxivId.value)]
  {
    if IsArxivPaper(isEditable, arxivId) then [Link(caption, base + arxivId.value)] else []
  }

  /**
   * The desktop menu: nothing without a paper id; otherwise the code links that exist, the
   * PDF link and, for an arXiv paper, its abstract page.
   */
  function DesktopMenu(id: string, url: string, isEditable: bool, codeMeta: Option<CodeMeta>, arxivId: Option<string>)
    : (r: Option<seq<MenuEntry>>)
    ensures r.None? <==> id == ""
    ensures r.Some? ==>
      r.value == GithubEntry(codeMeta) + PapersWithCodeEntry(codeMeta)
        + [Link("PDF", PdfHref(isEditable, url, arxivId))] + ArxivEntry(isEditable, arxivId, "Abstract", "https://arxiv.org/abs/")
  {
    if id == "" then None
    else Some(GithubEntry(codeMeta) + PapersWithCodeEntry(codeMeta)
      + [Link("PDF", PdfHref(isEditable, url, arxivId))] + ArxivEntry(isEditable, arxivId, "Abstract", "https://arxiv.org/abs/"))
  }

  /** The mobile list: the code links, the PDF link, the LaTeX source of an arXiv paper, the divider. */
  function MobileMenuEntries(isEditable: bool, url: string, codeMeta: Option<CodeMeta>, arxivId: Option<string>): seq<MenuEntry> {
    GithubEntry(codeMeta) + PapersWithCodeEntry(codeMeta)
      + [Link("Download PDF", PdfHref(isEditable, url, arxivId))]
      + ArxivEntry(isEditable, arxivId, "Download LaTeX", "https://arxiv.org/e-print/") + [Divider]
  }

  /**
   * The desktop menu of a paper holds the PDF link; the Github, PapersWithCode and Abstract
   * entries exactly when their links exist; and no divider.
   */
  lemma {:induction false} DesktopMenuContents(id: string, url: string, isEditable: bool, codeMeta: Option<CodeMeta>, arxivId: Option<string>)
    requires id != ""
    ensures var m := DesktopMenu(id, url, isEditable, codeMeta, arxivId).value;
      && Link("PDF", PdfHref(isEditable, url, arxivId)) in m
      && ((exists e :: e in m && e.Link? && e.caption == "Github") <==> HasGithub(codeMeta))
      && ((exists e :: e in m && e.Link? && e.caption == "PapersWithCode") <==> HasPapersWithCode(codeMeta))
      && ((exists e :: e in m && e.Link? && e.caption == "Abstract") <==> IsArxivPaper(isEditable, arxivId))
      && Divider !in m
  {
    var g, p, a := GithubEntry(codeMeta), PapersWithCodeEntry(codeMeta), ArxivEntry(isEditable, arxivId, "Abstract", "https://arxiv.org/abs/");
    var pdf := Link("PDF", PdfHref(isEditable, url, arxivId));
    var m := DesktopMenu(id, url, isEditable, codeMeta, arxivId).value;
    assert m == g + p + [pdf] + a;
    assert m[|g| + |p|] == pdf;
    assert forall e :: e in m <==> e in g || e in p || e == pdf || e in a;
    if HasGithub(codeMeta) { assert g[0] in m; }
    if HasPapersWithCode(codeMeta) { assert p[0] in m; }
    if IsArxivPaper(isEditable, arxivId) { assert a[0] in m; }
  }

  /**
   * The mobile menu, built as the component does: the PDF link, the LaTeX source of an
   * arXiv paper, the divider, then the code links put in front.
   */
  method MobileMenu(isEditable: bool, url: string, codeMeta: Option<CodeMeta>, arxivId: Option<string>)
    returns (res: seq<MenuEntry>)
    ensures res == MobileMenuEntries(isEditable, url, codeMeta, arxivId)
  {
    res := [Link("Download PDF", PdfHref(isEditable, url, arxivId))];
    if !isEditable && Truthy(arxivId) {
      res := res + [Link("Download LaTeX", "https://arxiv.org/e-print/" + arxivId.value)];
    }
    res := res + [Divider];
    if HasPapersWithCode(codeMeta) {
      res := [Link("PapersWithCode", codeMeta.value.paperswithcode)] + res;
    }
    if HasGithub(codeMeta) {
      res := [Link("Github", codeMeta.value.github)] + res;
    }
  }

  /**
   * The mobile list: between 2 and 5 entries, links everywhere but the last place, which is
   * the divider; Github first when present, and the PDF link right after the code links.
   */
  lemma {:induction false} MobileMenuShape(isEditable: bool, url: string, codeMeta: Option<CodeMeta>, arxivId: Option<string>)
    ensures var res := MobileMenuEntries(isEditable, url, codeMeta, arxivId);
      && 2 <= |res| <= 5
      && res[|res| - 1] == Divider
      && (forall i :: 0 <= i < |res| - 1 ==> res[i].Link?)
      && |res| == 2 + (if HasGithub(codeMeta) then 1 else 0) + (if HasPapersWithCode(codeMeta) then 1 else 0)
        + (if IsArxivPaper(isEditable, arxivId) then 1 else 0)
      && (HasGithub(codeMeta) ==> res[0] == Link("Github", codeMeta.value.github))
      && res[|GithubEntry(codeMeta)| + |PapersWithCodeEntry(codeMeta)|]
        == Link("Download PDF", PdfHref(isEditable, url, arxivId))
  {
    var g, p, l := GithubEntry(codeMeta), PapersWithCodeEntry(codeMeta), ArxivEntry(isEditable, arxivId, "Download LaTeX", "https://arxiv.org/e-print/");
    var pdf := Link("Download PDF", PdfHref(isEditable, url, arxivId));
    var res := MobileMenuEntries(isEditable, url, codeMeta, arxivId);
    assert res == g + p + [pdf] + l + [Divider];
    forall i | 0 <= i < |res| - 1 ensures res[i].Link? {
      if i < |g| { assert res[i] == g[i]; }
      else if i < |g| + |p| { assert res[i] == p[i - |g|]; }
      else if i > |g| + |p| { assert res[i] == l[i - |g| - |p| - 1]; }
    }
  }

  /**
   * The two menus offer the same code links and the same PDF link, and the mobile LaTeX
   * entry appears exactly when the desktop Abstract entry does.
   */
  lemma {:induction false} MenusAgree(id: string, isEditable: bool, url: string, codeMeta: Option<CodeMeta>, arxivId: Option<string>)
    requires id != ""
    ensures var desktop := DesktopMenu(id, url, isEditable, codeMeta, arxivId).value;
      var mobile := MobileMenuEntries(isEditable, url, codeMeta, arxivId);
      && desktop[..|GithubEntry(codeMeta)| + |PapersWithCodeEntry(codeMeta)|] == mobile[..|GithubEntry(codeMeta)| + |PapersWithCodeEntry(codeMeta)|]
      && desktop[|GithubEntry(codeMeta)| + |PapersWithCodeEntry(codeMeta)|].href == mobile[|GithubEntry(codeMeta)| + |PapersWithCodeEntry(codeMeta)|].href
      && |desktop| + 1 == |mobile|
  {
    var g, p := GithubEntry(codeMeta), PapersWithCodeEntry(codeMeta);
    var desktop := DesktopMenu(id, url, isEditable, codeMeta, arxivId).value;
    var mobile := MobileMenuEntries(isEditable, url, codeMeta, arxivId);
    var pdf := PdfHref(isEditable, url, arxivId);
    var a, l := ArxivEntry(isEditable, arxivId, "Abstract", "https://arxiv.org/abs/"), ArxivEntry(isEditable, arxivId, "Download LaTeX", "https://arxiv.org/e-print/");
    assert desktop == (g + p) + ([Link("PDF", pdf)] + a);
    assert mobile == (g + p) + ([Link("Download PDF", pdf)] + l + [Divider]);
  }
}
