/**
 * The paper uploader: a dropped PDF file or a pasted link. An arXiv link that names a
 * paper goes straight to that paper's page; any other link must end in `.pdf` and is
 * posted; the status slot walks idle → uploading / processing → idle.
 */
module FileUpload {
  import opened Wrappers
  import opened Text

  /** `isArxivLink`: the host of the parsed url is exactly arxiv.org (the url parsing itself is an input). */
  predicate IsArxivLink(host: string) {
    host == "arxiv.org"
  }

  // ---------------------------------------------------------------------------
  // The arXiv id pattern, declaratively

  /** A character of an old-style archive name: a letter, `-` or `.`. */
  predicate ArchiveChar(c: char) {
    IsAsciiLetter(c) || c == '-' || c == '.'
  }

  predicate AllArchiveChars(s: string) {
    forall i :: 0 <= i < |s| ==> ArchiveChar(s[i])
  }

  /** A new-style id: four digits, a dot, four or five digits. */
  predicate IsNewStyleId(id: string) {
    && (|id| == 9 || |id| == 10)
    && AllDigits(id[..4]) && id[4] == '.' && AllDigits(id[5..])
  }

  /** An old-style id: an archive name, a slash, six to ten digits. */
  predicate IsOldStyleId(id: string) {
    exists k :: 0 < k < |id| && OldStyleSplit(id, k)
  }

  /** `id` is an archive name of length `k`, a slash and six to ten digits. */
  predicate OldStyleSplit(id: string, k: int) {
    && 0 < k < |id|
    && AllArchiveChars(id[..k]) && id[k] == '/'
    && 6 <= |id| - k - 1 <= 10 && AllDigits(id[k + 1..])
  }

  /** A version `v<digits>`. */
  predicate IsVersion(v: string) {
    |v| >= 2 && v[0] == 'v' && AllDigits(v[1..])
  }

  /** What may follow the id up to the end of the link: an optional version, then an optional `.pdf`. */
  predicate IsTail(t: string) {
    t == "" || t == ".pdf" || exists k :: 2 <= k <= |t| && IsVersion(t[..k]) && (t[k..] == "" || t[k..] == ".pdf")
  }

  /** The end of the link, `s`, is the id `id` followed by a tail: the pattern matches `s` with that id. */
  predicate MatchesWithId(s: string, id: string) {
    && (IsNewStyleId(id) || IsOldStyleId(id))
    && |id| <= |s| && s[..|id|] == id && IsTail(s[|id|..])
  }

  // ---------------------------------------------------------------------------
  // The matcher

  /** The longest prefix of archive-name characters. */
  function ArchivePrefix(s: string): (r: string)
    ensures |r| <= |s| && r == s[..|r|] && AllArchiveChars(r)
    ensures |r| < |s| ==> !ArchiveChar(s[|r|])
  {
    if s != [] && ArchiveChar(s[0]) then [s[0]] + ArchivePrefix(s[1..]) else []
  }

  /** The tail test, scanning the version digits. */
  function TailAt(t: string): bool {
    if t == "" || t == ".pdf" then true
    else if |t| >= 2 && t[0] == 'v' then
      var d := DigitPrefix(t[1..]);
      d != [] && (t[1 + |d|..] == "" || t[1 + |d|..] == ".pdf")
    else false
  }

  /**
   * The match of the pattern starting at the first character of `s` and running to its end:
   * the digit alternative for a digit, the archive alternative for an archive character.
   */
  function MatchAt(s: string): Option<string> {
    if |s| >= 5 && AllDigits(s[..4]) && s[4] == '.' then
      var d := DigitPrefix(s[5..]);
      if 4 <= |d| <= 5 && TailAt(s[5 + |d|..]) then Some(s[..5 + |d|]) else None
    else if s != [] && ArchiveChar(s[0]) then
      var a := ArchivePrefix(s);
      if 0 < |a| < |s| && s[|a|] == '/' then
        var d := DigitPrefix(s[|a| + 1..]);
        if 6 <= |d| <= 10 && TailAt(s[|a| + 1 + |d|..]) then Some(s[..|a| + 1 + |d|]) else None
      else None
    else None
  }

  /** `DigitPrefix` of a string whose first `k` characters are digits and whose next one is not. */
  lemma {:induction false} DigitPrefixAt(s: string, k: int)
    requires 0 <= k <= |s| && AllDigits(s[..k]) && (k == |s| || !IsDigit(s[k]))
    ensures DigitPrefix(s) == s[..k]
  {
    assert s == s[..k] + s[k..];
    DigitPrefixOfDigits(s[..k], s[k..]);
  }

  lemma {:induction false} ArchivePrefixAt(s: string, k: int)
    requires 0 <= k <= |s| && AllArchiveChars(s[..k]) && (k == |s| || !ArchiveChar(s[k]))
    ensures ArchivePrefix(s) == s[..k]
  {
    if k > 0 {
      assert s[1..][..k - 1] == s[1..k];
      ArchivePrefixAt(s[1..], k - 1);
    }
  }

  /** A tail never starts with a digit or a slash. */
  lemma TailStart(t: string)
    requires IsTail(t) && t != ""
    ensures t[0] == 'v' || t[0] == '.'
  {
  }

  lemma {:induction false} TailAtIsTail(t: string)
    ensures TailAt(t) <==> IsTail(t)
  {
    if t != "" && t != ".pdf" && |t| >= 2 && t[0] == 'v' {
      var d := DigitPrefix(t[1..]);
      assert t[1..][..|d|] == t[1..1 + |d|];
      if TailAt(t) {
        assert t[..1 + |d|][1..] == d;
        assert IsVersion(t[..1 + |d|]);
      }
      if IsTail(t) {
        var k :| 2 <= k <= |t| && IsVersion(t[..k]) && (t[k..] == "" || t[k..] == ".pdf");
        assert t[1..][..k - 1] == t[..k][1..];
        DigitPrefixAt(t[1..], k - 1);
      }
    }
  }

  /** The digit alternative is tried exactly on suffixes that start with a digit. */
  lemma {:induction false} NewStyleStart(s: string, id: string)
    requires MatchesWithId(s, id) && IsNewStyleId(id)
    ensures MatchAt(s) == Some(id)
  {
    assert s[..4] == id[..4];
    var t := s[|id|..];
    if t != "" {
      TailStart(t);
    }
    assert s[5..][..|id| - 5] == id[5..];
    DigitPrefixAt(s[5..], |id| - 5);
    TailAtIsTail(t);
  }

  lemma {:induction false} OldStyleStart(s: string, id: string, k: int)
    requires MatchesWithId(s, id) && OldStyleSplit(id, k)
    ensures MatchAt(s) == Some(id)
  {
    assert s[0] == id[..k][0];
    assert !IsDigit(s[0]);
    assert !AllDigits(s[..4]) by { assert s[..4][0] == s[0]; }
    assert AllArchiveChars(s[..k]) by { assert s[..k] == id[..k]; }
    ArchivePrefixAt(s, k);
    var n := |id| - k - 1;
    OldStyleDigits(s, id, k);
    TailAtIsTail(s[|id|..]);
    MatchAtOldStyle(s, k, n);
    assert s[..k + 1 + n] == id;
  }

  /** The digits of an old-style id are the maximal digit run after its slash. */
  lemma {:induction false} OldStyleDigits(s: string, id: string, k: int)
    requires MatchesWithId(s, id) && OldStyleSplit(id, k)
    ensures DigitPrefix(s[k + 1..]) == id[k + 1..]
  {
    var t := s[|id|..];
    if t != "" {
      TailStart(t);
    }
    assert s[k + 1..][..|id| - k - 1] == id[k + 1..];
    assert |id| - k - 1 == |s[k + 1..]| || s[k + 1..][|id| - k - 1] == t[0];
    DigitPrefixAt(s[k + 1..], |id| - k - 1);
  }

  /** The archive alternative, unfolded. */
  lemma {:induction false} MatchAtOldStyle(s: string, k: int, n: int)
    requires !(|s| >= 5 && AllDigits(s[..4]) && s[4] == '.')
    requires 0 < k < |s| && ArchivePrefix(s) == s[..k] && s[k] == '/'
    requires |DigitPrefix(s[k + 1..])| == n && 6 <= n <= 10 && TailAt(s[k + 1 + n..])
    ensures MatchAt(s) == Some(s[..k + 1 + n])
  {
    assert ArchiveChar(s[0]) by { assert s[..k][0] == s[0]; }
  }

  /** The digit alternative's result is a new-style id followed by a tail. */
  lemma {:induction false} NewStyleSound(s: string)
    requires |s| >= 5 && AllDigits(s[..4]) && s[4] == '.' && MatchAt(s).Some?
    ensures MatchesWithId(s, MatchAt(s).value) && IsNewStyleId(MatchAt(s).value)
  {
    var d := DigitPrefix(s[5..]);
    var id := s[..5 + |d|];
    assert MatchAt(s) == Some(id);
    assert id[..4] == s[..4];
    assert id[5..] == d;
    TailAtIsTail(s[5 + |d|..]);
    assert s[|id|..] == s[5 + |d|..];
  }

  /** The archive alternative's result is an old-style id followed by a tail. */
  lemma {:induction false} OldStyleSound(s: string)
    requires !(|s| >= 5 && AllDigits(s[..4]) && s[4] == '.') && MatchAt(s).Some?
    ensures MatchesWithId(s, MatchAt(s).value) && IsOldStyleId(MatchAt(s).value)
  {
    var a := ArchivePrefix(s);
    var d := DigitPrefix(s[|a| + 1..]);
    var id := s[..|a| + 1 + |d|];
    assert MatchAt(s) == Some(id);
    assert id[..|a|] == a && id[|a| + 1..] == d;
    assert OldStyleSplit(id, |a|);
    TailAtIsTail(s[|a| + 1 + |d|..]);
    assert s[|id|..] == s[|a| + 1 + |d|..];
  }

  /** Whatever the matcher finds is an id that the pattern matches with. */
  lemma {:induction false} MatchAtSound(s: string)
    requires MatchAt(s).Some?
    ensures MatchesWithId(s, MatchAt(s).value)
  {
    if |s| >= 5 && AllDigits(s[..4]) && s[4] == '.' {
      NewStyleSound(s);
    } else {
      OldStyleSound(s);
    }
  }

  /**
   * The matcher is exact: it finds an id exactly when the pattern matches the suffix with
   * that id, so at each start there is at most one way to match.
   */
  lemma {:induction false} MatchAtExact(s: string, id: string)
    ensures MatchAt(s) == Some(id) <==> MatchesWithId(s, id)
  {
    if MatchesWithId(s, id) {
      if IsNewStyleId(id) {
        NewStyleStart(s, id);
      } else {
        var k :| 0 < k < |id| && OldStyleSplit(id, k);
        OldStyleStart(s, id, k);
      }
    }
    if MatchAt(s) == Some(id) {
      MatchAtSound(s);
    }
  }

  /** The outcome of the matcher at each start of the link, in order, the end of the link included. */
  function Candidates(link: string): (cs: seq<Option<string>>)
    ensures |cs| == |link| + 1
    ensures forall j :: 0 <= j <= |link| ==> cs[j] == MatchAt(link[j..])
  {
    seq(|link| + 1, j requires 0 <= j <= |link| => MatchAt(link[j..]))
  }

  /** The regular expression's search: the first start, from `i` on, where the matcher finds an id. */
  function FirstFound(cs: seq<Option<string>>, i: nat): Option<string>
    requires i <= |cs|
    decreases |cs| - i
  {
    if i == |cs| then None
    else if cs[i].Some? then cs[i]
    else FirstFound(cs, i + 1)
  }

  /** The search result is the first candidate from `i` on that holds an id; nothing when none does. */
  lemma {:induction false} FirstFoundIsFirst(cs: seq<Option<string>>, i: nat)
    requires i <= |cs|
    ensures var r := FirstFound(cs, i);
      && (r.None? ==> forall j :: i <= j < |cs| ==> cs[j].None?)
      && (r.Some? ==> exists j :: i <= j < |cs| && r == cs[j] && forall j' :: i <= j' < j ==> cs[j'].None?)
    decreases |cs| - i
  {
    if i < |cs| && cs[i].None? {
      FirstFoundIsFirst(cs, i + 1);
      var r := FirstFound(cs, i + 1);
      if r.Some? {
        var j :| i + 1 <= j < |cs| && r == cs[j] && forall j' :: i + 1 <= j' < j ==> cs[j'].None?;
        assert forall j' :: i <= j' < j ==> cs[j'].None?;
      }
    }
  }

  /** Some id matches the end of the link from position `i`. */
  ghost predicate MatchesFrom(link: string, i: int) {
    0 <= i <= |link| && exists id :: MatchesWithId(link[i..], id)
  }

  /** The matcher finds nothing at a start exactly when the pattern matches from there with no id. */
  lemma {:induction false} NoMatchAt(link: string, j: int)
    requires 0 <= j <= |link|
    ensures MatchAt(link[j..]).None? <==> !MatchesFrom(link, j)
  {
    if MatchAt(link[j..]).Some? {
      MatchAtSound(link[j..]);
    } else {
      forall id ensures !MatchesWithId(link[j..], id) {
        MatchAtExact(link[j..], id);
      }
    }
  }

  /** The paper id the submit handler reads from an arXiv link, if the pattern finds one. */
  function ArxivPaperId(link: string): (r: Option<string>)
    ensures r.Some? ==> IsNewStyleId(r.value) || IsOldStyleId(r.value)
  {
    var cs := Candidates(link);
    FirstFoundIsFirst(cs, 0);
    var r := FirstFound(cs, 0);
    if r.Some? then
      (var j :| 0 <= j < |cs| && r == cs[j];
       MatchAtSound(link[j..]);
       r)
    else r
  }

  /**
   * The id found is the one of the leftmost start from which the pattern matches to the end
   * of the link; nothing when there is no such start.
   */
  lemma {:induction false} ArxivPaperIdLeftmost(link: string)
    ensures var r := ArxivPaperId(link);
      && (r.None? <==> forall j :: 0 <= j <= |link| ==> !MatchesFrom(link, j))
      && (r.Some? ==> exists j ::
            && 0 <= j <= |link| && MatchesWithId(link[j..], r.value)
            && forall j' :: 0 <= j' < j ==> !MatchesFrom(link, j'))
  {
    var cs := Candidates(link);
    FirstFoundIsFirst(cs, 0);
    forall j | 0 <= j <= |link| ensures cs[j].None? <==> !MatchesFrom(link, j) {
      NoMatchAt(link, j);
    }
    var r := ArxivPaperId(link);
    if r.Some? {
      var j :| 0 <= j < |cs| && r == cs[j] && forall j' :: 0 <= j' < j ==> cs[j'].None?;
      MatchAtSound(link[j..]);
    } else {
      assert forall j :: 0 <= j < |cs| ==> cs[j].None?;
    }
  }

  lemma VersionedNewStyleMatch()
    ensures MatchAt("1905.09533v2") == Some("1905.09533")
  {
    var s, id := "1905.09533v2", "1905.09533";
    assert IsNewStyleId(id) by {
      assert id[..4] == "1905" && id[5..] == "09533";
    }
    assert IsTail("v2") by {
      assert "v2"[..2] == "v2" && "v2"[1..] == "2" && "v2"[2..] == "";
    }
    assert s[..|id|] == id && s[|id|..] == "v2";
    MatchAtExact(s, id);
  }

  /** A name followed by a slash and a four-digit year is no old-style id. */
  lemma {:induction false} ShortNumberNoMatch(s: string, k: int)
    requires 0 < k < |s| && AllArchiveChars(s[..k]) && s[k] == '/' && s[k + 1..] == "1905.09533v2"
    ensures MatchAt(s).None?
  {
    assert s[0] == s[..k][0];
    assert !IsDigit(s[0]);
    assert !AllDigits(s[..4]) by { assert s[..4][0] == s[0]; }
    ArchivePrefixAt(s, k);
    assert |ArchivePrefix(s)| == k;
    DigitPrefixOfDigits("1905", ".09533v2");
    assert "1905" + ".09533v2" == s[k + 1..];
    assert |DigitPrefix(s[k + 1..])| == 4;
  }

  /** The archive alternative does not take `abs` for an archive name; the id after it is found. */
  lemma {:induction false} AbstractPathWithVersion()
    ensures ArxivPaperId("abs/1905.09533v2") == Some("1905.09533")
  {
    var link := "abs/1905.09533v2";
    assert link[0..] == link;
    ShortNumberNoMatch(link[0..], 3);
    ShortNumberNoMatch(link[1..], 2);
    ShortNumberNoMatch(link[2..], 1);
    assert MatchAt(link[3..]).None?;
    assert link[4..] == "1905.09533v2";
    VersionedNewStyleMatch();
    var cs := Candidates(link);
    assert FirstFound(cs, 4) == Some("1905.09533");
    assert FirstFound(cs, 3) == FirstFound(cs, 4);
    assert FirstFound(cs, 2) == FirstFound(cs, 3);
    assert FirstFound(cs, 1) == FirstFound(cs, 2);
    assert FirstFound(cs, 0) == FirstFound(cs, 1);
  }

  // ---------------------------------------------------------------------------
  // Submitting a link, dropping a file, and the status slot

  /** What a link submission does. */
  datatype LinkAction =
    | InvalidUrl
    | GoToPaper(path: string)
    | NotPdf
    | PostLink(link: string)

  /**
   * The submit handler, given the host the url parser found (none when the link is not a
   * url, where parsing throws): an arXiv link with an id opens that paper; otherwise a link
   * must end in `.pdf` to be posted.
   */
  function SubmitLinkAction(link: string, host: Option<string>): (r: LinkAction)
    ensures host.None? <==> r.InvalidUrl?
    ensures r.GoToPaper? <==> host.Some? && IsArxivLink(host.value) && ArxivPaperId(link).Some?
    ensures r.GoToPaper? ==> r.path == "/paper/" + ArxivPaperId(link).value
    ensures r.NotPdf? <==> host.Some? && !r.GoToPaper? && !EndsWith(link, ".pdf")
    ensures r.PostLink? ==> r.link == link && EndsWith(link, ".pdf")
  {
    if host.None? then InvalidUrl
    else if IsArxivLink(host.value) && ArxivPaperId(link).Some? then GoToPaper("/paper/" + ArxivPaperId(link).value)
    else if !EndsWith(link, ".pdf") then NotPdf
    else PostLink(link)
  }

  datatype Phase = Idle | Uploading | Processing

  /**
   * The status slot. The percentage is `100 * loaded / total`; a zero total makes it
   * `Infinity` or `NaN` in the client, which is `None` here.
   */
  datatype UploadStatus = UploadStatus(phase: Phase, prct: Option<real>)

  const IdleStatus: UploadStatus := UploadStatus(Idle, Some(0.0))

  /**
   * The status after a progress event: processing once everything is sent, uploading
   * before. With a zero total the client compares `Infinity` (something loaded) or `NaN`
   * (nothing loaded) with 100.
   */
  function ProgressStatus(loaded: nat, total: nat): (r: UploadStatus)
    ensures r.phase == Processing <==> (total > 0 && loaded >= total) || (total == 0 && loaded > 0)
    ensures r.phase != Idle
    ensures total > 0 ==> r.prct == Some(100.0 * loaded as real / total as real)
  {
    if total == 0 then UploadStatus(if loaded > 0 then Processing else Uploading, None)
    else
      var prct := 100.0 * loaded as real / total as real;
      assert prct >= 100.0 <==> loaded >= total;
      UploadStatus(if prct >= 100.0 then Processing else Uploading, Some(prct))
  }

  class Uploader {
    var status: UploadStatus

    constructor()
      ensures status == IdleStatus
    {
      status := IdleStatus;
    }

    /** A drop: nothing for no file; otherwise the first file starts uploading at 0%. */
    method Drop(files: seq<string>) returns (posted: Option<string>)
      modifies this
      ensures files == [] ==> posted.None? && status == old(status)
      ensures files != [] ==> posted == Some(files[0]) && status == UploadStatus(Uploading, Some(0.0))
    {
      if files == [] {
        return None;
      }
      status := UploadStatus(Uploading, Some(0.0));
      posted := Some(files[0]);
    }

    /** A progress event of the file upload. */
    method UploadProgress(loaded: nat, total: nat)
      modifies this
      ensures status == ProgressStatus(loaded, total)
    {
      status := ProgressStatus(loaded, total);
    }

    /** Submitting the link field: only a posted link changes the status, to processing at 0%. */
    method SubmitLink(link: string, host: Option<string>) returns (action: LinkAction)
      modifies this
      ensures action == SubmitLinkAction(link, host)
      ensures action.PostLink? ==> status == UploadStatus(Processing, Some(0.0))
      ensures !action.PostLink? ==> status == old(status)
    {
      action := SubmitLinkAction(link, host);
      if action.PostLink? {
        status := UploadStatus(Processing, Some(0.0));
      }
    }

    /**
     * The upload (of a file or a link) settled: on success the new paper opens with its
     * info panel; on failure the status returns to idle at 0%.
     */
    method UploadSettled(outcome: Result<string>) returns (navigateTo: Option<string>)
      modifies this
      ensures outcome.Success? ==> navigateTo == Some("/paper/" + outcome.value + "?info=True") && status == old(status)
      ensures outcome.Failure? ==> navigateTo.None? && status == IdleStatus
    {
      if outcome.Failure? {
        status := IdleStatus;
        return None;
      }
      navigateTo := Some("/paper/" + outcome.value + "?info=True");
    }
  }

  /** A file upload runs uploading → processing, and a failure brings the slot back to idle. */
  method FailedFileUpload() returns (during: Phase, sent: Phase, after: UploadStatus)
    ensures during == Uploading && sent == Processing && after == IdleStatus
  {
    var u := new Uploader();
    var posted := u.Drop(["paper.pdf"]);
    u.UploadProgress(50, 100);
    during := u.status.phase;
    u.UploadProgress(100, 100);
    sent := u.status.phase;
    var nav := u.UploadSettled(Failure("Network Error"));
    after := u.status;
  }

  /** A link that is neither an arXiv paper nor a PDF leaves the slot idle. */
  method RejectedLink() returns (action: LinkAction, after: UploadStatus)
    ensures action == NotPdf && after == IdleStatus
  {
    var u := new Uploader();
    action := u.SubmitLink("https://example.org/paper.html", Some("example.org"));
    after := u.status;
  }
}
