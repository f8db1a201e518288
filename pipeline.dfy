/**
 * The resolution pipeline: validate the URL, look it up, pick the link, name the
 * file, fetch it (`get_video_download_url`, `extract_download_url`,
 * `process_video_download` and the link handling of `download_video_file`).
 * The network is an input: what the lookup answered and whether the fetch worked.
 */
module Pipeline {

  import opened Wrappers
  import opened Text
  import opened UrlValidator
  import opened LinkExtractor
  import opened FilenameGenerator

  /**
   * What the outside world does for one request: the anchors of the lookup's
   * answer (`None` for any request or status failure), whether the download and
   * the write succeed, and the clock.
   */
  datatype Environment = Environment(lookup: Option<seq<Anchor>>, fetchOk: bool, now: nat)

  /**
   * What one pipeline run did: whether the lookup request was issued, the file name
   * generated (if one was), the URL the media was requested from (if it was), and
   * the outcome.
   */
  datatype Attempt = Attempt(lookedUp: bool, filename: Option<string>, requested: Option<string>, success: bool)

  /** The lookup found a first usable anchor and its cleaned link is not empty. */
  ghost predicate HasLink(anchors: seq<Anchor>)
  {
    exists i :: FirstUsableAt(anchors, i) && Cleaned(anchors[i]) != []
  }

  /**
   * `extract_download_url`: a failed lookup gives `None`; otherwise the link chosen
   * from the answer, kept only when it is not empty.  An empty cleaned link (an
   * `href` of just `\"`) is a miss, and later anchors are not consulted.
   */
  function ExtractDownloadUrl(lookup: Option<seq<Anchor>>): (r: Option<string>)
    ensures r.Some? <==> lookup.Some? && HasLink(lookup.value)
    ensures r.Some? ==> r == FirstLink(lookup.value)
    ensures r.Some? ==> exists i :: FirstUsableAt(lookup.value, i) && r.value == Cleaned(lookup.value[i])
  {
    match lookup
    case None => None
    case Some(anchors) =>
      FirstLinkNone(anchors);
      FirstLinkAtAny(anchors);
      var link := FirstLink(anchors);
      if link.Some? && link.value != [] then
        FirstLinkFound(anchors);
        link
      else
        None
  }

  /**
   * `get_video_download_url`: an invalid URL gives `None` without a lookup;
   * otherwise whatever the lookup yields.
   */
  function GetVideoDownloadUrl(url: string, lookup: Option<seq<Anchor>>): (r: Option<string>)
    ensures r.Some? <==> IsTiktokUrl(url) && lookup.Some? && HasLink(lookup.value)
    ensures r.Some? ==> r.value != [] && r == FirstLink(lookup.value)
    ensures r.Some? ==> exists i :: FirstUsableAt(lookup.value, i) && r.value == Cleaned(lookup.value[i])
  {
    if !ValidateTiktokUrl(url) then None
    else
      var link := ExtractDownloadUrl(lookup);
      if link.Some? then link else None
  }

  /** `download_video_file` cleans the link once more before the GET. */
  function FetchTarget(link: string): (u: string)
    ensures |u| <= |link|
  {
    RemoveAll(link, EscapedQuote)
  }

  /**
   * `process_video_download`: the steps run in order and the first failure ends the
   * run.  A name is generated and a fetch issued exactly when a link was found; the
   * name is always safe; the outcome is the fetch's.
   */
  function ProcessVideoDownload(url: string, env: Environment): (a: Attempt)
    ensures a.lookedUp <==> IsTiktokUrl(url)
    ensures a.filename.Some? <==> a.requested.Some?
    ensures a.requested.Some? <==> IsTiktokUrl(url) && env.lookup.Some? && HasLink(env.lookup.value)
    ensures a.filename.Some? ==> IsSafeFilename(a.filename.value)
    ensures a.success <==> a.requested.Some? && env.fetchOk
    ensures a.requested.Some? ==> (
      env.lookup.Some? && FirstLink(env.lookup.value).Some? &&
      var link := FirstLink(env.lookup.value).value;
      a.filename == Some(GenerateFilename(link, env.now)) && a.requested == Some(FetchTarget(link)))
  {
    var link := GetVideoDownloadUrl(url, env.lookup);
    if link.None? then
      Attempt(ValidateTiktokUrl(url), None, None, false)
    else
      var filename := GenerateFilename(link.value, env.now);
      Attempt(true, Some(filename), Some(FetchTarget(link.value)), env.fetchOk)
  }

  /**
   * A link whose `\"` has been removed once can still lose characters at the fetch:
   * `\\""` becomes `\"` for the name and the empty string for the request.
   */
  lemma FetchTargetCleansAgain()
    ensures FetchTarget(EscapedQuote) == []
  {
  }

  /**
   * The scan stops at the first usable anchor even when its cleaned link is empty:
   * the usable anchor after it is never chosen and nothing is fetched.
   */
  lemma EmptyLinkEndsTheScan(url: string, fetchOk: bool, now: nat)
    ensures var anchors := [Anchor("", [SuccessClass], Some(EscapedQuote)), Anchor("", [SuccessClass], Some("https://cdn.example/v1.mp4"))];
      Usable(anchors[1]) && Cleaned(anchors[1]) != []
      && !ProcessVideoDownload(url, Environment(Some(anchors), fetchOk, now)).success
      && ProcessVideoDownload(url, Environment(Some(anchors), fetchOk, now)).requested.None?
  {
    var anchors := [Anchor("", [SuccessClass], Some(EscapedQuote)), Anchor("", [SuccessClass], Some("https://cdn.example/v1.mp4"))];
    assert FirstUsableAt(anchors, 0);
    FirstLinkAt(anchors, 0);
    var link := "https://cdn.example/v1.mp4";
    AbsentChar(link, EscapedQuote, 1);
    RemoveAllAbsent(link, EscapedQuote);
  }

  /**
   * A platform URL whose lookup answers with a `dl-success` anchor: the link loses its
   * trailing `\"`, the file is named `v1mp4.mp4`, and the run succeeds when the fetch does.
   */
  lemma ResolvesTypicalAnswer(now: nat)
    ensures var env := Environment(Some([Anchor("", [SuccessClass], Some("https://cdn.example/v1.mp4\\\""))]), true, now);
      ProcessVideoDownload("https://www.tiktok.com/@user/video/123456789", env)
        == Attempt(true, Some("v1mp4.mp4"), Some("https://cdn.example/v1.mp4"), true)
  {
    TypicalAnswerResolves();
    CdnLinkIsClean();
    FilenameOfCdnLink(now);
  }

  lemma TypicalAnswerResolves()
    ensures GetVideoDownloadUrl("https://www.tiktok.com/@user/video/123456789",
      Some([Anchor("", [SuccessClass], Some("https://cdn.example/v1.mp4\\\""))])) == Some("https://cdn.example/v1.mp4")
  {
    var anchors := [Anchor("", [SuccessClass], Some("https://cdn.example/v1.mp4\\\""))];
    TypicalVideoUrlIsValid();
    TypicalAnswerLink();
    assert Cleaned(anchors[0]) != [] && FirstUsableAt(anchors, 0);
  }

  lemma TypicalVideoUrlIsValid()
    ensures ValidateTiktokUrl("https://www.tiktok.com/@user/video/123456789")
  {
    assert "https://www.tiktok.com" + "/@user/video/123456789" == "https://www.tiktok.com/@user/video/123456789";
    AcceptsPlatformUrl("/@user/video/123456789");
  }

  lemma CdnLinkIsClean()
    ensures FetchTarget("https://cdn.example/v1.mp4") == "https://cdn.example/v1.mp4"
  {
    var link := "https://cdn.example/v1.mp4";
    AbsentChar(link, EscapedQuote, 1);
    RemoveAllAbsent(link, EscapedQuote);
  }

  lemma TypicalAnswerLink()
    ensures FirstLink([Anchor("", [SuccessClass], Some("https://cdn.example/v1.mp4\\\""))]) == Some("https://cdn.example/v1.mp4")
  {
    var link := "https://cdn.example/v1.mp4";
    assert link + EscapedQuote == "https://cdn.example/v1.mp4\\\"";
    assert '"' !in link;
    RemoveTrailingEscapedQuote(link);
  }
}
