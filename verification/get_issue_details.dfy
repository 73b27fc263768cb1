/**
 The issue-details fetch (`MarvelGetIssueDetailsAction`): check the keys
 and the comic id, send exactly one request to `comics/<id>` with an empty
 query, and describe the first record of the reply. An empty result list
 is not an error: the action then returns `null`.
 */
module GetIssueDetails {
  import opened Common
  import opened Wire
  import opened Metadata
  import opened Foreign
  import opened ScrapingAction
  import opened Paging
  import SeriesName

  /** `String.format("comics/%s", comicId)`. */
  function ComicPath(comicId: string): string {
    "comics/" + comicId
  }

  /** `urls.stream().filter(type equals "detail").findFirst()`. */
  function DetailAddress(urls: seq<MarvelUrl>): (r: Option<string>)
    ensures r.None? <==> forall i :: 0 <= i < |urls| ==> urls[i].urlType != "detail"
    ensures r.Some? ==> exists i :: 0 <= i < |urls| && urls[i].urlType == "detail" && urls[i].url == r.value
                                    && forall j :: 0 <= j < i ==> urls[j].urlType != "detail"
  {
    match FindFirst(urls, (u: MarvelUrl) => u.urlType == "detail")
    case None => None
    case Some(i) => Some(urls[i].url)
  }

  /** The description of the first record. The title is never set; the web
      address is the url of the first "detail" link, and stays unset when
      there is none. */
  function MapDetails(parse: string -> Option<Date>, w: IssueRecord): (m: IssueDetailsMetadata)
    ensures m.sourceId == w.id && m.publisher == PublisherName
    ensures m.series == SeriesName.Execute(w.series.name).name
    ensures m.volume == SeriesName.Execute(w.series.name).startYear
    ensures m.issueNumber == w.issueNumber && m.title.None?
    ensures m.coverDate == FindDate(parse, "focDate", w.dates)
    ensures m.storeDate == FindDate(parse, "onsaleDate", w.dates)
    ensures m.description == Some(w.description)
    ensures m.webAddress.None? <==> forall i :: 0 <= i < |w.urls| ==> w.urls[i].urlType != "detail"
    ensures m.webAddress == DetailAddress(w.urls)
  {
    var detail := SeriesName.Execute(w.series.name);
    IssueDetailsMetadata(w.id, PublisherName, detail.name, detail.startYear, w.issueNumber, None,
                         CoverDate(parse, w.dates), StoreDate(parse, w.dates), Some(w.description),
                         DetailAddress(w.urls))
  }

  /** `execute()`: keys, then comic id, each failing before any request;
      then one request, whose reply decides the outcome. */
  function Execute(lib: Library, s: Settings, comicId: string, exchange: Exchange<IssueRecord>)
    : (r: Run<Option<IssueDetailsMetadata>>)
    ensures IsBlank(s.publicKey) ==> r == Run([], Failed(PublicKeyNotDefined))
    ensures !IsBlank(s.publicKey) && IsBlank(s.privateKey) ==> r == Run([], Failed(PrivateKeyNotDefined))
    ensures CheckSetup(s).None? && IsBlank(comicId) ==> r == Run([], Failed(MissingComicId))
    ensures CheckSetup(s).None? && !IsBlank(comicId) ==>
      && r.sent == [CreateUrl(lib.md5, s, ComicPath(comicId), "", exchange.clock)]
      && !r.status.Unfinished?
      && (r.status.Failed? <==> FailureOf(exchange.reply).Some?)
      && (r.status.Failed? ==> r.status.error == FailureOf(exchange.reply).value)
      && (r.status == Done(None) <==> exchange.reply.Response? && |exchange.reply.page.results| == 0)
      && (exchange.reply.Response? && |exchange.reply.page.results| > 0 ==>
            r.status == Done(Some(MapDetails(lib.parseDate, exchange.reply.page.results[0]))))
  {
    match CheckSetup(s)
    case Some(e) => Run([], Failed(e))
    case None =>
      if IsBlank(comicId) then Run([], Failed(MissingComicId))
      else
        var url := CreateUrl(lib.md5, s, ComicPath(comicId), "", exchange.clock);
        match exchange.reply
        case TransportFailure => Run([url], Failed(FailedToGetResponse))
        case NullResponse => Run([url], Failed(FailedToReceiveResponse))
        case Response(p) =>
          if |p.results| == 0 then Run([url], Done(None))
          else Run([url], Done(Some(MapDetails(lib.parseDate, p.results[0]))))
  }

  /** Records after the first, and the page's paging counters, never
      change the outcome. */
  lemma OnlyFirstRecordMatters(lib: Library, s: Settings, comicId: string, clock: Int64,
                               p1: Page<IssueRecord>, p2: Page<IssueRecord>)
    requires |p1.results| > 0 && |p2.results| > 0 && p1.results[0] == p2.results[0]
    ensures Execute(lib, s, comicId, Exchange(clock, Response(p1)))
         == Execute(lib, s, comicId, Exchange(clock, Response(p2)))
  {
  }

  /** The first "detail" link wins over later ones. */
  lemma FirstDetailLinkWins(parse: string -> Option<Date>, w: IssueRecord, first: string, second: string)
    requires w.urls == [MarvelUrl("purchase", second), MarvelUrl("detail", first), MarvelUrl("detail", second)]
    ensures MapDetails(parse, w).webAddress == Some(first)
  {
    var r := DetailAddress(w.urls);
    assert w.urls[0].urlType != "detail" && w.urls[1].urlType == "detail";
    var i :| 0 <= i < |w.urls| && w.urls[i].urlType == "detail" && w.urls[i].url == r.value
             && forall j :: 0 <= j < i ==> w.urls[j].urlType != "detail";
    assert i == 1;
  }
}
