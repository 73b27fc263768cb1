/**
 The single-issue search (`MarvelGetIssueAction`): check the keys, the
 series id and the issue number, then page through
 `series/<series>/comics?noVariants=true&formatType=comic&issueNumber=<n>`
 until the last page, turning every issue record into an `IssueMetadata`.
 The cover date is taken from the first "onsaleDate" entry through the
 inherited `doConverDate` (the source sets it twice, the same way); the
 store date is never set.
 */
module GetIssue {
  import opened Common
  import opened Wire
  import opened Metadata
  import opened Foreign
  import opened ScrapingAction
  import opened Paging

  /** `String.format("series/%s/comics", series)`. */
  function IssuePath(series: string): string {
    "series/" + series + "/comics"
  }

  /** `String.format("noVariants=true&formatType=comic&issueNumber=%s", issueNumber)`. */
  function IssueQuery(issueNumber: string): string {
    "noVariants=true&formatType=comic&issueNumber=" + issueNumber
  }

  /** The per-issue step of the `forEach`. The volume id is the series the
      caller asked for, not anything from the record. */
  function MapIssue(convert: Option<MarvelDate> -> Option<Date>, series: string, w: IssueRecord): (m: IssueMetadata)
    ensures m.id == w.id && m.volumeId == series
    ensures m.name == w.series.name && m.volumeName == w.series.name
    ensures m.description == w.description
    ensures m.coverDate == convert(FirstTagged("onsaleDate", w.dates))
    ensures m.storeDate.None?
    ensures m.coverUrl == w.thumbnail.path + "." + w.thumbnail.extension
  {
    var onSale := FirstTagged("onsaleDate", w.dates);
    IssueMetadata(w.id, series, w.series.name, w.series.name, w.description, convert(onSale), None, ImageUrl(w.thumbnail))
  }

  /** `execute()`: keys, then series, then issue number, each failing before
      any request; then the paging loop. */
  function Execute(lib: Library, s: Settings, series: string, issueNumber: string,
                   script: seq<Exchange<IssueRecord>>): (r: Run<seq<IssueMetadata>>)
    ensures IsBlank(s.publicKey) ==> r == Run([], Failed(PublicKeyNotDefined))
    ensures !IsBlank(s.publicKey) && IsBlank(s.privateKey) ==> r == Run([], Failed(PrivateKeyNotDefined))
    ensures CheckSetup(s).None? && IsBlank(series) ==> r == Run([], Failed(MissingSeries))
    ensures CheckSetup(s).None? && !IsBlank(series) && IsBlank(issueNumber) ==> r == Run([], Failed(MissingIssueNumber))
    ensures CheckSetup(s).None? && !IsBlank(series) && !IsBlank(issueNumber) ==>
      Describes(Requester(lib.md5, s, IssuePath(series), IssueQuery(issueNumber)), script,
                (w: IssueRecord) => MapIssue(lib.convertDate, series, w), r)
  {
    match CheckSetup(s)
    case Some(e) => Run([], Failed(e))
    case None =>
      if IsBlank(series) then Run([], Failed(MissingSeries))
      else if IsBlank(issueNumber) then Run([], Failed(MissingIssueNumber))
      else Drive(Requester(lib.md5, s, IssuePath(series), IssueQuery(issueNumber)), script,
                 (w: IssueRecord) => MapIssue(lib.convertDate, series, w))
  }

  /** Only the first "onsaleDate" entry feeds the cover date: "focDate"
      entries and later "onsaleDate" entries are never looked at. */
  lemma CoverDateFromFirstOnSale(convert: Option<MarvelDate> -> Option<Date>, series: string,
                                 w: IssueRecord, before: seq<MarvelDate>, onSale: MarvelDate, after: seq<MarvelDate>)
    requires onSale.dateType == "onsaleDate"
    requires forall i :: 0 <= i < |before| ==> before[i].dateType != "onsaleDate"
    requires w.dates == before + [onSale] + after
    ensures MapIssue(convert, series, w).coverDate == convert(Some(onSale))
  {
    assert w.dates[|before|] == onSale;
    forall j | 0 <= j < |before| ensures w.dates[j].dateType != "onsaleDate" {
      assert w.dates[j] == before[j];
    }
    assert FirstTaggedAt("onsaleDate", w.dates, |before|);
  }
}
