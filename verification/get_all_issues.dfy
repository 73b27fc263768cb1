/**
 The whole-series fetch (`MarvelGetAllIssuesAction`): check the keys and
 the series id, then page through `series/<id>/comics?noVariants=true`
 until the last page, turning every record into an `IssueDetailsMetadata`.
 The series display name goes through the series-title parser; the cover
 date is the first "focDate" entry and the store date the first
 "onsaleDate" entry, looked up independently.
 */
module GetAllIssues {
  import opened Common
  import opened Wire
  import opened Metadata
  import opened Foreign
  import opened ScrapingAction
  import opened Paging
  import SeriesName

  /** `String.format("series/%s/comics", seriesId)`. */
  function SeriesPath(seriesId: string): string {
    "series/" + seriesId + "/comics"
  }

  const SeriesQuery: string := "noVariants=true"

  /** The per-record step of the `forEach`. */
  function MapSeriesIssue(parse: string -> Option<Date>, w: SeriesIssueRecord): (m: IssueDetailsMetadata)
    ensures m.sourceId == w.id && m.publisher == PublisherName
    ensures m.series == SeriesName.Execute(w.series.name).name
    ensures m.volume == SeriesName.Execute(w.series.name).startYear
    ensures m.issueNumber == w.issueNumber && m.title == Some(w.title)
    ensures m.coverDate == FindDate(parse, "focDate", w.dates)
    ensures m.storeDate == FindDate(parse, "onsaleDate", w.dates)
    ensures m.description.None? && m.webAddress.None?
  {
    var detail := SeriesName.Execute(w.series.name);
    IssueDetailsMetadata(w.id, PublisherName, detail.name, detail.startYear, w.issueNumber, Some(w.title),
                         CoverDate(parse, w.dates), StoreDate(parse, w.dates), None, None)
  }

  /** `execute()`: keys, then series id, each failing before any request;
      then the paging loop. */
  function Execute(lib: Library, s: Settings, seriesId: string,
                   script: seq<Exchange<SeriesIssueRecord>>): (r: Run<seq<IssueDetailsMetadata>>)
    ensures IsBlank(s.publicKey) ==> r == Run([], Failed(PublicKeyNotDefined))
    ensures !IsBlank(s.publicKey) && IsBlank(s.privateKey) ==> r == Run([], Failed(PrivateKeyNotDefined))
    ensures CheckSetup(s).None? && IsBlank(seriesId) ==> r == Run([], Failed(MissingSeriesId))
    ensures CheckSetup(s).None? && !IsBlank(seriesId) ==>
      Describes(Requester(lib.md5, s, SeriesPath(seriesId), SeriesQuery), script,
                (w: SeriesIssueRecord) => MapSeriesIssue(lib.parseDate, w), r)
  {
    match CheckSetup(s)
    case Some(e) => Run([], Failed(e))
    case None =>
      if IsBlank(seriesId) then Run([], Failed(MissingSeriesId))
      else Drive(Requester(lib.md5, s, SeriesPath(seriesId), SeriesQuery), script,
                 (w: SeriesIssueRecord) => MapSeriesIssue(lib.parseDate, w))
  }

  /** The cover and store dates are looked up separately: with the store
      date listed before the cover date each still finds its own entry. */
  lemma DatesLookedUpIndependently(parse: string -> Option<Date>, w: SeriesIssueRecord, onSale: string, foc: string)
    requires w.dates == [MarvelDate("onsaleDate", onSale), MarvelDate("focDate", foc)]
    ensures MapSeriesIssue(parse, w).coverDate == parse(foc)
    ensures MapSeriesIssue(parse, w).storeDate == parse(onSale)
  {
    assert FirstTaggedAt("focDate", w.dates, 1);
    assert FirstTaggedAt("onsaleDate", w.dates, 0);
  }

  /** The series name "Scarlet Witch (2023 - Present)" is stored as series
      "Scarlet Witch" and volume "2023". */
  lemma SeriesNameSplit(parse: string -> Option<Date>, w: SeriesIssueRecord)
    requires w.series.name == "Scarlet Witch" + " (" + "2023" + " - Present)"
    ensures MapSeriesIssue(parse, w).series == "Scarlet Witch"
    ensures MapSeriesIssue(parse, w).volume == "2023"
  {
    SeriesName.LineFree("Scarlet Witch", 0, 13);
    SeriesName.LineFree(" - Present)", 0, 10);
    assert IsDigit("2023"[0]) && IsDigit("2023"[1]) && IsDigit("2023"[2]) && IsDigit("2023"[3]);
    SeriesName.ComposeThenParse(w.series.name, "Scarlet Witch", "2023", " - Present)", 10);
  }
}
