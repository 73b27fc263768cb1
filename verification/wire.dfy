/**
 The records the catalog service sends back, as far as the actions read
 them: the paging envelope (`MarvelDataPayload`) and the three kinds of
 result record. Fields the actions never read are kept where the source
 declares them, so that the mappers visibly ignore them. A Java `null`
 string is represented by the empty string, which is not always what the
 code does with a `null` read from a reply: `String.format` would print
 "null", and a `null` series name or type would throw. A `null` record or
 list is not modelled (the code would fail with a `NullPointerException`).
 */
module Wire {
  import opened Common

  /** `MarvelThumbnail`: an image is addressed as path + "." + extension. */
  datatype Thumbnail = Thumbnail(path: string, extension: string)

  /** `MarvelDate`: a typed date entry such as ("onsaleDate", "2023-02-01T00:00:00-0500"). */
  datatype MarvelDate = MarvelDate(dateType: string, date: string)

  /** `MarvelUrl`: a typed link such as ("detail", "http://marvel.com/comics/issue/…"). */
  datatype MarvelUrl = MarvelUrl(urlType: string, url: string)

  /** `MarvelSeries`: the series an issue belongs to, by display name. */
  datatype SeriesRef = SeriesRef(name: string)

  /** `MarvelDataPayload`: one page of results with the server's paging
      counters, all Java `Integer`s. */
  datatype Page<T> = Page(offset: Int32, limit: Int32, total: Int32, count: Int32, results: seq<T>)

  /** `MarvelGetVolumesRecord`; `comicsAvailable` is `comics.available`. */
  datatype VolumeRecord = VolumeRecord(
    id: string,
    title: string,
    urls: seq<MarvelUrl>,
    startYear: string,
    comicsAvailable: Int32,
    thumbnail: Thumbnail)

  /** `MarvelGetIssueRecord`, used by the single-issue search and by the
      issue-details fetch. The credits, characters and stories are never
      read and are left out. */
  datatype IssueRecord = IssueRecord(
    id: string,
    series: SeriesRef,
    issueNumber: string,
    title: string,
    description: string,
    resourceUri: string,
    dates: seq<MarvelDate>,
    thumbnail: Thumbnail,
    urls: seq<MarvelUrl>)

  /** `MarvelSeriesIssueDetailRecord`, used when fetching every issue of a
      series. The creators are never read and are left out. */
  datatype SeriesIssueRecord = SeriesIssueRecord(
    id: string,
    title: string,
    issueNumber: string,
    description: string,
    urls: seq<MarvelUrl>,
    series: SeriesRef,
    dates: seq<MarvelDate>,
    thumbnail: Thumbnail,
    images: seq<Thumbnail>)

  /** What `request.block()` yields: it throws, returns `null`, or returns a
      decoded response whose `data` is a page. */
  datatype Reply<T> = TransportFailure | NullResponse | Response(page: Page<T>)

  /** One request/response exchange with the service: the value
      `System.currentTimeMillis()` had when the URL was built, and the reply. */
  datatype Exchange<T> = Exchange(clock: Int64, reply: Reply<T>)

  /** `String.format("%s.%s", path, extension)`. */
  function ImageUrl(t: Thumbnail): string {
    t.path + "." + t.extension
  }
}
