/**
 The volume search (`MarvelGetVolumesAction`): check the keys and the series
 name, URL-encode the name once, then page through `series?title=<name>`
 until the server reports the last page, turning every volume record into
 a `VolumeMetadata`. The record's title becomes the volume name as it is;
 it is not split into name and start year. The `maxRecords` setting is
 accepted but never read.
 */
module GetVolumes {
  import opened Common
  import opened Wire
  import opened Metadata
  import opened Foreign
  import opened ScrapingAction
  import opened Paging
  import SeriesName

  const SearchPath: string := "series"

  /** `String.format("title=%s", encodedName)`. */
  function SearchQuery(encodedName: string): string {
    "title=" + encodedName
  }

  /** The per-volume step of the `forEach`. */
  function MapVolume(v: VolumeRecord): (m: VolumeMetadata)
    ensures m.id == v.id && m.name == v.title && m.startYear == v.startYear
    ensures m.publisher == PublisherName && m.issueCount == v.comicsAvailable
    ensures m.imageUrl == v.thumbnail.path + "." + v.thumbnail.extension
  {
    VolumeMetadata(v.id, v.title, v.startYear, PublisherName, v.comicsAvailable, ImageUrl(v.thumbnail))
  }

  /** `execute()`. Validation failures happen before any request; after
      that the run is the paging loop over the encoded title. */
  function Execute(lib: Library, s: Settings, series: string, maxRecords: Option<Int32>,
                   script: seq<Exchange<VolumeRecord>>): (r: Run<seq<VolumeMetadata>>)
    ensures IsBlank(s.publicKey) ==> r == Run([], Failed(PublicKeyNotDefined))
    ensures !IsBlank(s.publicKey) && IsBlank(s.privateKey) ==> r == Run([], Failed(PrivateKeyNotDefined))
    ensures CheckSetup(s).None? && IsBlank(series) ==> r == Run([], Failed(MissingSeries))
    ensures CheckSetup(s).None? && !IsBlank(series) && lib.urlEncode(series).None? ==> r == Run([], Failed(EncodeFailed))
    ensures CheckSetup(s).None? && !IsBlank(series) && lib.urlEncode(series).Some? ==>
      Describes(Requester(lib.md5, s, SearchPath, SearchQuery(lib.urlEncode(series).value)), script, MapVolume, r)
  {
    match CheckSetup(s)
    case Some(e) => Run([], Failed(e))
    case None =>
      if IsBlank(series) then Run([], Failed(MissingSeries))
      else match lib.urlEncode(series)
        case None => Run([], Failed(EncodeFailed))
        case Some(encoded) =>
          Drive(Requester(lib.md5, s, SearchPath, SearchQuery(encoded)), script, MapVolume)
  }

  /** The record limit the caller passes has no effect on the run. */
  lemma IgnoresMaxRecords(lib: Library, s: Settings, series: string, m1: Option<Int32>, m2: Option<Int32>,
                          script: seq<Exchange<VolumeRecord>>)
    ensures Execute(lib, s, series, m1, script) == Execute(lib, s, series, m2, script)
  {
  }

  /** A search that gets a non-final page and then a final one asks twice,
      with the same query, and returns the first page's volumes followed by
      the second page's. */
  lemma TwoPageSearch(lib: Library, s: Settings, series: string, t1: Int64, t2: Int64,
                      p1: Page<VolumeRecord>, p2: Page<VolumeRecord>)
    requires CheckSetup(s).None? && !IsBlank(series) && lib.urlEncode(series).Some?
    requires !IsDone(p1) && IsDone(p2)
    ensures var query := SearchQuery(lib.urlEncode(series).value);
      Execute(lib, s, series, None, [Exchange(t1, Response(p1)), Exchange(t2, Response(p2))])
      == Run([CreateUrl(lib.md5, s, SearchPath, query, t1), CreateUrl(lib.md5, s, SearchPath, query, t2)],
             Done(MapEach(p1.results, MapVolume) + MapEach(p2.results, MapVolume)))
  {
    var urlFor := Requester(lib.md5, s, SearchPath, SearchQuery(lib.urlEncode(series).value));
    TwoPageRun(urlFor, Exchange(t1, Response(p1)), Exchange(t2, Response(p2)), MapVolume);
  }

  /** `limit + offset + count` counts the page size as well as the
      returned items, so a first page with offset 0, limit 1, count 1 out
      of a total of 2 is already taken as the last: one request is sent,
      and a second page the server holds is never asked for. */
  lemma FirstOfTwoCountedAsLast(lib: Library, s: Settings, series: string, t1: Int64, t2: Int64,
                                p1: Page<VolumeRecord>, p2: Page<VolumeRecord>)
    requires CheckSetup(s).None? && !IsBlank(series) && lib.urlEncode(series).Some?
    requires p1.offset == 0 && p1.limit == 1 && p1.total == 2 && p1.count == 1
    ensures var query := SearchQuery(lib.urlEncode(series).value);
      Execute(lib, s, series, None, [Exchange(t1, Response(p1)), Exchange(t2, Response(p2))])
      == Run([CreateUrl(lib.md5, s, SearchPath, query, t1)], Done(MapEach(p1.results, MapVolume)))
  {
    var urlFor := Requester(lib.md5, s, SearchPath, SearchQuery(lib.urlEncode(series).value));
    var script := [Exchange(t1, Response(p1)), Exchange(t2, Response(p2))];
    IsDoneExact(p1);
    FirstPageRun(urlFor, script, MapVolume);
    DescribedIsDriven(urlFor, script, MapVolume, Execute(lib, s, series, None, script));
  }

  /** Volume titles are kept whole: a title the series parser would split
      still names the volume in full. */
  lemma TitleKeptWhole(v: VolumeRecord)
    requires v.title == "Spider-Woman (2009)"
    ensures MapVolume(v).name == "Spider-Woman (2009)"
    ensures MapVolume(v).name != SeriesName.Execute(v.title).name
  {
    SeriesName.StartYearOnly();
  }
}
