/**
 The shared behaviour of every catalog action
 (`AbstractMarvelScrapingAction`): the connection settings, the check that
 both keys are set, the signed request URL, the end-of-paging test and the
 lookup of a typed date.
 */
module ScrapingAction {
  import opened Common
  import opened Wire
  import opened Metadata
  import Decimal
  import Authorization

  /** The base URL an action starts with. */
  const DefaultBaseUrl: string := "https://gateway.marvel.com"

  /** The three properties an action carries; a `null` key is the empty
      string, which is just as blank. */
  datatype Settings = Settings(baseUrl: string, publicKey: string, privateKey: string)

  /** The `MetadataException`s the actions throw. */
  datatype Error =
    | PublicKeyNotDefined
    | PrivateKeyNotDefined
    | MissingSeries
    | MissingIssueNumber
    | MissingSeriesId
    | MissingComicId
    | EncodeFailed
    | FailedToGetResponse
    | FailedToReceiveResponse

  /** The exception message of each error. */
  function Message(e: Error): string {
    match e
    case PublicKeyNotDefined => "Public key not defined"
    case PrivateKeyNotDefined => "Private key not defined"
    case MissingSeries => "Missing series"
    case MissingIssueNumber => "Missing issue number"
    case MissingSeriesId => "Missing series id"
    case MissingComicId => "Missing comic id"
    case EncodeFailed => "Failed to encode series name"
    case FailedToGetResponse => "Failed to get response"
    case FailedToReceiveResponse => "Failed to receive response"
  }

  /** Every error has its own message, so a caller that sees only the
      exception text can still tell which check failed. */
  lemma MessagesDistinct(e1: Error, e2: Error)
    requires Message(e1) == Message(e2)
    ensures e1 == e2
  {
  }

  // ---------------------------------------------------------------------
  // End of paging

  /** `isDone`: the page is the last one when `total <= limit + offset +
      count`, the sum being computed in Java `int` arithmetic. */
  predicate IsDone<T>(p: Page<T>) {
    p.total <= Wrap32(Wrap32(p.limit + p.offset) + p.count)
  }

  /** Wrapping an intermediate sum does not change a wrapped total. */
  lemma WrapAbsorbs(x: int, c: int)
    ensures Wrap32(Wrap32(x) + c) == Wrap32(x + c)
  {
    var q := (x + TwoTo31) / TwoTo32;
    assert Wrap32(x) == x - q * TwoTo32;
    var a := x + c + TwoTo31;
    assert Wrap32(x) + c + TwoTo31 == a - q * TwoTo32;
    var b := a / TwoTo32;
    assert a - q * TwoTo32 == (b - q) * TwoTo32 + a % TwoTo32;
  }

  /** When `limit + offset + count` fits in an `int`, the page is the last
      one exactly when the server's total does not exceed that sum, even if
      `limit + offset` alone overflowed. */
  lemma IsDoneExact<T>(p: Page<T>)
    requires -TwoTo31 <= p.limit + p.offset + p.count < TwoTo31
    ensures IsDone(p) <==> p.total <= p.limit + p.offset + p.count
  {
    WrapAbsorbs(p.limit + p.offset, p.count);
  }

  /** When the sum overflows the answer can be wrong: a page whose counters
      add up past the total is still not the last one. */
  lemma OverflowKeepsPaging()
    ensures var p: Page<int> := Page(1, 0x7FFF_FFFF, 5, 1, []);
      p.total <= p.limit + p.offset + p.count && !IsDone(p)
  {
  }

  // ---------------------------------------------------------------------
  // Settings check

  /** `doCheckSetup`: both keys must be non-blank, and the public key is
      checked first. */
  function CheckSetup(s: Settings): (r: Option<Error>)
    ensures r.None? <==> !IsBlank(s.publicKey) && !IsBlank(s.privateKey)
    ensures IsBlank(s.publicKey) ==> r == Some(PublicKeyNotDefined)
    ensures !IsBlank(s.publicKey) && IsBlank(s.privateKey) ==> r == Some(PrivateKeyNotDefined)
  {
    if IsBlank(s.publicKey) then Some(PublicKeyNotDefined)
    else if IsBlank(s.privateKey) then Some(PrivateKeyNotDefined)
    else None
  }

  // ---------------------------------------------------------------------
  // Request URL

  /** Everything in the URL before the timestamp digits. */
  function RequestPrefix(s: Settings, path: string, parameters: string): string {
    s.baseUrl + "/v1/public/" + path + "?" + parameters + "&ts="
  }

  /** `doCreateUrl`, with the clock reading passed in: the template
      `%s/v1/public/%s?%s&ts=%s&apikey=%s&hash=%s`. */
  function CreateUrl(md5: Authorization.Md5, s: Settings, path: string, parameters: string, timestamp: Int64): string {
    RequestPrefix(s, path, parameters) + Decimal.Render(timestamp) + "&apikey=" + s.publicKey
      + "&hash=" + Authorization.HashForRequest(md5, timestamp, s.publicKey, s.privateKey)
  }

  /** How a request URL reads: the fixed prefix up to `ts=`, the decimal
      timestamp, the public key, and finally the digest that signs that
      same timestamp. */
  lemma UrlLayout(md5: Authorization.Md5, s: Settings, path: string, parameters: string, timestamp: Int64)
    ensures var url := CreateUrl(md5, s, path, parameters, timestamp);
      var prefix := RequestPrefix(s, path, parameters);
      var ts := Decimal.Render(timestamp);
      && |url| == |prefix| + |ts| + 8 + |s.publicKey| + 6 + 32
      && url[..|prefix|] == prefix
      && url[|prefix|..|prefix| + |ts|] == ts
      && url[|prefix| + |ts|..|prefix| + |ts| + 8] == "&apikey="
      && url[|prefix| + |ts| + 8..|url| - 38] == s.publicKey
      && url[|url| - 38..|url| - 32] == "&hash="
      && url[|url| - 32..] == Authorization.HashForRequest(md5, timestamp, s.publicKey, s.privateKey)
  {
    var hash := Authorization.HashForRequest(md5, timestamp, s.publicKey, s.privateKey);
    SixParts(RequestPrefix(s, path, parameters), Decimal.Render(timestamp), "&apikey=", s.publicKey, "&hash=", hash);
  }

  /** Where each of six concatenated strings sits in the result. */
  lemma SixParts(a: string, b: string, c: string, d: string, e: string, f: string)
    ensures var u := a + b + c + d + e + f;
      && |u| == |a| + |b| + |c| + |d| + |e| + |f|
      && u[..|a|] == a
      && u[|a|..|a| + |b|] == b
      && u[|a| + |b|..|a| + |b| + |c|] == c
      && u[|a| + |b| + |c|..|u| - |e| - |f|] == d
      && u[|u| - |e| - |f|..|u| - |f|] == e
      && u[|u| - |f|..] == f
  {
    var u := a + b + c + d + e + f;
    assert u[..|a|] == a;
    assert u[|a|..|a| + |b|] == b;
    assert u[|a| + |b|..|a| + |b| + |c|] == c;
    assert u[|a| + |b| + |c|..|u| - |e| - |f|] == d;
    assert u[|u| - |e| - |f|..|u| - |f|] == e;
    assert u[|u| - |f|..] == f;
  }

  /** The URL builder of one kind of request: everything is fixed except
      the clock reading. */
  function Requester(md5: Authorization.Md5, s: Settings, path: string, parameters: string): Int64 -> string {
    (t: Int64) => CreateUrl(md5, s, path, parameters, t)
  }

  /** Two URLs built for the same request agree up to the timestamp: what
      the server is asked for does not depend on the clock. */
  lemma UrlPrefixIgnoresClock(md5: Authorization.Md5, s: Settings, path: string, parameters: string, t1: Int64, t2: Int64)
    ensures var n := |RequestPrefix(s, path, parameters)|;
      CreateUrl(md5, s, path, parameters, t1)[..n] == CreateUrl(md5, s, path, parameters, t2)[..n]
  {
    UrlLayout(md5, s, path, parameters, t1);
    UrlLayout(md5, s, path, parameters, t2);
  }

  /** A URL names its timestamp unambiguously: equal URLs for the same
      request were built at the same instant. */
  lemma UrlDeterminesTimestamp(md5: Authorization.Md5, s: Settings, path: string, parameters: string, t1: Int64, t2: Int64)
    requires CreateUrl(md5, s, path, parameters, t1) == CreateUrl(md5, s, path, parameters, t2)
    ensures t1 == t2
  {
    UrlLayout(md5, s, path, parameters, t1);
    UrlLayout(md5, s, path, parameters, t2);
    var u := CreateUrl(md5, s, path, parameters, t1);
    var n := |RequestPrefix(s, path, parameters)|;
    var r1, r2 := Decimal.Render(t1), Decimal.Render(t2);
    assert |r1| == |r2|;
    assert r1 == u[n..n + |r1|] == r2;
    Decimal.RenderInjective(t1, t2);
  }

  // ---------------------------------------------------------------------
  // Typed dates

  /** `dates[i]` is the first entry whose type equals `tag` exactly. */
  predicate FirstTaggedAt(tag: string, dates: seq<MarvelDate>, i: int) {
    && 0 <= i < |dates| && dates[i].dateType == tag
    && forall j :: 0 <= j < i ==> dates[j].dateType != tag
  }

  /** `stream().filter(type equals tag).findFirst()`. */
  function FirstTagged(tag: string, dates: seq<MarvelDate>): (r: Option<MarvelDate>)
    ensures r.None? <==> forall i :: 0 <= i < |dates| ==> dates[i].dateType != tag
    ensures forall i | FirstTaggedAt(tag, dates, i) :: r == Some(dates[i])
    ensures r.Some? ==> exists i :: FirstTaggedAt(tag, dates, i)
  {
    match FindFirst(dates, (d: MarvelDate) => d.dateType == tag)
    case None => None
    case Some(i) =>
      assert FirstTaggedAt(tag, dates, i);
      Some(dates[i])
  }

  /** `findDate`: parse the date of the first entry with the tag. A missing
      tag or an unparseable first entry gives no date; a later entry with
      the same tag is never tried. */
  function FindDate(parse: string -> Option<Date>, tag: string, dates: seq<MarvelDate>): (r: Option<Date>)
    ensures (forall i :: 0 <= i < |dates| ==> dates[i].dateType != tag) ==> r.None?
    ensures forall i | FirstTaggedAt(tag, dates, i) :: r == parse(dates[i].date)
  {
    match FirstTagged(tag, dates)
    case None => None
    case Some(d) => parse(d.date)
  }

  /** Entries after a tagged one never change the result. */
  lemma FindDateIgnoresLaterEntries(parse: string -> Option<Date>, tag: string, dates: seq<MarvelDate>, later: seq<MarvelDate>, i: nat)
    requires i < |dates| && dates[i].dateType == tag
    ensures FindDate(parse, tag, dates + later) == FindDate(parse, tag, dates)
  {
    assert FirstTagged(tag, dates).Some?;
    var k :| FirstTaggedAt(tag, dates, k);
    forall j | 0 <= j <= k ensures (dates + later)[j] == dates[j] {}
    assert FirstTaggedAt(tag, dates + later, k);
  }

  /** When the first tagged entry does not parse, the answer is no date,
      whatever later entries with the same tag hold. */
  lemma NoFallThrough(parse: string -> Option<Date>, tag: string, first: string, second: string)
    requires parse(first).None? && parse(second).Some?
    ensures FindDate(parse, tag, [MarvelDate(tag, first), MarvelDate(tag, second)]).None?
  {
    assert FirstTaggedAt(tag, [MarvelDate(tag, first), MarvelDate(tag, second)], 0);
  }

  /** `getCoverDate`: the first "focDate" entry. */
  function CoverDate(parse: string -> Option<Date>, dates: seq<MarvelDate>): (r: Option<Date>)
    ensures (forall i :: 0 <= i < |dates| ==> dates[i].dateType != "focDate") ==> r.None?
    ensures forall i | FirstTaggedAt("focDate", dates, i) :: r == parse(dates[i].date)
  {
    FindDate(parse, "focDate", dates)
  }

  /** `getStoreDate`: the first "onsaleDate" entry. */
  function StoreDate(parse: string -> Option<Date>, dates: seq<MarvelDate>): (r: Option<Date>)
    ensures (forall i :: 0 <= i < |dates| ==> dates[i].dateType != "onsaleDate") ==> r.None?
    ensures forall i | FirstTaggedAt("onsaleDate", dates, i) :: r == parse(dates[i].date)
  {
    FindDate(parse, "onsaleDate", dates)
  }
}
