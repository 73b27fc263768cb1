/**
 The adaptor the host application calls (`MarvelMetadataAdaptor`): it
 hands the caller's arguments and the configured keys to a fresh action,
 takes the head of the single-issue search, and extracts a comic id from a
 web address with the pattern
 `^https?\:\/\/.*(marvel\.com)\/comics\/issue\/([\d]+).*`.

 The matcher follows `Matcher.matches()`: the whole address must match, so
 it may hold no line terminator; `https?` takes "https://" or "http://";
 the greedy `.*` makes the last "marvel.com/comics/issue/" followed by a
 digit supply the id; and `([\d]+)` takes the whole run of digits there.
 "marvel.com" is only matched as text, so any host ending in it passes.
 */
module Adaptor {
  import opened Common
  import opened Wire
  import opened Metadata
  import opened Foreign
  import opened ScrapingAction
  import opened Paging
  import VolumesAction = GetVolumes
  import IssueAction = GetIssue
  import AllIssuesAction = GetAllIssues
  import DetailsAction = GetIssueDetails

  // ---------------------------------------------------------------------
  // Reference ids

  /** The literal part of the pattern between the two groups' surroundings. */
  const Needle: string := "marvel.com/comics/issue/"

  /** Length of the matched scheme prefix, "http://" or "https://". */
  function SchemeLength(s: string): (r: Option<nat>)
    ensures r == Some(7) <==> |s| >= 7 && s[..7] == "http://"
    ensures r == Some(8) <==> |s| >= 8 && s[..8] == "https://"
    ensures r.Some? ==> r.value == 7 || r.value == 8
  {
    if |s| >= 7 && s[..7] == "http://" then
      assert s[4] == ':';
      Some(7)
    else if |s| >= 8 && s[..8] == "https://" then
      assert s[4] == 's';
      Some(8)
    else None
  }

  /** "marvel.com/comics/issue/" starts at `k` and a digit follows it. */
  predicate NeedleAt(s: string, k: int) {
    0 <= k && k + 24 < |s| && s[k..k + 24] == Needle && IsDigit(s[k + 24])
  }

  /** Greedy `[\d]+` from `j`: the length of the digit run there. */
  function DigitRun(s: string, j: nat): (n: nat)
    requires j <= |s|
    ensures j + n <= |s|
    ensures forall i :: j <= i < j + n ==> IsDigit(s[i])
    ensures j + n == |s| || !IsDigit(s[j + n])
    decreases |s| - j
  {
    if j == |s| || !IsDigit(s[j]) then 0 else 1 + DigitRun(s, j + 1)
  }

  /** Greedy `.*` backtracking: the rightmost needle at or before `k` and
      at or after `lo`. */
  function LastNeedle(s: string, lo: nat, k: int): (r: Option<nat>)
    ensures r.Some? ==> lo <= r.value <= k && NeedleAt(s, r.value)
    ensures r.Some? ==> forall j :: r.value < j <= k ==> !NeedleAt(s, j)
    ensures r.None? <==> forall j :: lo <= j <= k ==> !NeedleAt(s, j)
    decreases k - lo
  {
    if k < lo then None
    else if NeedleAt(s, k) then Some(k)
    else LastNeedle(s, lo, k - 1)
  }

  /** The whole address matches the pattern. */
  predicate Matches(s: string) {
    && DotsOnly(s, 0, |s|)
    && SchemeLength(s).Some?
    && exists k :: SchemeLength(s).value <= k < |s| && NeedleAt(s, k)
  }

  /** The needle the greedy `.*` settles on: after the scheme, with no
      needle further right. */
  ghost predicate IsLastNeedle(s: string, k: int) {
    && SchemeLength(s).Some? && SchemeLength(s).value <= k && NeedleAt(s, k)
    && forall j :: k < j ==> !NeedleAt(s, j)
  }

  /** Group 2 for the needle at `k`: the whole digit run after it. */
  function Group2(s: string, k: int): (g: string)
    requires NeedleAt(s, k)
    ensures |g| >= 1 && k + 24 + |g| <= |s| && g == s[k + 24..k + 24 + |g|]
    ensures forall i :: 0 <= i < |g| ==> IsDigit(g[i])
    ensures k + 24 + |g| == |s| || !IsDigit(s[k + 24 + |g|])
  {
    s[k + 24..k + 24 + DigitRun(s, k + 24)]
  }

  /** `getReferenceId`: group 2 when the whole address matches, else
      `null`. The id is a non-empty, maximal run of digits that follows the
      last "marvel.com/comics/issue/" of the address. */
  function ReferenceId(address: string): (r: Option<string>)
    ensures r.Some? <==> Matches(address)
    ensures r.Some? ==> exists k :: IsLastNeedle(address, k) && r.value == Group2(address, k)
  {
    if !DotsOnly(address, 0, |address|) then None
    else match SchemeLength(address)
      case None => None
      case Some(lo) =>
        match LastNeedle(address, lo, |address| - 25)
        case None => None
        case Some(k) =>
          assert IsLastNeedle(address, k);
          Some(Group2(address, k))
  }

  /** The reference id is determined by the last needle: any two last
      needles coincide. */
  lemma LastNeedleUnique(s: string, k1: int, k2: int)
    requires IsLastNeedle(s, k1) && IsLastNeedle(s, k2)
    ensures k1 == k2
  {
  }

  /** No "v" means no "marvel.com": no id. */
  lemma NoNeedleWithoutV(s: string)
    requires 'v' !in s
    ensures ReferenceId(s).None?
  {
    forall k | 0 <= k && k + 24 < |s| ensures !NeedleAt(s, k) {
      assert s[k + 3] in s;
      assert s[k..k + 24][3] == s[k + 3];
    }
  }

  /** An address that starts with one of the two schemes has that scheme's
      length. */
  lemma ComposedScheme(address: string, scheme: string)
    requires scheme == "http://" || scheme == "https://"
    requires StartsWith(address, scheme)
    ensures SchemeLength(address) == Some(|scheme|)
  {
  }

  /** A single-line address that matches with a last needle at `k` has
      group 2 of that needle as its reference id. */
  lemma ReferenceIdAt(s: string, k: int)
    requires DotsOnly(s, 0, |s|) && IsLastNeedle(s, k)
    ensures ReferenceId(s) == Some(Group2(s, k))
  {
    var j :| IsLastNeedle(s, j) && ReferenceId(s).value == Group2(s, j);
    LastNeedleUnique(s, j, k);
  }

  lemma {:induction false} ComposedLineFree(address: string, scheme: string, middle: string, digits: string, tail: string)
    requires scheme == "http://" || scheme == "https://"
    requires address == scheme + middle + Needle + digits + tail
    requires DotsOnly(middle, 0, |middle|) && DotsOnly(tail, 0, |tail|)
    requires forall i :: 0 <= i < |digits| ==> IsDigit(digits[i])
    ensures DotsOnly(address, 0, |address|)
  {
    var k := |scheme| + |middle|;
    var e := k + 24 + |digits|;
    forall i | 0 <= i < |address| ensures !IsLineTerminator(address[i]) {
      if i < |scheme| {
        assert address[i] == scheme[i];
      } else if i < k {
        assert address[i] == middle[i - |scheme|];
      } else if i < k + 24 {
        assert address[i] == Needle[i - k];
      } else if i < e {
        assert address[i] == digits[i - k - 24];
      } else {
        assert address[i] == tail[i - e];
      }
    }
  }

  lemma {:induction false} ComposedLastNeedle(address: string, prefix: string, digits: string, tail: string)
    requires address == prefix + Needle + digits + tail
    requires |digits| >= 1 && forall i :: 0 <= i < |digits| ==> IsDigit(digits[i])
    requires 'v' !in tail
    ensures NeedleAt(address, |prefix|)
    ensures forall j :: |prefix| < j ==> !NeedleAt(address, j)
  {
    var s := address;
    var k := |prefix|;
    var e := k + 24 + |digits|;
    assert s[k..k + 24] == Needle;
    assert s[k + 24] == digits[0];
    forall j | k < j && j + 24 < |s| ensures !NeedleAt(s, j) {
      if j + 3 < k + 24 {
        assert s[j + 3] == Needle[j + 3 - k];
      } else if j + 3 < e {
        assert s[j + 3] == digits[j + 3 - k - 24];
      } else {
        assert s[j + 3] == tail[j + 3 - e];
        assert tail[j + 3 - e] in tail;
      }
      assert s[j..j + 24][3] == s[j + 3] != 'v';
    }
  }

  lemma {:induction false} ComposedGroup2(address: string, prefix: string, digits: string, tail: string)
    requires address == prefix + Needle + digits + tail
    requires NeedleAt(address, |prefix|)
    requires |digits| >= 1 && forall i :: 0 <= i < |digits| ==> IsDigit(digits[i])
    requires |tail| == 0 || !IsDigit(tail[0])
    ensures Group2(address, |prefix|) == digits
  {
    var s := address;
    var k := |prefix|;
    var e := k + 24 + |digits|;
    var g := Group2(s, k);
    assert s[k + 24..e] == digits;
  }

  /** An address built from a scheme, any single-line host and path part,
      "marvel.com/comics/issue/", a run of digits and a tail that neither
      continues the digits nor holds a "v" (so no later needle) yields
      exactly those digits. */
  lemma ComposedAddress(address: string, scheme: string, middle: string, digits: string, tail: string)
    requires scheme == "http://" || scheme == "https://"
    requires address == scheme + middle + Needle + digits + tail
    requires DotsOnly(middle, 0, |middle|) && DotsOnly(tail, 0, |tail|)
    requires |digits| >= 1 && forall i :: 0 <= i < |digits| ==> IsDigit(digits[i])
    requires |tail| == 0 || !IsDigit(tail[0])
    requires 'v' !in tail
    ensures ReferenceId(address) == Some(digits)
  {
    var prefix := scheme + middle;
    assert StartsWith(address, scheme) by {
      forall i | 0 <= i < |scheme| ensures address[i] == scheme[i] {
        assert address[i] == prefix[i];
      }
    }
    ComposedScheme(address, scheme);
    ComposedLineFree(address, scheme, middle, digits, tail);
    ComposedLastNeedle(address, prefix, digits, tail);
    ComposedGroup2(address, prefix, digits, tail);
    ReferenceIdAt(address, |prefix|);
  }

  /** The same without a host part: the scheme is followed directly by the
      issue path. */
  lemma DirectAddress(scheme: string, digits: string, tail: string)
    requires scheme == "http://" || scheme == "https://"
    requires DotsOnly(tail, 0, |tail|)
    requires |digits| >= 1 && forall i :: 0 <= i < |digits| ==> IsDigit(digits[i])
    requires |tail| == 0 || !IsDigit(tail[0])
    requires 'v' !in tail
    ensures ReferenceId(scheme + Needle + digits + tail) == Some(digits)
  {
    assert scheme + "" == scheme;
    ComposedAddress(scheme + Needle + digits + tail, scheme, "", digits, tail);
  }

  /** The detail link of the issue-details example record, without its
      query string, yields its comic id; the text after the id is allowed. */
  lemma DetailLinkId()
    ensures ReferenceId("http://" + Needle + "97135" + "/scarlet_witch_2023_2") == Some("97135")
  {
    SlugTail("/scarlet_witch_2023_2");
    assert IsDigit("97135"[0]) && IsDigit("97135"[1]) && IsDigit("97135"[2]) && IsDigit("97135"[3]) && IsDigit("97135"[4]);
    DirectAddress("http://", "97135", "/scarlet_witch_2023_2");
  }

  /** A bare host address has no issue path, so there is no id, although
      the adaptor's unit test expects one. */
  lemma HostOnlyHasNoId()
    ensures ReferenceId("http://www.marvel.com").None?
  {
  }

  /** "marvel.com" is matched as text: a look-alike host passes. */
  lemma LookalikeHostAccepted()
    ensures ReferenceId("https://" + "evil" + Needle + "42" + "") == Some("42")
  {
    LineFree("evil");
    LineFree("");
    assert IsDigit("42"[0]) && IsDigit("42"[1]);
    ComposedAddress("https://" + "evil" + Needle + "42" + "", "https://", "evil", "42", "");
  }

  /** With two issue paths the later one supplies the id. */
  lemma LastIssuePathWins()
    ensures ReferenceId("http://" + (Needle + "1/") + Needle + "2" + "") == Some("2")
  {
    LineFree(Needle + "1/");
    LineFree("");
    assert IsDigit("2"[0]);
    ComposedAddress("http://" + (Needle + "1/") + Needle + "2" + "", "http://", Needle + "1/", "2", "");
  }

  /** Only http and https are accepted. */
  lemma OtherSchemeRejected()
    ensures ReferenceId("ftp://marvel.com/comics/issue/42").None?
  {
    var s := "ftp://marvel.com/comics/issue/42";
    assert s[0] == 'f';
  }

  /** Another site's issue path has no id. */
  lemma OtherSiteRejected()
    ensures ReferenceId("http://www.example.com/comics/issue/42").None?
  {
    NoNeedleWithoutV("http://www.example.com/comics/issue/42");
  }

  /** A line break anywhere defeats the match. */
  lemma LineBreakRejected()
    ensures ReferenceId("http://marvel.com/comics/issue/42\n").None?
  {
    var s := "http://marvel.com/comics/issue/42\n";
    assert IsLineTerminator(s[|s| - 1]);
  }

  /** The path slug of the example record: single-line, no "v", and not
      starting with a digit. */
  lemma SlugTail(tail: string)
    requires tail == "/scarlet_witch_2023_2"
    ensures DotsOnly(tail, 0, |tail|) && 'v' !in tail && !IsDigit(tail[0])
  {
    LineFree(tail);
  }

  /** No character of `s` is a line terminator. */
  lemma LineFree(s: string)
    requires forall c :: c in s ==> !IsLineTerminator(c)
    ensures DotsOnly(s, 0, |s|)
  {
    assert forall k :: 0 <= k < |s| ==> s[k] in s;
  }

  // ---------------------------------------------------------------------
  // Operations

  /** `doSetCommonProperties`: a fresh action carries the two keys stored
      for the metadata source and keeps its default gateway address. */
  function SourceSettings(publicKey: string, privateKey: string): (s: Settings)
    ensures s.baseUrl == DefaultBaseUrl
    ensures s.publicKey == publicKey && s.privateKey == privateKey
  {
    Settings(DefaultBaseUrl, publicKey, privateKey)
  }

  /** `result.isEmpty() ? null : result.get(0)`. */
  function Head<T>(xs: seq<T>): (r: Option<T>)
    ensures r.None? <==> |xs| == 0
    ensures r.Some? ==> r.value == xs[0]
  {
    if |xs| == 0 then None else Some(xs[0])
  }

  /** The run of a search reduced to its first record: the same requests,
      the same failure or lack of an end, and the head of the records. */
  function HeadOfRun<T>(a: Run<seq<T>>): (r: Run<Option<T>>)
    ensures r.sent == a.sent
    ensures r.status.Failed? <==> a.status.Failed?
    ensures r.status.Failed? ==> r.status.error == a.status.error
    ensures r.status.Unfinished? <==> a.status.Unfinished?
    ensures r.status == Done(None) <==> a.status == Done([])
    ensures r.status.Done? && r.status.value.Some? ==>
      a.status.Done? && |a.status.value| > 0 && r.status.value.value == a.status.value[0]
  {
    match a.status
    case Done(items) => Run(a.sent, Done(Head(items)))
    case Failed(e) => Run(a.sent, Failed(e))
    case Unfinished => Run(a.sent, Unfinished)
  }

  /** `doGetIssue`: run the single-issue search for `volume` and
      `issueNumber` with the source's keys and keep only its first record.
      The requests are exactly those of the search, its failures are passed
      on unchanged, and an empty result becomes `null`. */
  function DoGetIssue(lib: Library, publicKey: string, privateKey: string, volume: string, issueNumber: string,
                      script: seq<Exchange<IssueRecord>>): (r: Run<Option<IssueMetadata>>)
    ensures var a := IssueAction.Execute(lib, SourceSettings(publicKey, privateKey), volume, issueNumber, script);
      && r.sent == a.sent
      && (r.status == Done(None) <==> a.status == Done([]))
      && (r.status.Done? && r.status.value.Some? ==> a.status.Done? && r.status.value.value == a.status.value[0])
      && (a.status.Done? && |a.status.value| > 0 ==> r.status == Done(Some(a.status.value[0])))
      && (a.status.Failed? ==> r.status == Failed(a.status.error))
      && (r.status.Unfinished? <==> a.status.Unfinished?)
    ensures IsBlank(publicKey) ==> r == Run([], Failed(PublicKeyNotDefined))
    ensures !IsBlank(publicKey) && IsBlank(privateKey) ==> r == Run([], Failed(PrivateKeyNotDefined))
    ensures !IsBlank(publicKey) && !IsBlank(privateKey) && IsBlank(volume) ==> r == Run([], Failed(MissingSeries))
    ensures !IsBlank(publicKey) && !IsBlank(privateKey) && !IsBlank(volume) && IsBlank(issueNumber) ==>
      r == Run([], Failed(MissingIssueNumber))
  {
    HeadOfRun(IssueAction.Execute(lib, SourceSettings(publicKey, privateKey), volume, issueNumber, script))
  }

  /** When the first page of the search is already the last, `doGetIssue`
      sends one request, to the series' comics with the issue number, and
      answers with that page's first record, or `null` when it has none. */
  lemma FirstPageDecidesIssue(lib: Library, publicKey: string, privateKey: string, volume: string, issueNumber: string,
                              script: seq<Exchange<IssueRecord>>)
    requires !IsBlank(publicKey) && !IsBlank(privateKey) && !IsBlank(volume) && !IsBlank(issueNumber)
    requires |script| >= 1 && Finishes(script[0].reply)
    ensures var s := SourceSettings(publicKey, privateKey);
      var results := script[0].reply.page.results;
      DoGetIssue(lib, publicKey, privateKey, volume, issueNumber, script)
        == Run([CreateUrl(lib.md5, s, IssueAction.IssuePath(volume), IssueAction.IssueQuery(issueNumber), script[0].clock)],
               Done(if |results| == 0 then None else Some(IssueAction.MapIssue(lib.convertDate, volume, results[0]))))
  {
    var s := SourceSettings(publicKey, privateKey);
    var urlFor := Requester(lib.md5, s, IssueAction.IssuePath(volume), IssueAction.IssueQuery(issueNumber));
    var f := (w: IssueRecord) => IssueAction.MapIssue(lib.convertDate, volume, w);
    var a := IssueAction.Execute(lib, s, volume, issueNumber, script);
    DescribedIsDriven(urlFor, script, f, a);
    FirstPageRun(urlFor, script, f);
  }

  /** `getVolumes`: the volume search with the source's keys. The record
      limit is handed over but has no effect; the requests go to the
      public gateway's series search. */
  function GetVolumes(lib: Library, publicKey: string, privateKey: string, seriesName: string,
                      maxRecords: Option<Int32>, script: seq<Exchange<VolumeRecord>>): (r: Run<seq<VolumeMetadata>>)
    ensures IsBlank(publicKey) ==> r == Run([], Failed(PublicKeyNotDefined))
    ensures !IsBlank(publicKey) && IsBlank(privateKey) ==> r == Run([], Failed(PrivateKeyNotDefined))
    ensures !IsBlank(publicKey) && !IsBlank(privateKey) && IsBlank(seriesName) ==> r == Run([], Failed(MissingSeries))
    ensures !IsBlank(publicKey) && !IsBlank(privateKey) && !IsBlank(seriesName) && lib.urlEncode(seriesName).None? ==>
      r == Run([], Failed(EncodeFailed))
    ensures !IsBlank(publicKey) && !IsBlank(privateKey) && !IsBlank(seriesName) && lib.urlEncode(seriesName).Some? ==>
      Describes(Requester(lib.md5, Settings(DefaultBaseUrl, publicKey, privateKey), "series",
                          "title=" + lib.urlEncode(seriesName).value),
                script, VolumesAction.MapVolume, r)
  {
    VolumesAction.Execute(lib, SourceSettings(publicKey, privateKey), seriesName, maxRecords, script)
  }

  /** Every volume-search request the adaptor sends starts with the
      gateway's series search for the encoded name, followed by the
      timestamp field. */
  lemma VolumeRequestsGoToGateway(lib: Library, publicKey: string, privateKey: string, seriesName: string,
                                  maxRecords: Option<Int32>, script: seq<Exchange<VolumeRecord>>)
    requires lib.urlEncode(seriesName).Some?
    ensures var r := GetVolumes(lib, publicKey, privateKey, seriesName, maxRecords, script);
      forall i :: 0 <= i < |r.sent| ==>
        StartsWith(r.sent[i], "https://gateway.marvel.com/v1/public/series?title=" + lib.urlEncode(seriesName).value + "&ts=")
  {
    var s := SourceSettings(publicKey, privateKey);
    var query := "title=" + lib.urlEncode(seriesName).value;
    var r := GetVolumes(lib, publicKey, privateKey, seriesName, maxRecords, script);
    if !IsBlank(publicKey) && !IsBlank(privateKey) && !IsBlank(seriesName) {
      EveryRequestAlike(lib.md5, s, "series", query, script, VolumesAction.MapVolume, r);
      SearchPrefix(publicKey, privateKey, lib.urlEncode(seriesName).value);
    }
  }

  /** The request prefix of the adaptor's volume search, written out. */
  lemma SearchPrefix(publicKey: string, privateKey: string, encoded: string)
    ensures RequestPrefix(SourceSettings(publicKey, privateKey), "series", "title=" + encoded)
         == "https://gateway.marvel.com/v1/public/series?title=" + encoded + "&ts="
  {
    var head := DefaultBaseUrl + "/v1/public/" + "series" + "?";
    assert head + "title=" == "https://gateway.marvel.com/v1/public/series?title=";
    assert head + ("title=" + encoded) + "&ts=" == head + "title=" + encoded + "&ts=";
  }

  /** `getAllIssues`: the series listing with the source's keys. */
  function GetAllIssues(lib: Library, publicKey: string, privateKey: string, seriesId: string,
                        script: seq<Exchange<SeriesIssueRecord>>): (r: Run<seq<IssueDetailsMetadata>>)
    ensures IsBlank(publicKey) ==> r == Run([], Failed(PublicKeyNotDefined))
    ensures !IsBlank(publicKey) && IsBlank(privateKey) ==> r == Run([], Failed(PrivateKeyNotDefined))
    ensures !IsBlank(publicKey) && !IsBlank(privateKey) && IsBlank(seriesId) ==> r == Run([], Failed(MissingSeriesId))
    ensures !IsBlank(publicKey) && !IsBlank(privateKey) && !IsBlank(seriesId) ==>
      Describes(Requester(lib.md5, Settings(DefaultBaseUrl, publicKey, privateKey),
                          "series/" + seriesId + "/comics", "noVariants=true"),
                script, (w: SeriesIssueRecord) => AllIssuesAction.MapSeriesIssue(lib.parseDate, w), r)
  {
    AllIssuesAction.Execute(lib, SourceSettings(publicKey, privateKey), seriesId, script)
  }

  /** `getIssueDetails`: the single-comic lookup with the source's keys;
      one request to the gateway's comic endpoint, no query parameters. */
  function GetIssueDetails(lib: Library, publicKey: string, privateKey: string, issueId: string,
                           exchange: Exchange<IssueRecord>): (r: Run<Option<IssueDetailsMetadata>>)
    ensures IsBlank(publicKey) ==> r == Run([], Failed(PublicKeyNotDefined))
    ensures !IsBlank(publicKey) && IsBlank(privateKey) ==> r == Run([], Failed(PrivateKeyNotDefined))
    ensures !IsBlank(publicKey) && !IsBlank(privateKey) && IsBlank(issueId) ==> r == Run([], Failed(MissingComicId))
    ensures !IsBlank(publicKey) && !IsBlank(privateKey) && !IsBlank(issueId) ==>
      && r.sent == [CreateUrl(lib.md5, Settings(DefaultBaseUrl, publicKey, privateKey), "comics/" + issueId, "", exchange.clock)]
      && !r.status.Unfinished?
      && (r.status.Failed? <==> FailureOf(exchange.reply).Some?)
      && (r.status.Failed? ==> r.status.error == FailureOf(exchange.reply).value)
      && (r.status == Done(None) <==> exchange.reply.Response? && |exchange.reply.page.results| == 0)
      && (exchange.reply.Response? && |exchange.reply.page.results| > 0 ==>
            r.status == Done(Some(DetailsAction.MapDetails(lib.parseDate, exchange.reply.page.results[0]))))
  {
    DetailsAction.Execute(lib, SourceSettings(publicKey, privateKey), issueId, exchange)
  }
}
