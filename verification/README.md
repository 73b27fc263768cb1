# Marvel metadata adaptor — a Dafny model

This project models the core of the ComiXed Marvel metadata adaptor. The adaptor
fetches comic metadata from Marvel's public catalog service and turns it into the
host application's metadata records. The model covers:

- **Series titles.** The parser (`SeriesNameAdaptor`) splits a display title such
  as "Spider-Woman (2009 - 2014)" into a name and a start year. It is modelled as
  a hand-written backtracking matcher for `^(.+) \(([\d]{4}).*\)` under
  `Matcher.find()`.
- **Request signing.** `MarvelAuthorizationAdaptor` produces the MD5 digest of the
  timestamp, the private key and the public key.
- **Behaviour shared by the actions.** `AbstractMarvelScrapingAction` provides:
  - the key check;
  - the signed request URL;
  - the end-of-paging test, in Java `int` arithmetic;
  - the first-typed-date lookup.
- **The paging loop.** Four fetch actions share it: volume search, single-issue
  search, all issues of a series, and issue details. The details action sends
  exactly one request.
- **The adaptor** (`MarvelMetadataAdaptor`):
  - the reference-id extractor, a whole-string matcher for
    `^https?\:\/\/.*(marvel\.com)\/comics\/issue\/([\d]+).*`;
  - the head-or-null step of `doGetIssue`;
  - the three calls that hand their arguments over to an action.

Modules follow the program's structure:

| file | module | models |
|---|---|---|
| common.dfy | `Common` | `null` as `Option`; Java `int`/`long`; `isBlank`; regex line terminators and `\d`; `findFirst` |
| decimal.dfy | `Decimal` | `String.valueOf(long)` |
| authorization.dfy | `Authorization` | `getHashForRequest` |
| series_name.dfy | `SeriesName` | `SeriesNameAdaptor` |
| wire.dfy | `Wire` | the records the service returns |
| metadata.dfy | `Metadata` | the records the adaptor fills in |
| foreign.dfy | `Foreign` | the library calls (MD5, URL encoding, date parsing, date conversion) |
| scraping_action.dfy | `ScrapingAction` | `AbstractMarvelScrapingAction` |
| paging.dfy | `Paging` | the `while (!done)` loop the paged actions share |
| get_volumes.dfy, get_issue.dfy, get_all_issues.dfy, get_issue_details.dfy | `GetVolumes`, `GetIssue`, `GetAllIssues`, `GetIssueDetails` | the four actions |
| adaptor.dfy | `Adaptor` | `MarvelMetadataAdaptor` |

**The server is an oracle.** It is a finite script of exchanges, one per request.
Each exchange holds:

- the clock reading the URL was built with;
- the reply: a transport exception, a `null` response, or a page.

A run records the URLs it sent and how it ended:

- with the collected records;
- with an exception, and no partial list;
- unfinished, when the script ran out before the server sent a final page.

The query never carries an offset. Whether the loop stops is therefore up to the
server, and the unfinished ending is how the model states that.

**What the code does that a reader might not expect.** The model follows the
code in each of these:

- The series title parser does not trim the name.
- The volume search sends `title=` with the whole encoded name.
- The volume search copies the volume's title verbatim, without parsing it.
- The volume search has no record cap: `maxRecords` is stored and never read.
- The single-issue search sets only the cover date, twice, from the first
  "onsaleDate" entry. It never sets a store date.
- The single-issue search sends `noVariants=true&formatType=comic&issueNumber=`
  and the issue number. The example URL in the comment above the action's
  fields (`MarvelGetIssueAction.java`, lines 39-40) shows `orderBy`, `limit`
  and `offset` instead; the code sends none of them.
- A page counts as final when `total <= limit + offset + count`. So a first page
  with offset 0, limit 1, count 1 and a total of 2 already ends the volume
  search (`GetVolumes.FirstOfTwoCountedAsLast`).
- The unit tests disagree with the code in two places:
  - The signing test expects the pre-image timestamp + public + private. The
    code hashes timestamp + private + public.
  - The adaptor test expects an id for "http://www.marvel.com". The code returns
    `null`.

## Model

| member | source | states |
|---|---|---|
| Common.Wrap32 | src/main/java/org/comixedproject/metadata/marvel/actions/AbstractMarvelScrapingAction.java:54-56 | Java `int` addition wraps: the result is in range, is congruent to the exact sum modulo 2^32, and is the exact sum when that fits |
| Common.IsBlank | src/main/java/org/comixedproject/metadata/marvel/actions/AbstractMarvelScrapingAction.java:69-70 | `StringUtils.isBlank`: empty, or only `Character.isWhitespace` characters. `Common.BlankExtends` and `Common.BlankCases` state what that means |
| Common.IsWhitespace | src/main/java/org/comixedproject/metadata/marvel/actions/AbstractMarvelScrapingAction.java:69-70 | `Character.isWhitespace`: the Unicode space, line and paragraph separators except the three no-break spaces, plus the ASCII tab, line and separator controls |
| Common.BlankExtends | src/main/java/org/comixedproject/metadata/marvel/actions/AbstractMarvelScrapingAction.java:69-70 | appending a character keeps a string blank exactly when the string was blank and the character is whitespace |
| Common.BlankCases | src/main/java/org/comixedproject/metadata/marvel/actions/AbstractMarvelScrapingAction.java:69-70 | the empty string is blank; space, tab, line feed and carriage return are whitespace; U+00A0, U+2007 and U+202F are not, so a key of no-break spaces passes the check |
| Common.FindFirst | src/main/java/org/comixedproject/metadata/marvel/actions/AbstractMarvelScrapingAction.java:104-105 | `filter(p).findFirst()`: absent exactly when no element passes; otherwise an index that passes, with every earlier element failing |
| Decimal.Render | src/main/java/org/comixedproject/metadata/marvel/auth/MarvelAuthorizationAdaptor.java:55 | `String.valueOf(long)`: a minus sign exactly for negative values, then at least one digit, with no other characters and no leading zeros (only 0 itself starts with "0") |
| Decimal.RenderRoundTrip | src/main/java/org/comixedproject/metadata/marvel/auth/MarvelAuthorizationAdaptor.java:55 | reading back the decimal text of a `long` (sign, then digits) gives the number that was rendered |
| Decimal.RenderInjective | src/main/java/org/comixedproject/metadata/marvel/auth/MarvelAuthorizationAdaptor.java:55 | distinct timestamps render to distinct strings |
| Authorization.PreImage | src/main/java/org/comixedproject/metadata/marvel/auth/MarvelAuthorizationAdaptor.java:55 | the hashed string: decimal timestamp, then private key, then public key. `Authorization.PreImageDeterminesTimestamp` shows it fixes the timestamp |
| Authorization.HashForRequest | src/main/java/org/comixedproject/metadata/marvel/auth/MarvelAuthorizationAdaptor.java:47-55 | the digest is MD5 of decimal timestamp + private key + public key; it is 32 lower-case hex characters, so it is never blank; it reads no state |
| Authorization.PreImageDeterminesTimestamp | src/main/java/org/comixedproject/metadata/marvel/auth/MarvelAuthorizationAdaptor.java:54-55 | with fixed keys, equal pre-images mean equal timestamps |
| Authorization.TestVectorAgreesIffKeysCommute | src/test/java/org/comixedproject/metadata/marvel/auth/MarvelAuthorizationAdaptorTest.java:45-48 | the test's pre-image (public before private) equals the code's exactly when public + private == private + public |
| Authorization.TestKeysGiveDifferentPreImages | src/test/java/org/comixedproject/metadata/marvel/auth/MarvelAuthorizationAdaptorTest.java:31-48 | with the test's keys "public.key" and "private.key" the two pre-images differ for every timestamp |
| Authorization.CommutingDistinctKeysAgree | src/test/java/org/comixedproject/metadata/marvel/auth/MarvelAuthorizationAdaptorTest.java:45-48 | equal keys always agree, and so do the distinct keys "ab" and "abab": key equality is not the exact condition |
| SeriesName.Tail | src/main/java/org/comixedproject/metadata/marvel/adaptor/SeriesNameAdaptor.java:38 | the part after group 1 (` (`, four digits, then `.*\)` on one line) matches exactly when the title splits there |
| SeriesName.Backtrack | src/main/java/org/comixedproject/metadata/marvel/adaptor/SeriesNameAdaptor.java:38 | greedy `(.+)` backtracking yields the largest group-1 length that lets the rest match, or none when no length does |
| SeriesName.Execute | src/main/java/org/comixedproject/metadata/marvel/adaptor/SeriesNameAdaptor.java:46-58 | no split: the title unchanged with an empty year. Otherwise the title starts with name + " (" + year, the split is valid, no later split exists, and the year is four ASCII digits |
| SeriesName.NoParenthesisNoSplit | src/main/java/org/comixedproject/metadata/marvel/adaptor/SeriesNameAdaptor.java:49-57 | a title without `(` never matches and falls back to itself |
| SeriesName.NoClosingNoSplit | src/main/java/org/comixedproject/metadata/marvel/adaptor/SeriesNameAdaptor.java:49-57 | a title without `)` never matches and falls back to itself |
| SeriesName.ComposeThenParse | src/main/java/org/comixedproject/metadata/marvel/adaptor/SeriesNameAdaptor.java:38-53 | the round trip: name + " (" + year + rest parses back to (name, year) when the name is non-empty and on one line, the year is four digits, and rest closes on the same line and opens no new parenthesis |
| SeriesName.StartYearOnly | src/test/java/org/comixedproject/metadata/marvel/adaptor/SeriesNameAdaptorTest.java:43-49 | "Spider-Woman (2009)" gives ("Spider-Woman", "2009") |
| SeriesName.StartAndEndYears | src/test/java/org/comixedproject/metadata/marvel/adaptor/SeriesNameAdaptorTest.java:61-67 | "Spider-Woman (2009 - 2014)" gives ("Spider-Woman", "2009") |
| SeriesName.NoMatchFallsBack | src/test/java/org/comixedproject/metadata/marvel/adaptor/SeriesNameAdaptorTest.java:52-58 | "Spider-Woman Spider-Woman" gives itself and "" |
| SeriesName.FirstFourDigitsOnly | src/main/java/org/comixedproject/metadata/marvel/adaptor/SeriesNameAdaptor.java:38 | with five digits only the first four form the year |
| SeriesName.TextAfterParenthesis | src/main/java/org/comixedproject/metadata/marvel/adaptor/SeriesNameAdaptor.java:38-49 | `find()` allows text after the closing parenthesis |
| SeriesName.RightmostSplitWins | src/main/java/org/comixedproject/metadata/marvel/adaptor/SeriesNameAdaptor.java:38 | with two " (dddd)" groups the later one gives the year and the earlier one stays in the name |
| SeriesName.NameNotTrimmed | src/main/java/org/comixedproject/metadata/marvel/adaptor/SeriesNameAdaptor.java:50-53 | a doubled space before the parenthesis stays at the end of the name |
| SeriesName.UnclosedFallsBack | src/main/java/org/comixedproject/metadata/marvel/adaptor/SeriesNameAdaptor.java:38 | without a closing parenthesis there is no match |
| SeriesName.LineBreakDefeatsMatch | src/main/java/org/comixedproject/metadata/marvel/adaptor/SeriesNameAdaptor.java:38 | `.` does not cross a line break, so a two-line name does not match |
| ScrapingAction.IsDone | src/main/java/org/comixedproject/metadata/marvel/actions/AbstractMarvelScrapingAction.java:53-61 | the final-page test, `total <= limit + offset + count` in wrapped `int` arithmetic. `ScrapingAction.IsDoneExact` and `ScrapingAction.OverflowKeepsPaging` state its meaning |
| ScrapingAction.IsDoneExact | src/main/java/org/comixedproject/metadata/marvel/actions/AbstractMarvelScrapingAction.java:53-61 | when limit + offset + count fits in an `int`, a page is final exactly when total <= limit + offset + count |
| ScrapingAction.OverflowKeepsPaging | src/main/java/org/comixedproject/metadata/marvel/actions/AbstractMarvelScrapingAction.java:53-58 | when the sum overflows, a page whose true sum reaches the total is still not final |
| ScrapingAction.CheckSetup | src/main/java/org/comixedproject/metadata/marvel/actions/AbstractMarvelScrapingAction.java:68-72 | passes exactly when both keys are non-blank; a blank public key is reported before a blank private key |
| ScrapingAction.CreateUrl | src/main/java/org/comixedproject/metadata/marvel/actions/AbstractMarvelScrapingAction.java:81-93 | `doCreateUrl` with the clock reading as a parameter; `ScrapingAction.UrlLayout` states its layout |
| ScrapingAction.UrlLayout | src/main/java/org/comixedproject/metadata/marvel/actions/AbstractMarvelScrapingAction.java:81-93 | in order, the URL is: base + "/v1/public/" + path + "?" + parameters + "&ts="; the decimal timestamp; "&apikey=" and the public key; "&hash=" and the digest of that same timestamp |
| ScrapingAction.UrlPrefixIgnoresClock | src/main/java/org/comixedproject/metadata/marvel/actions/AbstractMarvelScrapingAction.java:81-93 | two URLs for the same request agree on everything before the timestamp |
| ScrapingAction.UrlDeterminesTimestamp | src/main/java/org/comixedproject/metadata/marvel/actions/AbstractMarvelScrapingAction.java:82-92 | equal URLs for the same request were built from the same clock reading |
| ScrapingAction.MessagesDistinct | src/main/java/org/comixedproject/metadata/marvel/actions/AbstractMarvelScrapingAction.java:68-72 | no two errors share a message, so the exception text identifies the failed check |
| ScrapingAction.FirstTagged | src/main/java/org/comixedproject/metadata/marvel/actions/AbstractMarvelScrapingAction.java:104-105 | absent exactly when no entry has the tag; otherwise the first entry whose type equals the tag |
| ScrapingAction.FindDate | src/main/java/org/comixedproject/metadata/marvel/actions/AbstractMarvelScrapingAction.java:103-114 | no date when no entry has the tag; otherwise the parse of the first tagged entry's date |
| ScrapingAction.FindDateIgnoresLaterEntries | src/main/java/org/comixedproject/metadata/marvel/actions/AbstractMarvelScrapingAction.java:103-105 | once a tagged entry exists, appending entries never changes the result |
| ScrapingAction.NoFallThrough | src/main/java/org/comixedproject/metadata/marvel/actions/AbstractMarvelScrapingAction.java:106-113 | when the first tagged date does not parse the answer is no date, even if a later tagged date would parse |
| ScrapingAction.CoverDate | src/main/java/org/comixedproject/metadata/marvel/actions/AbstractMarvelScrapingAction.java:95-97 | the lookup for the first "focDate" entry |
| ScrapingAction.StoreDate | src/main/java/org/comixedproject/metadata/marvel/actions/AbstractMarvelScrapingAction.java:99-101 | the lookup for the first "onsaleDate" entry |
| Paging.MapEach | src/main/java/org/comixedproject/metadata/marvel/actions/MarvelGetVolumesAction.java:86-104 | the `forEach` keeps the page's order and maps every result |
| Paging.Drive | src/main/java/org/comixedproject/metadata/marvel/actions/MarvelGetVolumesAction.java:67-106 | the loop's run satisfies `Describes`, detailed in the rows that follow |
| Paging.DescribesUnique | src/main/java/org/comixedproject/metadata/marvel/actions/MarvelGetVolumesAction.java:67-106 | the server's script determines the run: two runs that fit it are equal |
| Paging.FailedRunDescribed | src/main/java/org/comixedproject/metadata/marvel/actions/MarvelGetVolumesAction.java:75-83 | after non-final pages, an exception or `null` reply ends the run with that error and no list; that request was sent |
| Paging.DoneRunDescribed | src/main/java/org/comixedproject/metadata/marvel/actions/MarvelGetVolumesAction.java:86-105 | after non-final pages, a final page ends the run with every page's mapped results, in server order |
| Paging.UnfinishedRunDescribed | src/main/java/org/comixedproject/metadata/marvel/actions/MarvelGetVolumesAction.java:67-106 | a script of non-final pages only leaves the loop running after sending one request per page |
| Paging.DescribedIsDriven | src/main/java/org/comixedproject/metadata/marvel/actions/MarvelGetVolumesAction.java:67-106 | any run that fits the script is the loop's run |
| Paging.Fetch | src/main/java/org/comixedproject/metadata/marvel/actions/MarvelGetVolumesAction.java:57-109 | the imperative loop: send, fail on an exception or `null`, append each mapped result, stop on a final page. Its invariant keeps the list equal to the mapped pages so far, and the run it returns is the loop's run |
| Paging.DescribesExtends | src/main/java/org/comixedproject/metadata/marvel/actions/MarvelGetVolumesAction.java:67-106 | a run that ended also fits any longer script |
| Paging.ScriptBeyondEndUnread | src/main/java/org/comixedproject/metadata/marvel/actions/MarvelGetVolumesAction.java:67-106 | once the loop has ended, later server replies change nothing |
| Paging.RepeatedPageNeverFinishes | src/main/java/org/comixedproject/metadata/marvel/actions/MarvelGetVolumesAction.java:67-69 | a server that repeats a non-final page keeps the loop requesting, one request per reply |
| Paging.TwoPageRun | src/main/java/org/comixedproject/metadata/marvel/actions/MarvelGetVolumesAction.java:67-106 | a non-final page then a final one: two requests, and both pages' results in order |
| Paging.FirstPageRun | src/main/java/org/comixedproject/metadata/marvel/actions/MarvelGetVolumesAction.java:67-106 | a final first page: one request and that page's results |
| Paging.EveryRequestAlike | src/main/java/org/comixedproject/metadata/marvel/actions/MarvelGetVolumesAction.java:69 | every request of a run starts with the same prefix up to `ts=`, so no offset or other progress marker is sent |
| GetVolumes.MapVolume | src/main/java/org/comixedproject/metadata/marvel/actions/MarvelGetVolumesAction.java:93-103 | copies the id; the title is the name, unparsed; copies the start year; publisher "Marvel"; issue count is `comics.available`; image is path + "." + extension |
| GetVolumes.Execute | src/main/java/org/comixedproject/metadata/marvel/actions/MarvelGetVolumesAction.java:52-110 | keys, then series, then encoding can fail, each with no request. Otherwise it is the paging loop over "series" with "title=" + the encoded name |
| GetVolumes.IgnoresMaxRecords | src/main/java/org/comixedproject/metadata/marvel/actions/MarvelGetVolumesAction.java:49-110 | the run does not depend on `maxRecords` |
| GetVolumes.TwoPageSearch | src/main/java/org/comixedproject/metadata/marvel/actions/MarvelGetVolumesAction.java:67-106 | a two-page search sends two requests with the same query and returns both pages' volumes in order |
| GetVolumes.FirstOfTwoCountedAsLast | src/main/java/org/comixedproject/metadata/marvel/actions/MarvelGetVolumesAction.java:105 | a first page with offset 0, limit 1, count 1 and total 2 is final: one request, and the second page is never asked for |
| GetVolumes.TitleKeptWhole | src/main/java/org/comixedproject/metadata/marvel/actions/MarvelGetVolumesAction.java:95 | "Spider-Woman (2009)" stays the volume name, unlike the series parser's name |
| GetIssue.MapIssue | src/main/java/org/comixedproject/metadata/marvel/actions/MarvelGetIssueAction.java:80-100 | volume id is the requested series; name and volume name are the wire series name; cover date is the converted first "onsaleDate"; no store date; cover URL is path + "." + extension |
| GetIssue.Execute | src/main/java/org/comixedproject/metadata/marvel/actions/MarvelGetIssueAction.java:46-107 | keys, then series, then issue number can fail, each with no request. Otherwise it is the paging loop over "series/<series>/comics" with the issue-number query |
| GetIssue.CoverDateFromFirstOnSale | src/main/java/org/comixedproject/metadata/marvel/actions/MarvelGetIssueAction.java:86-95 | only the first "onsaleDate" entry feeds the cover date |
| GetAllIssues.MapSeriesIssue | src/main/java/org/comixedproject/metadata/marvel/actions/MarvelGetAllIssuesAction.java:84-95 | series and volume are the parser's name and year; copies id, issue number and title; publisher "Marvel"; cover and store dates from "focDate" and "onsaleDate"; no description or web address |
| GetAllIssues.Execute | src/main/java/org/comixedproject/metadata/marvel/actions/MarvelGetAllIssuesAction.java:50-102 | keys, then series id can fail, with no request. Otherwise it is the paging loop over "series/<id>/comics" with "noVariants=true" |
| GetAllIssues.DatesLookedUpIndependently | src/main/java/org/comixedproject/metadata/marvel/actions/MarvelGetAllIssuesAction.java:93-94 | with the on-sale entry listed first, the cover date still comes from "focDate" and the store date from "onsaleDate" |
| GetAllIssues.SeriesNameSplit | src/main/java/org/comixedproject/metadata/marvel/actions/MarvelGetAllIssuesAction.java:87-90 | "Scarlet Witch (2023 - Present)" gives series "Scarlet Witch" and volume "2023" |
| GetIssueDetails.DetailAddress | src/main/java/org/comixedproject/metadata/marvel/actions/MarvelGetIssueDetailsAction.java:88-92 | absent exactly when no link is typed "detail"; otherwise the first such link's URL |
| GetIssueDetails.MapDetails | src/main/java/org/comixedproject/metadata/marvel/actions/MarvelGetIssueDetailsAction.java:77-92 | series and volume from the parser; cover date from "focDate" and store date from "onsaleDate"; the description; no title; the web address is the url of the first link typed "detail", and is unset exactly when no link has that type |
| GetIssueDetails.Execute | src/main/java/org/comixedproject/metadata/marvel/actions/MarvelGetIssueDetailsAction.java:48-94 | keys, then comic id can fail, with no request. Otherwise it sends exactly one request to "comics/<id>" with no query. An exception or `null` reply is an error; an empty page gives `null`; otherwise the first record is mapped |
| GetIssueDetails.OnlyFirstRecordMatters | src/main/java/org/comixedproject/metadata/marvel/actions/MarvelGetIssueDetailsAction.java:70-76 | two replies with the same first record give the same outcome |
| GetIssueDetails.FirstDetailLinkWins | src/main/java/org/comixedproject/metadata/marvel/actions/MarvelGetIssueDetailsAction.java:88-92 | of two detail links the first is the web address |
| Adaptor.SchemeLength | src/main/java/org/comixedproject/metadata/marvel/MarvelMetadataAdaptor.java:47-48 | `https?\:\/\/` matches "http://" (length 7) or "https://" (length 8) at the start, and nothing else |
| Adaptor.DigitRun | src/main/java/org/comixedproject/metadata/marvel/MarvelMetadataAdaptor.java:47-48 | greedy `[\d]+`: every character of the run is a digit, and a non-digit or the end follows it |
| Adaptor.LastNeedle | src/main/java/org/comixedproject/metadata/marvel/MarvelMetadataAdaptor.java:47-48 | greedy leading `.*`: the rightmost "marvel.com/comics/issue/" plus digit in the range, or none when the range has none |
| Adaptor.Group2 | src/main/java/org/comixedproject/metadata/marvel/MarvelMetadataAdaptor.java:47-49 | group 2 is the non-empty, maximal digit run right after the needle |
| Adaptor.ReferenceId | src/main/java/org/comixedproject/metadata/marvel/MarvelMetadataAdaptor.java:143-152 | an id exists exactly when the whole address matches: one line, http or https, and a needle with a digit after the scheme. The id is group 2 of the last such needle |
| Adaptor.LastNeedleUnique | src/main/java/org/comixedproject/metadata/marvel/MarvelMetadataAdaptor.java:47-48 | the last needle is unique, so the id is well defined |
| Adaptor.ReferenceIdAt | src/main/java/org/comixedproject/metadata/marvel/MarvelMetadataAdaptor.java:143-152 | for a one-line address, the last needle after the scheme gives the id |
| Adaptor.NoNeedleWithoutV | src/main/java/org/comixedproject/metadata/marvel/MarvelMetadataAdaptor.java:47-48 | an address without the letter "v" cannot contain "marvel.com" and has no id |
| Adaptor.ComposedAddress | src/main/java/org/comixedproject/metadata/marvel/MarvelMetadataAdaptor.java:47-49 | the round trip: scheme + any one-line text + "marvel.com/comics/issue/" + digits + a tail yields exactly those digits. The tail must be one line, not start with a digit, and hold no "v" |
| Adaptor.DirectAddress | src/main/java/org/comixedproject/metadata/marvel/MarvelMetadataAdaptor.java:47-49 | the same with nothing between the scheme and the needle |
| Adaptor.DetailLinkId | src/main/java/org/comixedproject/metadata/marvel/MarvelMetadataAdaptor.java:143-152 | "http://marvel.com/comics/issue/97135/scarlet_witch_2023_2" gives "97135" |
| Adaptor.HostOnlyHasNoId | src/test/java/org/comixedproject/metadata/marvel/MarvelMetadataAdaptorTest.java:134-139 | "http://www.marvel.com" gives `null`, whereas the test expects a value |
| Adaptor.LookalikeHostAccepted | src/main/java/org/comixedproject/metadata/marvel/MarvelMetadataAdaptor.java:47-48 | "https://evilmarvel.com/comics/issue/42" gives "42": the host is matched only as text |
| Adaptor.LastIssuePathWins | src/main/java/org/comixedproject/metadata/marvel/MarvelMetadataAdaptor.java:47-48 | with two issue paths the later one supplies the id |
| Adaptor.OtherSchemeRejected | src/main/java/org/comixedproject/metadata/marvel/MarvelMetadataAdaptor.java:47-48 | an "ftp://" address has no id |
| Adaptor.OtherSiteRejected | src/main/java/org/comixedproject/metadata/marvel/MarvelMetadataAdaptor.java:47-48 | another site's issue path has no id |
| Adaptor.LineBreakRejected | src/main/java/org/comixedproject/metadata/marvel/MarvelMetadataAdaptor.java:47-48 | a trailing line break defeats the whole-string match |
| Adaptor.SourceSettings | src/main/java/org/comixedproject/metadata/marvel/MarvelMetadataAdaptor.java:154-161 | the action gets the source's two keys and keeps its default base URL "https://gateway.marvel.com" |
| Adaptor.HeadOfRun | src/main/java/org/comixedproject/metadata/marvel/MarvelMetadataAdaptor.java:73-75 | same requests, same failure, same unfinished state; an empty list becomes `null`, any other list its first element |
| Adaptor.DoGetIssue | src/main/java/org/comixedproject/metadata/marvel/MarvelMetadataAdaptor.java:63-76 | sends exactly the single-issue search's requests. A non-empty result gives its first record, and an empty one gives `null`, exactly then. A failed search fails with the same error, and the run is unfinished exactly when the search is. Validation errors come first, with no request |
| Adaptor.FirstPageDecidesIssue | src/main/java/org/comixedproject/metadata/marvel/MarvelMetadataAdaptor.java:63-76 | with a final first page: one request to the series' comics with the issue number, answered with that page's first mapped issue or `null` |
| Adaptor.GetVolumes | src/main/java/org/comixedproject/metadata/marvel/MarvelMetadataAdaptor.java:86-100 | the volume search under the source's keys and the default gateway, including its validation errors |
| Adaptor.VolumeRequestsGoToGateway | src/main/java/org/comixedproject/metadata/marvel/MarvelMetadataAdaptor.java:86-100 | every request starts with "https://gateway.marvel.com/v1/public/series?title=" + the encoded name + "&ts=" |
| Adaptor.GetAllIssues | src/main/java/org/comixedproject/metadata/marvel/MarvelMetadataAdaptor.java:108-120 | the series listing under the source's keys and the default gateway, including its validation errors |
| Adaptor.GetIssueDetails | src/main/java/org/comixedproject/metadata/marvel/MarvelMetadataAdaptor.java:128-140 | one request to the gateway's "comics/<id>" under the source's keys, never left unfinished. An exception or `null` reply fails with that reply's error, an empty page gives `null`, and otherwise the first record is mapped |

## Left out

- HTTP transport (`createWebClient`, `WebClient`, `Mono.block()`) is not modelled. The server is a script of replies, and the reply for each request is a parameter.
- A loop whose server never sends a final page is modelled only up to the end of the script, as an unfinished run. A non-terminating loop cannot be expressed as a total function.
- JSON decoding is not modelled. A `null` record, list or nested object, which would make the code throw a `NullPointerException`, is not modelled either.
- A `null` string is represented by the empty string. For the keys and the action arguments this is exact, since the code tests them with `isBlank`, which treats both alike. For strings read from a reply it is not, and these differences follow:
  - A `null` thumbnail path or extension gives "null" in the image URL through `String.format` (`MarvelGetVolumesAction.java` line 100, `MarvelGetIssueAction.java` line 97); the model gives the empty string there.
  - A `null` series name throws a `NullPointerException` in the series title parser (`MarvelGetIssueDetailsAction.java` line 81, `MarvelGetAllIssuesAction.java` line 88); the model parses the empty string.
  - A `null` date or link type throws a `NullPointerException` in `getType().equals(..)` (`AbstractMarvelScrapingAction.java` line 105, `MarvelGetIssueDetailsAction.java` line 89); the model compares the empty string, which matches no tag.
  - A `null` description stays `null` in the details record (`MarvelGetIssueDetailsAction.java` line 87); `GetIssueDetails.MapDetails` gives the empty string.
  - A `null` title stays `null` in the series listing (`MarvelGetAllIssuesAction.java` line 92); `GetAllIssues.MapSeriesIssue` gives the empty string.
  - A `null` url on the first "detail" link leaves the web address `null` (`MarvelGetIssueDetailsAction.java` line 91); `GetIssueDetails.DetailAddress` gives the empty string, so its "absent exactly when no detail link exists" does not cover that input.
  - A `null` date string makes `dateFormat.parse` throw (`AbstractMarvelScrapingAction.java` line 108); the model hands the empty string to the date parser.
- Four library calls are arbitrary functions of `Foreign.Library`, so every property holds for all of them:
  - the MD5 hex digest;
  - `URLEncoder.encode`;
  - `SimpleDateFormat.parse`;
  - `doConverDate`, inherited from `AbstractScrapingAction`, which is not part of this model.
- `Authorization.HashForRequest`: the digest is only assumed to be 32 lower-case hex characters. Collision resistance is not assumed, and `getBytes()`'s character encoding is folded into the digest function.
- `System.currentTimeMillis()` is the clock reading carried by each exchange.
- `@Synchronized` and the shared static `SimpleDateFormat` are concurrency concerns and are not modelled.
- Logging is not modelled.
- `MarvelMetadataAdaptorProvider` and `getSourcePropertyByName` are not modelled. The adaptor functions take the two key values directly. The lookup's own failure, for a missing required property, lives in `AbstractMetadataAdaptor`, which is not part of this model.
- Fields the mappers never read are left out of the wire records: credits, characters, stories and creators.
- `MarvelGetIssueRecord.java` declares no `urls` field, yet the details action reads one. The model gives the issue record a list of typed links, as the action's code and the service's replies have.

