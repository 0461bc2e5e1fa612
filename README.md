# Comic aggregator crawl engine — a Dafny model

This project models the crawl orchestration engine of the `comics` aggregator. The engine
chooses which comics and which date window to crawl (`ComicAggregatorConfig`). It walks each
comic one day at a time from the effective start date through `to_date` (`ComicAggregator`).
For each date it runs the per-date crawl protocol of `BaseComicCrawler`: the eligibility checks,
the reset of the per-date fields, the `crawl()` hook, URL validation, decoding of feed text and
the per-crawler feed cache. Every strip found goes to the downloader. Every failure is caught,
sorted into ComicsError / IOError / anything else, and logged, and the run goes on.

The model also covers the crawl hooks whose logic is string and date work: EON and Veslemøy
(URLs built from `%d%m%y`), KAL's Cartoon (a `%Y%m%d` substring gate), Basic Instructions (feed
entry filter and a `"`-split `src=` extraction), Focus Shift (first entry of the day and the
regex capture of `src="…"`), and the comics.com `crawl_helper` URL. Basic Instructions and
Focus Shift override `_get_url` of `comics.crawler.crawlers.BaseComicCrawler`, an older base
class that is not part of this model; they are run as crawl hooks of the per-date protocol
above (see Left out).

Layout, one module per file:

- `outcomes.dfy`: `Option`, `Result`, the exception taxonomy and the except-ladder (`LevelOf`).
- `dates.dfy`: Python `datetime.date` as `Date(year, month, day)` for years 1..9999.
  It holds the Gregorian `NextDay`, ordinals, the inclusive `DateRange` walk and the
  `%d%m%y`, `%Y%m%d` and `%Y-%m-%d` formats, plus `strptime` for well-formed input.
- `strings.dfy`: the `str` methods the code uses (`in`, `startswith`, `split`, `lower`,
  `replace`) and subsequences.
- `collaborators.dfy`: comic rows, feeds, entries, pages and the decoder, taken as inputs.
- `crawler_helpers.dfy`: `timestamp_to_date`, `remove_html_tags`, the comics.com URL.
- `eon.dfy`, `veslemoy.dfy`, `kalscartoon.dfy`, `basicinstructions.dfy`, `focusshift.dfy`: the plugins.
- `crawler.dfy`: the per-date protocol. Pure step functions state what one call does to
  the crawler's fields. `class ComicCrawler` holds those fields and its methods are proved
  equal to the step functions.
- `aggregator.dfy`: `class AggregatorConfig`, `class ComicAggregator`, and the run as
  functions over a `Trace`. The trace holds the release store, one record per crawl, per
  download and per comic, each with the log level its exception received. The lemmas prove
  what the run promises about that trace.

External collaborators are parameters. `today` is a `Date`. The comic table is a
`seq<Comic>`. The crawler registry (`get_comic_module`) is a `map` from slug to crawler class.
The web is a pair of functions (feed by URL; image src by page URL and selector, or
unreachable = IOError). The codec is a `Decoder` that may fail. The downloader is a function
from metadata to an outcome. The Release table is a set of (slug, date) keys, and a successful
download adds its key to it.

## Model

| member | source | states |
|---|---|---|
| `Aggregator.AggregatorConfig.constructor` | comics/aggregator/command.py:106-109 | a new configuration has no comics and both window ends at `today` |
| `Aggregator.AggregatorConfig.Setup` | comics/aggregator/command.py:113-117 | selects the comics first; if that raises, nothing changes; otherwise the window is set as `set_date_interval` sets it |
| `Aggregator.AggregatorConfig.SetComicsToCrawl` | comics/aggregator/command.py:119-129 | None or an empty list selects every comic; otherwise the slugs are resolved in order, and the first failure is raised with the comics left unchanged |
| `Aggregator.ComicBySlug` | comics/aggregator/command.py:131-139 | succeeds exactly when one row has the slug; otherwise a ComicsError naming the slug (or MultipleObjectsReturned) |
| `Aggregator.ComicBySlugSpec` | comics/aggregator/command.py:131-139 | the comic found is a table row with that slug; the not-found ComicsError is raised exactly when no row has the slug |
| `Aggregator.MatchesSpec` | comics/aggregator/command.py:134 | the slug filter keeps exactly the rows with that slug |
| `Aggregator.ResolveSlugsOk` | comics/aggregator/command.py:125-129 | resolution succeeds iff every slug resolves; the result has one comic per slug, in input order |
| `Aggregator.ResolveSlugsFirstError` | comics/aggregator/command.py:125-138 | a failed resolution carries the error of the first slug that does not resolve |
| `Aggregator.ResolveSlugsStops` | comics/aggregator/command.py:126-127 | once a prefix of the slugs fails, later slugs do not change the outcome |
| `Aggregator.AggregatorConfig.SetDateInterval` | comics/aggregator/command.py:141-156 | sets from, then to, then validates; a failed parse leaves what was set before it; leaves the comics alone |
| `Aggregator.DateIntervalSpec` | comics/aggregator/command.py:141-165 | the window is accepted iff both ends parse (or keep their defaults) and from <= to; an unsupplied end keeps its value; a supplied end is the date whose `%Y-%m-%d` text is the argument; the errors are ValueError and the InvalidDateRange ComicsError |
| `Aggregator.AggregatorConfig.ValidateDates` | comics/aggregator/command.py:158-165 | raises the ComicsError exactly when from > to, and returns True otherwise |
| `Aggregator.GetFromDate` | comics/aggregator/command.py:54-60 | the effective start is the later of `from_date` and the history limit, or `from_date` when there is no limit (corrected behaviour; see Findings) |
| `Aggregator.GetFromDateAsWrittenDiffers` | comics/aggregator/command.py:54-60 | as written, the start date raises TypeError exactly for comics without a history limit, and agrees with `GetFromDate` otherwise |
| `Aggregator.TodayOnlyComicNeverCrawled` | comics/aggregator/command.py:38-48 | as written, a registered comic without a history limit fails with TypeError before its first crawl, even for a window of just today; the corrected walk makes exactly one crawl, of that comic for today |
| `Aggregator.ComicAggregator.constructor` | comics/aggregator/command.py:18-23 | the aggregator keeps its configuration and starts with empty records over the given release store |
| `Aggregator.ComicAggregator.Start` | comics/aggregator/command.py:25-27 | the loop over `config.comics` leaves exactly the records and release store of `Run` (whose start date is the corrected `GetFromDate`) |
| `Aggregator.Run` | comics/aggregator/command.py:25-27 | specification of `start()`: each comic in list order, each through `_try_aggregate_one_comic`, so one comic's failure never stops the next; its properties are `RunSound` and `RunTwiceNoDuplicateHandoff` |
| `Aggregator.AggregateComic` | comics/aggregator/command.py:38-48 | specification of `_aggregate_one_comic` with the corrected `GetFromDate`: ImportError for an unregistered comic, else the walk, ending in OverflowError when it reaches 9999-12-31; properties in `AggregateComicWalks` and `AggregateComicSound` |
| `Aggregator.Walk` | comics/aggregator/command.py:43-48 | specification of the `while` loop: one `CrawlDate` per date with one crawler; properties in `WalkStep` and `WalkSound` |
| `Aggregator.ComicAggregator.TryAggregateOneComic` | comics/aggregator/command.py:32-36 | whatever the comic's walk raises is recorded at the `exception` level, and the method returns |
| `Aggregator.ComicAggregator.AggregateOneComic` | comics/aggregator/command.py:38-48 | ImportError for an unregistered comic; otherwise a fresh crawler walks from the corrected `GetFromDate` start, with the records and outcome `AggregateComic` specifies |
| `Aggregator.ComicAggregator.WalkDates` | comics/aggregator/command.py:43-48 | the `while` loop crawls each date from the start through `to_date`, downloads what was found, leaves the records of `Walk`, and raises OverflowError only when stepping past 9999-12-31 |
| `Aggregator.ComicAggregator.CrawlOneDate` | comics/aggregator/command.py:44-47 | one turn of the loop leaves the crawler fields and records `CrawlDate` specifies |
| `Aggregator.ComicAggregator.TryCrawlOneComicOneDate` | comics/aggregator/command.py:62-79 | returns the crawler's metadata, or records the exception with its bucket's log level and returns None |
| `Aggregator.ComicAggregator.TryDownloadStrip` | comics/aggregator/command.py:81-100 | a saved strip adds its release; a failure is recorded with its bucket's log level; nothing escapes |
| `Outcomes.LevelOf` | comics/aggregator/command.py:62-71 | the except-ladder: ComicsError logs at info, IOError at warning, and anything else via `exception`, each iff |
| `Aggregator.CrawlDateSound` | comics/aggregator/command.py:44-47 | one date adds exactly one crawl record for that comic and date and keeps the run's invariants |
| `Aggregator.CrawlDateFoundSound` | comics/aggregator/command.py:44-47 | a date that yields metadata adds one Ok crawl record and one download of that strip, keeping the invariants |
| `Aggregator.CrawlDateMissSound` | comics/aggregator/command.py:44-47 | a date that yields no metadata adds one failed crawl record and no download, keeping the invariants |
| `Aggregator.FoundAppendSound` | comics/aggregator/command.py:44-47 | appending an eligible Ok crawl record and the download of the same strip keeps every invariant of the records |
| `Aggregator.WalkSound` | comics/aggregator/command.py:43-48 | a comic's walk keeps the invariants and crawls exactly the given dates, in order |
| `Aggregator.AggregateComicWalks` | comics/aggregator/command.py:38-48 | a registered comic's walk covers `DateRange(effective start, to_date)` with a fresh crawler (start date from the corrected `GetFromDate`) |
| `Aggregator.AggregateComicSound` | comics/aggregator/command.py:38-48 | one comic keeps the invariants and crawls its scheduled dates, whether its walk returns or raises (start date from the corrected `GetFromDate`) |
| `Aggregator.TryAggregateComicSound` | comics/aggregator/command.py:32-36 | one comic adds one comic record and its scheduled crawls, keeping the invariants (start date from the corrected `GetFromDate`) |
| `Aggregator.RunSound` | comics/aggregator/command.py:25-48 | every comic is processed in list order whatever happens to the others; the run crawls exactly its schedule; every logged exception has its bucket's level; downloads are exactly the crawls that returned metadata, in order; the store grows by exactly the saved strips (start dates from the corrected `GetFromDate`) |
| `Aggregator.RunTwiceNoDuplicateHandoff` | comics/aggregator/command.py:43-47 | a second run of the same configuration never hands a strip saved by the first run to the downloader again, unless its class allows several releases a day (start date from the corrected `GetFromDate`) |
| `Aggregator.ComicScheduleSpec` | comics/aggregator/command.py:43-48 | a comic's crawls number to - start + 1 (zero when start > to), start at the effective start, end at `to_date`, and go up one day at a time (start date from the corrected `GetFromDate`) |
| `Aggregator.WalkStep` | comics/aggregator/command.py:43-48 | one turn of the loop crawls `pub_date` and continues from `pub_date + 1 day`; 9999-12-31 can only be the last date |
| `Dates.DateRangeSpec` | comics/aggregator/command.py:43-48 | the walk has to - from + 1 dates (none when from > to), from `from` to `to`, the i-th at ordinal from + i |
| `Dates.DateRangeSteps` | comics/aggregator/command.py:48 | consecutive dates of the walk are one Gregorian day apart |
| `Dates.ThreeDayWalk` | comics/aggregator/command.py:43-48 | a walk over the 1st through the 3rd of a month is exactly those three days in order |
| `Dates.NextDay` | comics/aggregator/command.py:48 | the Gregorian successor is a valid date whose ordinal is one more |
| `Dates.AddOneDay` | comics/aggregator/command.py:48 | adding a day fails with OverflowError exactly at 9999-12-31, and otherwise is the next day |
| `Dates.BeforeIffOrdinal` | comics/aggregator/command.py:43 | the date comparison (lexicographic on year, month, day) is the comparison of day ordinals |
| `Dates.ParseIso` | comics/aggregator/command.py:146-156 | `strptime('%Y-%m-%d')` yields a valid date or ValueError |
| `Dates.ParseFormatIso` | comics/aggregator/command.py:148-149 | parsing the `%Y-%m-%d` text of a date gives the date back |
| `Dates.FormatParseIso` | comics/aggregator/command.py:154-155 | a string that parses is exactly the `%Y-%m-%d` text of its date |
| `Crawler.DateToCrawl` | comics/aggregator/crawler.py:47-65 | None means today; the date comes back unchanged unless, checked in order: no history limit and not today, NotHistoryCapable; before the limit, OutsideHistoryCapabilityRange; already released and one release a day, StripAlreadyExists; each iff |
| `Crawler.IneligibleSkipsCrawl` | comics/aggregator/crawler.py:24-32 | when eligibility fails, the crawler is unchanged and neither the web nor the decoder is consulted: `crawl()` never runs |
| `Crawler.NoLeakAcrossDates` | comics/aggregator/crawler.py:27-32 | the reset of `url`, `title` and `text` means the result depends on nothing from an earlier date but the feed cache |
| `Crawler.StripMetadataStep` | comics/aggregator/crawler.py:24-45 | specification of `get_strip_metadata`: eligibility, reset, hook, URL check, decoding, metadata; properties in `StripMetadataOk`, `IneligibleSkipsCrawl`, `NoLeakAcrossDates`, `MissingUrlRaises` and `StripMetadataKeepsFeedCache` |
| `Crawler.StripMetadataOk` | comics/aggregator/crawler.py:24-45 | returned metadata carries the eligible requested date, a non-empty URL, the crawler's title and text, its comic and the class's `check_image_mime_type` |
| `Crawler.MissingUrlRaises` | comics/aggregator/crawler.py:67-71 | a hook that leaves no URL or an empty one makes the call raise StripURLNotFound with no metadata |
| `Crawler.StripMetadataKeepsFeedCache` | comics/aggregator/crawler.py:17-19 | a filled feed slot survives every call |
| `Crawler.HookKeepsDateAndFeed` | comics/aggregator/crawler.py:32 | no crawl hook changes `pub_date` or `text`, or drops a cached feed |
| `Crawler.ParseFeedCached` | comics/aggregator/crawler.py:89-96 | once both slots are filled, `parse_feed` changes nothing and returns the cached object whatever URL it is given |
| `Crawler.ParseFeedBuildsOnce` | comics/aggregator/crawler.py:89-96 | the first call builds the feed object from its URL and fills both slots; the next call returns the same object and leaves everything as it is |
| `Crawler.DecodeChangesOnlyWhatNeedsIt` | comics/aggregator/crawler.py:73-80 | decoding changes only `title` and `text`; each changes only when the feed encoding is set and not 'utf-8' and the value is a non-empty byte string; a changed value is unicode; the only error is UnicodeDecodeError |
| `Crawler.DecodeStep` | comics/aggregator/crawler.py:73-80 | specification of `_decode_feed_data`: title first, then text; properties in `DecodeChangesOnlyWhatNeedsIt`, `DecodeConverts` and `DecodeIdempotent` |
| `Crawler.DecodeConverts` | comics/aggregator/crawler.py:73-80 | with a declared encoding other than 'utf-8', a non-empty byte-string title becomes its unicode decoding or raises UnicodeDecodeError with nothing changed; then the text is decoded, raises, or is kept, likewise |
| `Crawler.DecodeIdempotent` | comics/aggregator/crawler.py:73-80 | decoding a second time changes nothing |
| `Crawler.EonAlwaysFindsUrl` | comics/comics/eon.py:15-18 | for an eligible date from 1900 on, the EON crawler never fails the URL check; its metadata carries the date-built URL and no title or text |
| `Crawler.BasicInstructionsUrlQuoteFree` | comics/crawler/crawlers/basicinstructions.py:11-14 | a Basic Instructions URL in returned metadata never contains `"` |
| `Crawler.FocusShiftUrlIsCapture` | comics/crawler/crawlers/focusshift.py:9-15 | a Focus Shift URL in returned metadata is non-empty, free of `"`, and is the regex capture of the summary of the first entry of the crawled date in the feed `parse_feed` gave the crawler |
| `Crawler.ComicCrawler.constructor` | comics/aggregator/crawler.py:17-22 | a new crawler has its comic and class and every field unset |
| `Crawler.ComicCrawler.GetStripMetadata` | comics/aggregator/crawler.py:24-45 | the method leaves the fields and the result `StripMetadataStep` specifies |
| `Crawler.ComicCrawler.CheckStripUrl` | comics/aggregator/crawler.py:67-71 | passes iff the URL is set and non-empty, and otherwise raises StripURLNotFound |
| `Crawler.ComicCrawler.DecodeFeedData` | comics/aggregator/crawler.py:73-80 | the method does what `DecodeStep` specifies: title first, then text |
| `Crawler.ComicCrawler.Crawl` | comics/aggregator/crawler.py:82-85 | dispatches to the class's hook; the base hook raises NotImplementedError |
| `Crawler.ComicCrawler.ParseFeed` | comics/aggregator/crawler.py:89-96 | the method fills the two cache slots as `ParseFeedStep` specifies |
| `Crawler.ComicCrawler.CrawlHelper` | comics/aggregator/crawler.py:120-127 | loads the comics.com page of the date (IOError when unreachable, ValueError before 1900) and assigns the selected src to `url` |
| `CrawlerHelpers.TimestampToDate` | comics/aggregator/crawler.py:101-102 | the date of the first three fields when they form one; TypeError for a shorter tuple, ValueError for an impossible date |
| `CrawlerHelpers.TimestampFirstThree` | comics/aggregator/crawler.py:101-102 | tuples that agree on their first three fields give the same result |
| `CrawlerHelpers.RemoveHtmlTagsSubsequence` | comics/aggregator/crawler.py:110-112 | the output is a subsequence of the input |
| `CrawlerHelpers.RemoveHtmlTags` | comics/aggregator/crawler.py:110-112 | removing tags never lengthens the string, and a string without `<` comes back unchanged |
| `CrawlerHelpers.RemoveHtmlTagsSinglePass` | comics/aggregator/crawler.py:111-112 | `re.sub` makes one pass: `<<a>b>` becomes `<b>`, which is still a tag |
| `CrawlerHelpers.ComicsComSlugShape` | comics/aggregator/crawler.py:122 | the slug keeps the title's length and has no spaces or ASCII capitals |
| `CrawlerHelpers.ComicsComPageUrl` | comics/aggregator/crawler.py:121-124 | the page URL is built unless the year is before 1900, where strftime raises ValueError |
| `CrawlerHelpers.ComicsComPageUrlShape` | comics/aggregator/crawler.py:121-124 | the page URL is the comics.com root, the slug, then a `/YYYY-MM-DD/` segment that parses back to the date |
| `CrawlerHelpers.ComicsComPageUrlInjective` | comics/aggregator/crawler.py:121-124 | different dates give different comics.com pages |
| `Eon.StripUrl` | comics/comics/eon.py:15-18 | the URL is built unless the year is before 1900, where strftime raises ValueError |
| `Eon.StripUrlShape` | comics/comics/eon.py:16-18 | the URL is non-empty: the fixed prefix, six digits reading day, month and year mod 100, then `.gif` |
| `Crawler.ComicCrawler.EonCrawl` | comics/comics/eon.py:15-18 | assigns only `url`, as `EonStep` specifies |
| `Veslemoy.Crawl` | comics/comics/veslemoy.py:18-21 | a result is always returned (from 1900 on), with a URL and no title or text |
| `Veslemoy.StripUrl` | comics/comics/veslemoy.py:19-20 | the URL is the fixed prefix, six characters of date, then `.jpg` |
| `Veslemoy.CrawlUrlShape` | comics/comics/veslemoy.py:19-21 | the URL is the fixed prefix, six digits reading day, month and year mod 100, then `.jpg` |
| `Veslemoy.DistinctDatesDistinctUrls` | comics/comics/veslemoy.py:19-20 | distinct dates less than a century apart give distinct URLs |
| `KalsCartoon.DateKeyShape` | comics/comics/kalscartoon.py:18 | the date key is eight digits reading year, zero-padded month and day |
| `KalsCartoon.Crawl` | comics/comics/kalscartoon.py:15-20 | an unreachable page is IOError; on a loaded page, ValueError iff the year is before 1900, then TypeError iff there is no image src; a returned image has the page's src as URL, contains the date key, and has no title or text |
| `KalsCartoon.CrawlAcceptsIffKeyInUrl` | comics/comics/kalscartoon.py:15-20 | an image is returned iff the date key occurs in the page's image URL; the image has that URL and no title; otherwise the implicit None |
| `KalsCartoon.CrawlReadsOnlyItsPage` | comics/comics/kalscartoon.py:16-17 | only the fixed page is consulted, whatever the date |
| `Strings.ContainsIff` | comics/comics/kalscartoon.py:19 | `sub in s` holds iff `sub` occurs at some index of `s` |
| `Strings.SplitJoin` | comics/crawler/crawlers/basicinstructions.py:11 | joining the pieces of `split('"')` gives the summary back |
| `Strings.SplitPiecesFree` | comics/crawler/crawlers/basicinstructions.py:11 | no piece of `split('"')` contains `"` |
| `BasicInstructions.FirstSrcPiece` | comics/crawler/crawlers/basicinstructions.py:12-15 | the inner loop stops at the first piece containing `src=`, or finds none |
| `BasicInstructions.SrcUrl` | comics/crawler/crawlers/basicinstructions.py:11-15 | specification of the inner loop: the piece after the first `src=` piece, no URL, or IndexError; properties in `SrcUrlFound`, `SrcUrlAbsent` and `SrcUrlIndexError` |
| `BasicInstructions.SrcUrlFound` | comics/crawler/crawlers/basicinstructions.py:11-15 | the URL is the piece right after the first `src=` piece and has no `"` |
| `BasicInstructions.SrcUrlAbsent` | comics/crawler/crawlers/basicinstructions.py:12-15 | no URL is found iff no piece contains `src=` |
| `BasicInstructions.SrcUrlIndexError` | comics/crawler/crawlers/basicinstructions.py:14 | IndexError iff the first `src=` piece is the last piece |
| `BasicInstructions.ScanNoQualifying` | comics/crawler/crawlers/basicinstructions.py:7-9 | with no entry of the date titled "How to…", title and URL stay as they were |
| `BasicInstructions.ScanLastTitleWins` | comics/crawler/crawlers/basicinstructions.py:7-10 | the loop has no break: the last qualifying entry's title wins |
| `BasicInstructions.ScanTitleKept` | comics/crawler/crawlers/basicinstructions.py:8-10 | entries that do not qualify leave the title alone |
| `BasicInstructions.Scan` | comics/crawler/crawlers/basicinstructions.py:7-15 | specification of the outer loop: every qualifying entry sets the title and, when its summary has a `src=` piece, the URL; properties in the `Scan…` lemmas |
| `BasicInstructions.ScanUrlQuoteFree` | comics/crawler/crawlers/basicinstructions.py:11-15 | the URL after the loop is the one from before or free of `"` |
| `BasicInstructions.ScanSrclessEntryKeepsUrl` | comics/crawler/crawlers/basicinstructions.py:12-15 | a qualifying entry without a `src=` piece sets the title and leaves the URL as it was |
| `BasicInstructions.ScanUrlKept` | comics/crawler/crawlers/basicinstructions.py:7-15 | when no qualifying entry has a `src=` piece, the URL after the loop is the one from before |
| `BasicInstructions.ScanLastUrlWins` | comics/crawler/crawlers/basicinstructions.py:7-15 | when the loop completes, the URL is that of the last qualifying entry with a `src=` piece |
| `Crawler.ComicCrawler.BasicInstructionsGetUrl` | comics/crawler/crawlers/basicinstructions.py:4-15 | the two nested loops leave the fields and outcome that `BasicInstructions.Scan` specifies |
| `FocusShift.LastCapture` | comics/crawler/crawlers/focusshift.py:12 | the greedy `.*` backtracks to the last position where `src="([^"]+)"` matches |
| `FocusShift.Capture` | comics/crawler/crawlers/focusshift.py:12-14 | specification of `re.match('.*src="([^"]+)".*', …).groups()[0]`; properties in `CaptureSpec` and `NoSrcNoCapture` |
| `FocusShift.CaptureSpec` | comics/crawler/crawlers/focusshift.py:12-14 | a match exists iff some `src="` starts on the first line and is followed by a non-empty run of non-quote characters (which may cross newlines) and a closing quote; the capture is that run at the last such position, non-empty and free of `"` |
| `FocusShift.NoSrcNoCapture` | comics/crawler/crawlers/focusshift.py:12-13 | a summary without `src="` gives no match |
| `FocusShift.Scan` | comics/crawler/crawlers/focusshift.py:9-15 | specification of the loop: the first entry of the date sets the title and the capture as URL, then returns; properties in `ScanFirstMatch`, `ScanUrlIsCapture` and `ScanNoMatch` |
| `FocusShift.ScanFirstMatch` | comics/crawler/crawlers/focusshift.py:9-15 | only the first entry of the date is used: its title, and its capture as the URL; AttributeError (title already set) when there is no match |
| `FocusShift.ScanNewUrlFromFirst` | comics/crawler/crawlers/focusshift.py:9-15 | a scan that returns normally with a new URL took it from the capture of the first entry of the date, every earlier entry having a readable, different date |
| `FocusShift.ScanUrlIsCapture` | comics/crawler/crawlers/focusshift.py:9-15 | the URL is the one before the loop or the capture of an entry |
| `FocusShift.ScanNoMatch` | comics/crawler/crawlers/focusshift.py:9-15 | with no entry of the date, title and URL stay unset as they were |
| `Crawler.ComicCrawler.FocusShiftGetUrl` | comics/crawler/crawlers/focusshift.py:6-15 | the loop with its early return leaves the fields and outcome that `FocusShift.Scan` specifies |

## Left out

- The Django ORM is not modelled. `Comic.objects` is a sequence of comic rows and `Release.objects` a set of (slug, date) keys. `Comic.history_capable()` is taken as a stored optional date: the model does not compute it from `history_capable_date` / `history_capable_days`.
- `ComicDownloader` is not modelled. Its outcome per strip is a parameter, and a success adds the strip's release to the store.
- The feed and page parsers are not modelled (FeedParser, LxmlParser, CSS selection, `feed.for_date`). Their answers are parameters.
- `socket.setdefaulttimeout(10)` is left out. It is process-global network configuration, and a timeout shows up as the IOError a fetch can return.
- Logging is left out. Only the level each caught exception is logged at is recorded, not the message text. Debug-level logging is left out entirely.
- `date_to_epoch` is left out. It depends on `time.mktime` and the local time zone.
- `string_to_date` and `parse_page` are left out. No modelled crawler calls them, except through the page-source parameter.
- `Strings.Lower` lowercases ASCII letters only, as Python 2 `str.lower()` does on byte strings in the C locale; non-ASCII letters in a comics.com title are kept as they are.
- `strptime` is modelled only for zero-padded `YYYY-MM-DD` text, the form `str(date)` prints. Python also accepts forms such as `2024-1-5`, which the model rejects with ValueError.
- `unicode(bytes, encoding)` is an uninterpreted `Decoder` that may fail. No codec is modelled.
- `if self.feed:` is modelled as "a feed object is cached". An empty parsed feed, which Python would treat as false, is not distinguished.
- `feed_new.raw_feed` is the only part of a FeedParser object the modelled crawlers read.
- The run (`Run`, `AggregateComic`, `Schedule` and the class methods proved against them) starts each comic at the corrected `GetFromDate`, not at the line that raises TypeError (see Findings). Only `AggregateComicAsWritten` models the start as written; every soundness and schedule lemma is about the corrected run.
- `comics.crawler.crawlers.BaseComicCrawler`, the base class of the Basic Instructions and Focus Shift crawlers, is not part of this model. It is assumed to run their `_get_url` as the crawl hook of the same `get_strip_metadata` protocol, with the same `parse_feed`, `timestamp_to_date` and URL check.
- KAL's Cartoon and Veslemøy are modelled as pure functions of the date and the web. The class API they subclass (`CrawlerBase`, `CrawlerResult`, `CrawlerImage`) is not part of this model, so they are not wired into `ComicCrawler`.
- The remaining crawler plugins are not part of this model (Wulffmorgenthaler, Subnormality, Havet, Peanuts and the rest). Peanuts only calls `crawl_helper`, which is modelled.
- The `Meta` / `ComicMeta` classes are constant metadata and are left out.
- Dates before year 1 or after 9999 do not exist in Python, so they are not modelled.
- A feed entry whose `updated_parsed` is None is not modelled. The time tuple is always a sequence.
- `ComicAggregator(optparse_options=…)` is not modelled. Its only effect is to build the configuration, which `AggregatorConfig.Setup` models.
- `stop()` is left out; it does nothing.

## Findings

| source | as written | input that shows it | evidently intended | confidence | as-written member | corrected member |
|---|---|---|---|---|---|---|
| comics/aggregator/command.py:55 | `self.config.from_date < comic.history_capable()` compares a date with None for a comic without a history limit; Python 2's `date` refuses that comparison with TypeError, which `_try_aggregate_one_comic` logs, so the comic is never crawled | a registered comic whose `history_capable()` is None, with the window from today to today | when there is no history limit, the walk starts at `from_date`, so today is crawled once and the crawler's own NotHistoryCapable check handles other dates | low: not executed, and it depends on `history_capable()` returning None, which the crawler's own checks anticipate | `Aggregator.TodayOnlyComicNeverCrawled` | `Aggregator.GetFromDate` |
