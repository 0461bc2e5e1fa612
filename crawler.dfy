/** BaseComicCrawler (comics/aggregator/crawler.py): the per-date crawl protocol, the feed
    cache, the decoding of feed text, and the crawl hooks of the crawler classes modelled
    here. The pure functions state what one call does to the crawler's fields; the methods of
    ComicCrawler update those fields in place and are proved against them. */
module Crawler {
  import opened Outcomes
  import opened Dates
  import opened Strings
  import opened Collaborators
  import opened CrawlerHelpers
  import Eon
  import BasicInstructions
  import FocusShift

  /** Which `crawl()` a crawler class runs. The Basic Instructions and Focus Shift crawlers
      override `_get_url` of an older base class, comics.crawler.crawlers.BaseComicCrawler,
      which is not part of this model; they are run here as the hook of the same per-date
      protocol. */
  datatype Hook =
    | BaseHook                      // BaseComicCrawler.crawl itself
    | EonHook                       // comics/comics/eon.py
    | ComicsComHook(title: string)  // a BaseComicsComComicCrawler calling crawl_helper(title)
    | BasicInstructionsHook         // `_get_url` of comics/crawler/crawlers/basicinstructions.py
    | FocusShiftHook                // `_get_url` of comics/crawler/crawlers/focusshift.py

  /** A crawler class: its hook and its two class attributes. */
  datatype CrawlerClass = CrawlerClass(hook: Hook, multipleReleasesPerDay: bool, checkImageMimeType: bool)

  /** A FeedParser object: the URL it was built for and its `raw_feed`. */
  datatype FeedHandle = FeedHandle(url: string, rawFeed: Feed)

  /** The instance fields of a crawler. `pub_date`, `url`, `title` and `text` are None before the
      first call assigns them; `feed` and `feed_new` start as the class attributes' None. */
  datatype CrawlerState = CrawlerState(
    pubDate: Option<Date>,
    url: Option<string>,
    title: Option<Text>,
    text: Option<Text>,
    feed: Option<Feed>,
    feedNew: Option<FeedHandle>)

  const Initial := CrawlerState(None, None, None, None, None, None)

  /** The dictionary `get_strip_metadata` returns. */
  datatype Metadata = Metadata(
    comic: Comic,
    checkImageMimeType: bool,
    pubDate: Date,
    url: string,
    title: Option<Text>,
    text: Option<Text>)

  /** A step's new fields and whether it returned or raised. */
  datatype Stepped = Stepped(state: CrawlerState, outcome: Outcome)

  /** `parse_feed`'s new fields and the handle it returns. */
  datatype Parsed = Parsed(state: CrawlerState, handle: FeedHandle)

  /** `get_strip_metadata`'s new fields and its metadata or exception. */
  datatype Fetched = Fetched(state: CrawlerState, result: Result<Metadata, Error>)

  // ---------------------------------------------------------------------------
  // _get_date_to_crawl

  /** A None date means today. */
  function Requested(date: Option<Date>, today: Date): Date
  {
    if date.None? then today else date.value
  }

  /** The date to crawl, or the first eligibility check that fails: no history capability and not
      today; before the history limit; already released (unless the class allows several
      releases a day). `releases` holds the (slug, date) pairs of the stored Release rows. */
  function DateToCrawl(comic: Comic, cls: CrawlerClass, date: Option<Date>, today: Date, releases: set<ReleaseKey>): (r: Result<Date, Error>)
    ensures r.Ok? <==>
      (comic.historyCapable.None? ==> Requested(date, today) == today)
      && (comic.historyCapable.Some? ==> !Before(Requested(date, today), comic.historyCapable.value))
      && (!cls.multipleReleasesPerDay ==> (comic.slug, Requested(date, today)) !in releases)
    ensures r.Ok? ==> r.value == Requested(date, today)
    ensures r == Err(ComicsError(NotHistoryCapable)) <==>
      comic.historyCapable.None? && Requested(date, today) != today
    ensures r == Err(ComicsError(OutsideHistoryCapabilityRange)) <==>
      comic.historyCapable.Some? && Before(Requested(date, today), comic.historyCapable.value)
    ensures r == Err(ComicsError(StripAlreadyExists(comic.slug))) <==>
      (comic.historyCapable.None? ==> Requested(date, today) == today)
      && (comic.historyCapable.Some? ==> !Before(Requested(date, today), comic.historyCapable.value))
      && !cls.multipleReleasesPerDay && (comic.slug, Requested(date, today)) in releases
  {
    var d := Requested(date, today);
    if comic.historyCapable.None? && d != today then Err(ComicsError(NotHistoryCapable))
    else if comic.historyCapable.Some? && Before(d, comic.historyCapable.value) then
      Err(ComicsError(OutsideHistoryCapabilityRange))
    else if !cls.multipleReleasesPerDay && (comic.slug, d) in releases then
      Err(ComicsError(StripAlreadyExists(comic.slug)))
    else Ok(d)
  }

  // ---------------------------------------------------------------------------
  // parse_feed

  /** `parse_feed(feed_url)`: build the feed object only when none is cached, take `feed` from
      it only when `feed` is unset, and return the cached object. */
  function ParseFeedStep(s: CrawlerState, feedUrl: string, web: Web): Parsed
  {
    var handle := if s.feedNew.None? then FeedHandle(feedUrl, web.feedAt(feedUrl)) else s.feedNew.value;
    var f := if s.feed.None? then handle.rawFeed else s.feed.value;
    Parsed(s.(feedNew := Some(handle), feed := Some(f)), handle)
  }

  /** Once both slots are filled, parse_feed changes nothing and returns the cached object,
      whatever URL it is given. */
  lemma ParseFeedCached(s: CrawlerState, feedUrl: string, web: Web)
    requires s.feedNew.Some? && s.feed.Some?
    ensures ParseFeedStep(s, feedUrl, web) == Parsed(s, s.feedNew.value)
  {
  }

  /** The feed object is built at most once: the first call fetches the given URL (when nothing
      was cached), fills both slots, and every later call returns the same object unchanged. */
  lemma ParseFeedBuildsOnce(s: CrawlerState, u1: string, w1: Web, u2: string, w2: Web)
    ensures var p := ParseFeedStep(s, u1, w1);
      p.state.feedNew == Some(p.handle) && p.state.feed.Some?
      && (s.feedNew.None? ==> p.handle == FeedHandle(u1, w1.feedAt(u1)))
      && (s.feedNew.None? && s.feed.None? ==> p.state.feed == Some(w1.feedAt(u1)))
      && ParseFeedStep(p.state, u2, w2) == p
      && p.state == s.(feed := p.state.feed, feedNew := p.state.feedNew)
  {
    var p := ParseFeedStep(s, u1, w1);
    ParseFeedCached(p.state, u2, w2);
  }

  // ---------------------------------------------------------------------------
  // The crawl hooks

  /** eon.py: assign the date-built URL. */
  function EonStep(s: CrawlerState): Stepped
    requires s.pubDate.Some? && Valid(s.pubDate.value)
  {
    var u := Eon.StripUrl(s.pubDate.value);
    if u.Err? then Stepped(s, Raised(u.error)) else Stepped(s.(url := Some(u.value)), Done)
  }

  /** `crawl_helper(title)`: load the comics.com page of the date, and take the src of the strip
      image whose alt text starts with the title. */
  function ComicsComStep(comicsComTitle: string, s: CrawlerState, web: Web): Stepped
    requires s.pubDate.Some? && Valid(s.pubDate.value)
  {
    var pageUrl := ComicsComPageUrl(comicsComTitle, s.pubDate.value);
    if pageUrl.Err? then Stepped(s, Raised(pageUrl.error))
    else
      var page := web.pageSrc(pageUrl.value, ComicsComSelector(comicsComTitle));
      if page.PageUnreachable? then Stepped(s, Raised(IOError))
      else Stepped(s.(url := page.src), Done)
  }

  /** `_get_url` of basicinstructions.py, run as the crawl hook: parse the feed, then scan its entries. */
  function BasicInstructionsStep(s: CrawlerState, web: Web): Stepped
    requires s.pubDate.Some?
  {
    var s1 := ParseFeedStep(s, BasicInstructions.FeedUrl, web).state;
    var sc := BasicInstructions.Scan(s1.feed.value.entries, s1.pubDate.value, Fields(s1.title, s1.url));
    Stepped(s1.(title := sc.fields.title, url := sc.fields.url), sc.outcome)
  }

  /** `_get_url` of focusshift.py, run as the crawl hook: parse the feed, then scan its entries. */
  function FocusShiftStep(s: CrawlerState, web: Web): Stepped
    requires s.pubDate.Some?
  {
    var s1 := ParseFeedStep(s, FocusShift.FeedUrl, web).state;
    var sc := FocusShift.Scan(s1.feed.value.entries, s1.pubDate.value, Fields(s1.title, s1.url));
    Stepped(s1.(title := sc.fields.title, url := sc.fields.url), sc.outcome)
  }

  /** `self.crawl()` for the crawler class's hook. */
  function CrawlHookStep(hook: Hook, s: CrawlerState, web: Web): Stepped
    requires s.pubDate.Some? && Valid(s.pubDate.value)
  {
    match hook
    case BaseHook => Stepped(s, Raised(OtherError(NotImplementedError)))
    case EonHook => EonStep(s)
    case ComicsComHook(t) => ComicsComStep(t, s, web)
    case BasicInstructionsHook => BasicInstructionsStep(s, web)
    case FocusShiftHook => FocusShiftStep(s, web)
  }

  // ---------------------------------------------------------------------------
  // _check_strip_url and _decode_feed_data

  /** `_check_strip_url`: a missing or empty URL raises StripURLNotFound. */
  function UrlCheck(slug: string, url: Option<string>): (o: Outcome)
    ensures o == Done <==> url.Some? && url.value != ""
    ensures o.Raised? ==> o.error == ComicsError(StripURLNotFound(slug))
  {
    if url.None? || url.value == "" then Raised(ComicsError(StripURLNotFound(slug))) else Done
  }

  /** Whether `_decode_feed_data` decodes with this feed encoding: set, and not 'utf-8'. */
  predicate DecodesWith(encoding: Option<string>)
  {
    encoding.Some? && encoding.value != "" && encoding.value != "utf-8"
  }

  /** Whether a title or text value gets decoded: a non-empty byte string. */
  predicate NeedsDecoding(v: Option<Text>)
  {
    v.Some? && v.value.chars != "" && !v.value.unicode
  }

  /** `unicode(value, encoding)` when the value needs it; UnicodeDecodeError when that fails. */
  function DecodeText(v: Option<Text>, encoding: string, decode: Decoder): Result<Option<Text>, Error>
  {
    if NeedsDecoding(v) then
      var c := decode(v.value.chars, encoding);
      if c.None? then Err(OtherError(UnicodeDecodeError)) else Ok(Some(Text(true, c.value)))
    else Ok(v)
  }

  /** `_decode_feed_data`: decode the title, then the text, from the feed's encoding. */
  function DecodeStep(s: CrawlerState, decode: Decoder): Stepped
    requires s.feed.Some?
  {
    var enc := s.feed.value.encoding;
    if !DecodesWith(enc) then Stepped(s, Done)
    else
      var t := DecodeText(s.title, enc.value, decode);
      if t.Err? then Stepped(s, Raised(t.error))
      else
        var s1 := s.(title := t.value);
        var x := DecodeText(s1.text, enc.value, decode);
        if x.Err? then Stepped(s1, Raised(x.error)) else Stepped(s1.(text := x.value), Done)
  }

  /** Decoding touches only title and text, and changes each only when the feed encoding is set
      and not 'utf-8' and the value is a non-empty byte string; a changed value is unicode. */
  lemma DecodeChangesOnlyWhatNeedsIt(s: CrawlerState, decode: Decoder)
    requires s.feed.Some?
    ensures var r := DecodeStep(s, decode).state;
      r == s.(title := r.title, text := r.text)
      && (r.title != s.title ==> DecodesWith(s.feed.value.encoding) && NeedsDecoding(s.title) && r.title.value.unicode)
      && (r.text != s.text ==> DecodesWith(s.feed.value.encoding) && NeedsDecoding(s.text) && r.text.value.unicode)
    ensures !DecodesWith(s.feed.value.encoding) ==> DecodeStep(s, decode) == Stepped(s, Done)
    ensures DecodeStep(s, decode).outcome.Raised? ==>
      DecodeStep(s, decode).outcome.error == OtherError(UnicodeDecodeError)
  {
  }

  /** With a declared encoding other than 'utf-8', a non-empty byte-string title is replaced by
      its decoding as unicode (or the call raises UnicodeDecodeError and changes nothing); then
      the text is treated the same way. */
  lemma DecodeConverts(s: CrawlerState, decode: Decoder)
    requires s.feed.Some? && DecodesWith(s.feed.value.encoding)
    ensures var enc := s.feed.value.encoding.value; var r := DecodeStep(s, decode);
      (NeedsDecoding(s.title) && decode(s.title.value.chars, enc).None? ==>
         r == Stepped(s, Raised(OtherError(UnicodeDecodeError))))
      && (NeedsDecoding(s.title) && decode(s.title.value.chars, enc).Some? ==>
         r.state.title == Some(Text(true, decode(s.title.value.chars, enc).value)))
      && (r.state.title != s.title || !NeedsDecoding(s.title) ==>
           (NeedsDecoding(s.text) && decode(s.text.value.chars, enc).Some? ==>
              r == Stepped(s.(title := r.state.title, text := Some(Text(true, decode(s.text.value.chars, enc).value))), Done))
           && (NeedsDecoding(s.text) && decode(s.text.value.chars, enc).None? ==>
              r == Stepped(s.(title := r.state.title), Raised(OtherError(UnicodeDecodeError))))
           && (!NeedsDecoding(s.text) ==> r == Stepped(s.(title := r.state.title), Done)))
  {
  }

  /** Decoding twice is decoding once: decoded values are unicode and are left alone. */
  lemma DecodeIdempotent(s: CrawlerState, decode: Decoder)
    requires s.feed.Some? && DecodeStep(s, decode).outcome == Done
    ensures DecodeStep(DecodeStep(s, decode).state, decode) == DecodeStep(s, decode)
  {
  }

  // ---------------------------------------------------------------------------
  // get_strip_metadata

  function Collect(comic: Comic, cls: CrawlerClass, s: CrawlerState): Metadata
    requires s.pubDate.Some? && s.url.Some?
  {
    Metadata(comic, cls.checkImageMimeType, s.pubDate.value, s.url.value, s.title, s.text)
  }

  /** `get_strip_metadata(date)`: choose the date, reset url/title/text, run the hook, check the
      URL, decode when a feed was used, and collect the metadata. */
  function StripMetadataStep(comic: Comic, cls: CrawlerClass, s: CrawlerState, date: Option<Date>,
                             today: Date, releases: set<ReleaseKey>, web: Web, decode: Decoder): Fetched
    requires Valid(today) && (date.Some? ==> Valid(date.value))
  {
    var d := DateToCrawl(comic, cls, date, today, releases);
    if d.Err? then Fetched(s, Err(d.error))
    else
      var s1 := s.(pubDate := Some(d.value), url := None, title := None, text := None);
      var h := CrawlHookStep(cls.hook, s1, web);
      var s2 := h.state;
      if h.outcome.Raised? then Fetched(s2, Err(h.outcome.error))
      else if UrlCheck(comic.slug, s2.url).Raised? then Fetched(s2, Err(UrlCheck(comic.slug, s2.url).error))
      else if s2.feed.None? then Fetched(s2, Ok(Collect(comic, cls, s2)))
      else
        var x := DecodeStep(s2, decode);
        if x.outcome.Raised? then Fetched(x.state, Err(x.outcome.error))
        else Fetched(x.state, Ok(Collect(comic, cls, x.state)))
  }

  /** The hooks keep pub_date and never drop a cached feed. */
  lemma HookKeepsDateAndFeed(hook: Hook, s: CrawlerState, web: Web)
    requires s.pubDate.Some? && Valid(s.pubDate.value)
    ensures CrawlHookStep(hook, s, web).state.pubDate == s.pubDate
    ensures CrawlHookStep(hook, s, web).state.text == s.text
    ensures s.feed.Some? ==> CrawlHookStep(hook, s, web).state.feed == s.feed
    ensures s.feedNew.Some? ==> CrawlHookStep(hook, s, web).state.feedNew == s.feedNew
  {
  }

  /** When an eligibility check fails, the crawler is left exactly as it was and the web and the
      decoder are never consulted: `crawl()` is not invoked. */
  lemma IneligibleSkipsCrawl(comic: Comic, cls: CrawlerClass, s: CrawlerState, date: Option<Date>,
                             today: Date, releases: set<ReleaseKey>, w1: Web, d1: Decoder, w2: Web, d2: Decoder)
    requires Valid(today) && (date.Some? ==> Valid(date.value))
    requires DateToCrawl(comic, cls, date, today, releases).Err?
    ensures StripMetadataStep(comic, cls, s, date, today, releases, w1, d1)
         == Fetched(s, Err(DateToCrawl(comic, cls, date, today, releases).error))
    ensures StripMetadataStep(comic, cls, s, date, today, releases, w1, d1)
         == StripMetadataStep(comic, cls, s, date, today, releases, w2, d2)
  {
  }

  /** Nothing leaks from an earlier date: two crawlers that differ only in pub_date, url, title
      and text end up identical and return the same thing. */
  lemma NoLeakAcrossDates(comic: Comic, cls: CrawlerClass, s1: CrawlerState, s2: CrawlerState, date: Option<Date>,
                          today: Date, releases: set<ReleaseKey>, web: Web, decode: Decoder)
    requires Valid(today) && (date.Some? ==> Valid(date.value))
    requires DateToCrawl(comic, cls, date, today, releases).Ok?
    requires s1.feed == s2.feed && s1.feedNew == s2.feedNew
    ensures StripMetadataStep(comic, cls, s1, date, today, releases, web, decode)
         == StripMetadataStep(comic, cls, s2, date, today, releases, web, decode)
  {
    var d := DateToCrawl(comic, cls, date, today, releases).value;
    assert s1.(pubDate := Some(d), url := None, title := None, text := None)
        == s2.(pubDate := Some(d), url := None, title := None, text := None);
  }

  /** Returned metadata carries the eligible requested date, a non-empty URL, the crawler's
      title and text as left by the call, the crawler's comic and the class's MIME check flag. */
  lemma StripMetadataOk(comic: Comic, cls: CrawlerClass, s: CrawlerState, date: Option<Date>,
                        today: Date, releases: set<ReleaseKey>, web: Web, decode: Decoder)
    requires Valid(today) && (date.Some? ==> Valid(date.value))
    requires StripMetadataStep(comic, cls, s, date, today, releases, web, decode).result.Ok?
    ensures var f := StripMetadataStep(comic, cls, s, date, today, releases, web, decode);
      DateToCrawl(comic, cls, date, today, releases) == Ok(f.result.value.pubDate)
      && f.result.value.pubDate == Requested(date, today)
      && f.result.value.url != ""
      && f.result.value.comic == comic
      && f.result.value.checkImageMimeType == cls.checkImageMimeType
      && f.state.pubDate == Some(f.result.value.pubDate) && f.state.url == Some(f.result.value.url)
      && f.state.title == f.result.value.title && f.state.text == f.result.value.text
  {
    var d := DateToCrawl(comic, cls, date, today, releases).value;
    var s1 := s.(pubDate := Some(d), url := None, title := None, text := None);
    HookKeepsDateAndFeed(cls.hook, s1, web);
    var s2 := CrawlHookStep(cls.hook, s1, web).state;
    if s2.feed.Some? {
      DecodeChangesOnlyWhatNeedsIt(s2, decode);
    }
  }

  /** A hook that returns without a URL, or with an empty one, makes the call raise
      StripURLNotFound and return no metadata. */
  lemma MissingUrlRaises(comic: Comic, cls: CrawlerClass, s: CrawlerState, date: Option<Date>,
                         today: Date, releases: set<ReleaseKey>, web: Web, decode: Decoder)
    requires Valid(today) && (date.Some? ==> Valid(date.value))
    requires DateToCrawl(comic, cls, date, today, releases).Ok?
    requires var s1 := s.(pubDate := Some(DateToCrawl(comic, cls, date, today, releases).value),
                          url := None, title := None, text := None);
      CrawlHookStep(cls.hook, s1, web).outcome == Done
      && (CrawlHookStep(cls.hook, s1, web).state.url.None? || CrawlHookStep(cls.hook, s1, web).state.url.value == "")
    ensures StripMetadataStep(comic, cls, s, date, today, releases, web, decode).result
         == Err(ComicsError(StripURLNotFound(comic.slug)))
  {
  }

  /** The crawler's feed cache survives every call: a filled slot keeps its value. */
  lemma StripMetadataKeepsFeedCache(comic: Comic, cls: CrawlerClass, s: CrawlerState, date: Option<Date>,
                                    today: Date, releases: set<ReleaseKey>, web: Web, decode: Decoder)
    requires Valid(today) && (date.Some? ==> Valid(date.value))
    ensures var f := StripMetadataStep(comic, cls, s, date, today, releases, web, decode);
      (s.feed.Some? ==> f.state.feed == s.feed) && (s.feedNew.Some? ==> f.state.feedNew == s.feedNew)
  {
    var d := DateToCrawl(comic, cls, date, today, releases);
    if d.Ok? {
      var s1 := s.(pubDate := Some(d.value), url := None, title := None, text := None);
      HookKeepsDateAndFeed(cls.hook, s1, web);
      var s2 := CrawlHookStep(cls.hook, s1, web).state;
      if s2.feed.Some? {
        DecodeChangesOnlyWhatNeedsIt(s2, decode);
      }
    }
  }

  /** EON never fails the URL check: for an eligible date from 1900 on, with no feed in use, the
      metadata carries the date-built URL and neither title nor text. */
  lemma EonAlwaysFindsUrl(comic: Comic, cls: CrawlerClass, s: CrawlerState, date: Option<Date>,
                          today: Date, releases: set<ReleaseKey>, web: Web, decode: Decoder)
    requires Valid(today) && (date.Some? ==> Valid(date.value))
    requires cls.hook == EonHook && s.feed.None?
    requires DateToCrawl(comic, cls, date, today, releases).Ok? && StrftimeSupported(Requested(date, today))
    ensures var f := StripMetadataStep(comic, cls, s, date, today, releases, web, decode);
      f.result.Ok?
      && f.result.value.url == Eon.StripUrl(Requested(date, today)).value
      && f.result.value.title.None? && f.result.value.text.None?
  {
    Eon.StripUrlShape(Requested(date, today));
  }

  /** A Basic Instructions URL never contains `"`: every URL the scan assigns is a split piece. */
  lemma BasicInstructionsUrlQuoteFree(comic: Comic, cls: CrawlerClass, s: CrawlerState, date: Option<Date>,
                                      today: Date, releases: set<ReleaseKey>, web: Web, decode: Decoder)
    requires Valid(today) && (date.Some? ==> Valid(date.value))
    requires cls.hook == BasicInstructionsHook
    requires StripMetadataStep(comic, cls, s, date, today, releases, web, decode).result.Ok?
    ensures '"' !in StripMetadataStep(comic, cls, s, date, today, releases, web, decode).result.value.url
  {
    var d := DateToCrawl(comic, cls, date, today, releases).value;
    var s1 := s.(pubDate := Some(d), url := None, title := None, text := None);
    var p := ParseFeedStep(s1, BasicInstructions.FeedUrl, web).state;
    BasicInstructions.ScanUrlQuoteFree(p.feed.value.entries, d, Fields(p.title, p.url));
    StripMetadataOk(comic, cls, s, date, today, releases, web, decode);
    var s2 := CrawlHookStep(cls.hook, s1, web).state;
    if s2.feed.Some? {
      DecodeChangesOnlyWhatNeedsIt(s2, decode);
    }
  }

  /** A Focus Shift URL is the non-empty, quote-free group captured from the summary of the
      first entry of the crawled date in the feed the crawler read. */
  lemma FocusShiftUrlIsCapture(comic: Comic, cls: CrawlerClass, s: CrawlerState, date: Option<Date>,
                               today: Date, releases: set<ReleaseKey>, web: Web, decode: Decoder)
    requires Valid(today) && (date.Some? ==> Valid(date.value))
    requires cls.hook == FocusShiftHook
    requires StripMetadataStep(comic, cls, s, date, today, releases, web, decode).result.Ok?
    ensures var u := StripMetadataStep(comic, cls, s, date, today, releases, web, decode).result.value.url;
      var d := Requested(date, today);
      var p := ParseFeedStep(s.(pubDate := Some(d), url := None, title := None, text := None), FocusShift.FeedUrl, web).state;
      '"' !in u && u != "" && p.feed.Some?
      && exists k :: FocusShift.FirstOfDate(p.feed.value.entries, d, k)
                  && FocusShift.Capture(p.feed.value.entries[k].summary) == Some(u)
  {
    var d := DateToCrawl(comic, cls, date, today, releases).value;
    var s1 := s.(pubDate := Some(d), url := None, title := None, text := None);
    var p := ParseFeedStep(s1, FocusShift.FeedUrl, web).state;
    StripMetadataOk(comic, cls, s, date, today, releases, web, decode);
    var s2 := CrawlHookStep(cls.hook, s1, web).state;
    if s2.feed.Some? {
      DecodeChangesOnlyWhatNeedsIt(s2, decode);
    }
    var entries := p.feed.value.entries;
    FocusShift.ScanNewUrlFromFirst(entries, d, Fields(p.title, p.url));
    var u := StripMetadataStep(comic, cls, s, date, today, releases, web, decode).result.value.url;
    var k :| FocusShift.FirstOfDate(entries, d, k) && Some(u) == FocusShift.Capture(entries[k].summary);
    FocusShift.CaptureSpec(entries[k].summary);
  }

  // ---------------------------------------------------------------------------
  // The crawler object

  /** A crawler instance for one comic: `module.ComicCrawler(comic)`. */
  class ComicCrawler {
    const comic: Comic
    const cls: CrawlerClass
    var pubDate: Option<Date>
    var url: Option<string>
    var title: Option<Text>
    var text: Option<Text>
    var feed: Option<Feed>
    var feedNew: Option<FeedHandle>

    function State(): CrawlerState
      reads this
    {
      CrawlerState(pubDate, url, title, text, feed, feedNew)
    }

    constructor(comic: Comic, cls: CrawlerClass)
      ensures this.comic == comic && this.cls == cls && State() == Initial
    {
      this.comic := comic;
      this.cls := cls;
      pubDate, url, title, text, feed, feedNew := None, None, None, None, None, None;
    }

    /** `get_strip_metadata(pub_date)` */
    method GetStripMetadata(date: Option<Date>, today: Date, releases: set<ReleaseKey>, web: Web, decode: Decoder)
      returns (r: Result<Metadata, Error>)
      requires Valid(today) && (date.Some? ==> Valid(date.value))
      modifies this
      ensures Fetched(State(), r) == StripMetadataStep(comic, cls, old(State()), date, today, releases, web, decode)
    {
      var d := DateToCrawl(comic, cls, date, today, releases);
      if d.Err? {
        return Err(d.error);
      }
      pubDate := Some(d.value);
      url := None;
      title := None;
      text := None;
      var o := Crawl(web);
      if o.Raised? {
        return Err(o.error);
      }
      o := CheckStripUrl();
      if o.Raised? {
        return Err(o.error);
      }
      if feed.Some? {
        o := DecodeFeedData(decode);
        if o.Raised? {
          return Err(o.error);
        }
      }
      return Ok(Metadata(comic, cls.checkImageMimeType, pubDate.value, url.value, title, text));
    }

    /** `_check_strip_url` */
    function CheckStripUrl(): (o: Outcome)
      reads this
      ensures o == Done <==> url.Some? && url.value != ""
      ensures o.Raised? ==> o.error == ComicsError(StripURLNotFound(comic.slug))
    {
      UrlCheck(comic.slug, url)
    }

    /** `_decode_feed_data` */
    method DecodeFeedData(decode: Decoder) returns (o: Outcome)
      requires feed.Some?
      modifies this
      ensures Stepped(State(), o) == DecodeStep(old(State()), decode)
    {
      var enc := feed.value.encoding;
      if DecodesWith(enc) {
        if NeedsDecoding(title) {
          var c := decode(title.value.chars, enc.value);
          if c.None? {
            return Raised(OtherError(UnicodeDecodeError));
          }
          title := Some(Text(true, c.value));
        }
        if NeedsDecoding(text) {
          var c := decode(text.value.chars, enc.value);
          if c.None? {
            return Raised(OtherError(UnicodeDecodeError));
          }
          text := Some(Text(true, c.value));
        }
      }
      return Done;
    }

    /** `crawl()`, dispatched on the crawler class. */
    method Crawl(web: Web) returns (o: Outcome)
      requires pubDate.Some? && Valid(pubDate.value)
      modifies this
      ensures Stepped(State(), o) == CrawlHookStep(cls.hook, old(State()), web)
    {
      match cls.hook
      case BaseHook => o := Raised(OtherError(NotImplementedError));
      case EonHook => o := EonCrawl();
      case ComicsComHook(t) => o := CrawlHelper(t, web);
      case BasicInstructionsHook => o := BasicInstructionsGetUrl(web);
      case FocusShiftHook => o := FocusShiftGetUrl(web);
    }

    /** `parse_feed(feed_url)` */
    method ParseFeed(feedUrl: string, web: Web) returns (h: FeedHandle)
      modifies this
      ensures Parsed(State(), h) == ParseFeedStep(old(State()), feedUrl, web)
    {
      if feedNew.None? {
        feedNew := Some(FeedHandle(feedUrl, web.feedAt(feedUrl)));
      }
      if feed.None? {
        feed := Some(feedNew.value.rawFeed);
      }
      return feedNew.value;
    }

    /** eon.py's `crawl` */
    method EonCrawl() returns (o: Outcome)
      requires pubDate.Some? && Valid(pubDate.value)
      modifies this
      ensures Stepped(State(), o) == EonStep(old(State()))
    {
      var u := Eon.StripUrl(pubDate.value);
      if u.Err? {
        return Raised(u.error);
      }
      url := Some(u.value);
      return Done;
    }

    /** BaseComicsComComicCrawler.crawl_helper */
    method CrawlHelper(comicsComTitle: string, web: Web) returns (o: Outcome)
      requires pubDate.Some? && Valid(pubDate.value)
      modifies this
      ensures Stepped(State(), o) == ComicsComStep(comicsComTitle, old(State()), web)
    {
      var pageUrl := ComicsComPageUrl(comicsComTitle, pubDate.value);
      if pageUrl.Err? {
        return Raised(pageUrl.error);
      }
      var page := web.pageSrc(pageUrl.value, ComicsComSelector(comicsComTitle));
      if page.PageUnreachable? {
        return Raised(IOError);
      }
      url := page.src;
      return Done;
    }

    /** basicinstructions.py's `_get_url` */
    method BasicInstructionsGetUrl(web: Web) returns (o: Outcome)
      requires pubDate.Some?
      modifies this
      ensures Stepped(State(), o) == BasicInstructionsStep(old(State()), web)
    {
      var _ := ParseFeed(BasicInstructions.FeedUrl, web);
      ghost var s1 := State();
      var entries := feed.value.entries;
      var d := pubDate.value;
      ghost var goal := BasicInstructions.Scan(entries, d, Fields(title, url));
      var i := 0;
      while i < |entries|
        invariant 0 <= i <= |entries|
        invariant State() == s1.(title := title, url := url)
        invariant BasicInstructions.Scan(entries[i..], d, Fields(title, url)) == goal
      {
        var e := entries[i];
        assert entries[i..][0] == e && entries[i..][1..] == entries[i + 1..];
        var ed := TimestampToDate(e.updatedParsed);
        if ed.Err? {
          return Raised(ed.error);
        }
        if ed.value == d && StartsWith(e.title.chars, BasicInstructions.TitlePrefix) {
          title := Some(e.title);
          var pieces := Split(e.summary, '"');
          var j := 0;
          while j < |pieces|
            invariant 0 <= j <= |pieces|
            invariant BasicInstructions.FirstSrcPiece(pieces, j) == BasicInstructions.FirstSrcPiece(pieces, 0)
          {
            if Contains(pieces[j], BasicInstructions.SrcMarker) {
              if j + 1 == |pieces| {
                return Raised(OtherError(IndexError));
              }
              url := Some(pieces[j + 1]);
              break;
            }
            j := j + 1;
          }
        }
        i := i + 1;
      }
      return Done;
    }

    /** focusshift.py's `_get_url` */
    method FocusShiftGetUrl(web: Web) returns (o: Outcome)
      requires pubDate.Some?
      modifies this
      ensures Stepped(State(), o) == FocusShiftStep(old(State()), web)
    {
      var _ := ParseFeed(FocusShift.FeedUrl, web);
      ghost var s1 := State();
      var entries := feed.value.entries;
      var d := pubDate.value;
      ghost var goal := FocusShift.Scan(entries, d, Fields(title, url));
      var i := 0;
      while i < |entries|
        invariant 0 <= i <= |entries|
        invariant State() == s1
        invariant FocusShift.Scan(entries[i..], d, Fields(title, url)) == goal
      {
        var e := entries[i];
        assert entries[i..][0] == e && entries[i..][1..] == entries[i + 1..];
        var ed := TimestampToDate(e.updatedParsed);
        if ed.Err? {
          return Raised(ed.error);
        }
        if ed.value == d {
          title := Some(e.title);
          var m := FocusShift.Capture(e.summary);
          if m.None? {
            return Raised(OtherError(AttributeError));
          }
          url := m;
          return Done;
        }
        i := i + 1;
      }
      return Done;
    }
  }
}
