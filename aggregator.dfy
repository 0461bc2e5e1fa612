/** ComicAggregatorConfig and ComicAggregator (comics/aggregator/command.py): which comics and
    dates to crawl, and the run that walks every comic through its dates, crawling each date
    and handing each strip found to the downloader, with every failure caught and logged.

    The comic table, the crawler registry, the web, the decoder, the downloader and `today`
    come from outside; the release store is a set of (slug, date) keys that grows when a
    download succeeds. What the logger receives is kept as records with their log level. */
module Aggregator {
  import opened Outcomes
  import opened Dates
  import opened Collaborators
  import opened Crawler

  // ---------------------------------------------------------------------------
  // ComicAggregatorConfig: choosing the comics

  /** `Comic.objects.filter(slug=slug)` over the comic table. */
  function Matches(all: seq<Comic>, slug: string): seq<Comic>
    decreases |all|
  {
    if all == [] then []
    else (if all[0].slug == slug then [all[0]] else []) + Matches(all[1..], slug)
  }

  /** The filter keeps exactly the rows with the slug. */
  lemma {:induction false} MatchesSpec(all: seq<Comic>, slug: string)
    ensures forall c :: c in Matches(all, slug) <==> c in all && c.slug == slug
    decreases |all|
  {
    if all != [] {
      MatchesSpec(all[1..], slug);
      assert forall c :: c in all <==> c == all[0] || c in all[1..];
    }
  }

  /** `_get_comic_by_slug`: the comic with that slug. A slug no row has raises a ComicsError
      naming it; a slug several rows share lets `MultipleObjectsReturned` escape. */
  function ComicBySlug(all: seq<Comic>, slug: string): (r: Result<Comic, Error>)
    ensures r.Ok? <==> |Matches(all, slug)| == 1
    ensures r.Err? ==> r.error == ComicsError(ComicNotFound(slug)) || r.error == OtherError(MultipleObjectsReturned)
  {
    var m := Matches(all, slug);
    if |m| == 0 then Err(ComicsError(ComicNotFound(slug)))
    else if |m| == 1 then Ok(m[0])
    else Err(OtherError(MultipleObjectsReturned))
  }

  /** The comic found is a row of the table with that slug; the ComicsError is raised exactly
      when no row has the slug. */
  lemma ComicBySlugSpec(all: seq<Comic>, slug: string)
    ensures ComicBySlug(all, slug).Ok? ==> ComicBySlug(all, slug).value in all && ComicBySlug(all, slug).value.slug == slug
    ensures ComicBySlug(all, slug) == Err(ComicsError(ComicNotFound(slug))) <==> forall c :: c in all ==> c.slug != slug
  {
    MatchesSpec(all, slug);
    var m := Matches(all, slug);
    if |m| > 0 {
      assert m[0] in m;
    }
  }

  /** The loop of `set_comics_to_crawl`: the comic of each slug, in order, stopping at the first
      slug that does not resolve. */
  function ResolveSlugs(all: seq<Comic>, slugs: seq<string>): Result<seq<Comic>, Error>
    decreases |slugs|
  {
    if slugs == [] then Ok([])
    else
      var prefix := ResolveSlugs(all, slugs[..|slugs| - 1]);
      if prefix.Err? then prefix
      else
        var c := ComicBySlug(all, slugs[|slugs| - 1]);
        if c.Err? then Err(c.error) else Ok(prefix.value + [c.value])
  }

  /** The comics `set_comics_to_crawl` selects: all of them for None or an empty list. */
  function Selected(slugs: Option<seq<string>>, all: seq<Comic>): Result<seq<Comic>, Error>
  {
    if slugs.None? || |slugs.value| == 0 then Ok(all) else ResolveSlugs(all, slugs.value)
  }

  /** Resolution succeeds exactly when every slug resolves, and then lists the comic of each
      slug in the slugs' order. */
  lemma {:induction false} ResolveSlugsOk(all: seq<Comic>, slugs: seq<string>)
    ensures ResolveSlugs(all, slugs).Ok? <==> forall k :: 0 <= k < |slugs| ==> ComicBySlug(all, slugs[k]).Ok?
    ensures ResolveSlugs(all, slugs).Ok? ==>
      |ResolveSlugs(all, slugs).value| == |slugs|
      && forall k :: 0 <= k < |slugs| ==> ResolveSlugs(all, slugs).value[k] == ComicBySlug(all, slugs[k]).value
    decreases |slugs|
  {
    if slugs != [] {
      var n := |slugs| - 1;
      var init := slugs[..n];
      ResolveSlugsOk(all, init);
      assert forall k :: 0 <= k < n ==> init[k] == slugs[k];
    }
  }

  /** A failed resolution is the failure of the first slug that does not resolve. */
  lemma {:induction false} ResolveSlugsFirstError(all: seq<Comic>, slugs: seq<string>)
    requires ResolveSlugs(all, slugs).Err?
    ensures exists k :: 0 <= k < |slugs| && ComicBySlug(all, slugs[k]).Err?
                        && ResolveSlugs(all, slugs).error == ComicBySlug(all, slugs[k]).error
                        && forall j :: 0 <= j < k ==> ComicBySlug(all, slugs[j]).Ok?
    decreases |slugs|
  {
    var n := |slugs| - 1;
    var init := slugs[..n];
    assert forall k :: 0 <= k < n ==> init[k] == slugs[k];
    if ResolveSlugs(all, init).Err? {
      ResolveSlugsFirstError(all, init);
      var k :| 0 <= k < n && ComicBySlug(all, init[k]).Err?
               && ResolveSlugs(all, init).error == ComicBySlug(all, init[k]).error
               && forall j :: 0 <= j < k ==> ComicBySlug(all, init[j]).Ok?;
      assert ComicBySlug(all, slugs[k]).Err?;
    } else {
      ResolveSlugsOk(all, init);
      assert ComicBySlug(all, slugs[n]).Err?;
    }
  }

  /** Once a prefix of the slugs fails to resolve, the whole list fails the same way. */
  lemma {:induction false} ResolveSlugsStops(all: seq<Comic>, slugs: seq<string>, i: int)
    requires 0 <= i <= |slugs| && ResolveSlugs(all, slugs[..i]).Err?
    ensures ResolveSlugs(all, slugs) == ResolveSlugs(all, slugs[..i])
    decreases |slugs| - i
  {
    if i < |slugs| {
      assert slugs[..i + 1][..i] == slugs[..i];
      ResolveSlugsStops(all, slugs, i + 1);
    } else {
      assert slugs[..i] == slugs;
    }
  }

  // ---------------------------------------------------------------------------
  // ComicAggregatorConfig: the date window

  /** `_set_from_date` / `_set_to_date`: an unsupplied date keeps the current value; a supplied
      one is parsed as `%Y-%m-%d`. */
  function ParseOptionalDate(arg: Option<string>, current: Date): Result<Date, Error>
  {
    if arg.None? then Ok(current) else ParseIso(arg.value)
  }

  /** The window after `set_date_interval`, and whether it returned or raised. */
  datatype Interval = Interval(from: Date, to: Date, outcome: Outcome)

  /** `set_date_interval`: set from, then to, then validate. A failed parse leaves what was
      already set. */
  function DateIntervalStep(from0: Date, to0: Date, fromArg: Option<string>, toArg: Option<string>): Interval
  {
    var f := ParseOptionalDate(fromArg, from0);
    if f.Err? then Interval(from0, to0, Raised(f.error))
    else
      var t := ParseOptionalDate(toArg, to0);
      if t.Err? then Interval(f.value, to0, Raised(t.error))
      else if Before(t.value, f.value) then Interval(f.value, t.value, Raised(ComicsError(InvalidDateRange)))
      else Interval(f.value, t.value, Done)
  }

  /** The window is accepted exactly when both dates parse (or are left at their defaults) and
      from is not after to; unsupplied ends keep their values, supplied ones are the parsed
      dates, whose `%Y-%m-%d` rendering is the argument itself; a bad string is a ValueError
      and an inverted window an InvalidDateRange ComicsError. */
  lemma DateIntervalSpec(from0: Date, to0: Date, fromArg: Option<string>, toArg: Option<string>)
    requires Valid(from0) && Valid(to0)
    ensures var r := DateIntervalStep(from0, to0, fromArg, toArg);
      Valid(r.from) && Valid(r.to)
      && (r.outcome == Done <==>
            ParseOptionalDate(fromArg, from0).Ok? && ParseOptionalDate(toArg, to0).Ok?
            && NotAfter(ParseOptionalDate(fromArg, from0).value, ParseOptionalDate(toArg, to0).value))
      && (r.outcome == Done ==> NotAfter(r.from, r.to))
      && (r.outcome == Done && fromArg.None? ==> r.from == from0)
      && (r.outcome == Done && toArg.None? ==> r.to == to0)
      && (r.outcome == Done && fromArg.Some? ==> FormatIso(r.from) == fromArg.value)
      && (r.outcome == Done && toArg.Some? ==> FormatIso(r.to) == toArg.value)
      && (r.outcome == Raised(ComicsError(InvalidDateRange)) <==>
            ParseOptionalDate(fromArg, from0).Ok? && ParseOptionalDate(toArg, to0).Ok?
            && Before(ParseOptionalDate(toArg, to0).value, ParseOptionalDate(fromArg, from0).value))
      && (r.outcome.Raised? && r.outcome.error != ComicsError(InvalidDateRange) ==> r.outcome.error == OtherError(ValueError))
  {
    var f := ParseOptionalDate(fromArg, from0);
    var t := ParseOptionalDate(toArg, to0);
    if fromArg.Some? && f.Ok? {
      FormatParseIso(fromArg.value);
    }
    if toArg.Some? && t.Ok? {
      FormatParseIso(toArg.value);
    }
  }

  /** The options `setup` reads. */
  datatype Options = Options(comicSlugs: Option<seq<string>>, fromDate: Option<string>, toDate: Option<string>)

  class AggregatorConfig {
    var comics: seq<Comic>
    var fromDate: Date
    var toDate: Date

    /** `ComicAggregatorConfig()`: no comics yet, and both ends of the window at today. */
    constructor(today: Date)
      ensures comics == [] && fromDate == today && toDate == today
    {
      comics := [];
      fromDate := today;
      toDate := today;
    }

    /** `setup(options)` */
    method Setup(options: Options, all: seq<Comic>) returns (o: Outcome)
      modifies this
      ensures Selected(options.comicSlugs, all).Err? ==>
        o == Raised(Selected(options.comicSlugs, all).error)
        && comics == old(comics) && fromDate == old(fromDate) && toDate == old(toDate)
      ensures Selected(options.comicSlugs, all).Ok? ==>
        comics == Selected(options.comicSlugs, all).value
        && Interval(fromDate, toDate, o) == DateIntervalStep(old(fromDate), old(toDate), options.fromDate, options.toDate)
    {
      o := SetComicsToCrawl(options.comicSlugs, all);
      if o.Raised? {
        return;
      }
      o := SetDateInterval(options.fromDate, options.toDate);
    }

    /** `set_comics_to_crawl(comic_slugs)` */
    method SetComicsToCrawl(slugs: Option<seq<string>>, all: seq<Comic>) returns (o: Outcome)
      modifies this
      ensures Selected(slugs, all).Ok? ==> o == Done && comics == Selected(slugs, all).value
      ensures Selected(slugs, all).Err? ==> o == Raised(Selected(slugs, all).error) && comics == old(comics)
      ensures fromDate == old(fromDate) && toDate == old(toDate)
    {
      if slugs.None? || |slugs.value| == 0 {
        comics := all;
        return Done;
      }
      var names := slugs.value;
      var acc: seq<Comic> := [];
      var i := 0;
      while i < |names|
        invariant 0 <= i <= |names|
        invariant ResolveSlugs(all, names[..i]) == Ok(acc)
        invariant comics == old(comics)
      {
        assert names[..i + 1][..i] == names[..i];
        var c := ComicBySlug(all, names[i]);
        if c.Err? {
          ResolveSlugsStops(all, names, i + 1);
          return Raised(c.error);
        }
        acc := acc + [c.value];
        i := i + 1;
      }
      assert names[..i] == names;
      comics := acc;
      return Done;
    }

    /** `set_date_interval(from_date, to_date)` */
    method SetDateInterval(fromArg: Option<string>, toArg: Option<string>) returns (o: Outcome)
      modifies this
      ensures Interval(fromDate, toDate, o) == DateIntervalStep(old(fromDate), old(toDate), fromArg, toArg)
      ensures comics == old(comics)
    {
      var f := ParseOptionalDate(fromArg, fromDate);
      if f.Err? {
        return Raised(f.error);
      }
      fromDate := f.value;
      var t := ParseOptionalDate(toArg, toDate);
      if t.Err? {
        return Raised(t.error);
      }
      toDate := t.value;
      var v := ValidateDates();
      if v.Err? {
        return Raised(v.error);
      }
      return Done;
    }

    /** `_validate_dates`: a ComicsError exactly when from is after to, True otherwise. */
    function ValidateDates(): (r: Result<bool, Error>)
      reads this
      ensures r.Err? <==> Before(toDate, fromDate)
      ensures r.Err? ==> r.error == ComicsError(InvalidDateRange)
      ensures r.Ok? ==> r.value && NotAfter(fromDate, toDate)
    {
      if Before(toDate, fromDate) then Err(ComicsError(InvalidDateRange)) else Ok(true)
    }
  }

  // ---------------------------------------------------------------------------
  // ComicAggregator: the effective start date

  /** `_get_from_date` as the design intends it: the later of the window's start and the comic's
      history limit, or the window's start when the comic has no limit. */
  function GetFromDate(from: Date, comic: Comic): (r: Date)
    ensures comic.historyCapable.None? ==> r == from
    ensures comic.historyCapable.Some? ==>
      NotAfter(from, r) && NotAfter(comic.historyCapable.value, r)
      && (r == from || r == comic.historyCapable.value)
  {
    if comic.historyCapable.Some? && Before(from, comic.historyCapable.value) then comic.historyCapable.value
    else from
  }

  /** `_get_from_date` as written: `from_date < comic.history_capable()` compares a date with
      None for a comic without a history limit, which Python 2's date type refuses with a
      TypeError. */
  function GetFromDateAsWritten(from: Date, comic: Comic): (r: Result<Date, Error>)
  {
    if comic.historyCapable.None? then Err(OtherError(TypeError))
    else if Before(from, comic.historyCapable.value) then Ok(comic.historyCapable.value)
    else Ok(from)
  }

  /** As written, `_get_from_date` fails for exactly the comics without a history limit, and
      agrees with the intended start date for the others. */
  lemma GetFromDateAsWrittenDiffers(from: Date, comic: Comic)
    ensures GetFromDateAsWritten(from, comic).Err? <==> comic.historyCapable.None?
    ensures GetFromDateAsWritten(from, comic).Err? ==> GetFromDateAsWritten(from, comic).error == OtherError(TypeError)
    ensures GetFromDateAsWritten(from, comic).Ok? ==> GetFromDateAsWritten(from, comic).value == GetFromDate(from, comic)
  {
  }

  // ---------------------------------------------------------------------------
  // ComicAggregator: what a run records

  /** Everything the run needs from outside: `today`, the crawler module of each slug
      (`get_comic_module`), the web, the decoder, and the downloader's outcome per strip. */
  datatype Env = Env(
    today: Date,
    registry: map<string, CrawlerClass>,
    web: Web,
    decode: Decoder,
    download: Metadata -> Outcome)

  predicate EnvValid(env: Env)
  {
    Valid(env.today)
  }

  /** One `_try_crawl_one_comic_one_date`: the metadata, or the exception it logged. */
  datatype CrawlRecord = CrawlRecord(slug: string, date: Date, result: Result<Metadata, Absorbed>)

  /** One `_try_download_strip`: None when the strip was saved, else the logged exception. */
  datatype DownloadRecord = DownloadRecord(slug: string, date: Date, failure: Option<Absorbed>)

  /** One `_try_aggregate_one_comic`: None when the comic's walk returned, else the exception
      `logger.exception` received. */
  datatype ComicRecord = ComicRecord(slug: string, failure: Option<Absorbed>)

  /** The release store and the records of a run so far. */
  datatype Trace = Trace(
    releases: set<ReleaseKey>,
    crawls: seq<CrawlRecord>,
    downloads: seq<DownloadRecord>,
    comics: seq<ComicRecord>)

  /** The (slug, date) pair of each crawl attempted. */
  function CrawlKeys(cs: seq<CrawlRecord>): seq<ReleaseKey>
    decreases |cs|
  {
    if cs == [] then [] else CrawlKeys(cs[..|cs| - 1]) + [(cs[|cs| - 1].slug, cs[|cs| - 1].date)]
  }

  /** The (slug, date) pair of each crawl that returned metadata. */
  function OkKeys(cs: seq<CrawlRecord>): seq<ReleaseKey>
    decreases |cs|
  {
    if cs == [] then []
    else OkKeys(cs[..|cs| - 1]) + (if cs[|cs| - 1].result.Ok? then [(cs[|cs| - 1].slug, cs[|cs| - 1].date)] else [])
  }

  /** The (slug, date) pair of each download attempted. */
  function DownloadKeys(ds: seq<DownloadRecord>): seq<ReleaseKey>
    decreases |ds|
  {
    if ds == [] then [] else DownloadKeys(ds[..|ds| - 1]) + [(ds[|ds| - 1].slug, ds[|ds| - 1].date)]
  }

  /** The (slug, date) pairs of the downloads that saved a strip. */
  function SavedKeys(ds: seq<DownloadRecord>): set<ReleaseKey>
    decreases |ds|
  {
    if ds == [] then {}
    else SavedKeys(ds[..|ds| - 1]) + (if ds[|ds| - 1].failure.None? then {(ds[|ds| - 1].slug, ds[|ds| - 1].date)} else {})
  }

  /** The slug of each comic processed. */
  function ComicSlugs(cs: seq<ComicRecord>): seq<string>
    decreases |cs|
  {
    if cs == [] then [] else ComicSlugs(cs[..|cs| - 1]) + [cs[|cs| - 1].slug]
  }

  function Slugs(comics: seq<Comic>): seq<string>
    decreases |comics|
  {
    if comics == [] then [] else [comics[0].slug] + Slugs(comics[1..])
  }

  /** The pairs a comic's walk visits, in order. */
  function Keyed(slug: string, dates: seq<Date>): (r: seq<ReleaseKey>)
    ensures |r| == |dates| && forall i :: 0 <= i < |dates| ==> r[i] == (slug, dates[i])
  {
    seq(|dates|, i requires 0 <= i < |dates| => (slug, dates[i]))
  }

  // ---------------------------------------------------------------------------
  // ComicAggregator: one date, one comic, one run

  /** `_try_download_strip(strip_metadata)`: a saved strip adds its release. */
  function TryDownload(env: Env, m: Metadata, t: Trace): Trace
  {
    var o := env.download(m);
    if o.Raised? then t.(downloads := t.downloads + [DownloadRecord(m.comic.slug, m.pubDate, Some(Absorb(o.error)))])
    else t.(downloads := t.downloads + [DownloadRecord(m.comic.slug, m.pubDate, None)],
            releases := t.releases + {(m.comic.slug, m.pubDate)})
  }

  /** The crawler's fields and the records after one date, and the metadata found. */
  datatype Visit = Visit(crawler: CrawlerState, trace: Trace, metadata: Option<Metadata>)

  /** `_try_crawl_one_comic_one_date(crawler, pub_date)`: crawl against the current release store
      and record the metadata or the caught exception. */
  function TryCrawl(env: Env, comic: Comic, cls: CrawlerClass, cs: CrawlerState, d: Date, t: Trace): Visit
    requires EnvValid(env) && Valid(d)
  {
    var f := StripMetadataStep(comic, cls, cs, Some(d), env.today, t.releases, env.web, env.decode);
    if f.result.Err? then
      Visit(f.state, t.(crawls := t.crawls + [CrawlRecord(comic.slug, d, Err(Absorb(f.result.error)))]), None)
    else
      Visit(f.state, t.(crawls := t.crawls + [CrawlRecord(comic.slug, d, Ok(f.result.value))]), Some(f.result.value))
  }

  /** One turn of the loop of `_aggregate_one_comic`: crawl, then download what was found. */
  function CrawlDate(env: Env, comic: Comic, cls: CrawlerClass, cs: CrawlerState, d: Date, t: Trace): Visit
    requires EnvValid(env) && Valid(d)
  {
    var v := TryCrawl(env, comic, cls, cs, d, t);
    if v.metadata.Some? then v.(trace := TryDownload(env, v.metadata.value, v.trace)) else v
  }

  predicate AllValid(dates: seq<Date>)
  {
    forall i :: 0 <= i < |dates| ==> Valid(dates[i])
  }

  /** The loop of `_aggregate_one_comic` over the given dates, with one crawler throughout. */
  function Walk(env: Env, comic: Comic, cls: CrawlerClass, cs: CrawlerState, dates: seq<Date>, t: Trace): Trace
    requires EnvValid(env) && AllValid(dates)
    decreases |dates|
  {
    if dates == [] then t
    else
      var v := CrawlDate(env, comic, cls, cs, dates[0], t);
      Walk(env, comic, cls, v.crawler, dates[1..], v.trace)
  }

  /** The records after one comic's walk, and whether the walk returned or raised. */
  datatype Ran = Ran(trace: Trace, outcome: Outcome)

  /** `_aggregate_one_comic(comic)`: no crawler module is an ImportError; otherwise a fresh
      crawler walks from the effective start date through `to`, and stepping past 9999-12-31
      after its last date is an OverflowError. */
  function AggregateComic(env: Env, from: Date, to: Date, comic: Comic, t: Trace): Ran
    requires EnvValid(env) && Valid(from) && Valid(to) && ComicValid(comic)
  {
    if comic.slug !in env.registry then Ran(t, Raised(OtherError(ImportError)))
    else
      var start := GetFromDate(from, comic);
      DateRangeSpec(start, to);
      var t1 := Walk(env, comic, env.registry[comic.slug], Initial, DateRange(start, to), t);
      if NotAfter(start, to) && to == LastDate then Ran(t1, Raised(OtherError(OverflowError)))
      else Ran(t1, Done)
  }

  /** `_try_aggregate_one_comic(comic)`: whatever escapes the walk is logged via
      `logger.exception`, and the run goes on. */
  function TryAggregateComic(env: Env, from: Date, to: Date, comic: Comic, t: Trace): Trace
    requires EnvValid(env) && Valid(from) && Valid(to) && ComicValid(comic)
  {
    var r := AggregateComic(env, from, to, comic, t);
    var failure := if r.outcome.Raised? then Some(Absorbed(Exception, r.outcome.error)) else None;
    r.trace.(comics := r.trace.comics + [ComicRecord(comic.slug, failure)])
  }

  predicate AllComicsValid(comics: seq<Comic>)
  {
    forall i :: 0 <= i < |comics| ==> ComicValid(comics[i])
  }

  /** `start()`: every comic of the configuration, in order. */
  function Run(env: Env, from: Date, to: Date, comics: seq<Comic>, t: Trace): Trace
    requires EnvValid(env) && Valid(from) && Valid(to) && AllComicsValid(comics)
    decreases |comics|
  {
    if comics == [] then t
    else Run(env, from, to, comics[1..], TryAggregateComic(env, from, to, comics[0], t))
  }

  /** Which dates of which comics a run crawls: each registered comic's dates from its effective
      start through `to`, comic after comic. It depends on nothing a crawl or download does. */
  function Schedule(env: Env, from: Date, to: Date, comics: seq<Comic>): seq<ReleaseKey>
    requires EnvValid(env) && Valid(from) && Valid(to) && AllComicsValid(comics)
    decreases |comics|
  {
    if comics == [] then []
    else
      var c := comics[0];
      (if c.slug in env.registry then Keyed(c.slug, DateRange(GetFromDate(from, c), to)) else [])
      + Schedule(env, from, to, comics[1..])
  }

  // ---------------------------------------------------------------------------
  // What the records promise

  /** Every logged exception carries the level of its bucket: ComicsError at info, IOError at
      warning, anything else via `logger.exception`. */
  predicate CrawlClassified(r: CrawlRecord)
  {
    r.result.Err? ==> r.result.error.level == LevelOf(r.result.error.error)
  }

  predicate DownloadClassified(r: DownloadRecord)
  {
    r.failure.Some? ==> r.failure.value.level == LevelOf(r.failure.value.error)
  }

  predicate ComicClassified(r: ComicRecord)
  {
    r.failure.Some? ==> r.failure.value.level == Exception
  }

  predicate Classified(t: Trace)
  {
    (forall k :: 0 <= k < |t.crawls| ==> CrawlClassified(t.crawls[k]))
    && (forall k :: 0 <= k < |t.downloads| ==> DownloadClassified(t.downloads[k]))
    && (forall k :: 0 <= k < |t.comics| ==> ComicClassified(t.comics[k]))
  }

  /** A strip reached the downloader exactly when its crawl returned metadata, in crawl order. */
  predicate HandedOff(t: Trace)
  {
    DownloadKeys(t.downloads) == OkKeys(t.crawls)
  }

  /** The release store is the initial one plus every strip saved. */
  predicate Accounted(t: Trace, base: set<ReleaseKey>)
  {
    t.releases == base + SavedKeys(t.downloads)
  }

  /** Metadata was returned only for an eligible date of its own comic, with a URL. */
  predicate EligibleMetadata(r: CrawlRecord, today: Date)
  {
    r.result.Ok? ==>
      r.result.value.comic.slug == r.slug && r.result.value.pubDate == r.date && r.result.value.url != ""
      && (r.result.value.comic.historyCapable.None? ==> r.date == today)
      && (r.result.value.comic.historyCapable.Some? ==> !Before(r.date, r.result.value.comic.historyCapable.value))
  }

  /** A crawl of a class without multiple releases per day returned metadata only for a date
      whose release was not in the initial store. */
  predicate NotRecrawled(r: CrawlRecord, base: set<ReleaseKey>, registry: map<string, CrawlerClass>)
  {
    r.result.Ok? && r.slug in registry && !registry[r.slug].multipleReleasesPerDay ==> (r.slug, r.date) !in base
  }

  /** The promises of one run's records, with `base` the release store it started from. */
  predicate Sound(t: Trace, env: Env, base: set<ReleaseKey>)
  {
    Classified(t) && HandedOff(t) && Accounted(t, base)
    && (forall k :: 0 <= k < |t.crawls| ==> EligibleMetadata(t.crawls[k], env.today))
    && (forall k :: 0 <= k < |t.crawls| ==> NotRecrawled(t.crawls[k], base, env.registry))
  }

  const Empty := Trace({}, [], [], [])

  /** A run starts sound: no records, and the store it starts from. */
  lemma StartSound(env: Env, base: set<ReleaseKey>)
    ensures Sound(Empty.(releases := base), env, base)
  {
  }

  /** One date keeps the run sound, and adds exactly one crawl record, for that comic and date. */
  lemma {:induction false} CrawlDateSound(env: Env, comic: Comic, cs: CrawlerState, d: Date, t: Trace, base: set<ReleaseKey>)
    requires EnvValid(env) && Valid(d) && comic.slug in env.registry
    requires Sound(t, env, base)
    ensures var r := CrawlDate(env, comic, env.registry[comic.slug], cs, d, t).trace;
      Sound(r, env, base)
      && CrawlKeys(r.crawls) == CrawlKeys(t.crawls) + [(comic.slug, d)]
      && r.comics == t.comics
  {
    var cls := env.registry[comic.slug];
    var f := StripMetadataStep(comic, cls, cs, Some(d), env.today, t.releases, env.web, env.decode);
    if f.result.Ok? {
      CrawlDateFoundSound(env, comic, cs, d, t, base);
    } else {
      CrawlDateMissSound(env, comic, cs, d, t, base);
    }
  }

  /** The date yielded metadata: one Ok crawl record and one handed-off download are appended. */
  lemma CrawlDateFoundSound(env: Env, comic: Comic, cs: CrawlerState, d: Date, t: Trace, base: set<ReleaseKey>)
    requires EnvValid(env) && Valid(d) && comic.slug in env.registry
    requires Sound(t, env, base)
    requires StripMetadataStep(comic, env.registry[comic.slug], cs, Some(d), env.today, t.releases, env.web, env.decode).result.Ok?
    ensures var r := CrawlDate(env, comic, env.registry[comic.slug], cs, d, t).trace;
      Sound(r, env, base)
      && CrawlKeys(r.crawls) == CrawlKeys(t.crawls) + [(comic.slug, d)]
      && r.comics == t.comics
  {
    var cls := env.registry[comic.slug];
    var f := StripMetadataStep(comic, cls, cs, Some(d), env.today, t.releases, env.web, env.decode);
    StripMetadataOk(comic, cls, cs, Some(d), env.today, t.releases, env.web, env.decode);
    var m := f.result.value;
    var c := CrawlRecord(comic.slug, d, Ok(m));
    var o := env.download(m);
    var dr := DownloadRecord(comic.slug, d, if o.Raised? then Some(Absorb(o.error)) else None);
    var rel := if o.Raised? then t.releases else t.releases + {(comic.slug, d)};
    assert CrawlDate(env, comic, cls, cs, d, t).trace == Trace(rel, t.crawls + [c], t.downloads + [dr], t.comics);
    assert NotRecrawled(c, base, env.registry) by {
      assert (comic.slug, d) !in t.releases || cls.multipleReleasesPerDay;
    }
    FoundAppendSound(t, env, base, c, dr, rel);
  }

  /** Appending an Ok crawl record and the download of the same strip keeps the run sound. */
  lemma FoundAppendSound(t: Trace, env: Env, base: set<ReleaseKey>, c: CrawlRecord, dr: DownloadRecord, rel: set<ReleaseKey>)
    requires Sound(t, env, base)
    requires c.result.Ok? && EligibleMetadata(c, env.today) && NotRecrawled(c, base, env.registry)
    requires DownloadClassified(dr) && dr.slug == c.slug && dr.date == c.date
    requires rel == t.releases + (if dr.failure.None? then {(dr.slug, dr.date)} else {})
    ensures var r := Trace(rel, t.crawls + [c], t.downloads + [dr], t.comics);
      Sound(r, env, base) && CrawlKeys(r.crawls) == CrawlKeys(t.crawls) + [(c.slug, c.date)]
  {
    var r := Trace(rel, t.crawls + [c], t.downloads + [dr], t.comics);
    var n, m0 := |t.crawls|, |t.downloads|;
    assert r.crawls[..n] == t.crawls;
    assert r.downloads[..m0] == t.downloads;
    assert forall k :: 0 <= k < n ==> r.crawls[k] == t.crawls[k];
    assert forall k :: 0 <= k < m0 ==> r.downloads[k] == t.downloads[k];
  }

  /** The date yielded no metadata: one Err crawl record is appended and nothing is downloaded. */
  lemma CrawlDateMissSound(env: Env, comic: Comic, cs: CrawlerState, d: Date, t: Trace, base: set<ReleaseKey>)
    requires EnvValid(env) && Valid(d) && comic.slug in env.registry
    requires Sound(t, env, base)
    requires StripMetadataStep(comic, env.registry[comic.slug], cs, Some(d), env.today, t.releases, env.web, env.decode).result.Err?
    ensures var r := CrawlDate(env, comic, env.registry[comic.slug], cs, d, t).trace;
      Sound(r, env, base)
      && CrawlKeys(r.crawls) == CrawlKeys(t.crawls) + [(comic.slug, d)]
      && r.comics == t.comics
  {
    var cls := env.registry[comic.slug];
    var r := CrawlDate(env, comic, cls, cs, d, t).trace;
    var n := |t.crawls|;
    assert r.crawls[..n] == t.crawls;
    assert forall k :: 0 <= k < n ==> r.crawls[k] == t.crawls[k];
    assert OkKeys(r.crawls) == OkKeys(t.crawls);
    assert r.downloads == t.downloads;
  }

  lemma KeyedCons(slug: string, dates: seq<Date>)
    requires dates != []
    ensures Keyed(slug, dates) == [(slug, dates[0])] + Keyed(slug, dates[1..])
  {
  }

  /** A comic's walk keeps the run sound and crawls exactly the given dates, in order. */
  lemma {:induction false} WalkSound(env: Env, comic: Comic, cs: CrawlerState, dates: seq<Date>, t: Trace, base: set<ReleaseKey>)
    requires EnvValid(env) && AllValid(dates) && comic.slug in env.registry
    requires Sound(t, env, base)
    ensures var r := Walk(env, comic, env.registry[comic.slug], cs, dates, t);
      Sound(r, env, base)
      && CrawlKeys(r.crawls) == CrawlKeys(t.crawls) + Keyed(comic.slug, dates)
      && r.comics == t.comics
    decreases |dates|
  {
    if dates != [] {
      var cls := env.registry[comic.slug];
      var v := CrawlDate(env, comic, cls, cs, dates[0], t);
      CrawlDateSound(env, comic, cs, dates[0], t, base);
      WalkSound(env, comic, v.crawler, dates[1..], v.trace, base);
      KeyedCons(comic.slug, dates);
      ConcatAssoc(CrawlKeys(t.crawls), [(comic.slug, dates[0])], Keyed(comic.slug, dates[1..]));
    }
  }

  /** A registered comic's walk runs from its effective start date through `to`. */
  lemma AggregateComicWalks(env: Env, from: Date, to: Date, comic: Comic, t: Trace)
    requires EnvValid(env) && Valid(from) && Valid(to) && ComicValid(comic) && comic.slug in env.registry
    ensures Valid(GetFromDate(from, comic)) && AllValid(DateRange(GetFromDate(from, comic), to))
    ensures AggregateComic(env, from, to, comic, t).trace
         == Walk(env, comic, env.registry[comic.slug], Initial, DateRange(GetFromDate(from, comic), to), t)
    ensures AggregateComic(env, from, to, comic, t).outcome
         == if NotAfter(GetFromDate(from, comic), to) && to == LastDate then Raised(OtherError(OverflowError)) else Done
  {
    DateRangeSpec(GetFromDate(from, comic), to);
  }

  /** The schedule of one registered comic is its walk's dates. */
  lemma ScheduleOne(env: Env, from: Date, to: Date, comic: Comic)
    requires EnvValid(env) && Valid(from) && Valid(to) && ComicValid(comic) && comic.slug in env.registry
    ensures Schedule(env, from, to, [comic]) == Keyed(comic.slug, DateRange(GetFromDate(from, comic), to))
  {
    var k := Keyed(comic.slug, DateRange(GetFromDate(from, comic), to));
    assert [comic][1..] == [];
    assert Schedule(env, from, to, [comic]) == k + [];
    assert k + [] == k;
  }

  /** One comic's walk keeps the run sound and crawls its scheduled dates. */
  lemma AggregateComicSound(env: Env, from: Date, to: Date, comic: Comic, t: Trace, base: set<ReleaseKey>)
    requires EnvValid(env) && Valid(from) && Valid(to) && ComicValid(comic)
    requires Sound(t, env, base)
    ensures var a := AggregateComic(env, from, to, comic, t).trace;
      Sound(a, env, base)
      && CrawlKeys(a.crawls) == CrawlKeys(t.crawls) + Schedule(env, from, to, [comic])
      && a.comics == t.comics
  {
    if comic.slug in env.registry {
      AggregateComicWalks(env, from, to, comic, t);
      ScheduleOne(env, from, to, comic);
      WalkSound(env, comic, Initial, DateRange(GetFromDate(from, comic), to), t, base);
    } else {
      assert [comic][1..] == [];
      assert Schedule(env, from, to, [comic]) == [];
      assert CrawlKeys(t.crawls) + [] == CrawlKeys(t.crawls);
    }
  }

  /** One comic adds one comic record, whose failure, if any, is logged through
      `logger.exception`. */
  lemma TryAggregateComicSound(env: Env, from: Date, to: Date, comic: Comic, t: Trace, base: set<ReleaseKey>)
    requires EnvValid(env) && Valid(from) && Valid(to) && ComicValid(comic)
    requires Sound(t, env, base)
    ensures var r := TryAggregateComic(env, from, to, comic, t);
      Sound(r, env, base)
      && CrawlKeys(r.crawls) == CrawlKeys(t.crawls) + Schedule(env, from, to, [comic])
      && ComicSlugs(r.comics) == ComicSlugs(t.comics) + [comic.slug]
  {
    AggregateComicSound(env, from, to, comic, t, base);
    var a := AggregateComic(env, from, to, comic, t).trace;
    var r := TryAggregateComic(env, from, to, comic, t);
    assert r.comics[..|r.comics| - 1] == a.comics;
  }

  /** The schedule of several comics is the first comic's, then the others'. */
  lemma ScheduleCons(env: Env, from: Date, to: Date, comics: seq<Comic>)
    requires EnvValid(env) && Valid(from) && Valid(to) && AllComicsValid(comics) && comics != []
    ensures Schedule(env, from, to, comics) == Schedule(env, from, to, [comics[0]]) + Schedule(env, from, to, comics[1..])
  {
    var c := comics[0];
    assert [c][1..] == [];
    var one := if c.slug in env.registry then Keyed(c.slug, DateRange(GetFromDate(from, c), to)) else [];
    assert Schedule(env, from, to, [c]) == one + [];
    assert one + [] == one;
  }

  lemma ConcatAssoc<T>(a: seq<T>, b: seq<T>, c: seq<T>)
    ensures (a + b) + c == a + (b + c)
  {
  }

  /** A run keeps its records sound, processes every comic of the configuration in order whatever
      happens to the others, and crawls exactly the schedule. */
  lemma {:induction false} RunSound(env: Env, from: Date, to: Date, comics: seq<Comic>, t: Trace, base: set<ReleaseKey>)
    requires EnvValid(env) && Valid(from) && Valid(to) && AllComicsValid(comics)
    requires Sound(t, env, base)
    ensures var r := Run(env, from, to, comics, t);
      Sound(r, env, base)
      && CrawlKeys(r.crawls) == CrawlKeys(t.crawls) + Schedule(env, from, to, comics)
      && ComicSlugs(r.comics) == ComicSlugs(t.comics) + Slugs(comics)
    decreases |comics|
  {
    if comics != [] {
      var c := comics[0];
      var t1 := TryAggregateComic(env, from, to, c, t);
      TryAggregateComicSound(env, from, to, c, t, base);
      RunSound(env, from, to, comics[1..], t1, base);
      ScheduleCons(env, from, to, comics);
      ConcatAssoc(CrawlKeys(t.crawls), Schedule(env, from, to, [c]), Schedule(env, from, to, comics[1..]));
      ConcatAssoc(ComicSlugs(t.comics), [c.slug], Slugs(comics[1..]));
    }
  }

  /** Running the same configuration again hands no strip saved by the first run to the
      downloader a second time, unless its class allows several releases per day. */
  lemma RunTwiceNoDuplicateHandoff(env: Env, from: Date, to: Date, comics: seq<Comic>, base: set<ReleaseKey>)
    requires EnvValid(env) && Valid(from) && Valid(to) && AllComicsValid(comics)
    ensures var r1 := Run(env, from, to, comics, Empty.(releases := base));
      var r2 := Run(env, from, to, comics, Empty.(releases := r1.releases));
      forall k :: 0 <= k < |r2.crawls| && r2.crawls[k].result.Ok?
          && r2.crawls[k].slug in env.registry && !env.registry[r2.crawls[k].slug].multipleReleasesPerDay
        ==> (r2.crawls[k].slug, r2.crawls[k].date) !in SavedKeys(r1.downloads)
  {
    StartSound(env, base);
    RunSound(env, from, to, comics, Empty.(releases := base), base);
    var r1 := Run(env, from, to, comics, Empty.(releases := base));
    StartSound(env, r1.releases);
    RunSound(env, from, to, comics, Empty.(releases := r1.releases), r1.releases);
    var r2 := Run(env, from, to, comics, Empty.(releases := r1.releases));
    assert forall k :: 0 <= k < |r2.crawls| ==> NotRecrawled(r2.crawls[k], r1.releases, env.registry);
  }

  /** The schedule of one registered comic: to - start + 1 dates (none when the start is after
      `to`) from the effective start, each one day after the previous. */
  lemma ComicScheduleSpec(env: Env, from: Date, to: Date, comic: Comic)
    requires EnvValid(env) && Valid(from) && Valid(to) && ComicValid(comic) && comic.slug in env.registry
    ensures var start := GetFromDate(from, comic);
      var keys := Schedule(env, from, to, [comic]);
      Valid(start)
      && |keys| == (if Before(to, start) then 0 else Ordinal(to) - Ordinal(start) + 1)
      && (forall i :: 0 <= i < |keys| ==>
            keys[i].0 == comic.slug && Valid(keys[i].1) && Ordinal(keys[i].1) == Ordinal(start) + i)
      && (keys != [] ==> keys[0].1 == start && keys[|keys| - 1].1 == to)
  {
    var start := GetFromDate(from, comic);
    DateRangeSpec(start, to);
    assert Schedule(env, from, to, [comic]) == Keyed(comic.slug, DateRange(start, to)) + [];
  }

  // ---------------------------------------------------------------------------
  // The finding: `_get_from_date` as written

  /** `_aggregate_one_comic` with `_get_from_date` as written. */
  function AggregateComicAsWritten(env: Env, from: Date, to: Date, comic: Comic, t: Trace): Ran
    requires EnvValid(env) && Valid(from) && Valid(to) && ComicValid(comic)
  {
    if comic.slug !in env.registry then Ran(t, Raised(OtherError(ImportError)))
    else
      var start := GetFromDateAsWritten(from, comic);
      if start.Err? then Ran(t, Raised(start.error))
      else AggregateComic(env, from, to, comic, t)
  }

  /** As written, a registered comic without a history limit is never crawled, not even for a
      window that is just today, while the intended start date crawls today once. */
  lemma TodayOnlyComicNeverCrawled(env: Env, comic: Comic, t: Trace)
    requires EnvValid(env) && ComicValid(comic) && comic.slug in env.registry && comic.historyCapable.None?
    ensures AggregateComicAsWritten(env, env.today, env.today, comic, t) == Ran(t, Raised(OtherError(TypeError)))
    ensures |AggregateComic(env, env.today, env.today, comic, t).trace.crawls| == |t.crawls| + 1
    ensures var c := AggregateComic(env, env.today, env.today, comic, t).trace.crawls[|t.crawls|];
      c.slug == comic.slug && c.date == env.today
  {
    var d := env.today;
    assert DateRange(d, d) == [d];
    var cls := env.registry[comic.slug];
    var v := CrawlDate(env, comic, cls, Initial, d, t);
    assert Walk(env, comic, cls, Initial, [d], t) == Walk(env, comic, cls, v.crawler, [], v.trace);
    CrawlDateIs(env, comic, cls, Initial, d, t, TryCrawl(env, comic, cls, Initial, d, t));
  }

  /** One date's visit is the crawl followed, when it found metadata, by the download. */
  lemma CrawlDateIs(env: Env, comic: Comic, cls: CrawlerClass, cs: CrawlerState, d: Date, t: Trace, v: Visit)
    requires EnvValid(env) && Valid(d) && v == TryCrawl(env, comic, cls, cs, d, t)
    ensures CrawlDate(env, comic, cls, cs, d, t)
         == if v.metadata.Some? then v.(trace := TryDownload(env, v.metadata.value, v.trace)) else v
  {
  }

  /** One turn of the walk: crawl `pub`, then go on from the next day, or stop after
      9999-12-31, which can only be the last date. */
  lemma WalkStep(env: Env, comic: Comic, cls: CrawlerClass, cs: CrawlerState, pub: Date, to: Date, t: Trace)
    requires EnvValid(env) && Valid(pub) && Valid(to) && NotAfter(pub, to)
    ensures AllValid(DateRange(pub, to))
    ensures pub == LastDate ==>
              pub == to && Walk(env, comic, cls, cs, DateRange(pub, to), t) == CrawlDate(env, comic, cls, cs, pub, t).trace
    ensures pub != LastDate ==>
              AllValid(DateRange(AddOneDay(pub).value, to))
              && Walk(env, comic, cls, cs, DateRange(pub, to), t)
                 == Walk(env, comic, cls, CrawlDate(env, comic, cls, cs, pub, t).crawler,
                         DateRange(AddOneDay(pub).value, to), CrawlDate(env, comic, cls, cs, pub, t).trace)
  {
    DateRangeSpec(pub, to);
    if pub == LastDate {
      assert DateRange(pub, to) == [pub];
    } else {
      DateRangeUnroll(pub, to);
      DateRangeSpec(NextDay(pub), to);
      assert DateRange(pub, to)[1..] == DateRange(NextDay(pub), to);
    }
  }

  // ---------------------------------------------------------------------------
  // The aggregator object

  class ComicAggregator {
    const config: AggregatorConfig
    const env: Env
    var releases: set<ReleaseKey>
    var crawls: seq<CrawlRecord>
    var downloads: seq<DownloadRecord>
    var comicLog: seq<ComicRecord>

    function Observed(): Trace
      reads this
    {
      Trace(releases, crawls, downloads, comicLog)
    }

    /** The configuration is usable: valid dates and comic rows. */
    predicate Ready()
      reads this, config
    {
      EnvValid(env) && Valid(config.fromDate) && Valid(config.toDate) && AllComicsValid(config.comics)
    }

    /** `ComicAggregator(config)`, over a release store holding `releases`. */
    constructor(config: AggregatorConfig, env: Env, releases: set<ReleaseKey>)
      ensures this.config == config && this.env == env
      ensures Observed() == Empty.(releases := releases)
    {
      this.config := config;
      this.env := env;
      this.releases := releases;
      crawls, downloads, comicLog := [], [], [];
    }

    /** `start()` */
    method Start()
      requires Ready()
      modifies this
      ensures Observed() == Run(env, config.fromDate, config.toDate, config.comics, old(Observed()))
    {
      var comics := config.comics;
      var i := 0;
      while i < |comics|
        invariant 0 <= i <= |comics|
        invariant Run(env, config.fromDate, config.toDate, comics[i..], Observed())
               == Run(env, config.fromDate, config.toDate, comics, old(Observed()))
      {
        assert comics[i..][1..] == comics[i + 1..];
        TryAggregateOneComic(comics[i]);
        i := i + 1;
      }
    }

    /** `_try_aggregate_one_comic(comic)` */
    method TryAggregateOneComic(comic: Comic)
      requires EnvValid(env) && Valid(config.fromDate) && Valid(config.toDate) && ComicValid(comic)
      modifies this
      ensures Observed() == TryAggregateComic(env, config.fromDate, config.toDate, comic, old(Observed()))
    {
      var o := AggregateOneComic(comic);
      var failure := if o.Raised? then Some(Absorbed(Exception, o.error)) else None;
      comicLog := comicLog + [ComicRecord(comic.slug, failure)];
    }

    /** `_aggregate_one_comic(comic)` */
    method AggregateOneComic(comic: Comic) returns (o: Outcome)
      requires EnvValid(env) && Valid(config.fromDate) && Valid(config.toDate) && ComicValid(comic)
      modifies this
      ensures Ran(Observed(), o) == AggregateComic(env, config.fromDate, config.toDate, comic, old(Observed()))
    {
      if comic.slug !in env.registry {
        return Raised(OtherError(ImportError));
      }
      var cls := env.registry[comic.slug];
      var crawler := new ComicCrawler(comic, cls);
      var start := GetFromDate(config.fromDate, comic);
      AggregateComicWalks(env, config.fromDate, config.toDate, comic, Observed());
      o := WalkDates(crawler, start, config.toDate);
    }

    /** The loop of `_aggregate_one_comic`: crawl each date from `start` through `to` with one
        crawler; stepping past 9999-12-31 after the last date raises OverflowError. */
    method WalkDates(crawler: ComicCrawler, start: Date, to: Date) returns (o: Outcome)
      requires EnvValid(env) && Valid(start) && Valid(to) && AllValid(DateRange(start, to))
      modifies this, crawler
      ensures Observed() == Walk(env, crawler.comic, crawler.cls, old(crawler.State()), DateRange(start, to), old(Observed()))
      ensures o == if NotAfter(start, to) && to == LastDate then Raised(OtherError(OverflowError)) else Done
    {
      var comic, cls := crawler.comic, crawler.cls;
      var pub := start;
      ghost var goal := Walk(env, comic, cls, crawler.State(), DateRange(start, to), Observed());
      while NotAfter(pub, to)
        invariant Valid(pub)
        invariant Ordinal(start) <= Ordinal(pub)
        invariant AllValid(DateRange(pub, to))
        invariant Walk(env, comic, cls, crawler.State(), DateRange(pub, to), Observed()) == goal
        decreases Ordinal(to) - Ordinal(pub)
      {
        BeforeIffOrdinal(to, pub);
        WalkStep(env, comic, cls, crawler.State(), pub, to, Observed());
        CrawlOneDate(crawler, pub);
        var next := AddOneDay(pub);
        if next.Err? {
          BeforeIffOrdinal(to, start);
          return Raised(next.error);
        }
        pub := next.value;
      }
      assert !Before(LastDate, pub) && DateRange(pub, to) == [];
      return Done;
    }

    /** One pass of `_aggregate_one_comic`'s loop: crawl the date, then download what was found. */
    method CrawlOneDate(crawler: ComicCrawler, d: Date)
      requires EnvValid(env) && Valid(d)
      modifies this, crawler
      ensures var v := CrawlDate(env, crawler.comic, crawler.cls, old(crawler.State()), d, old(Observed()));
        crawler.State() == v.crawler && Observed() == v.trace
    {
      ghost var cs, t := crawler.State(), Observed();
      var m := TryCrawlOneComicOneDate(crawler, d);
      ghost var v := Visit(crawler.State(), Observed(), m);
      if m.Some? {
        TryDownloadStrip(m.value);
      }
      CrawlDateIs(env, crawler.comic, crawler.cls, cs, d, t, v);
    }

    /** `_try_crawl_one_comic_one_date(crawler, pub_date)` */
    method TryCrawlOneComicOneDate(crawler: ComicCrawler, d: Date) returns (m: Option<Metadata>)
      requires EnvValid(env) && Valid(d)
      modifies this, crawler
      ensures Visit(crawler.State(), Observed(), m)
           == TryCrawl(env, crawler.comic, crawler.cls, old(crawler.State()), d, old(Observed()))
    {
      var r := crawler.GetStripMetadata(Some(d), env.today, releases, env.web, env.decode);
      if r.Err? {
        crawls := crawls + [CrawlRecord(crawler.comic.slug, d, Err(Absorb(r.error)))];
        return None;
      }
      crawls := crawls + [CrawlRecord(crawler.comic.slug, d, Ok(r.value))];
      return Some(r.value);
    }

    /** `_try_download_strip(strip_metadata)` */
    method TryDownloadStrip(m: Metadata)
      modifies this
      ensures Observed() == TryDownload(env, m, old(Observed()))
    {
      var o := env.download(m);
      if o.Raised? {
        downloads := downloads + [DownloadRecord(m.comic.slug, m.pubDate, Some(Absorb(o.error)))];
      } else {
        downloads := downloads + [DownloadRecord(m.comic.slug, m.pubDate, None)];
        releases := releases + {(m.comic.slug, m.pubDate)};
      }
    }
  }
}
