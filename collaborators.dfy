/** What the core receives from outside: comic records, feeds and pages fetched from the
    web, a text decoder, and the values crawl hooks produce. The record store, the feed and
    page parsers and the codecs are not part of this model; their answers are inputs. */
module Collaborators {
  import opened Outcomes
  import opened Dates

  /** A Comic row: its slug and `history_capable()`, the earliest date it can be crawled
      for (None when it can only be crawled for today). */
  datatype Comic = Comic(slug: string, historyCapable: Option<Date>)

  predicate ComicValid(c: Comic)
  {
    c.historyCapable.Some? ==> Valid(c.historyCapable.value)
  }

  /** A Release row is identified by its comic's slug and its publication date. */
  type ReleaseKey = (string, Date)

  /** A Python 2 string: `unicode` or a byte `str` whose characters are bytes. */
  datatype Text = Text(unicode: bool, chars: string)

  /** A feed entry: `updated_parsed` (a time tuple), `title`, `summary`. */
  datatype Entry = Entry(updatedParsed: seq<int>, title: Text, summary: string)

  /** A parsed feed: its declared `encoding` and its `entries`. */
  datatype Feed = Feed(encoding: Option<string>, entries: seq<Entry>)

  /** What `LxmlParser(url).src(selector)` yields: the page could not be fetched (an
      IOError), or the src attribute of the selected element, if any. */
  datatype PageFetch = PageLoaded(src: Option<string>) | PageUnreachable

  /** The web as the crawlers see it during one run. */
  datatype Web = Web(feedAt: string -> Feed, pageSrc: (string, string) -> PageFetch)

  /** `unicode(chars, encoding)`: the decoded characters, or None when decoding fails. */
  type Decoder = (string, string) -> Option<string>

  /** The crawler fields a feed-scanning crawl hook assigns. */
  datatype Fields = Fields(title: Option<Text>, url: Option<string>)

  /** The fields a scan leaves behind, and whether it returned or raised. */
  datatype Scanned = Scanned(fields: Fields, outcome: Outcome)

  /** What a `CrawlerBase` crawl returns (CrawlerResult / CrawlerImage). */
  datatype PluginImage = PluginImage(url: string, title: Option<string>, text: Option<string>)
}
