/** KAL's Cartoon crawler (comics/comics/kalscartoon.py): one fixed page, accepted only when
    its image URL mentions the date. */
module KalsCartoon {
  import opened Outcomes
  import opened Dates
  import opened Strings
  import opened Collaborators

  const PageUrl := "http://www.economist.com/content/kallery"
  const ImageSelector := ".content-image-full img"

  /** `pub_date.strftime('%Y%m%d')` */
  function DateKey(d: Date): string
    requires Valid(d)
  {
    FormatYYYYMMDD(d)
  }

  /** `crawl(pub_date)`: fetch the page (IOError), take the image src, format the date
      (ValueError before 1900), test `date in url` (TypeError when there is no src), and
      return an image only when the key occurs in the URL; otherwise the implicit None. */
  function Crawl(d: Date, web: Web): (r: Result<Option<PluginImage>, Error>)
    requires Valid(d)
    ensures web.pageSrc(PageUrl, ImageSelector).PageUnreachable? ==> r == Err(IOError)
    ensures web.pageSrc(PageUrl, ImageSelector).PageLoaded? ==>
      (r == Err(OtherError(ValueError)) <==> !StrftimeSupported(d))
      && (r == Err(OtherError(TypeError)) <==> StrftimeSupported(d) && web.pageSrc(PageUrl, ImageSelector).src.None?)
    ensures r.Ok? && r.value.Some? ==>
      r.value.value == PluginImage(web.pageSrc(PageUrl, ImageSelector).src.value, None, None)
      && Contains(r.value.value.url, DateKey(d))
  {
    match web.pageSrc(PageUrl, ImageSelector)
    case PageUnreachable => Err(IOError)
    case PageLoaded(src) =>
      if !StrftimeSupported(d) then Err(OtherError(ValueError))
      else if src.None? then Err(OtherError(TypeError))
      else if Contains(src.value, DateKey(d)) then Ok(Some(PluginImage(src.value, None, None)))
      else Ok(None)
  }

  /** The date key is eight digits reading year, month and day. */
  lemma DateKeyShape(d: Date)
    requires Valid(d)
    ensures |DateKey(d)| == 8 && AllDigits(DateKey(d))
    ensures Value4(DateKey(d)[0..4]) == d.year
    ensures Value2(DateKey(d)[4..6]) == d.month
    ensures Value2(DateKey(d)[6..8]) == d.day
  {
    FormatYYYYMMDDFields(d);
  }

  /** An image is returned exactly when the page's image URL contains the date key; the image
      carries that URL and no title or text. */
  lemma CrawlAcceptsIffKeyInUrl(d: Date, web: Web, src: string)
    requires Valid(d) && StrftimeSupported(d)
    requires web.pageSrc(PageUrl, ImageSelector) == PageLoaded(Some(src))
    ensures Crawl(d, web).Ok?
    ensures Crawl(d, web).value.Some? <==> exists i :: OccursAt(src, DateKey(d), i)
    ensures Crawl(d, web).value.Some? ==> Crawl(d, web).value.value == PluginImage(src, None, None)
  {
    ContainsIff(src, DateKey(d));
  }

  /** Only the fixed page is consulted: webs that agree on it give the same result. */
  lemma CrawlReadsOnlyItsPage(d: Date, w1: Web, w2: Web)
    requires Valid(d)
    requires w1.pageSrc(PageUrl, ImageSelector) == w2.pageSrc(PageUrl, ImageSelector)
    ensures Crawl(d, w1) == Crawl(d, w2)
  {
  }
}
