/** The Veslemøy crawler (comics/comics/veslemoy.py): a result built from the date alone. */
module Veslemoy {
  import opened Outcomes
  import opened Dates
  import opened Collaborators

  const UrlPrefix := "http://pub.tv2.no/nettavisen/tegneserie/pondus/veslemoy/"
  const UrlSuffix := ".jpg"

  /** The prefix, `pub_date.strftime('%d%m%y')` and `.jpg`: always a non-empty URL. */
  function StripUrl(d: Date): (r: string)
    requires Valid(d)
    ensures |r| == |UrlPrefix| + 10 && r[..|UrlPrefix|] == UrlPrefix && r[|UrlPrefix| + 6..] == UrlSuffix
  {
    UrlPrefix + FormatDDMMYY(d) + UrlSuffix
  }

  /** `crawl(pub_date)`: always a result carrying only a URL; the only failure is
      strftime's ValueError for years before 1900. */
  function Crawl(d: Date): (r: Result<PluginImage, Error>)
    requires Valid(d)
    ensures r.Ok? <==> StrftimeSupported(d)
    ensures r.Err? ==> r.error == OtherError(ValueError)
    ensures r.Ok? ==> r.value.title.None? && r.value.text.None?
  {
    if StrftimeSupported(d) then Ok(PluginImage(StripUrl(d), None, None))
    else Err(OtherError(ValueError))
  }

  /** The URL is the prefix, six digits reading day, month and year mod 100, then `.jpg`. */
  lemma CrawlUrlShape(d: Date)
    requires Valid(d) && StrftimeSupported(d)
    ensures Crawl(d).Ok?
    ensures var u := Crawl(d).value.url; var n := |UrlPrefix|;
      |u| == n + 10
      && u[..n] == UrlPrefix && u[n + 6..] == UrlSuffix
      && AllDigits(u[n..n + 6])
      && Value2(u[n..n + 2]) == d.day
      && Value2(u[n + 2..n + 4]) == d.month
      && Value2(u[n + 4..n + 6]) == d.year % 100
  {
    var u := Crawl(d).value.url;
    var n := |UrlPrefix|;
    FormatDDMMYYFields(d);
    assert u[n..n + 6] == FormatDDMMYY(d);
    assert u[n..n + 2] == FormatDDMMYY(d)[0..2];
    assert u[n + 2..n + 4] == FormatDDMMYY(d)[2..4];
    assert u[n + 4..n + 6] == FormatDDMMYY(d)[4..6];
  }

  /** Dates less than a century apart get different URLs. */
  lemma DistinctDatesDistinctUrls(a: Date, b: Date)
    requires Valid(a) && Valid(b) && a != b
    requires -100 < a.year - b.year < 100
    ensures StripUrl(a) != StripUrl(b)
  {
    if StripUrl(a) == StripUrl(b) {
      var n := |UrlPrefix|;
      assert StripUrl(a)[n..n + 6] == FormatDDMMYY(a);
      assert StripUrl(b)[n..n + 6] == FormatDDMMYY(b);
      FormatDDMMYYInjective(a, b);
    }
  }
}
