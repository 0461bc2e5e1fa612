/** The EON crawler (comics/comics/eon.py): the strip URL is built from the date alone. */
module Eon {
  import opened Outcomes
  import opened Dates

  const UrlPrefix := "http://pub.tv2.no/nettavisen/tegneserie/pondus/eon/"
  const UrlSuffix := ".gif"

  /** The URL `crawl` assigns to `self.url`: the prefix, `pub_date.strftime('%d%m%y')`, `.gif`.
      strftime raises ValueError for years before 1900. */
  function StripUrl(d: Date): (r: Result<string, Error>)
    requires Valid(d)
    ensures r.Err? <==> !StrftimeSupported(d)
    ensures r.Err? ==> r.error == OtherError(ValueError)
  {
    if StrftimeSupported(d) then Ok(UrlPrefix + FormatDDMMYY(d) + UrlSuffix)
    else Err(OtherError(ValueError))
  }

  /** The URL is never empty, so the base class's URL check never fails for EON; between the
      fixed prefix and `.gif` stand six digits reading day, month and year mod 100. */
  lemma StripUrlShape(d: Date)
    requires Valid(d) && StrftimeSupported(d)
    ensures StripUrl(d).Ok? && StripUrl(d).value != ""
    ensures var u := StripUrl(d).value; var n := |UrlPrefix|;
      |u| == n + 10
      && u[..n] == UrlPrefix && u[n + 6..] == UrlSuffix
      && AllDigits(u[n..n + 6])
      && Value2(u[n..n + 2]) == d.day
      && Value2(u[n + 2..n + 4]) == d.month
      && Value2(u[n + 4..n + 6]) == d.year % 100
  {
    var u := StripUrl(d).value;
    var n := |UrlPrefix|;
    FormatDDMMYYFields(d);
    assert u[n..n + 6] == FormatDDMMYY(d);
    assert u[n..n + 2] == FormatDDMMYY(d)[0..2];
    assert u[n + 2..n + 4] == FormatDDMMYY(d)[2..4];
    assert u[n + 4..n + 6] == FormatDDMMYY(d)[4..6];
  }
}
