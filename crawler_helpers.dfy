/** The pure helpers of BaseComicCrawler (comics/aggregator/crawler.py) and the URL built by
    BaseComicsComComicCrawler.crawl_helper. */
module CrawlerHelpers {
  import opened Outcomes
  import opened Dates
  import opened Strings

  /** `dt.date(*timestamp[:3])`: TypeError when the tuple has fewer than three fields,
      ValueError when they do not form a date. */
  function TimestampToDate(ts: seq<int>): (r: Result<Date, Error>)
    ensures r.Ok? <==> |ts| >= 3 && Valid(Date(ts[0], ts[1], ts[2]))
    ensures r.Ok? ==> r.value == Date(ts[0], ts[1], ts[2])
    ensures |ts| < 3 ==> r == Err(OtherError(TypeError))
    ensures |ts| >= 3 && r.Err? ==> r.error == OtherError(ValueError)
  {
    if |ts| < 3 then Err(OtherError(TypeError))
    else
      var d := Date(ts[0], ts[1], ts[2]);
      if Valid(d) then Ok(d) else Err(OtherError(ValueError))
  }

  /** Only the first three fields of the time tuple matter. */
  lemma TimestampFirstThree(a: seq<int>, b: seq<int>)
    requires (if |a| < 3 then a else a[..3]) == (if |b| < 3 then b else b[..3])
    ensures TimestampToDate(a) == TimestampToDate(b)
  {
    if |a| >= 3 {
      assert a[..3][0] == b[..3][0] && a[..3][1] == b[..3][1] && a[..3][2] == b[..3][2];
    }
  }

  // ---------------------------------------------------------------------------
  // remove_html_tags: re.sub(r'<[^<]*?>', '', data)

  /** Where `[^<]*?>` ends when tried at position k: the first `>` reached before any `<`. */
  function TagClose(s: string, k: int): (r: Option<int>)
    requires 0 <= k <= |s|
    ensures r.Some? ==> k <= r.value < |s| && s[r.value] == '>'
    ensures r.Some? ==> forall j :: k <= j < r.value ==> s[j] != '<' && s[j] != '>'
    decreases |s| - k
  {
    if k == |s| then None
    else if s[k] == '>' then Some(k)
    else if s[k] == '<' then None
    else TagClose(s, k + 1)
  }

  /** One left-to-right pass that deletes every non-overlapping match of `<[^<]*?>`. It never
      lengthens the string, and a string without `<` holds no tag and comes back unchanged. */
  function RemoveHtmlTags(s: string): (r: string)
    ensures |r| <= |s|
    ensures '<' !in s ==> r == s
    decreases |s|
  {
    if s == [] then []
    else if s[0] == '<' then
      match TagClose(s, 1)
      case Some(j) => RemoveHtmlTags(s[j + 1..])
      case None => [s[0]] + RemoveHtmlTags(s[1..])
    else [s[0]] + RemoveHtmlTags(s[1..])
  }

  /** The output keeps characters of the input, in order, and adds none. */
  lemma {:induction false} RemoveHtmlTagsSubsequence(s: string)
    ensures IsSubsequence(RemoveHtmlTags(s), s)
    decreases |s|
  {
    if s != [] {
      if s[0] == '<' && TagClose(s, 1).Some? {
        var j := TagClose(s, 1).value;
        RemoveHtmlTagsSubsequence(s[j + 1..]);
        SubsequenceOfSuffix(RemoveHtmlTags(s[j + 1..]), s, j + 1);
      } else {
        RemoveHtmlTagsSubsequence(s[1..]);
        var r := RemoveHtmlTags(s);
        assert r == [s[0]] + RemoveHtmlTags(s[1..]);
        assert r[1..] == RemoveHtmlTags(s[1..]);
      }
    }
  }

  /** The pass is single: deleting an inner tag can join the text around it into a new one. */
  lemma RemoveHtmlTagsSinglePass()
    ensures RemoveHtmlTags("<<a>b>") == "<b>"
  {
    var s := "<<a>b>";
    assert TagClose(s, 1) == None;
    assert s[1..] == "<a>b>";
    assert TagClose(s[1..], 1) == Some(2);
    assert s[1..][3..] == "b>";
    assert RemoveHtmlTags("b>") == "b>";
  }

  // ---------------------------------------------------------------------------
  // BaseComicsComComicCrawler.crawl_helper

  const ComicsComRoot := "http://comics.com/"

  /** `title.lower().replace(' ', '_')` */
  function ComicsComSlug(title: string): string
  {
    ReplaceChar(Lower(title), ' ', '_')
  }

  /** `'http://comics.com/%(slug)s/%(date)s/'` with the date as `%Y-%m-%d`; strftime raises
      ValueError for years before 1900. */
  function ComicsComPageUrl(title: string, d: Date): (r: Result<string, Error>)
    requires Valid(d)
    ensures r.Err? <==> !StrftimeSupported(d)
    ensures r.Err? ==> r.error == OtherError(ValueError)
  {
    if !StrftimeSupported(d) then Err(OtherError(ValueError))
    else Ok(ComicsComRoot + ComicsComSlug(title) + "/" + FormatIso(d) + "/")
  }

  /** `'a.STR_StripImage img[alt^="%s"]' % title` */
  function ComicsComSelector(title: string): string
  {
    "a.STR_StripImage img[alt^=\"" + title + "\"]"
  }

  /** The slug keeps the title's length and has neither spaces nor ASCII capitals. */
  lemma ComicsComSlugShape(title: string)
    ensures |ComicsComSlug(title)| == |title|
    ensures forall k :: 0 <= k < |title| ==> ComicsComSlug(title)[k] != ' ' && !IsAsciiUpper(ComicsComSlug(title)[k])
  {
  }

  /** The page URL is the root, the slug, then a date segment that parses back to the date. */
  lemma ComicsComPageUrlShape(title: string, d: Date)
    requires Valid(d) && StrftimeSupported(d)
    ensures ComicsComPageUrl(title, d).Ok?
    ensures var u := ComicsComPageUrl(title, d).value;
      |u| == |ComicsComRoot| + |title| + 12
      && u[..|ComicsComRoot|] == ComicsComRoot
      && u[|ComicsComRoot|..|ComicsComRoot| + |title|] == ComicsComSlug(title)
      && u[|u| - 12] == '/' && u[|u| - 1] == '/'
      && ParseIso(u[|u| - 11..|u| - 1]) == Ok(d)
  {
    var u := ComicsComPageUrl(title, d).value;
    var slug := ComicsComSlug(title);
    assert u == ComicsComRoot + slug + "/" + FormatIso(d) + "/";
    assert u[|u| - 11..|u| - 1] == FormatIso(d);
    ParseFormatIso(d);
  }

  /** Different dates give different comics.com pages. */
  lemma ComicsComPageUrlInjective(title: string, a: Date, b: Date)
    requires Valid(a) && StrftimeSupported(a) && Valid(b) && StrftimeSupported(b)
    requires ComicsComPageUrl(title, a) == ComicsComPageUrl(title, b)
    ensures a == b
  {
    ComicsComPageUrlShape(title, a);
    ComicsComPageUrlShape(title, b);
  }
}
