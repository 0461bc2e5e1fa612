/** The Focus Shift crawler (comics/crawler/crawlers/focusshift.py): the first feed entry of
    the day gives the title, and `re.match('.*src="([^"]+)".*', summary)` gives the URL.
    These functions specify the loop of Crawler.ComicCrawler.FocusShiftGetUrl. */
module FocusShift {
  import opened Outcomes
  import opened Dates
  import opened Strings
  import opened Collaborators
  import opened CrawlerHelpers

  const FeedUrl := "http://osnews.com/files/comics.xml"
  const SrcOpen := "src=\""

  // ---------------------------------------------------------------------------
  // The regular expression. `re.match` anchors at 0; `.` matches anything but a newline, so
  // the leading `.*` can only cover the first line; being greedy it backtracks from the
  // longest prefix, so the LAST reachable `src="` that is followed by a non-empty run of
  // non-quote characters and a closing quote is the one captured.

  /** The index of the first c at or after k, or |s|: the end of the first line for c = '\n',
      the end of a run of non-quote characters for c = '"'. */
  function NextIndexOf(s: string, c: char, k: int): (r: int)
    requires 0 <= k <= |s|
    ensures k <= r <= |s| && (r < |s| ==> s[r] == c)
    ensures forall j :: k <= j < r ==> s[j] != c
    decreases |s| - k
  {
    if k == |s| || s[k] == c then k else NextIndexOf(s, c, k + 1)
  }

  /** `src="([^"]+)"` matches at i. */
  predicate CaptureAt(s: string, i: int)
  {
    OccursAt(s, SrcOpen, i) && i + 5 < NextIndexOf(s, '"', i + 5) < |s|
  }

  /** The text group 1 captures when the match uses position i. */
  function CaptureText(s: string, i: int): string
    requires CaptureAt(s, i)
  {
    s[i + 5..NextIndexOf(s, '"', i + 5)]
  }

  /** The largest i <= k at which the pattern matches. */
  function LastCapture(s: string, k: int): (r: Option<int>)
    requires k < 0 || k <= |s|
    ensures r.Some? ==> 0 <= r.value <= k && CaptureAt(s, r.value)
    ensures r.Some? ==> forall j :: r.value < j <= k ==> !CaptureAt(s, j)
    ensures r.None? ==> forall j :: 0 <= j <= k ==> !CaptureAt(s, j)
    decreases k
  {
    if k < 0 then None
    else if CaptureAt(s, k) then Some(k)
    else LastCapture(s, k - 1)
  }

  /** `m.groups()[0]`, or None when `re.match` returns None. */
  function Capture(s: string): Option<string>
  {
    var i := LastCapture(s, NextIndexOf(s, '\n', 0));
    if i.Some? then Some(CaptureText(s, i.value)) else None
  }

  /** A capture exists exactly when the pattern can match on the first line; it then is the
      group of the last such position, non-empty and free of `"`. */
  lemma CaptureSpec(s: string)
    ensures Capture(s).Some? <==> exists i :: 0 <= i <= NextIndexOf(s, '\n', 0) && CaptureAt(s, i)
    ensures Capture(s).Some? ==>
      Capture(s).value != "" && '"' !in Capture(s).value
      && exists i :: 0 <= i <= NextIndexOf(s, '\n', 0) && CaptureAt(s, i) && Capture(s).value == CaptureText(s, i)
           && forall j :: i < j <= NextIndexOf(s, '\n', 0) ==> !CaptureAt(s, j)
  {
    var i := LastCapture(s, NextIndexOf(s, '\n', 0));
    if i.Some? {
      var t := CaptureText(s, i.value);
      assert forall k :: 0 <= k < |t| ==> t[k] == s[i.value + 5 + k];
    }
  }

  /** A summary without `src="` gives no match. */
  lemma NoSrcNoCapture(s: string)
    requires !Contains(s, SrcOpen)
    ensures Capture(s).None?
  {
    ContainsIff(s, SrcOpen);
  }

  // ---------------------------------------------------------------------------
  // The loop over the feed's entries

  /** The loop, starting from fields `f`: the first entry of the day sets the title, then its
      capture sets the URL (AttributeError from `.groups()` on None when there is none), and
      the method returns. */
  function Scan(entries: seq<Entry>, d: Date, f: Fields): Scanned
    decreases |entries|
  {
    if entries == [] then Scanned(f, Done)
    else
      var e := entries[0];
      var ed := TimestampToDate(e.updatedParsed);
      if ed.Err? then Scanned(f, Raised(ed.error))
      else if ed.value == d then
        var f1 := f.(title := Some(e.title));
        var c := Capture(e.summary);
        if c.None? then Scanned(f1, Raised(OtherError(AttributeError)))
        else Scanned(f1.(url := c), Done)
      else Scan(entries[1..], d, f)
  }

  /** Only the first entry of the day is used: its title, and its capture as URL. */
  lemma {:induction false} ScanFirstMatch(entries: seq<Entry>, d: Date, f: Fields, k: int)
    requires 0 <= k < |entries| && TimestampToDate(entries[k].updatedParsed) == Ok(d)
    requires forall j :: 0 <= j < k ==> TimestampToDate(entries[j].updatedParsed).Ok? && TimestampToDate(entries[j].updatedParsed).value != d
    ensures Scan(entries, d, f).fields.title == Some(entries[k].title)
    ensures Capture(entries[k].summary).Some? ==>
      Scan(entries, d, f) == Scanned(Fields(Some(entries[k].title), Capture(entries[k].summary)), Done)
    ensures Capture(entries[k].summary).None? ==>
      Scan(entries, d, f) == Scanned(Fields(Some(entries[k].title), f.url), Raised(OtherError(AttributeError)))
    decreases k
  {
    if k > 0 {
      ScanFirstMatch(entries[1..], d, f, k - 1);
    }
  }

  /** The scan's URL is the one it started with or the capture of one of the entries. */
  lemma {:induction false} ScanUrlIsCapture(entries: seq<Entry>, d: Date, f: Fields)
    ensures var u := Scan(entries, d, f).fields.url;
      u == f.url || exists k :: 0 <= k < |entries| && u == Capture(entries[k].summary)
    decreases |entries|
  {
    if entries != [] {
      var u := Scan(entries, d, f).fields.url;
      var ed := TimestampToDate(entries[0].updatedParsed);
      if ed.Ok? && ed.value != d {
        ScanUrlIsCapture(entries[1..], d, f);
        if u != f.url {
          var k :| 0 <= k < |entries[1..]| && u == Capture(entries[1..][k].summary);
          assert u == Capture(entries[k + 1].summary);
        }
      } else if u != f.url {
        assert u == Capture(entries[0].summary);
      }
    }
  }

  /** Entry k is the first entry of date d, and every entry before it has a readable date. */
  predicate FirstOfDate(entries: seq<Entry>, d: Date, k: int)
  {
    0 <= k < |entries| && TimestampToDate(entries[k].updatedParsed) == Ok(d)
    && forall j :: 0 <= j < k ==> TimestampToDate(entries[j].updatedParsed).Ok? && TimestampToDate(entries[j].updatedParsed).value != d
  }

  /** A scan that returns normally with a new URL took it from the first entry of the date. */
  lemma {:induction false} ScanNewUrlFromFirst(entries: seq<Entry>, d: Date, f: Fields)
    requires Scan(entries, d, f).outcome == Done && Scan(entries, d, f).fields.url != f.url
    ensures exists k :: FirstOfDate(entries, d, k) && Scan(entries, d, f).fields.url == Capture(entries[k].summary)
    decreases |entries|
  {
    var ed := TimestampToDate(entries[0].updatedParsed);
    if ed.Ok? && ed.value != d {
      ScanNewUrlFromFirst(entries[1..], d, f);
      var k :| FirstOfDate(entries[1..], d, k) && Scan(entries[1..], d, f).fields.url == Capture(entries[1..][k].summary);
      assert FirstOfDate(entries, d, k + 1) by {
        forall j | 0 <= j < k + 1
          ensures TimestampToDate(entries[j].updatedParsed).Ok? && TimestampToDate(entries[j].updatedParsed).value != d
        {
          if j > 0 {
            assert entries[j] == entries[1..][j - 1];
          }
        }
      }
    } else {
      assert FirstOfDate(entries, d, 0);
    }
  }

  /** With no entry of the day (and every date readable), title and URL stay unset as they were. */
  lemma {:induction false} ScanNoMatch(entries: seq<Entry>, d: Date, f: Fields)
    requires forall j :: 0 <= j < |entries| ==> TimestampToDate(entries[j].updatedParsed).Ok? && TimestampToDate(entries[j].updatedParsed).value != d
    ensures Scan(entries, d, f) == Scanned(f, Done)
    decreases |entries|
  {
    if entries != [] {
      ScanNoMatch(entries[1..], d, f);
    }
  }
}
