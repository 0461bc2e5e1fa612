/** The Basic Instructions crawler (comics/crawler/crawlers/basicinstructions.py): every feed
    entry of the day whose title starts with "How to" sets the title, and the URL is the
    `"`-separated piece that follows the first piece containing `src=`. These functions
    specify the loops of Crawler.ComicCrawler.BasicInstructionsGetUrl. */
module BasicInstructions {
  import opened Outcomes
  import opened Dates
  import opened Strings
  import opened Collaborators
  import opened CrawlerHelpers

  const FeedUrl := "http://www.basicinstructions.net/atom.xml"
  const TitlePrefix := "How to"
  const SrcMarker := "src="

  /** The first piece at or after k that contains `src=`. */
  function FirstSrcPiece(pieces: seq<string>, k: int): (r: Option<int>)
    requires 0 <= k <= |pieces|
    ensures r.Some? ==> k <= r.value < |pieces| && Contains(pieces[r.value], SrcMarker)
    ensures r.Some? ==> forall j :: k <= j < r.value ==> !Contains(pieces[j], SrcMarker)
    ensures r.None? ==> forall j :: k <= j < |pieces| ==> !Contains(pieces[j], SrcMarker)
    decreases |pieces| - k
  {
    if k == |pieces| then None
    else if Contains(pieces[k], SrcMarker) then Some(k)
    else FirstSrcPiece(pieces, k + 1)
  }

  /** The inner loop over `summary.split('"')`: the piece after the first `src=` piece, no URL
      when no piece has `src=`, IndexError when that piece is the last one. */
  function SrcUrl(summary: string): Result<Option<string>, Error>
  {
    var pieces := Split(summary, '"');
    var first := FirstSrcPiece(pieces, 0);
    if first.None? then Ok(None)
    else if first.value + 1 < |pieces| then Ok(Some(pieces[first.value + 1]))
    else Err(OtherError(IndexError))
  }

  /** An entry is used when its date is the crawled date and its title starts with "How to". */
  predicate Qualifies(e: Entry, d: Date)
  {
    TimestampToDate(e.updatedParsed) == Ok(d) && StartsWith(e.title.chars, TitlePrefix)
  }

  /** The outer loop over the feed's entries, starting from fields `f`. It has no break: every
      qualifying entry is processed. */
  function Scan(entries: seq<Entry>, d: Date, f: Fields): Scanned
    decreases |entries|
  {
    if entries == [] then Scanned(f, Done)
    else
      var e := entries[0];
      var ed := TimestampToDate(e.updatedParsed);
      if ed.Err? then Scanned(f, Raised(ed.error))
      else if ed.value == d && StartsWith(e.title.chars, TitlePrefix) then
        var f1 := f.(title := Some(e.title));
        var src := SrcUrl(e.summary);
        if src.Err? then Scanned(f1, Raised(src.error))
        else if src.value.None? then Scan(entries[1..], d, f1)
        else Scan(entries[1..], d, f1.(url := src.value))
      else Scan(entries[1..], d, f)
  }

  /** The extracted URL is the piece right after the first `src=` piece, and never contains `"`. */
  lemma SrcUrlFound(summary: string)
    requires SrcUrl(summary).Ok? && SrcUrl(summary).value.Some?
    ensures '"' !in SrcUrl(summary).value.value
    ensures exists i :: SrcPieceAt(Split(summary, '"'), i) && SrcUrl(summary).value.value == Split(summary, '"')[i + 1]
  {
    SplitPiecesFree(summary, '"');
    var pieces := Split(summary, '"');
    var i := FirstSrcPiece(pieces, 0).value;
    assert SrcPieceAt(pieces, i);
  }

  /** Piece i is the first piece containing `src=`, and a piece follows it. */
  predicate SrcPieceAt(pieces: seq<string>, i: int)
  {
    0 <= i < |pieces| - 1 && Contains(pieces[i], SrcMarker)
    && forall j :: 0 <= j < i ==> !Contains(pieces[j], SrcMarker)
  }

  /** No URL is found exactly when no piece contains `src=`. */
  lemma SrcUrlAbsent(summary: string)
    ensures SrcUrl(summary) == Ok(None) <==>
      forall j :: 0 <= j < |Split(summary, '"')| ==> !Contains(Split(summary, '"')[j], SrcMarker)
  {
    var pieces := Split(summary, '"');
    var first := FirstSrcPiece(pieces, 0);
    if first.Some? {
      var i := first.value;
      assert SrcUrl(summary) != Ok(None);
      assert 0 <= i < |Split(summary, '"')| && Contains(Split(summary, '"')[i], SrcMarker);
    } else {
      assert SrcUrl(summary) == Ok(None);
    }
  }

  /** Indexing fails exactly when the first `src=` piece is the last piece. */
  lemma SrcUrlIndexError(summary: string)
    ensures var pieces := Split(summary, '"');
      SrcUrl(summary).Err? <==>
        Contains(pieces[|pieces| - 1], SrcMarker) && forall j :: 0 <= j < |pieces| - 1 ==> !Contains(pieces[j], SrcMarker)
    ensures SrcUrl(summary).Err? ==> SrcUrl(summary).error == OtherError(IndexError)
  {
    var pieces := Split(summary, '"');
    if Contains(pieces[|pieces| - 1], SrcMarker) && forall j :: 0 <= j < |pieces| - 1 ==> !Contains(pieces[j], SrcMarker) {
      assert FirstSrcPiece(pieces, 0) != None;
    }
  }

  /** With no qualifying entry (and every date readable), the fields are left exactly as they were. */
  lemma {:induction false} ScanNoQualifying(entries: seq<Entry>, d: Date, f: Fields)
    requires forall j :: 0 <= j < |entries| ==> TimestampToDate(entries[j].updatedParsed).Ok? && !Qualifies(entries[j], d)
    ensures Scan(entries, d, f) == Scanned(f, Done)
    decreases |entries|
  {
    if entries != [] {
      ScanNoQualifying(entries[1..], d, f);
    }
  }

  /** When the scan completes, the title is that of the LAST qualifying entry. */
  lemma {:induction false} ScanLastTitleWins(entries: seq<Entry>, d: Date, f: Fields, k: int)
    requires 0 <= k < |entries| && Qualifies(entries[k], d)
    requires forall j :: k < j < |entries| ==> !Qualifies(entries[j], d)
    requires Scan(entries, d, f).outcome == Done
    ensures Scan(entries, d, f).fields.title == Some(entries[k].title)
    decreases |entries|
  {
    var e := entries[0];
    var r := TimestampToDate(e.updatedParsed);
    assert r.Ok?;
    var f1 := f.(title := Some(e.title));
    var next := if Qualifies(e, d) && SrcUrl(e.summary).Ok? && SrcUrl(e.summary).value.Some?
                then f1.(url := SrcUrl(e.summary).value)
                else if Qualifies(e, d) then f1 else f;
    assert Scan(entries, d, f) == Scan(entries[1..], d, next);
    if k == 0 {
      assert next.title == Some(e.title);
      ScanTitleKept(entries[1..], d, next);
    } else {
      ScanLastTitleWins(entries[1..], d, next, k - 1);
    }
  }

  /** Entries that do not qualify leave the title alone. */
  lemma {:induction false} ScanTitleKept(entries: seq<Entry>, d: Date, f: Fields)
    requires forall j :: 0 <= j < |entries| ==> !Qualifies(entries[j], d)
    requires Scan(entries, d, f).outcome == Done
    ensures Scan(entries, d, f).fields.title == f.title
    decreases |entries|
  {
    if entries != [] {
      ScanTitleKept(entries[1..], d, f);
    }
  }

  /** A URL free of `"` stays free of `"`: every URL the scan assigns is a split piece. */
  lemma {:induction false} ScanUrlQuoteFree(entries: seq<Entry>, d: Date, f: Fields)
    requires f.url.Some? ==> '"' !in f.url.value
    ensures var g := Scan(entries, d, f).fields; g.url.Some? ==> '"' !in g.url.value
    decreases |entries|
  {
    if entries != [] {
      var e := entries[0];
      if SrcUrl(e.summary).Ok? && SrcUrl(e.summary).value.Some? {
        SrcUrlFound(e.summary);
      }
      var f1 := f.(title := Some(e.title));
      ScanUrlQuoteFree(entries[1..], d, f);
      ScanUrlQuoteFree(entries[1..], d, f1);
      if SrcUrl(e.summary).Ok? && SrcUrl(e.summary).value.Some? {
        ScanUrlQuoteFree(entries[1..], d, f1.(url := SrcUrl(e.summary).value));
      }
    }
  }

  /** A qualifying entry without a `src=` piece sets the title and keeps the URL from before. */
  lemma ScanSrclessEntryKeepsUrl(entries: seq<Entry>, d: Date, f: Fields)
    requires entries != [] && Qualifies(entries[0], d) && SrcUrl(entries[0].summary) == Ok(None)
    ensures Scan(entries, d, f) == Scan(entries[1..], d, f.(title := Some(entries[0].title)))
  {
  }

  /** When no qualifying entry has a `src=` piece, the URL is the one the scan started with. */
  lemma {:induction false} ScanUrlKept(entries: seq<Entry>, d: Date, f: Fields)
    requires forall j :: 0 <= j < |entries| && Qualifies(entries[j], d) ==> SrcUrl(entries[j].summary) == Ok(None)
    ensures Scan(entries, d, f).fields.url == f.url
    decreases |entries|
  {
    if entries != [] {
      var rest := entries[1..];
      assert forall j :: 0 <= j < |rest| && Qualifies(rest[j], d) ==> SrcUrl(rest[j].summary) == Ok(None) by {
        forall j | 0 <= j < |rest| && Qualifies(rest[j], d) ensures SrcUrl(rest[j].summary) == Ok(None) {
          assert rest[j] == entries[j + 1];
        }
      }
      ScanUrlKept(rest, d, f);
      ScanUrlKept(rest, d, f.(title := Some(entries[0].title)));
    }
  }

  /** When the scan completes, the URL is the one extracted from the LAST qualifying entry that
      has a `src=` piece; later qualifying entries without one leave it alone. */
  lemma {:induction false} ScanLastUrlWins(entries: seq<Entry>, d: Date, f: Fields, k: int)
    requires 0 <= k < |entries| && Qualifies(entries[k], d)
    requires SrcUrl(entries[k].summary).Ok? && SrcUrl(entries[k].summary).value.Some?
    requires forall j :: k < j < |entries| && Qualifies(entries[j], d) ==> SrcUrl(entries[j].summary) == Ok(None)
    requires Scan(entries, d, f).outcome == Done
    ensures Scan(entries, d, f).fields.url == SrcUrl(entries[k].summary).value
    decreases |entries|
  {
    var e := entries[0];
    var rest := entries[1..];
    assert TimestampToDate(e.updatedParsed).Ok?;
    var f1 := f.(title := Some(e.title));
    if k == 0 {
      var next := f1.(url := SrcUrl(e.summary).value);
      assert Scan(entries, d, f) == Scan(rest, d, next);
      assert forall j :: 0 <= j < |rest| && Qualifies(rest[j], d) ==> SrcUrl(rest[j].summary) == Ok(None) by {
        forall j | 0 <= j < |rest| && Qualifies(rest[j], d) ensures SrcUrl(rest[j].summary) == Ok(None) {
          assert rest[j] == entries[j + 1];
        }
      }
      ScanUrlKept(rest, d, next);
    } else {
      var next := if Qualifies(e, d) && SrcUrl(e.summary).Ok? && SrcUrl(e.summary).value.Some?
                  then f1.(url := SrcUrl(e.summary).value)
                  else if Qualifies(e, d) then f1 else f;
      assert Qualifies(e, d) ==> SrcUrl(e.summary).Ok?;
      assert Scan(entries, d, f) == Scan(rest, d, next);
      assert forall j :: k - 1 < j < |rest| && Qualifies(rest[j], d) ==> SrcUrl(rest[j].summary) == Ok(None) by {
        forall j | k - 1 < j < |rest| && Qualifies(rest[j], d) ensures SrcUrl(rest[j].summary) == Ok(None) {
          assert rest[j] == entries[j + 1];
        }
      }
      ScanLastUrlWins(rest, d, next, k - 1);
    }
  }
}
