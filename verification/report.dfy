/**
 From probe outcomes to the report: `check_all_links` turns every failing
 URL into one row per referencing page, `main` sorts the rows by page and
 URL, counts the broken URLs and chooses the exit code. The network is an
 outcome function standing for the probe of each URL.
 */
module Report {
  import opened Wrappers
  import opened Strings
  import opened Links
  import opened Probe
  import opened Seqs

  /** The `status` column: the response code, or "N/A" when none was obtained. */
  datatype StatusCell = Code(code: int) | NotAvailable

  /** One report row: `{"page", "url", "status", "reason"}`. */
  datatype Row = Row(page: Page, url: Url, status: StatusCell, reason: string)

  /** `status is None or status >= 400`: the outcome is reported. */
  predicate IsBroken(o: Outcome)
  {
    o.status.None? || o.status.value >= 400
  }

  function Cell(status: Option<int>): StatusCell
  {
    if status.Some? then Code(status.value) else NotAvailable
  }

  /** The row a failing URL contributes for one page. */
  function RowOf(page: Page, url: Url, o: Outcome): Row
  {
    Row(page, url, Cell(o.status), o.reason)
  }

  /** One row per page, in the pages' order, all carrying the same URL and outcome. */
  function RowsFor(pages: seq<Page>, url: Url, o: Outcome): (rows: seq<Row>)
    ensures |rows| == |pages|
    ensures forall i :: 0 <= i < |pages| ==> rows[i] == RowOf(pages[i], url, o)
  {
    if pages == [] then [] else [RowOf(pages[0], url, o)] + RowsFor(pages[1..], url, o)
  }

  /** The rows of one probed URL: none when it is fine, else one per page in ascending page order. */
  function FanOut(url: Url, pages: set<Page>, o: Outcome): (rows: seq<Row>)
    ensures !IsBroken(o) ==> rows == []
  {
    if IsBroken(o) then
      RowsFor(Sorted(pages), url, o)
    else
      []
  }

  /**
   A failing URL yields exactly one row for each of its pages, in strictly ascending
   page order, each carrying the URL's outcome; a URL that is fine yields none.
   */
  lemma FanOutRows(url: Url, pages: set<Page>, o: Outcome)
    ensures var rows := FanOut(url, pages, o);
            && |rows| == (if IsBroken(o) then |pages| else 0)
            && (forall r :: r in rows <==> IsBroken(o) && r.page in pages && r == RowOf(r.page, url, o))
            && (forall i, j :: 0 <= i < j < |rows| ==> LexLt(rows[i].page, rows[j].page))
  {
    if IsBroken(o) {
      var ps := Sorted(pages);
      SortedLength(pages);
      var rows := FanOut(url, pages, o);
      forall p | p in ps
        ensures RowOf(p, url, o) in rows
      {
        var i :| 0 <= i < |ps| && ps[i] == p;
        assert rows[i] == RowOf(p, url, o);
      }
    }
  }

  /** The URLs all have entries in the link map. */
  predicate InMap(m: LinkMap, urls: seq<Url>)
  {
    forall u :: u in urls ==> u in m
  }

  /** The row `check_all_links` reports for a URL of the link map and one of its pages. */
  ghost predicate Reported(m: LinkMap, urls: seq<Url>, probe: Url -> Outcome, r: Row)
    requires InMap(m, urls)
  {
    r.url in urls && r.page in m[r.url] && IsBroken(probe(r.url)) && r == RowOf(r.page, r.url, probe(r.url))
  }

  /** The rows one URL of the link map contributes once probed. */
  function Visit(m: LinkMap, probe: Url -> Outcome, url: Url): seq<Row>
  {
    if url in m then FanOut(url, m[url], probe(url)) else []
  }

  /**
   `check_all_links`: the URLs are visited in the order given (the link map's
   iteration order), each is probed once, and its rows are appended.
   */
  function CheckAllLinks(m: LinkMap, urls: seq<Url>, probe: Url -> Outcome): (rows: seq<Row>)
    requires InMap(m, urls)
    ensures urls == [] ==> rows == []
  {
    FlatMap(urls, u => Visit(m, probe, u))
  }

  /**
   A row is reported exactly when its URL was visited, its probe failed and its page
   references the URL; the row carries that URL's one outcome.
   */
  lemma CheckAllLinksRows(m: LinkMap, urls: seq<Url>, probe: Url -> Outcome)
    requires InMap(m, urls)
    ensures forall r :: r in CheckAllLinks(m, urls, probe) <==> Reported(m, urls, probe, r)
  {
    var f := u => Visit(m, probe, u);
    forall r
      ensures r in CheckAllLinks(m, urls, probe) <==> Reported(m, urls, probe, r)
    {
      FlatMapMember(urls, f, r);
      if r in CheckAllLinks(m, urls, probe) {
        var i :| 0 <= i < |urls| && r in f(urls[i]);
        FanOutRows(urls[i], m[urls[i]], probe(urls[i]));
      }
      if Reported(m, urls, probe, r) {
        var i :| 0 <= i < |urls| && urls[i] == r.url;
        FanOutRows(urls[i], m[urls[i]], probe(urls[i]));
        assert r in f(urls[i]);
      }
    }
  }

  /** Visiting the URLs in another order yields the same rows, possibly in another order. */
  lemma CheckAllLinksPermutation(m: LinkMap, a: seq<Url>, b: seq<Url>, probe: Url -> Outcome)
    requires InMap(m, a) && multiset(a) == multiset(b)
    ensures InMap(m, b)
    ensures multiset(CheckAllLinks(m, a, probe)) == multiset(CheckAllLinks(m, b, probe))
  {
    assert forall u :: u in b ==> u in multiset(a);
    FlatMapPermutation(a, b, u => Visit(m, probe, u));
  }

  /** The sort key `(page, url)`, compared as Python compares tuples. */
  predicate RowLe(a: Row, b: Row)
  {
    LexLt(a.page, b.page) || (a.page == b.page && LexLe(a.url, b.url))
  }

  lemma RowLeTotal(a: Row, b: Row)
    ensures RowLe(a, b) || RowLe(b, a)
  {
    LexLeTotal(a.page, b.page);
    LexLeTotal(a.url, b.url);
  }

  lemma RowLeTransitive(a: Row, b: Row, c: Row)
    requires RowLe(a, b) && RowLe(b, c)
    ensures RowLe(a, c)
  {
    if a.page == b.page && b.page == c.page {
      LexLeTransitive(a.url, b.url, c.url);
    } else {
      LexLeReflexive(a.page);
      LexLeReflexive(c.page);
      LexLeTransitive(a.page, b.page, c.page);
      if a.page == c.page {
        LexLeAntisymmetric(b.page, c.page);
      }
    }
  }

  lemma RowLeAntisymmetric(a: Row, b: Row)
    requires RowLe(a, b) && RowLe(b, a)
    ensures a.page == b.page && a.url == b.url
  {
    if a.page != b.page {
      LexLeAntisymmetric(a.page, b.page);
    }
    LexLeAntisymmetric(a.url, b.url);
  }

  /** Ascending by `(page, url)`. */
  predicate RowsSorted(rows: seq<Row>)
  {
    forall i, j :: 0 <= i < j < |rows| ==> RowLe(rows[i], rows[j])
  }

  /** Inserts a row before the first row whose key is not smaller. */
  function Insert(x: Row, rows: seq<Row>): (r: seq<Row>)
    requires RowsSorted(rows)
    ensures RowsSorted(r)
    ensures multiset(r) == multiset(rows) + multiset{x}
    decreases |rows|
  {
    if rows == [] then [x]
    else if RowLe(x, rows[0]) then
      assert forall j :: 0 < j < |rows| ==> RowLe(x, rows[j]) by {
        forall j | 0 < j < |rows|
          ensures RowLe(x, rows[j])
        {
          RowLeTransitive(x, rows[0], rows[j]);
        }
      }
      [x] + rows
    else
      RowLeTotal(x, rows[0]);
      var rest := Insert(x, rows[1..]);
      assert rows == [rows[0]] + rows[1..];
      assert forall y :: y in rest ==> RowLe(rows[0], y) by {
        forall y | y in rest
          ensures RowLe(rows[0], y)
        {
          assert y in multiset(rest);
          if y != x {
            assert y in multiset(rows[1..]);
          }
        }
      }
      [rows[0]] + rest
  }

  /** `results.sort(key=lambda r: (r["page"], r["url"]))`: the same rows, ascending by page and URL. */
  function SortRows(rows: seq<Row>): (s: seq<Row>)
    ensures RowsSorted(s)
    ensures multiset(s) == multiset(rows)
    decreases |rows|
  {
    if rows == [] then []
    else
      assert rows == [rows[0]] + rows[1..];
      Insert(rows[0], SortRows(rows[1..]))
  }

  /** Rows with the same page and URL are the same row. */
  ghost predicate KeysDetermineRows(rows: seq<Row>)
  {
    forall a, b :: a in rows && b in rows && a.page == b.page && a.url == b.url ==> a == b
  }

  lemma RowLeReflexive(a: Row)
    ensures RowLe(a, a)
  {
    LexLeReflexive(a.url);
  }

  lemma SortedHeadLeast(rows: seq<Row>, x: Row)
    requires RowsSorted(rows) && x in rows
    ensures RowLe(rows[0], x)
  {
    var i :| 0 <= i < |rows| && rows[i] == x;
    if i == 0 {
      RowLeReflexive(x);
    }
  }

  /** Two sorted arrangements of the same rows are equal when no two rows share a key. */
  lemma {:induction false} SortedUnique(a: seq<Row>, b: seq<Row>)
    requires RowsSorted(a) && RowsSorted(b)
    requires multiset(a) == multiset(b)
    requires KeysDetermineRows(a)
    ensures a == b
    decreases |a|
  {
    if a != [] {
      assert a[0] in multiset(b);
      assert b[0] in multiset(a);
      SortedHeadLeast(a, b[0]);
      SortedHeadLeast(b, a[0]);
      RowLeAntisymmetric(a[0], b[0]);
      assert a[0] == b[0];
      assert a == [a[0]] + a[1..];
      assert b == [b[0]] + b[1..];
      assert multiset(a[1..]) == multiset(a) - multiset{a[0]};
      assert multiset(b[1..]) == multiset(b) - multiset{b[0]};
      assert forall x :: x in a[1..] ==> x in a;
      SortedUnique(a[1..], b[1..]);
    }
  }

  /** `{r["url"] for r in results}`. */
  function BrokenUrls(rows: seq<Row>): set<Url>
  {
    set r | r in rows :: r.url
  }

  /** No more broken URLs than rows. */
  lemma {:induction false} BrokenUrlsAtMostRows(rows: seq<Row>)
    ensures |BrokenUrls(rows)| <= |rows|
    decreases |rows|
  {
    if rows != [] {
      BrokenUrlsAtMostRows(rows[1..]);
      assert BrokenUrls(rows) == BrokenUrls(rows[1..]) + {rows[0].url};
    }
  }

  /** `0 if not results else 1`. */
  function ExitCode(rows: seq<Row>): int
  {
    if rows == [] then 0 else 1
  }

  /** Two rows `check_all_links` reports with the same page and URL are the same row. */
  lemma ReportedRowsKeyed(m: LinkMap, urls: seq<Url>, probe: Url -> Outcome)
    requires InMap(m, urls)
    ensures KeysDetermineRows(CheckAllLinks(m, urls, probe))
  {
    CheckAllLinksRows(m, urls, probe);
  }

  lemma KeysDeterminePermutation(a: seq<Row>, b: seq<Row>)
    requires multiset(a) == multiset(b) && KeysDetermineRows(a)
    ensures KeysDetermineRows(b)
  {
    forall x, y | x in b && y in b && x.page == y.page && x.url == y.url
      ensures x == y
    {
      assert x in multiset(a) && y in multiset(a);
    }
  }

  /** The sorted report does not depend on the order in which the URLs were visited. */
  lemma ReportIndependentOfOrder(m: LinkMap, a: seq<Url>, b: seq<Url>, probe: Url -> Outcome)
    requires InMap(m, a) && InMap(m, b) && multiset(a) == multiset(b)
    ensures SortRows(CheckAllLinks(m, a, probe)) == SortRows(CheckAllLinks(m, b, probe))
  {
    CheckAllLinksPermutation(m, a, b, probe);
    ReportedRowsKeyed(m, a, probe);
    var sa := SortRows(CheckAllLinks(m, a, probe));
    var sb := SortRows(CheckAllLinks(m, b, probe));
    KeysDeterminePermutation(CheckAllLinks(m, a, probe), sa);
    SortedUnique(sa, sb);
  }

  /** The URLs of the link map that are referenced and whose probe failed. */
  ghost function FailingUrls(m: LinkMap, urls: seq<Url>, probe: Url -> Outcome): set<Url>
    requires InMap(m, urls)
  {
    set u | u in urls && m[u] != {} && IsBroken(probe(u))
  }

  /**
   The broken-URL count of the sorted rows counts exactly the failing URLs that
   have a page, and the exit code is 0 exactly when there is none.
   */
  lemma SummarySpec(m: LinkMap, urls: seq<Url>, probe: Url -> Outcome)
    requires InMap(m, urls)
    ensures var rows := SortRows(CheckAllLinks(m, urls, probe));
            && (forall u :: u in BrokenUrls(rows) <==> u in urls && m[u] != {} && IsBroken(probe(u)))
            && (ExitCode(rows) == 0 <==> FailingUrls(m, urls, probe) == {})
  {
    var raw := CheckAllLinks(m, urls, probe);
    var rows := SortRows(raw);
    CheckAllLinksRows(m, urls, probe);
    assert forall r :: r in rows <==> r in raw by {
      forall r
        ensures r in rows <==> r in raw
      {
        assert r in rows <==> r in multiset(rows);
      }
    }
    forall u | u in FailingUrls(m, urls, probe)
      ensures u in BrokenUrls(rows)
    {
      var p :| p in m[u];
      assert Reported(m, urls, probe, RowOf(p, u, probe(u)));
    }
    if rows != [] {
      assert rows[0] in raw;
      assert rows[0].url in FailingUrls(m, urls, probe);
    }
  }

  /** Sorting keeps exactly the rows it was given. */
  lemma SortRowsMembers(rows: seq<Row>)
    ensures forall r :: r in SortRows(rows) <==> r in rows
  {
    forall r
      ensures r in SortRows(rows) <==> r in rows
    {
      assert r in SortRows(rows) <==> r in multiset(SortRows(rows));
    }
  }

  /** An ordering of the link map's URLs, each exactly once: the iteration order of `link_map`. */
  predicate Enumerates(urls: seq<Url>, m: LinkMap)
  {
    && (forall u :: u in urls ==> u in m)
    && (forall u :: u in m ==> u in urls)
    && (forall i, j :: 0 <= i < j < |urls| ==> urls[i] != urls[j])
  }

  /**
   `check_one_url` runs once per unique URL, however many pages share it: the
   enumeration has exactly the link map's size, which is at most the number of
   external references.
   */
  lemma ProbesEachUrlOnce(pages: seq<PageLinks>, urls: seq<Url>)
    requires Enumerates(urls, Collect(pages).linkMap)
    ensures |urls| == |Collect(pages).linkMap|
    ensures |urls| <= Collect(pages).perPageCount
  {
    var m := Collect(pages).linkMap;
    DistinctLength(urls);
    assert (set u | u in urls) == m.Keys;
    UniqueAtMostReferences(pages);
  }

  /** The sorted rows written to the report, the two counts printed, and the exit code. */
  datatype Summary = Summary(rows: seq<Row>, brokenUnique: nat, brokenReferences: nat, exitCode: int)

  /**
   Steps 2 to 5 of `main`: aggregate the pages' links, probe each URL of the link
   map once (in the map's iteration order `urls`), fan failures out to their pages,
   sort, count and choose the exit code.
   */
  function LinkCheck(pages: seq<PageLinks>, urls: seq<Url>, probe: Url -> Outcome): (s: Summary)
    requires Enumerates(urls, Collect(pages).linkMap)
    ensures RowsSorted(s.rows)
    ensures s.exitCode == 0 <==> s.rows == []
    ensures s.brokenUnique <= s.brokenReferences == |s.rows|
  {
    var rows := SortRows(CheckAllLinks(Collect(pages).linkMap, urls, probe));
    BrokenUrlsAtMostRows(rows);
    Summary(rows, |BrokenUrls(rows)|, |rows|, ExitCode(rows))
  }

  /**
   The report holds one row for each pair of an external URL whose probe failed and
   a page that references it, carrying that URL's outcome, and no other row.
   */
  lemma LinkCheckRows(pages: seq<PageLinks>, urls: seq<Url>, probe: Url -> Outcome)
    requires Enumerates(urls, Collect(pages).linkMap)
    ensures forall r :: r in LinkCheck(pages, urls, probe).rows <==>
              && Referenced(pages, r.url)
              && r.page in ReferencingPages(pages, r.url)
              && IsBroken(probe(r.url))
              && r == RowOf(r.page, r.url, probe(r.url))
  {
    var m := Collect(pages).linkMap;
    var raw := CheckAllLinks(m, urls, probe);
    CollectKeys(pages);
    CollectPages(pages);
    CheckAllLinksRows(m, urls, probe);
    SortRowsMembers(raw);
  }

  /** The URLs of the link map whose probe failed. */
  ghost function BrokenLinks(pages: seq<PageLinks>, probe: Url -> Outcome): set<Url>
  {
    set u | u in Collect(pages).linkMap && IsBroken(probe(u))
  }

  /**
   The broken-URL count is the number of link-map URLs whose probe failed, and the
   exit code is 0 exactly when no referenced external URL failed.
   */
  lemma LinkCheckSummary(pages: seq<PageLinks>, urls: seq<Url>, probe: Url -> Outcome)
    requires Enumerates(urls, Collect(pages).linkMap)
    ensures LinkCheck(pages, urls, probe).brokenUnique == |BrokenLinks(pages, probe)|
    ensures LinkCheck(pages, urls, probe).exitCode == 0 <==> forall u :: Referenced(pages, u) ==> !IsBroken(probe(u))
  {
    var m := Collect(pages).linkMap;
    CollectKeys(pages);
    LinkMapPagesNonEmpty(pages);
    SummarySpec(m, urls, probe);
    var failing := FailingUrls(m, urls, probe);
    assert failing == BrokenLinks(pages, probe);
    var rows := LinkCheck(pages, urls, probe).rows;
    assert rows == SortRows(CheckAllLinks(m, urls, probe));
    assert BrokenUrls(rows) == failing;
    if failing == {} {
      forall u | Referenced(pages, u)
        ensures !IsBroken(probe(u))
      {
        assert u in m && m[u] != {};
        assert u !in failing;
      }
    } else {
      var u :| u in failing;
      assert Referenced(pages, u);
    }
  }
}
