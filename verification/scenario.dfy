/**
 A whole run on two pages: `a.html` links to a good site, `b.html` links to
 the good site and to a broken one. The good server answers every HEAD with
 200; the broken one answers every HEAD with 500 and no reason phrase.
 */
module Scenario {
  import opened Wrappers
  import opened Strings
  import opened Links
  import opened Probe
  import opened Report
  import opened Seqs

  const Good: Url := "http://good.example"
  const Bad: Url := "http://bad.example"
  const Pages: seq<PageLinks> := [("a.html", [Good]), ("b.html", [Good, Bad])]

  /** The scripted network of each server: the same answers on every attempt. */
  function Server(url: Url): nat -> Exchange
  {
    _ => Exchange(HeadStatus(if url == Bad then 500 else 200, None), GetStatus(200, None))
  }

  /** `check_one_url` with the default retry count against the scripted servers. */
  function ProbeUrl(url: Url): Outcome
  {
    CheckOneUrl(Server(url), RETRY_COUNT).outcome
  }

  const LinkMapOfPages: LinkMap := map[Good := {"a.html", "b.html"}, Bad := {"b.html"}]

  /** The good URL is referenced by both pages, the broken one by `b.html` only. */
  lemma ScenarioLinkMap()
    ensures Collect(Pages).linkMap == LinkMapOfPages
    ensures Collect(Pages).perPageCount == 3
  {
    assert IsExternal(Good) && IsExternal(Bad);
    assert ExternalLinks([Good]) == [Good];
    assert ExternalLinks([Good, Bad]) == [Good, Bad];
    var first: seq<PageLinks> := [("a.html", [Good])];
    assert Pages[..1] == first;
    assert first[..|first| - 1] == [];
    assert Collect(first[..|first| - 1]) == Collected(map[], 0);
    assert first[|first| - 1] == ("a.html", [Good]);
    var c1 := Collect(first);
    assert c1 == Collected(AddPage(map[], "a.html", [Good]), 1);
    var m1 := c1.linkMap;
    assert m1 == map[Good := {"a.html"}] by {
      assert m1.Keys == {Good};
    }
    var m := Collect(Pages).linkMap;
    assert m == AddPage(m1, "b.html", [Good, Bad]);
    assert m.Keys == {Good, Bad};
    assert m[Good] == {"a.html", "b.html"};
    assert m[Bad] == {"b.html"};
  }

  /** The good URL probes as (200, "OK") and the broken one as (500, "Error"), each in one HEAD. */
  lemma ScenarioProbes()
    ensures ProbeUrl(Good) == Outcome(Some(200), "OK")
    ensures ProbeUrl(Bad) == Outcome(Some(500), "Error")
  {

  }

  /** Only the broken URL yields a row, for its one page. */
  lemma ScenarioRows()
    ensures CheckAllLinks(LinkMapOfPages, [Good, Bad], ProbeUrl) == [Row("b.html", Bad, Code(500), "Error")]
  {
    var m := LinkMapOfPages;
    ScenarioProbes();
    assert Sorted({"b.html"}) == ["b.html"];
    var row := Row("b.html", Bad, Code(500), "Error");
    var f := u => Visit(m, ProbeUrl, u);
    assert f(Good) == [];
    assert f(Bad) == [row] by {
      assert RowsFor(["b.html"], Bad, ProbeUrl(Bad)) == [row];
    }
    assert FlatMap([Bad], f) == [row] by {
      assert [Bad][1..] == [];
    }
    assert [Good, Bad][1..] == [Bad];
  }

  /** One row, for `b.html` and the broken URL with status 500 and reason "Error"; exit code 1. */
  lemma EndToEnd()
    ensures Enumerates([Good, Bad], Collect(Pages).linkMap)
    ensures LinkCheck(Pages, [Good, Bad], ProbeUrl) == Summary([Row("b.html", Bad, Code(500), "Error")], 1, 1, 1)
  {
    ScenarioLinkMap();
    var m := Collect(Pages).linkMap;
    assert Enumerates([Good, Bad], m);
    var row := Row("b.html", Bad, Code(500), "Error");
    assert SortRows(CheckAllLinks(m, [Good, Bad], ProbeUrl)) == [row] by {
      ScenarioRows();
      assert SortRows([row]) == [row];
    }
    assert |BrokenUrls([row])| == 1 by {
      assert BrokenUrls([row]) == {Bad};
    }
  }
}
