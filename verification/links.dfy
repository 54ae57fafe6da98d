/**
 Link extraction filters and the reference aggregation of `main`: every
 page contributes its external hrefs, and the link map sends each external
 URL to the set of pages that reference it, while a counter adds up the
 external references, duplicates included.
 */
module Links {
  import opened Wrappers
  import opened Strings
  import opened Seqs

  /** A page is named by its file name. */
  type Page = string
  type Url = string

  /** `link_map`: each URL to the pages that reference it. */
  type LinkMap = map<Url, set<Page>>

  /** A page and the raw href values found in it, in document order. */
  type PageLinks = (Page, seq<string>)

  /** What the aggregation loop leaves behind: `link_map` and `per_page_count`. */
  datatype Collected = Collected(linkMap: LinkMap, perPageCount: nat)

  /** `is_external`: the URL names an http or https resource. */
  predicate IsExternal(url: string)
  {
    StartsWith(url, "http://") || StartsWith(url, "https://")
  }

  /** The scheme test is exact: relative links, other schemes and upper-case schemes are not external. */
  lemma ExternalExamples()
    ensures IsExternal("http://example.org") && IsExternal("https://example.org/a")
    ensures !IsExternal("/about.html") && !IsExternal("mailto:x@example.org")
    ensures !IsExternal("HTTP://example.org") && !IsExternal("http:/example.org") && !IsExternal("")
  {
    assert "/about.html"[0] != "http://"[0] && "/about.html"[0] != "https://"[0];
    assert "mailto:x@example.org"[0] != "http://"[0] && "mailto:x@example.org"[0] != "https://"[0];
    assert "HTTP://example.org"[0] != "http://"[0] && "HTTP://example.org"[0] != "https://"[0];
    assert "http:/example.org"[6] != "http://"[6] && "http:/example.org"[4] != "https://"[4];
  }

  /** The non-empty `href` values among the attributes of an `<a>` start tag, in attribute order. */
  function HrefValues(attrs: seq<(string, Option<string>)>): (links: seq<string>)
    ensures |links| <= |attrs|
    ensures forall v :: multiset(links)[v] == if v == "" then 0 else multiset(attrs)[("href", Some(v))]
  {
    if attrs == [] then []
    else
      var rest := HrefValues(attrs[1..]);
      assert attrs == [attrs[0]] + attrs[1..];
      var (name, value) := attrs[0];
      if name == "href" && value.Some? && value.value != "" then [value.value] + rest else rest
  }

  /** `LinkExtractor.handle_starttag`: the links one start tag adds to the extractor. */
  function StartTagLinks(tag: string, attrs: seq<(string, Option<string>)>): (links: seq<string>)
    ensures tag != "a" ==> links == []
    ensures forall v :: v in links <==> tag == "a" && v != "" && ("href", Some(v)) in attrs
    ensures forall v :: multiset(links)[v] == if tag != "a" || v == "" then 0 else multiset(attrs)[("href", Some(v))]
  {
    if tag == "a" then HrefValues(attrs) else []
  }

  /** `[l for l in links if is_external(l)]`: external links kept with their multiplicity and order. */
  function ExternalLinks(links: seq<string>): (ext: seq<Url>)
    ensures |ext| <= |links|
    ensures forall u :: u in ext <==> u in links && IsExternal(u)
  {
    if links == [] then []
    else
      var rest := ExternalLinks(links[1..]);
      assert forall x :: x in links <==> x == links[0] || x in links[1..];
      if IsExternal(links[0]) then [links[0]] + rest else rest
  }

  /** Each external link is kept as often as it occurs; every other link is dropped. */
  lemma {:induction false} ExternalLinksCounts(links: seq<string>)
    ensures forall u :: multiset(ExternalLinks(links))[u] == if IsExternal(u) then multiset(links)[u] else 0
    decreases |links|
  {
    if links != [] {
      ExternalLinksCounts(links[1..]);
      assert links == [links[0]] + links[1..];
    }
  }

  /** The external links of two runs of hrefs are those of each run, in turn. */
  lemma {:induction false} ExternalLinksAppend(a: seq<string>, b: seq<string>)
    ensures ExternalLinks(a + b) == ExternalLinks(a) + ExternalLinks(b)
    decreases |a|
  {
    if a == [] {
      assert a + b == b;
    } else {
      assert (a + b)[0] == a[0];
      assert (a + b)[1..] == a[1..] + b;
      ExternalLinksAppend(a[1..], b);
    }
  }

  /** `for url in urls: link_map.setdefault(url, set()).add(page)`. */
  function AddPage(m: LinkMap, page: Page, urls: seq<Url>): (m': LinkMap)
    ensures forall u :: u in m' <==> u in m || u in urls
    ensures forall u :: u in m' ==> m'[u] == (if u in m then m[u] else {}) + (if u in urls then {page} else {})
    decreases |urls|
  {
    if urls == [] then m
    else
      var u := urls[0];
      assert forall x :: x in urls <==> x == u || x in urls[1..];
      AddPage(m[u := (if u in m then m[u] else {}) + {page}], page, urls[1..])
  }

  /** The loop of `main` over the pages, in order: the link map and the reference count. */
  function Collect(pages: seq<PageLinks>): (c: Collected)
    decreases |pages|
  {
    if pages == [] then Collected(map[], 0)
    else
      var prev := Collect(pages[..|pages| - 1]);
      var (page, links) := pages[|pages| - 1];
      var external := ExternalLinks(links);
      Collected(AddPage(prev.linkMap, page, external), prev.perPageCount + |external|)
  }

  /** Some page holds the URL as an href, and the URL is external. */
  ghost predicate Referenced(pages: seq<PageLinks>, url: Url)
  {
    IsExternal(url) && exists i :: 0 <= i < |pages| && url in pages[i].1
  }

  /** The pages that hold the URL as an href. */
  ghost function ReferencingPages(pages: seq<PageLinks>, url: Url): set<Page>
  {
    set i | 0 <= i < |pages| && url in pages[i].1 :: pages[i].0
  }

  /** Every href of every page, in order, duplicates included. */
  function AllHrefs(pages: seq<PageLinks>): seq<string>
    decreases |pages|
  {
    if pages == [] then [] else AllHrefs(pages[..|pages| - 1]) + pages[|pages| - 1].1
  }

  /** The link map's URLs are exactly the external URLs some page references. */
  lemma {:induction false} CollectKeys(pages: seq<PageLinks>)
    ensures forall u :: u in Collect(pages).linkMap <==> Referenced(pages, u)
    decreases |pages|
  {
    if pages != [] {
      var n := |pages| - 1;
      var prefix := pages[..n];
      CollectKeys(prefix);
      forall u
        ensures u in Collect(pages).linkMap <==> Referenced(pages, u)
      {
        if Referenced(pages, u) {
          var i :| 0 <= i < |pages| && u in pages[i].1;
          if i < n {
            assert prefix[i] == pages[i];
            assert Referenced(prefix, u);
          }
        }
        if Referenced(prefix, u) {
          var i :| 0 <= i < |prefix| && u in prefix[i].1;
          assert pages[i] == prefix[i];
        }
      }
    }
  }

  /** Each URL of the link map is sent to exactly the pages that reference it. */
  lemma {:induction false} CollectPages(pages: seq<PageLinks>)
    ensures forall u :: u in Collect(pages).linkMap ==> Collect(pages).linkMap[u] == ReferencingPages(pages, u)
    decreases |pages|
  {
    if pages != [] {
      var n := |pages| - 1;
      var prefix := pages[..n];
      CollectPages(prefix);
      CollectKeys(pages);
      CollectKeys(prefix);
      var m := Collect(pages).linkMap;
      var pm := Collect(prefix).linkMap;
      var ext := ExternalLinks(pages[n].1);
      assert m == AddPage(pm, pages[n].0, ext);
      forall u | u in m
        ensures m[u] == ReferencingPages(pages, u)
      {
        ReferencingPagesLast(pages, u);
        assert IsExternal(u);
        assert u in pages[n].1 <==> u in ext;
      }
    }
  }

  /** The pages referencing a URL are those of the earlier pages, plus the last page if it does. */
  lemma ReferencingPagesLast(pages: seq<PageLinks>, u: Url)
    requires pages != []
    ensures var n := |pages| - 1;
            ReferencingPages(pages, u)
            == ReferencingPages(pages[..n], u) + (if u in pages[n].1 then {pages[n].0} else {})
  {

  }

  /** The reference count is the number of external hrefs over all pages, duplicates included. */
  lemma {:induction false} CollectCount(pages: seq<PageLinks>)
    ensures Collect(pages).perPageCount == |ExternalLinks(AllHrefs(pages))|
    decreases |pages|
  {
    if pages != [] {
      var n := |pages| - 1;
      CollectCount(pages[..n]);
      ExternalLinksAppend(AllHrefs(pages[..n]), pages[n].1);
    }
  }

  /**
   The link map holds exactly the external URLs some page references, each with
   exactly the pages that reference it; the count is the number of external hrefs
   over all pages, duplicates included.
   */
  lemma CollectSpec(pages: seq<PageLinks>)
    ensures var c := Collect(pages);
            && (forall u :: u in c.linkMap <==> Referenced(pages, u))
            && (forall u :: u in c.linkMap ==> c.linkMap[u] == ReferencingPages(pages, u))
            && c.perPageCount == |ExternalLinks(AllHrefs(pages))|
  {
    CollectKeys(pages);
    CollectPages(pages);
    CollectCount(pages);
  }

  /** No URL of the link map lacks a page, and only pages that were read appear. */
  lemma LinkMapPagesNonEmpty(pages: seq<PageLinks>)
    ensures forall u :: u in Collect(pages).linkMap ==> Collect(pages).linkMap[u] != {}
    ensures forall u, p :: u in Collect(pages).linkMap && p in Collect(pages).linkMap[u] ==>
              exists i :: 0 <= i < |pages| && pages[i].0 == p
  {

  }

  /** There are never more unique URLs than external references. */
  lemma UniqueAtMostReferences(pages: seq<PageLinks>)
    ensures |Collect(pages).linkMap| <= Collect(pages).perPageCount
  {
    CollectSpec(pages);
    var c := Collect(pages);
    var ext := ExternalLinks(AllHrefs(pages));
    assert c.linkMap.Keys == set u | u in ext by {
      forall u | u in c.linkMap
        ensures u in ext
      {
        var i :| 0 <= i < |pages| && u in pages[i].1;
        AllHrefsContains(pages, i);
      }
      forall u | u in ext
        ensures u in c.linkMap
      {
        AllHrefsMember(pages, u);
      }
    }
    DistinctAtMostLength(ext);
  }

  /** Each page's hrefs are among all hrefs. */
  lemma {:induction false} AllHrefsContains(pages: seq<PageLinks>, i: nat)
    requires i < |pages|
    ensures forall h :: h in pages[i].1 ==> h in AllHrefs(pages)
    decreases |pages|
  {
    var n := |pages| - 1;
    if i < n {
      AllHrefsContains(pages[..n], i);
    }
  }

  /** Every href of all hrefs comes from some page. */
  lemma {:induction false} AllHrefsMember(pages: seq<PageLinks>, h: string)
    requires h in AllHrefs(pages)
    ensures exists i :: 0 <= i < |pages| && h in pages[i].1
    decreases |pages|
  {
    var n := |pages| - 1;
    if h !in pages[n].1 {
      AllHrefsMember(pages[..n], h);
      var i :| 0 <= i < n && h in pages[..n][i].1;
      assert pages[i] == pages[..n][i];
    }
  }
}
