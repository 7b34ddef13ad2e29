/** The research half of the curator (backend/master/curator.py): the
    visited-URL filter `get_new_urls`, the sub-query list, and the per-sub-query
    search → filter → scrape → compress walk of `get_context_by_search`.
    The search engine, scraper and context compressor are oracles; the
    visited set is passed in and returned instead of living on the instance. */
module Research {
  import opened Text
  import opened Seqs

  type Url = string

  datatype Document = Document(url: Url, rawContent: string)

  /** `get_new_urls`: one pass over the input, adding each unvisited URL to the
      visited set on first sight. */
  method GetNewUrls(visited: set<Url>, urls: seq<Url>) returns (newUrls: seq<Url>, visited': set<Url>)
    ensures newUrls == FirstSightings(visited, urls)
    ensures visited' == visited + Elems(urls)
    ensures forall i | 0 <= i < |newUrls| :: newUrls[i] in urls && newUrls[i] !in visited
    ensures forall u | u in urls && u !in visited :: u in newUrls
    ensures forall i, j | 0 <= i < j < |newUrls| :: newUrls[i] != newUrls[j]
    ensures forall i, j | 0 <= i < j < |newUrls| :: FirstIndex(urls, newUrls[i]) < FirstIndex(urls, newUrls[j])
  {
    newUrls := [];
    visited' := visited;
    for i := 0 to |urls|
      invariant newUrls == FirstSightings(visited, urls[..i])
      invariant visited' == visited + Elems(urls[..i])
    {
      var url := urls[i];
      assert urls[..i + 1][..i] == urls[..i];
      assert Elems(urls[..i + 1]) == Elems(urls[..i]) + {url};
      if url !in visited' {
        visited' := visited' + {url};
        newUrls := newUrls + [url];
      }
    }
    assert urls[..|urls|] == urls;
    FirstSightingsMembers(visited, urls);
    FirstSightingsDistinct(visited, urls);
    FirstSightingsOrdered(visited, urls);
  }

  /** `get_sub_queries(...) + [query]`: the generated sub-queries, then the original query. */
  function SubQueries(generated: seq<string>, query: string): (r: seq<string>)
    ensures |r| == |generated| + 1
    ensures r[|generated|] == query
    ensures forall i | 0 <= i < |generated| :: r[i] == generated[i]
  {
    generated + [query]
  }

  /** All URLs the search oracle returns for the given sub-queries. */
  function Searched(search: string -> seq<Url>, subQueries: seq<string>): set<Url>
  {
    if |subQueries| == 0 then {} else Elems(search(subQueries[0])) + Searched(search, subQueries[1..])
  }

  lemma {:induction false} SearchedPrefix(search: string -> seq<Url>, subQueries: seq<string>, k: nat)
    requires 0 < k <= |subQueries|
    ensures Searched(search, subQueries[..k])
      == Elems(search(subQueries[0])) + Searched(search, subQueries[1..][..k - 1])
  {
    assert subQueries[..k][1..] == subQueries[1..][..k - 1];
  }

  /** The outcome of the research walk: the collected context, the grown
      visited set, and per sub-query the URLs handed to the scraper and the
      compressed content found. */
  datatype Research = Research(content: seq<string>, visited: set<Url>, scraped: seq<seq<Url>>, found: seq<string>)

  /** The loop of `get_context_by_search` over a list of sub-queries, with
      `scrape_sites_by_query` and `get_similar_content_by_query` inlined. */
  function Collect(
    subQueries: seq<string>, visited: set<Url>,
    search: string -> seq<Url>, scrape: seq<Url> -> seq<Document>,
    compress: (string, seq<Document>) -> string): (r: Research)
    ensures |r.scraped| == |subQueries| && |r.found| == |subQueries|
    ensures r.visited == visited + Searched(search, subQueries)
    ensures forall k | 0 <= k < |subQueries| ::
      r.scraped[k] == FirstSightings(visited + Searched(search, subQueries[..k]), search(subQueries[k]))
    ensures forall k | 0 <= k < |subQueries| :: r.found[k] == compress(subQueries[k], scrape(r.scraped[k]))
    ensures r.content == NonEmpty(r.found)
    decreases |subQueries|
  {
    if |subQueries| == 0 then Research([], visited, [], [])
    else
      var q := subQueries[0];
      var urls := search(q);
      var newUrls := FirstSightings(visited, urls);
      var visited1 := visited + Elems(urls);
      var web := compress(q, scrape(newUrls));
      var rest := Collect(subQueries[1..], visited1, search, scrape, compress);
      var r := Research(
        (if web != "" then [web] else []) + rest.content,
        rest.visited, [newUrls] + rest.scraped, [web] + rest.found);
      assert subQueries[..0] == [];
      forall k | 0 <= k < |subQueries|
        ensures r.scraped[k] == FirstSightings(visited + Searched(search, subQueries[..k]), search(subQueries[k]))
      {
        if k > 0 {
          SearchedPrefix(search, subQueries, k);
          assert r.scraped[k] == rest.scraped[k - 1];
          assert rest.scraped[k - 1] == FirstSightings(
            visited1 + Searched(search, subQueries[1..][..k - 1]), search(subQueries[1..][k - 1]));
          assert subQueries[1..][k - 1] == subQueries[k];
          assert visited + Searched(search, subQueries[..k])
            == visited1 + Searched(search, subQueries[1..][..k - 1]);
          assert r.scraped[k] == FirstSightings(visited + Searched(search, subQueries[..k]), search(subQueries[k]));
        } else {
          assert subQueries[..k] == [];
          assert Searched(search, subQueries[..k]) == {};
          assert r.scraped[k] == newUrls;
          assert visited + Searched(search, subQueries[..k]) == visited;
        }
      }
      r
  }

  /** `get_context_by_search` once the sub-queries are generated: the original
      query is researched last, after the generated ones. */
  function ContextBySearch(
    generated: seq<string>, query: string, visited: set<Url>,
    search: string -> seq<Url>, scrape: seq<Url> -> seq<Document>,
    compress: (string, seq<Document>) -> string): (r: Research)
    ensures |r.found| == |generated| + 1 && |r.scraped| == |generated| + 1
    ensures r.found[|generated|] == compress(query, scrape(r.scraped[|generated|]))
    ensures |r.content| <= |generated| + 1
    ensures forall i | 0 <= i < |r.content| :: r.content[i] != ""
    ensures visited <= r.visited
  {
    Collect(SubQueries(generated, query), visited, search, scrape, compress)
  }

  /** Within one research walk no URL is handed to the scraper twice, and no
      URL visited before the walk is scraped again. */
  lemma {:induction false} NoUrlScrapedTwice(
    subQueries: seq<string>, visited: set<Url>,
    search: string -> seq<Url>, scrape: seq<Url> -> seq<Document>,
    compress: (string, seq<Document>) -> string)
    ensures Distinct(Flatten(Collect(subQueries, visited, search, scrape, compress).scraped))
    ensures forall u | u in Flatten(Collect(subQueries, visited, search, scrape, compress).scraped) ::
      u !in visited && u in Searched(search, subQueries)
    decreases |subQueries|
  {
    if |subQueries| > 0 {
      var q := subQueries[0];
      var urls := search(q);
      var visited1 := visited + Elems(urls);
      var r := Collect(subQueries, visited, search, scrape, compress);
      var rest := Collect(subQueries[1..], visited1, search, scrape, compress);
      NoUrlScrapedTwice(subQueries[1..], visited1, search, scrape, compress);
      var head := FirstSightings(visited, urls);
      FirstSightingsMembers(visited, urls);
      FirstSightingsDistinct(visited, urls);
      assert r.scraped == [head] + rest.scraped;
      assert Flatten(r.scraped) == head + Flatten(rest.scraped);
      var all := Flatten(r.scraped);
      forall i, j | 0 <= i < j < |all|
        ensures all[i] != all[j]
      {
        if j < |head| {
        } else if i < |head| {
          assert all[i] in urls;
          assert all[j] in Flatten(rest.scraped);
        }
      }
    }
  }
}
