/** The helpers of backend/utils/functions.py that the curator relies on:
    retriever dispatch, the research-iteration default, the failure fallbacks
    of `scrape_urls` and `summarize_url`, and the word chunking and summary
    aggregation of `summarize`. The scraper and the completion call are oracles. */
module Summaries {
  import opened Base
  import opened Text
  import opened Seqs
  import opened Research

  datatype Retriever = SearxSearch

  /** `get_retriever`: only "searx" is known; any other name raises. */
  function GetRetriever(name: string): (r: Result<Retriever, Raised>)
    ensures r.Ok? <==> name == "searx"
    ensures r.Err? ==> r.error == Raised("Exception", "Retriever not found.")
  {
    match name
    case "searx" => Ok(SearxSearch)
    case _ => Err(Raised("Exception", "Retriever not found."))
  }

  /** `cfg.max_iterations if cfg.max_iterations else 1`: an unset or zero
      setting falls back to one iteration. */
  function ResearchIterations(maxIterations: Option<int>): (n: int)
    ensures n != 0
    ensures maxIterations.Some? && maxIterations.value != 0 ==> n == maxIterations.value
    ensures maxIterations == None || maxIterations == Some(0) ==> n == 1
  {
    match maxIterations
    case Some(m) => if m != 0 then m else 1
    case None => 1
  }

  datatype Config = Config(userAgent: string, scraper: string)

  /** `scrape_urls`: never raises. With no configuration `cfg.scraper` fails
      inside the `try`, so the result is empty; a failing scraper also yields
      an empty list. */
  function ScrapeUrls(
    urls: seq<Url>, cfg: Option<Config>,
    scraper: (seq<Url>, string, string) -> Result<seq<Document>, Raised>): (r: seq<Document>)
    ensures cfg == None ==> r == []
    ensures cfg.Some? && scraper(urls, cfg.value.userAgent, cfg.value.scraper).Err? ==> r == []
    ensures r == [] || (cfg.Some? && scraper(urls, cfg.value.userAgent, cfg.value.scraper) == Ok(r))
  {
    match cfg
    case None => []
    case Some(c) =>
      match scraper(urls, c.userAgent, c.scraper)
      case Ok(docs) => docs
      case Err(_) => []
  }

  /** `summarize_url`: the completion's text, or "" when the call raises. */
  function SummarizeUrl(complete: string -> Result<string, Raised>, chunk: string): (r: string)
    ensures complete(chunk).Err? ==> r == ""
    ensures complete(chunk).Ok? ==> r == complete(chunk).value
  {
    match complete(chunk)
    case Ok(summary) => summary
    case Err(_) => ""
  }

  /** The default chunk size of `chunk_content`, in words. */
  const ChunkSize: nat := 10000

  /** `words[i:i+size]` for `i` in `range(0, len(words), size)`. */
  function ChunkWords(ws: seq<string>, size: nat): (chunks: seq<seq<string>>)
    requires size > 0
    ensures Flatten(chunks) == ws
    ensures forall k | 0 <= k < |chunks| :: 0 < |chunks[k]| <= size
    ensures forall k | 0 <= k < |chunks| - 1 :: |chunks[k]| == size
    ensures |ws| == 0 <==> |chunks| == 0
    decreases |ws|
  {
    if |ws| == 0 then []
    else if |ws| <= size then
      assert Flatten([ws]) == ws + Flatten([]);
      [ws]
    else
      var rest := ChunkWords(ws[size..], size);
      assert Flatten([ws[..size]] + rest) == ws[..size] + Flatten(rest);
      assert ws == ws[..size] + ws[size..];
      [ws[..size]] + rest
  }

  /** `chunk_content(raw_content)`: the words of the text, `ChunkSize` at a
      time, each chunk re-joined with single spaces. */
  function ChunkContent(raw: string): (chunks: seq<string>)
    ensures |chunks| == |ChunkWords(Words(raw), ChunkSize)|
    ensures forall k | 0 <= k < |chunks| :: |Words(chunks[k])| <= ChunkSize
    ensures forall k | 0 <= k < |chunks| - 1 :: |Words(chunks[k])| == ChunkSize
  {
    var cs := ChunkWords(Words(raw), ChunkSize);
    var chunks := seq(|cs|, k requires 0 <= k < |cs| => Join(" ", cs[k]));
    assert forall k | 0 <= k < |cs| :: Words(chunks[k]) == cs[k] by {
      forall k | 0 <= k < |cs| ensures Words(chunks[k]) == cs[k] {
        FlattenMember(Words(raw), cs, k);
        WordsOfJoin(cs[k]);
      }
    }
    chunks
  }

  /** Every element of every chunk is an element of the flattened sequence. */
  lemma {:induction false} FlattenMember(ws: seq<string>, cs: seq<seq<string>>, k: nat)
    requires Flatten(cs) == ws && k < |cs|
    requires forall i | 0 <= i < |ws| :: IsWord(ws[i])
    ensures forall i | 0 <= i < |cs[k]| :: IsWord(cs[k][i])
    decreases k
  {
    if k == 0 {
      assert Flatten(cs) == cs[0] + Flatten(cs[1..]);
      forall i | 0 <= i < |cs[0]| ensures IsWord(cs[0][i]) {
        assert cs[0][i] == ws[i];
      }
    } else {
      assert Flatten(cs) == cs[0] + Flatten(cs[1..]);
      var ws' := Flatten(cs[1..]);
      forall i | 0 <= i < |ws'| ensures IsWord(ws'[i]) {
        assert ws'[i] == ws[|cs[0]| + i];
      }
      FlattenMember(ws', cs[1..], k - 1);
    }
  }

  /** Each chunk split back into its words. */
  function WordsOfChunks(chunks: seq<string>): (r: seq<seq<string>>)
    ensures |r| == |chunks|
  {
    seq(|chunks|, k requires 0 <= k < |chunks| => Words(chunks[k]))
  }

  /** Splitting each chunk back into words and concatenating reproduces the
      words of the original text exactly. */
  lemma {:induction false} ChunkContentWords(raw: string)
    ensures Flatten(WordsOfChunks(ChunkContent(raw))) == Words(raw)
  {
    var cs := ChunkWords(Words(raw), ChunkSize);
    var chunks := ChunkContent(raw);
    var back := WordsOfChunks(chunks);
    forall k | 0 <= k < |cs| ensures back[k] == cs[k] {
      FlattenMember(Words(raw), cs, k);
      WordsOfJoin(cs[k]);
      assert chunks[k] == Join(" ", cs[k]);
    }
    assert back == cs;
  }

  /** Whitespace-only content produces no chunk, hence no summary call. */
  lemma {:induction false} BlankContentHasNoChunks(raw: string)
    requires forall i | 0 <= i < |raw| :: IsPyWhitespace(raw[i])
    ensures ChunkContent(raw) == []
  {
    WordsOfBlank(raw);
  }

  datatype UrlSummary = UrlSummary(url: Url, summary: string)

  /** The per-chunk summaries of one document, in chunk order. */
  function ChunkSummaries(complete: string -> Result<string, Raised>, raw: string): (r: seq<string>)
    ensures |r| == |ChunkContent(raw)|
    ensures forall k | 0 <= k < |r| :: r[k] == SummarizeUrl(complete, ChunkContent(raw)[k])
  {
    var chunks := ChunkContent(raw);
    seq(|chunks|, k requires 0 <= k < |chunks| => SummarizeUrl(complete, chunks[k]))
  }

  /** `summarize`: one entry per document, in input order, whose summary is
      the non-empty chunk summaries joined by single spaces. */
  function Summarize(complete: string -> Result<string, Raised>, items: seq<Document>): (r: seq<UrlSummary>)
    ensures |r| == |items|
    ensures forall i | 0 <= i < |items| :: r[i].url == items[i].url
    ensures forall i | 0 <= i < |items| ::
      r[i].summary == Join(" ", NonEmpty(ChunkSummaries(complete, items[i].rawContent)))
  {
    seq(|items|, i requires 0 <= i < |items| =>
      UrlSummary(items[i].url, Join(" ", NonEmpty(ChunkSummaries(complete, items[i].rawContent)))))
  }

  /** When every completion call raises, every document gets an empty summary. */
  lemma {:induction false} FailedCallsGiveEmptySummaries(complete: string -> Result<string, Raised>, items: seq<Document>)
    requires forall chunk :: complete(chunk).Err?
    ensures forall i | 0 <= i < |items| :: Summarize(complete, items)[i].summary == ""
  {
    forall i | 0 <= i < |items| ensures Summarize(complete, items)[i].summary == "" {
      var sums := ChunkSummaries(complete, items[i].rawContent);
      assert forall k | 0 <= k < |sums| :: sums[k] == "";
      NonEmptyAllEmpty(sums);
    }
  }
}
