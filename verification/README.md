# Dataset curator: a Dafny model

This project models the core of a web-research dataset builder. The backend takes a research request, runs research to gather context, and asks a language model for table rows. It then fills empty cells and streams the rows to a web client. The client parses the column field the user types, sends a session request, merges the row updates it receives and lets the user copy selected rows as tab-separated text.

The model is a set of pure functions over immutable values. Several things become function parameters, called oracles here:

- the search engine, the scraper and the context compressor;
- the language model, including the row synthesizer and the cell generator;
- the provider's network call.

Where the source threads hidden state through such a call, the oracle takes a generic state and returns it. One example is the visited-URL set that backfill reaches through `get_context_by_search`.

Modules:

- `Base`: `Option`, `Result`, and `Raised` (an exception's class and message).
- `Text`: the string helpers shared by both sides. It has exact character sets for Python's `str.isspace` and ECMAScript's `trim`/`\s`, join and one-character split, character-set strip, and Python's `str.split()` into words.
- `Seqs`: `FirstSightings`, the keep-first-occurrence filter behind both the visited-URL filter and `drop_duplicates`.
- `Research`: the visited-URL filter, the sub-query list, and per-query context collection.
- `Frames`, `Backfill`: the dataset as a grid of optional string cells, and the row-major backfill of empty cells.
- `Accumulate`: the dataset digest and the commented-out merge-and-repeat loop of `create_rows`. The loop gets an explicit stall bound.
- `Summaries`: retriever dispatch, scrape and summary fallbacks, 10000-word chunking, and per-URL summary aggregation.
- `Llm`, `CppInference`: provider dispatch, validation, the attempt loop, the fence stripping before JSON parsing, and the llama.cpp provider's paragraph buffering.
- `ColumnSpec`: the client's column-field parser. It yields the columns, the header string and the row count.
- `Request`: the `start {...}` session message. This covers `JSON.stringify` of the request and the server's reading of it.
- `Client`: the collection page as a transition function. It includes the dialog gating and the `row_update` merge.
- `DataTable`: generated columns, header labels, and the clipboard text.

`fill_empty_rows` (backend/master/curator.py:149-180) has no exception handler, so the first raising generation ends the whole walk. `Backfill.FillEmptyRows` returns that error.

## Model

| member | source | states |
|---|---|---|
| Research.GetNewUrls | backend/master/curator.py:71-78 | The new URLs are exactly the input URLs not visited before, each once, in order of first appearance. The visited set afterwards is the old set plus every input URL. |
| Seqs.FirstSightingsMembers | backend/master/curator.py:73-77 | A URL is returned iff it occurs in the input and was not already visited. |
| Seqs.FirstSightingsDistinct | backend/master/curator.py:74-77 | No URL is returned twice, even when the input repeats it. |
| Seqs.FirstSightingsOrdered | backend/master/curator.py:73-77 | Returned URLs keep the order of their first occurrence in the input. |
| Seqs.FirstSightingsIdempotent | backend/master/curator.py:73-77 | Filtering the same input again against the updated visited set returns nothing. |
| Seqs.FirstSightingsAllVisited | backend/master/curator.py:74 | An input whose URLs are all visited yields no URL. |
| Seqs.FirstSightingsAppend | backend/master/curator.py:73-77 | Filtering a concatenation filters the second part against the set grown by the first. |
| Seqs.FirstSightingsOfDistinct | backend/master/curator.py:141 | A duplicate-free sequence with no element in the set comes back unchanged. |
| Seqs.DedupAppend | backend/master/curator.py:141 | Dropping duplicates from duplicate-free existing rows plus new rows keeps the existing rows and appends the first sightings of the new ones. |
| Research.SubQueries | backend/master/curator.py:52 | The sub-query list is the generated queries in order, followed by the original query. |
| Research.Collect | backend/master/curator.py:55-69 | One scrape per sub-query, each of the URLs not seen by earlier sub-queries. One compressed result per sub-query. The content is the non-empty results in sub-query order. The visited set gains every URL searched. |
| Research.ContextBySearch | backend/master/curator.py:50-69 | The last result is the original query's. Every content entry is non-empty, there are at most as many entries as sub-queries, and the visited set only grows. |
| Research.NoUrlScrapedTwice | backend/master/curator.py:80-86 | Across one research run no URL is scraped twice, none that was visited before, and only URLs the search returned. |
| Backfill.FillCells | backend/master/curator.py:152-176 | Along a row, the generator is called once per empty cell. Only empty cells can change, and only to a non-empty answer. A raised error stops the walk after at most that many calls. Which answer lands where is stated by Backfill.FillCellsWrites. |
| Backfill.FillRows | backend/master/curator.py:151-176 | The same, row-major over the grid: the shape is kept, one call per empty cell, and a grid with no empty cell is returned as it came with no call. |
| Backfill.FillEmptyRows | backend/master/curator.py:149-180 | The frame keeps its columns and shape. Only null or "" cells can differ. The generator is called once per empty cell. A generator that always answers leaves no empty cell. |
| Backfill.FillCellsWrites | backend/master/curator.py:152-172 | With answers that do not depend on the threaded state, the row walk succeeds iff every empty cell's answer does. Each empty cell then holds its own answer when that is non-empty, and every other cell is kept. |
| Backfill.FillRowsWrites | backend/master/curator.py:151-172 | The same over the rows of the grid, with each cell's answer asked for its original row and its column. |
| Backfill.FillEmptyRowsWrites | backend/master/curator.py:149-180 | The same for the frame: the backfill fails iff some empty cell's answer raises, and otherwise writes every non-empty answer into its cell. |
| Backfill.BackfillIdempotent | backend/master/curator.py:154 | Backfilling a backfilled frame makes no call and returns it unchanged. |
| Backfill.NotFoundIsKept | backend/master/curator.py:154 | A "Not found" cell counts as filled and survives backfill. |
| Accumulate.DatasetSummary | backend/master/curator.py:99-104 | An empty dataset is described as "Nothing has been collected yet.". A non-empty one is described by its summary. |
| Accumulate.Realign | backend/master/curator.py:141 | Incoming rows are rearranged cell by cell into the existing column order. |
| Accumulate.Merge | backend/master/curator.py:132-142 | A ValueError iff the dataset has columns and the column sets differ. Otherwise the result is well formed and duplicate-free: the existing rows, then the new aligned rows not already present. An empty dataset takes the new columns. |
| Accumulate.Converge | backend/master/curator.py:98-143 | The loop keeps earlier rows as a prefix and keeps the columns. It reports convergence iff the row target is reached. It reports a stall only after at least as many passes as the stall budget left. A failure is always the column-mismatch ValueError. Progress for a productive synthesizer is the lemma Accumulate.GrowingOutputConverges. |
| Accumulate.CreateRows | backend/master/curator.py:94-146 | From an empty frame, at least one pass is made when rows are wanted, convergence is reported iff the target is met, and a failure is always the column-mismatch ValueError. |
| Accumulate.MergeRepeats | backend/master/curator.py:136-141 | Merging a frame with the same column set whose rows are all already collected leaves the dataset unchanged. |
| Accumulate.RepeatedOutputStalls | backend/master/curator.py:128-141 | A synthesizer that only hands back rows already collected leaves the data unchanged and stops the loop after exactly the stall budget of passes. |
| Accumulate.EmptyOutputStalls | backend/master/curator.py:128-130 | A synthesizer that only returns empty frames leaves the data unchanged and stops the loop after exactly the stall budget of passes. |
| Accumulate.PassMerges | backend/master/curator.py:128-142 | A pass with a non-empty frame merges it. A failed merge ends the loop at once with the dataset unchanged. A successful merge is a prefix of the final dataset, and when columns exist it is the collected rows followed by the new rows not seen before. |
| Accumulate.MismatchFails | backend/master/curator.py:137-139 | A non-empty frame with a different column set ends the loop after one pass with a ValueError and the dataset unchanged. |
| Accumulate.GrowingOutputConverges | backend/master/curator.py:98-142 | A synthesizer that brings at least one new row on every pass the loop can make, as fixed by an invariant relating its state to the dataset, makes the loop converge after at most one pass per missing row. The stall budget never ends such a run. |
| Accumulate.GrowingOutputCreatesRows | backend/master/curator.py:94-142 | From an empty frame, a synthesizer whose first frame has rows and that is productive from then on reaches any positive target within that many passes. |
| Accumulate.PassCounterProductive | backend/master/curator.py:128-142 | A synthesizer that writes the pass number into a one-column row meets the productivity condition, so the condition can be met. |
| Accumulate.PassCounterConverges | backend/master/curator.py:94-142 | That synthesizer makes `create_rows` converge on every target within that many passes, whatever the stall budget. |
| Summaries.GetRetriever | backend/utils/functions.py:39-56 | "searx" gives the Searx retriever. Every other name raises "Retriever not found.". |
| Summaries.ResearchIterations | backend/utils/functions.py:70 | The configured iteration count when it is truthy, otherwise 1. |
| Summaries.ScrapeUrls | backend/utils/functions.py:93-110 | Without a config, or when the scraper raises, the result is []. Otherwise it is the scraper's result. |
| Summaries.SummarizeUrl | backend/utils/functions.py:161-186 | A raising completion gives "". Otherwise the completion's text. |
| Summaries.ChunkWords | backend/utils/functions.py:136-139 | The chunks reproduce the word list in order. Each has at most 10000 words and all but the last exactly 10000. No words gives no chunk. |
| Summaries.ChunkContent | backend/utils/functions.py:136-139 | One chunk string per word chunk. Each holds at most 10000 words and all but the last exactly 10000. |
| Summaries.ChunkContentWords | backend/utils/functions.py:136-139 | Splitting every chunk into words and concatenating gives `raw_content.split()` exactly. |
| Summaries.BlankContentHasNoChunks | backend/utils/functions.py:137-139 | Whitespace-only content yields no chunk. |
| Summaries.ChunkSummaries | backend/utils/functions.py:148-151 | One summary per chunk, in chunk order. |
| Summaries.Summarize | backend/utils/functions.py:142-158 | One entry per item, in order, with the item's URL. The summary is its non-empty chunk summaries joined by single spaces. |
| Text.NonEmpty | backend/utils/functions.py:154 | Every kept string is non-empty, and every non-empty input string is kept. |
| Text.NonEmptyAppend | backend/utils/functions.py:154 | The filter distributes over concatenation, so the kept strings stay in input order. |
| Summaries.FailedCallsGiveEmptySummaries | backend/utils/functions.py:142-158 | When every completion raises, every summary is "" and no item is dropped. |
| Llm.GetProvider | backend/utils/llm.py:16-29 | "openai", "ollama" and "llama-cpp" map to their providers. Any other tag, and no tag, raises "LLM provider not found.". |
| Llm.Validate | backend/utils/llm.py:52-57 | Passes iff a model is given and max_tokens is absent or at most 8001. A missing model is reported first. A too-large max_tokens is reported with its value after the fixed text. |
| Llm.TooManyTokensReadsBack | backend/utils/llm.py:55-57 | The decimal tail of the max_tokens message reads back as the rejected value. |
| Llm.ReplyContentAsWritten | backend/utils/llm.py:66-76 | As written, a non-OpenAI reply that is not a completion object raises AttributeError. |
| Llm.LlamaCppStreamFails | backend/utils/llm.py:71-75 | The streamed text of the llama.cpp provider raises AttributeError when read as written. |
| Llm.ReplyContent | backend/utils/llm.py:66-76 | Corrected extraction: completion objects are unwrapped, everything else is the response. It never fails. |
| Llm.Attempts | backend/utils/llm.py:66-78 | With any attempt budget, exactly one provider call is made and its error propagates unretried. The RuntimeError comes only from a zero budget. |
| Llm.CreateChatCompletion | backend/utils/llm.py:31-78 | Validation and provider lookup fail before any call. Otherwise exactly one call is made. |
| Llm.FenceStrip | backend/utils/llm.py:82 | The stripped text occurs contiguously in the input and has no whitespace at either end. |
| Llm.FenceStripRoundTrip | backend/utils/llm.py:82 | A payload without surrounding whitespace, wrapped in a json code fence, strips back to itself. |
| Llm.FenceStripEatsLeadingLetter | backend/utils/llm.py:82 | A leading j, s, o or n of the payload is stripped with the fence, because strip removes a character set, not a prefix. |
| Llm.JsonPayload | backend/utils/llm.py:80-85 | Dict output is used unchanged. String output is fence-stripped. |
| CppInference.FeedAll | backend/llm_provider/cpp_inference/cpp_inference.py:29-52 | The response is all chunks concatenated. Emitted paragraphs plus the buffer are exactly the response. Every paragraph holds a newline and the buffer holds none. |
| CppInference.StreamResponse | backend/llm_provider/cpp_inference/cpp_inference.py:29-52 | The loop computes the same response, paragraphs and final buffer. |
| CppInference.FlushesWholeBuffer | backend/llm_provider/cpp_inference/cpp_inference.py:44-49 | A chunk with a newline flushes the whole buffer, text after the newline included. |
| CppInference.TrailingFragmentKept | backend/llm_provider/cpp_inference/cpp_inference.py:40-52 | A chunk without a newline is only buffered, never emitted. |
| CppInference.GetChatResponse | backend/llm_provider/cpp_inference/cpp_inference.py:11-17 | Without streaming, one request's body is returned unchanged. With streaming, the concatenated text. |
| CppInference.StreamedCompletionIntact | backend/llm_provider/cpp_inference/cpp_inference.py:11-17 | Through the corrected extraction, a streamed llama.cpp completion is the concatenated chunks. |
| ColumnSpec.FirstMatch | magi/src/pages/index.tsx:69 | The leftmost position where "row count:" in any case, optional whitespace and a digit occur. |
| ColumnSpec.MatchDigits | magi/src/pages/index.tsx:69 | The captured digits are the whole digit run after the label and the whitespace: non-empty, all digits, followed by a non-digit or the end. |
| ColumnSpec.RowCount | magi/src/pages/index.tsx:69-70 | 0 when nothing matches. Otherwise the decimal value of the leftmost match's digit run. |
| ColumnSpec.RowCountOfLabel | magi/src/pages/index.tsx:69-70 | Text with no colon before the label, then whitespace, the decimal digits of k and a non-digit reads back as row count k. |
| ColumnSpec.FieldRowCount | magi/src/pages/index.tsx:69-70 | Colon-free columns followed by a "row count: k" field, joined by ", ", give row count k. |
| ColumnSpec.NoLabelNoRowCount | magi/src/pages/index.tsx:69-70 | Text with no r followed nine characters later by a colon, in any case, has row count 0. |
| ColumnSpec.KeepColumns | magi/src/pages/index.tsx:71 | A value is kept iff it is one of the segments and is non-empty and does not start with the label. |
| ColumnSpec.KeepColumnsCounts | magi/src/pages/index.tsx:71 | Every qualifying segment is kept as often as it occurs, and no other is kept. |
| ColumnSpec.KeepColumnsAppend | magi/src/pages/index.tsx:71 | The filter distributes over concatenation, so segments keep their order. |
| ColumnSpec.Columns | magi/src/pages/index.tsx:71 | Every column is non-empty, trimmed, comma-free and does not start with the label. Every trimmed segment that qualifies is a column. |
| ColumnSpec.ColumnsAppend | magi/src/pages/index.tsx:71 | The columns of two texts joined by a comma are the first text's columns followed by the second's. |
| ColumnSpec.ColumnsOfSegment | magi/src/pages/index.tsx:71 | A comma-free text gives its trimmed value as its one column when that qualifies, and no column otherwise. |
| ColumnSpec.FieldColumns | magi/src/pages/index.tsx:71 | Columns followed by a "row count: k" field, joined by ", ", parse back to exactly those columns. |
| ColumnSpec.FieldExample | magi/src/pages/index.tsx:69-71 | "a, b, row count: 10" gives the columns a and b and row count 10. |
| ColumnSpec.ColumnHeaders | magi/src/pages/index.tsx:141-144 | The header string is empty iff no column survives. Otherwise it splits at commas into the first column followed by the others, each after one space. |
| ColumnSpec.ColumnCount | magi/src/pages/indexzero.tsx:31 | The column count is the number of parsed columns, that is, of trimmed segments that qualify. |
| ColumnSpec.ColumnsOfJoin | magi/src/pages/index.tsx:141-144 | Column names joined by ", " parse back to the same names. |
| ColumnSpec.ColumnsOfHeaders | magi/src/pages/index.tsx:141-144 | Parsing the header string gives the same columns as parsing the raw field. |
| ColumnSpec.LastFieldWins | magi/src/pages/indexzero.tsx:23-44 | With one handler on both fields, the counts shown are those of the last value that fired. |
| ColumnSpec.SpacedLabelNoRowCount | magi/src/pages/indexzero.tsx:27-28 | "row count : 5" sets no row count. |
| ColumnSpec.SpacedLabelIsAColumn | magi/src/pages/indexzero.tsx:31 | "row count : 5" is counted as a column. |
| Request.StartMessage | magi/src/pages/index.tsx:159-162 | The message starts with "start " and dropping those six characters leaves the JSON. |
| Request.SessionRequest | magi/src/pages/index.tsx:141-162 | No request iff no column survives. Otherwise the request carries the `task` value, the header string and the row count. |
| Request.ServerReceive | backend/server.py:64-71 | A session starts only for a message beginning with "start" and a non-empty `task` value. |
| Request.DecodeBodyOfEncode | magi/src/pages/index.tsx:160-162 | Every string, escaped as JSON.stringify escapes it, decodes back to itself and nothing after the closing quote is consumed. |
| Request.DecodeNatOfEncode | magi/src/pages/index.tsx:160-162 | The decimal text of the row count reads back as the row count. |
| Request.ParseStringify | magi/src/pages/index.tsx:159-162 | Parsing the JSON the client writes gives back the request. |
| Request.ServerReadsStartMessage | backend/server.py:64-71 | The server reads back exactly the request sent, and starts a session iff its `task` value is non-empty. |
| Request.NoColumnsNoRequest | magi/src/pages/index.tsx:151-154 | No request is built iff the header string is empty. |
| Client.RowUpdate | magi/src/pages/index.tsx:169-177 | An existing row is shallow-merged with the output keys winning and its other keys kept. A new id gets the output as its row. Every other row is untouched. |
| Client.RowUpdateIdempotent | magi/src/pages/index.tsx:169-177 | Delivering the same update twice equals delivering it once. |
| Client.RowUpdatesCommute | magi/src/pages/index.tsx:169-177 | Updates to different ids commute. |
| Client.RowUpdatesCompose | magi/src/pages/index.tsx:169-177 | Two updates to one id equal one update with the merged output. |
| Client.Step | magi/src/pages/index.tsx:48-108 | Only an ungated submit opens a socket. While rows are shown, edits and submit only open the dialog. Confirm empties the dataset. Nothing else shrinks it, and only edits change the inputs. |
| Client.ColumnsEditRecounts | magi/src/pages/index.tsx:57-75 | An accepted column edit stores the value and recomputes both counts from it. |
| Client.GatedInputsFrozen | magi/src/pages/index.tsx:48-93 | With rows shown, no sequence of events without a confirm changes an input or a count, opens a socket or loses a row. |
| Client.ConfirmUnlocks | magi/src/pages/index.tsx:82-88 | After confirming, the form is unlocked and the next column edit is taken. |
| DataTable.SpacingRoundTrip | magi/src/components/ui/DataTable.tsx:70 | Exactly one space is inserted per capital, and taking the spaces out again gives the key back. |
| DataTable.CapitalizeFirst | magi/src/components/ui/DataTable.tsx:70 | Only the first character can change, to upper case, unless it is a line terminator. |
| DataTable.HeaderLabelOfKey | magi/src/components/ui/DataTable.tsx:70 | A camel-case key's label starts with its capitalised first letter and the rest unspaces to the rest of the key. A capitalised key's label starts with a space. |
| DataTable.HeaderLabelExamples | magi/src/components/ui/DataTable.tsx:70 | "firmName" is labelled "Firm Name". "FirmName" is labelled " Firm Name". |
| DataTable.GenerateColumns | magi/src/components/ui/DataTable.tsx:42-73 | No data gives no column. Otherwise the checkbox column comes first, then one column per key of the first row in key order, with its label. |
| DataTable.TabsToSpaces | magi/src/components/ui/DataTable.tsx:116 | Every tab becomes a space and every other character is kept, in place. |
| DataTable.CellText | magi/src/components/ui/DataTable.tsx:114-117 | Null becomes "". In a string every tab becomes a space and every other character is kept. Other values are rendered text. |
| DataTable.DataColumns | magi/src/components/ui/DataTable.tsx:109 | The header filter keeps exactly the data columns, whatever their keys. |
| DataTable.Unselectable | magi/src/components/ui/DataTable.tsx:113 | The cell filter keeps exactly the columns whose id is not "select". |
| DataTable.CopyText | magi/src/components/ui/DataTable.tsx:105-123 | Nothing is copied iff no row is selected. |
| DataTable.CopyTextLines | magi/src/components/ui/DataTable.tsx:110-123 | Without newlines in the cells, the copied text splits into the header line followed by one line per selected row, in order. |
| DataTable.RowLineFields | magi/src/components/ui/DataTable.tsx:112-119 | A row line splits at tabs into exactly its visible data cells when no non-string value renders a tab. |
| DataTable.HiddenColumnMisaligns | magi/src/components/ui/DataTable.tsx:109-113 | Hiding a data column makes each row line shorter than the header line. |
| DataTable.SelectKeyMisaligns | magi/src/components/ui/DataTable.tsx:109-113 | A data column keyed "select" keeps its header but loses its cells, so each row line is shorter than the header line even with nothing hidden. |
| DataTable.FilterCommutes | magi/src/components/ui/DataTable.tsx:109-113 | Dropping the checkbox column and dropping hidden columns can be done in either order. |

## Left out

- Websocket transport, asyncio queues, tasks and `gather`: I/O and concurrency. `gather` keeps task order, and that order is modelled.
- `stream_output`, `print`, logging, `time.sleep` and `asyncio.sleep`: side effects only.
- The shared `set()` default of `visited_urls` in `Curator.__init__`: the visited set is passed explicitly instead.
- The search engine, scraper, context compressor, embeddings, `Memory`, the prompt texts and the provider network calls are oracles, passed in as function parameters.
- Accumulate.CreateRows: the active body makes one pass through `parse_chat_completion_for_csv`, which backend/utils/llm.py does not define. The model follows the commented-out loop, with a stall bound added because the source loop has none.
- `generate_row`: an oracle. On an exception it would return an unbound name, which is not modelled.
- backend/llm_provider/ollama/ollama.py, backend/retriever/searx/searx.py, backend/master/prompts.py, backend/outputs/data_table/table.py and script.py: glue. These files have mismatched arities or undefined names, and they are not part of this model.
- pandas semantics beyond string cells: non-string cell values, duplicate column names, and index handling.
- Floating point: the temperature, the progress percentage and the cost estimate.
- ColumnSpec.RowCount: `parseInt` turns a digit run above 2^53 into an inexact floating-point number. The model keeps the exact integer value.
- Backfill.FillCells: which column each call is offered and which answer lands in which cell are stated only for a generator whose answer does not depend on the threaded search state (Backfill.FillCellsWrites). For other generators only the call count, the frame and the fact that only empty cells change are stated.
- Backfill.FillRows: the value written into each cell is stated only for a generator whose answer does not depend on the threaded search state (Backfill.FillRowsWrites). For other generators only the shape, the frame and the call count are stated.
- Backfill.FillEmptyRows: as for FillRows, the written values are stated only for state-independent answers (Backfill.FillEmptyRowsWrites).
- Request.StartMessage: `parseInt` of a very long digit run loses precision, and `JSON.stringify` would then write an exponent. The model keeps the exact integer.
- Request.ParseRequest: reads only the layout the client writes, with no whitespace and keys in that order. `json.loads` accepts any valid JSON object. `\u` escapes of surrogate pairs are rejected rather than combined.
- Request.ServerReceive: a "start" message whose rest cannot be read, including "start" alone, gives no session, as an ignored message does. In the server, `json.loads` raises there, the generic handler at backend/server.py:80-81 logs it, and the receive loop ends.
- DataTable.CapitalizeFirst: upper-cases ASCII letters only. `toUpperCase` maps other letters too, and some of them to several characters.
- DataTable.GenerateColumns: takes the row's keys in the order given. `Object.keys` puts integer-like keys first.
- Client.RowUpdate: a row is a map, so the merge keeps no key order. In the page, `{ ...existingRow, ...data.output }` keeps the existing keys first and then the new output keys, and that order later fixes the table's column order.
- DataTable.Get: a column key is read as a plain key. The table library reads a key containing "." as a nested path and builds its column id with "_" in place of each ".", so such a column would copy "" and be hidden under a different id.
- Client.Step: the one-second delay of the submit callback is a separate event. React batching and rendering are not modelled.

## Findings

| source | as written | input that shows it | evidently intended | confidence | as-written member | corrected member |
|---|---|---|---|---|---|---|
| backend/utils/llm.py:71-75 | For every provider except OpenAI, the reply is read through `.choices[0].message['content']`. The llama.cpp provider returns a `str` when streaming and a `dict` otherwise (backend/llm_provider/cpp_inference/cpp_inference.py:11-17). Neither has `.choices`, so every llama-cpp completion raises AttributeError. | provider "llama-cpp", a streamed reply `Text("hello")` | return the text of a plain reply unchanged, and unwrap only completion objects | not executed | Llm.ReplyContentAsWritten (shown by Llm.LlamaCppStreamFails) | Llm.ReplyContent (used by Llm.Attempts, Llm.CreateChatCompletion and CppInference.StreamedCompletionIntact) |
