/** backend/llm_provider/cpp_inference/cpp_inference.py: the llama.cpp
    provider. `stream_response` concatenates the streamed chunks and flushes
    its paragraph buffer, whole, whenever the buffer holds a newline;
    `get_chat_response` picks one request or the stream by mode. The HTTP
    request and the chunk stream are inputs. */
module CppInference {
  import opened Base
  import opened Text
  import opened Llm

  /** The stream's outcome: the returned response, the paragraphs sent to the
      progress channel, and the buffer left unflushed at the end. */
  datatype Streamed = Streamed(response: string, emitted: seq<string>, buffer: string)

  /** One pass of the `async for` body. */
  function Feed(st: Streamed, chunk: string): Streamed
  {
    if chunk == "" then st
    else
      var paragraph := st.buffer + chunk;
      if '\n' in paragraph then Streamed(st.response + chunk, st.emitted + [paragraph], "")
      else Streamed(st.response + chunk, st.emitted, paragraph)
  }

  /** Reference definition: the chunks fed in arrival order. */
  function FeedAll(chunks: seq<string>): (r: Streamed)
    ensures r.response == Concat(chunks)
    ensures Concat(r.emitted) + r.buffer == r.response
    ensures forall i | 0 <= i < |r.emitted| :: '\n' in r.emitted[i]
    ensures '\n' !in r.buffer
    decreases |chunks|
  {
    if |chunks| == 0 then Streamed("", [], "")
    else
      var init := chunks[..|chunks| - 1];
      var chunk := chunks[|chunks| - 1];
      var st := FeedAll(init);
      assert chunks == init + [chunk];
      FeedKeeps(st, chunk);
      ConcatAppend(init, chunk);
      Feed(st, chunk)
  }

  /** What a stream state keeps: the emitted paragraphs and the buffer make
      up the response, every paragraph holds a newline and the buffer none. */
  predicate Consistent(st: Streamed) {
    Concat(st.emitted) + st.buffer == st.response
    && (forall i | 0 <= i < |st.emitted| :: '\n' in st.emitted[i])
    && '\n' !in st.buffer
  }

  /** One pass keeps the state consistent and appends the chunk to the response. */
  lemma {:induction false} FeedKeeps(st: Streamed, chunk: string)
    requires Consistent(st)
    ensures Consistent(Feed(st, chunk)) && Feed(st, chunk).response == st.response + chunk
  {
    if chunk != "" {
      ConcatAppend(st.emitted, st.buffer + chunk);
    } else {
      assert st.response + chunk == st.response;
    }
  }

  /** `stream_response`: the loop over the received chunks. */
  method StreamResponse(chunks: seq<string>) returns (response: string, emitted: seq<string>, paragraph: string)
    ensures Streamed(response, emitted, paragraph) == FeedAll(chunks)
    ensures response == Concat(chunks)
    ensures Concat(emitted) + paragraph == response
    ensures forall i | 0 <= i < |emitted| :: '\n' in emitted[i]
    ensures '\n' !in paragraph
  {
    response := "";
    paragraph := "";
    emitted := [];
    for i := 0 to |chunks|
      invariant Streamed(response, emitted, paragraph) == FeedAll(chunks[..i])
    {
      var chunk := chunks[i];
      assert chunks[..i + 1] == chunks[..i] + [chunk];
      if chunk != "" {
        response := response + chunk;
        paragraph := paragraph + chunk;
        if '\n' in paragraph {
          emitted := emitted + [paragraph];
          paragraph := "";
        }
      }
    }
    assert chunks[..|chunks|] == chunks;
  }

  /** The buffer is flushed whole: a chunk that brings a newline is emitted
      together with everything buffered before it and everything after the
      newline, and nothing stays behind. */
  lemma {:induction false} FlushesWholeBuffer(chunks: seq<string>, chunk: string)
    requires '\n' in chunk
    ensures FeedAll(chunks + [chunk]).emitted == FeedAll(chunks).emitted + [FeedAll(chunks).buffer + chunk]
    ensures FeedAll(chunks + [chunk]).buffer == ""
  {
    assert (chunks + [chunk])[..|chunks|] == chunks;
  }

  /** A trailing fragment without a newline is only buffered, never emitted;
      it reaches the caller through the returned response alone. */
  lemma {:induction false} TrailingFragmentKept(chunks: seq<string>, tail: string)
    requires '\n' !in tail
    ensures FeedAll(chunks + [tail]).emitted == FeedAll(chunks).emitted
    ensures FeedAll(chunks + [tail]).buffer == FeedAll(chunks).buffer + tail
  {
    assert (chunks + [tail])[..|chunks|] == chunks;
  }

  /** `get_chat_response`: without streaming, exactly one request whose JSON
      body is returned unchanged (a failed request raises); with streaming,
      the reassembled text. */
  function GetChatResponse(stream: bool, send: Result<string, Raised>, chunks: seq<string>): (r: Result<Reply, Raised>)
    ensures !stream ==> r == (match send case Ok(body) => Ok(JsonBody(body)) case Err(e) => Err(e))
    ensures stream ==> r == Ok(Text(Concat(chunks)))
  {
    if !stream then
      match send
      case Ok(body) => Ok(JsonBody(body))
      case Err(e) => Err(e)
    else Ok(Text(FeedAll(chunks).response))
  }

  /** Through the corrected content extraction, a streamed llama.cpp
      completion reaches the caller as the concatenated chunks. */
  lemma {:induction false} StreamedCompletionIntact(send: Result<string, Raised>, chunks: seq<string>)
    ensures ReplyContent(CplusplusProvider, GetChatResponse(true, send, chunks).value) == Ok(Text(Concat(chunks)))
  {
  }
}
