/** backend/utils/llm.py: provider dispatch by tag, argument validation and
    the attempt loop of `create_chat_completion`, and the fence stripping of
    `parse_chat_completion_for_json`. The provider's network call is an oracle. */
module Llm {
  import opened Base
  import opened Text

  datatype Provider = OpenAIProvider | OllamaProvider | CplusplusProvider

  /** `get_provider`: three known tags; anything else, `None` included, raises. */
  function GetProvider(tag: Option<string>): (r: Result<Provider, Raised>)
    ensures r == Ok(OpenAIProvider) <==> tag == Some("openai")
    ensures r == Ok(OllamaProvider) <==> tag == Some("ollama")
    ensures r == Ok(CplusplusProvider) <==> tag == Some("llama-cpp")
    ensures r.Err? <==> tag !in {Some("openai"), Some("ollama"), Some("llama-cpp")}
    ensures r.Err? ==> r.error == Raised("Exception", "LLM provider not found.")
  {
    match tag
    case Some("openai") => Ok(OpenAIProvider)
    case Some("ollama") => Ok(OllamaProvider)
    case Some("llama-cpp") => Ok(CplusplusProvider)
    case _ => Err(Raised("Exception", "LLM provider not found."))
  }

  /** The largest `max_tokens` the backend accepts. */
  const MaxTokenLimit: int := 8001

  datatype Message = Message(role: string, content: string)

  /** What a provider's `get_chat_response` hands back: plain text, a
      completion object carrying `choices[0].message['content']`, or a decoded
      JSON body. */
  datatype Reply = Text(text: string) | ChatCompletion(content: string) | JsonBody(json: string)

  datatype Request = Request(model: string, maxTokens: Option<int>, messages: seq<Message>, stream: bool)

  /** One provider call; it may raise. */
  type ProviderCall = (Provider, Request) -> Result<Reply, Raised>

  datatype Completion = Completion(result: Result<Reply, Raised>, calls: nat)

  /** The input checks before any provider lookup: no model, or `max_tokens`
      above the limit, raise `ValueError`. */
  function Validate(model: Option<string>, maxTokens: Option<int>): (r: Option<Raised>)
    ensures r == None <==> model.Some? && (maxTokens == None || maxTokens.value <= MaxTokenLimit)
    ensures r.Some? ==> r.value.kind == "ValueError"
    ensures model == None ==> r == Some(Raised("ValueError", "Model cannot be None"))
    ensures model.Some? && r.Some? ==>
      && maxTokens.Some? && maxTokens.value > MaxTokenLimit
      && r.value.message == TooManyTokens + EncodeNat(maxTokens.value)
  {
    if model == None then Some(Raised("ValueError", "Model cannot be None"))
    else if maxTokens.Some? && maxTokens.value > MaxTokenLimit then
      Some(Raised("ValueError", TooManyTokens + EncodeNat(maxTokens.value)))
    else None
  }

  /** The fixed part of the message for a `max_tokens` above the limit. */
  const TooManyTokens: string := "Max tokens cannot be more than 8001, but got "

  /** The limit message carries the rejected value: its decimal tail reads back
      as the `max_tokens` passed in. */
  lemma {:induction false} TooManyTokensReadsBack(model: string, maxTokens: int)
    requires maxTokens > MaxTokenLimit
    ensures var r := Validate(Some(model), Some(maxTokens));
      r.Some? && |TooManyTokens| < |r.value.message|
      && r.value.message[..|TooManyTokens|] == TooManyTokens
      && DigitsValue(r.value.message[|TooManyTokens|..]) == maxTokens
  {
    var m := Validate(Some(model), Some(maxTokens)).value.message;
    assert m[|TooManyTokens|..] == EncodeNat(maxTokens);
    DigitsOfEncode(maxTokens);
  }

  /** The content extraction as written: every provider except OpenAI is read
      through `.choices[0].message['content']`, which raises `AttributeError`
      on plain text and on a JSON body. */
  function ReplyContentAsWritten(p: Provider, reply: Reply): (r: Result<Reply, Raised>)
    ensures p == OpenAIProvider ==> r == Ok(reply)
    ensures p != OpenAIProvider && reply.ChatCompletion? ==> r == Ok(Text(reply.content))
    ensures p != OpenAIProvider && !reply.ChatCompletion? ==> r.Err? && r.error.kind == "AttributeError"
  {
    if p == OpenAIProvider then Ok(reply)
    else match reply
      case ChatCompletion(content) => Ok(Text(content))
      case _ => Err(Raised("AttributeError", "object has no attribute 'choices'"))
  }

  /** The llama-cpp provider streams plain text, so as written every streamed
      llama-cpp completion fails after its one call. */
  lemma {:induction false} LlamaCppStreamFails(text: string)
    ensures ReplyContentAsWritten(CplusplusProvider, Text(text)).Err?
  {
  }

  /** The extraction evidently intended: completion objects are unwrapped and
      any other reply, which is already the response, is returned unchanged. */
  function ReplyContent(p: Provider, reply: Reply): (r: Result<Reply, Raised>)
    ensures r.Ok?
    ensures reply.Text? ==> r == Ok(reply)
    ensures p == OpenAIProvider ==> r == Ok(reply)
    ensures p != OpenAIProvider && reply.ChatCompletion? ==> r == Ok(Text(reply.content))
  {
    if p == OpenAIProvider then Ok(reply)
    else match reply
      case ChatCompletion(content) => Ok(Text(content))
      case _ => Ok(reply)
  }

  /** `for _ in range(attempts)`: the body returns after its first provider
      call, so any positive attempt budget makes exactly one call, a raised
      exception propagates unretried, and the `RuntimeError` after the loop is
      reached only with no attempt at all. */
  function Attempts(attempts: nat, call: ProviderCall, p: Provider, req: Request): (r: Completion)
    ensures attempts > 0 ==> r.calls == 1
    ensures attempts > 0 && call(p, req).Err? ==> r.result == Err(call(p, req).error)
    ensures attempts > 0 && call(p, req).Ok? ==> r.result == ReplyContent(p, call(p, req).value)
    ensures attempts == 0 ==> r == Completion(Err(Raised("RuntimeError", "Failed to get response from OpenAI API")), 0)
  {
    if attempts == 0 then Completion(Err(Raised("RuntimeError", "Failed to get response from OpenAI API")), 0)
    else
      match call(p, req)
      case Err(e) => Completion(Err(e), 1)
      case Ok(reply) => Completion(ReplyContent(p, reply), 1)
  }

  /** `create_chat_completion` with the corrected content extraction:
      validation, then provider lookup, then one provider call. */
  function CreateChatCompletion(
    messages: seq<Message>, model: Option<string>, maxTokens: Option<int>,
    tag: Option<string>, stream: bool, call: ProviderCall): (r: Completion)
    ensures Validate(model, maxTokens).Some? ==> r == Completion(Err(Validate(model, maxTokens).value), 0)
    ensures Validate(model, maxTokens) == None && GetProvider(tag).Err? ==> r == Completion(Err(GetProvider(tag).error), 0)
    ensures Validate(model, maxTokens) == None && GetProvider(tag).Ok? ==> r.calls == 1
    ensures r.calls <= 1
    ensures r.result.Err? && r.result.error.kind == "RuntimeError" ==>
      r.calls == 1 && call(GetProvider(tag).value, Request(model.value, maxTokens, messages, stream)) == Err(r.result.error)
  {
    match Validate(model, maxTokens)
    case Some(e) => Completion(Err(e), 0)
    case None =>
      match GetProvider(tag)
      case Err(e) => Completion(Err(e), 0)
      case Ok(p) => Attempts(10, call, p, Request(model.value, maxTokens, messages, stream))
  }

  /** `r` occurs in `s` starting at position `a`. */
  predicate OccursAt(r: string, s: string, a: int) {
    0 <= a && a + |r| <= |s| && r == s[a..a + |r|]
  }

  /** An infix of an infix is an infix of the whole, at the summed offset. */
  lemma {:induction false} OccursAtTrans(r: string, t: string, s: string, a: int, b: int)
    requires OccursAt(r, t, a) && OccursAt(t, s, b)
    ensures OccursAt(r, s, b + a)
  {
    forall i | 0 <= i < |r| ensures r[i] == s[b + a + i] {
      assert r[i] == t[a + i];
    }
  }

  /** What a strip leaves is the infix after the leading run. */
  lemma {:induction false} StripOccurs(s: string, p: char -> bool)
    ensures OccursAt(Strip(s, p), s, LeadRun(s, p))
  {
  }

  /** Stripping an infix of `s` leaves an infix of `s`. */
  lemma {:induction false} StripOfInfix(t: string, s: string, b: int, p: char -> bool)
    requires OccursAt(t, s, b)
    ensures OccursAt(Strip(t, p), s, b + LeadRun(t, p))
  {
    StripOccurs(t, p);
    OccursAtTrans(Strip(t, p), t, s, LeadRun(t, p), b);
  }

  /** The characters of the argument of `strip('```json')`. */
  predicate IsFenceChar(c: char) {
    c == '`' || c == 'j' || c == 's' || c == 'o' || c == 'n'
  }

  predicate IsBacktick(c: char) {
    c == '`'
  }

  /** The fence removal of the JSON parser: strip every leading and trailing
      character of the set "`jsno", then every leading and trailing backtick,
      then whitespace. The first two are character-set strips, not removal of
      a "```json" prefix. */
  function FenceStrip(s: string): (r: string)
    ensures |r| <= |s|
    ensures |r| > 0 ==> !IsPyWhitespace(r[0]) && !IsPyWhitespace(r[|r| - 1])
    ensures exists a :: OccursAt(r, s, a)
  {
    var t1 := Strip(s, IsFenceChar);
    var t2 := Strip(t1, IsBacktick);
    var r := PyStrip(t2);
    assert exists a :: OccursAt(r, s, a) by {
      StripOccurs(s, IsFenceChar);
      StripOfInfix(t1, s, LeadRun(s, IsFenceChar), IsBacktick);
      StripOfInfix(t2, s, LeadRun(s, IsFenceChar) + LeadRun(t1, IsBacktick), IsPyWhitespace);
    }
    r
  }

  /** A payload wrapped in a json code fence comes back exactly. */
  lemma {:induction false} FenceStripRoundTrip(payload: string)
    requires |payload| > 0 ==> !IsPyWhitespace(payload[0]) && !IsPyWhitespace(payload[|payload| - 1])
    ensures FenceStrip("```json\n" + payload + "\n```") == payload
  {
    var inner := "\n" + payload + "\n";
    assert "```json\n" + payload + "\n```" == "```json" + inner + "```";
    StripExact("```json", inner, "```", IsFenceChar);
    StripFixed(inner, IsBacktick);
    StripExact("\n", payload, "\n", IsPyWhitespace);
  }

  /** The strip works on characters, not on a prefix: an unfenced payload
      that starts with one of the letters of "json" (a bare `null`, say)
      loses that letter. */
  lemma {:induction false} FenceStripEatsLeadingLetter(c: char, rest: string)
    requires IsFenceChar(c) && |rest| > 0
    requires !IsFenceChar(rest[0]) && !IsFenceChar(rest[|rest| - 1])
    requires !IsPyWhitespace(rest[0]) && !IsPyWhitespace(rest[|rest| - 1])
    ensures FenceStrip([c] + rest) == rest
  {
    assert [c] + rest + [] == [c] + rest;
    StripExact([c], rest, [], IsFenceChar);
    StripFixed(rest, IsBacktick);
    StripFixed(rest, IsPyWhitespace);
  }

  /** Model output: text, or an already decoded dictionary. */
  datatype Output = StrOutput(text: string) | DictOutput(entries: map<string, seq<string>>)

  /** What `parse_chat_completion_for_json` hands to `json.loads` or, for a
      dictionary, straight to the DataFrame constructor. */
  function JsonPayload(output: Output): (r: Output)
    ensures output.DictOutput? ==> r == output
    ensures output.StrOutput? ==> r == StrOutput(FenceStrip(output.text))
  {
    match output
    case DictOutput(_) => output
    case StrOutput(s) => StrOutput(FenceStrip(s))
  }
}
