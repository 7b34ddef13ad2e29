/** The session request of the client (magi/src/pages/index.tsx): the text
    `"start " + JSON.stringify({task, columnHeaders, rowCount})`, and how the
    server (backend/server.py) reads it back with `json.loads(data[6:])`.

    `JSON.stringify` is modelled exactly for the values it is given here: two
    strings and a non-negative integer, with no whitespace and the keys in
    insertion order. The reading side is a JSON decoder for that layout:
    general string literals (every escape JSON allows) and integer literals. */
module Request {
  import opened Base
  import opened Text
  import ColumnSpec

  datatype StartRequest = StartRequest(task: string, columnHeaders: string, rowCount: nat)

  const StartPrefix: string := "start "

  // ---------------------------------------------------------------------------
  // Writing: JSON.stringify
  // ---------------------------------------------------------------------------

  /** A lower-case hexadecimal digit. */
  function HexDigit(d: nat): (c: char)
    requires d < 16
    ensures HexValue(c) == Some(d)
  {
    if d < 10 then ('0' as int + d) as char else ('a' as int + d - 10) as char
  }

  /** The JSON text of one character inside a string literal: the two-letter
      escapes for `"`, `\` and the five named control characters, `\u00XX`
      (lower-case hex) for the other control characters, the character itself
      otherwise. */
  function EncodeChar(c: char): (e: string)
    ensures 0 < |e| && e[0] != '"'
    ensures e[0] != '\\' <==> e == [c]
  {
    if c == '"' then ['\\', '"']
    else if c == '\\' then ['\\', '\\']
    else if c as int == 0x08 then ['\\', 'b']
    else if c == '\t' then ['\\', 't']
    else if c == '\n' then ['\\', 'n']
    else if c as int == 0x0C then ['\\', 'f']
    else if c == '\r' then ['\\', 'r']
    else if (c as int) < 0x20 then ['\\', 'u', '0', '0', HexDigit(c as int / 16), HexDigit(c as int % 16)]
    else [c]
  }

  /** The characters of a string literal between its quotes. */
  function EncodeBody(s: string): (e: string)
    ensures '"' !in s ==> |e| >= |s|
  {
    if |s| == 0 then "" else EncodeChar(s[0]) + EncodeBody(s[1..])
  }

  /** `JSON.stringify(s)` for a string. */
  function EncodeString(s: string): string {
    "\"" + EncodeBody(s) + "\""
  }

  const TaskKey: string := "{\"task\":"
  const HeadersKey: string := ",\"columnHeaders\":"
  const RowCountKey: string := ",\"rowCount\":"

  /** `JSON.stringify(requestData)`. */
  function Stringify(r: StartRequest): string {
    TaskKey + (EncodeString(r.task) + (HeadersKey + (EncodeString(r.columnHeaders)
    + (RowCountKey + (EncodeNat(r.rowCount) + "}")))))
  }

  /** The text the client sends over the socket. */
  function StartMessage(r: StartRequest): (m: string)
    ensures |StartPrefix| <= |m| && m[..|StartPrefix|] == StartPrefix
    ensures m[|StartPrefix|..] == Stringify(r)
  {
    StartPrefix + Stringify(r)
  }

  /** The `onopen` handler: the request built from the `task` value and the raw
      column field, or nothing when no column survives the parser. */
  function SessionRequest(task: string, columnsValue: string): (r: Option<StartRequest>)
    ensures r.None? <==> |ColumnSpec.Columns(columnsValue)| == 0
    ensures r.Some? ==>
      r.value.task == task
      && r.value.columnHeaders == ColumnSpec.ColumnHeaders(columnsValue)
      && r.value.rowCount == ColumnSpec.RowCount(columnsValue)
  {
    var headers := ColumnSpec.ColumnHeaders(columnsValue);
    if headers == "" then None
    else Some(StartRequest(task, headers, ColumnSpec.RowCount(columnsValue)))
  }

  // ---------------------------------------------------------------------------
  // Reading: json.loads
  // ---------------------------------------------------------------------------

  function HexValue(c: char): (r: Option<nat>)
    ensures r.Some? ==> r.value < 16
  {
    if '0' <= c <= '9' then Some(c as int - '0' as int)
    else if 'a' <= c <= 'f' then Some(c as int - 'a' as int + 10)
    else if 'A' <= c <= 'F' then Some(c as int - 'A' as int + 10)
    else None
  }

  /** The value of four hex digits. */
  function Hex4(t: string): (r: Option<nat>)
    requires |t| == 4
  {
    match (HexValue(t[0]), HexValue(t[1]), HexValue(t[2]), HexValue(t[3]))
    case (Some(a), Some(b), Some(c), Some(d)) => Some(((a * 16 + b) * 16 + c) * 16 + d)
    case _ => None
  }

  /** The character after a backslash in a two-letter escape. */
  function NamedEscape(c: char): Option<char> {
    if c == '"' then Some('"')
    else if c == '\\' then Some('\\')
    else if c == '/' then Some('/')
    else if c == 'b' then Some(0x08 as char)
    else if c == 'f' then Some(0x0C as char)
    else if c == 'n' then Some('\n')
    else if c == 'r' then Some('\r')
    else if c == 't' then Some('\t')
    else None
  }

  /** One character of a string literal that is not its closing quote: an
      escape, or a plain character (a raw control character is an error). */
  function DecodeUnit(t: string): (r: Option<(char, string)>)
    requires 0 < |t| && t[0] != '"'
    ensures r.Some? ==> |r.value.1| < |t|
  {
    if t[0] == '\\' then
      if |t| < 2 then None
      else if t[1] == 'u' then
        if |t| < 6 then None
        else match Hex4(t[2..6])
          case None => None
          case Some(v) =>
            if 0xD800 <= v < 0xE000 then None
            else Some((v as char, t[6..]))
      else match NamedEscape(t[1])
        case None => None
        case Some(c) => Some((c, t[2..]))
    else if (t[0] as int) < 0x20 then None
    else Some((t[0], t[1..]))
  }

  /** The rest of a string literal after its opening quote: its value and
      what follows the closing quote. */
  function DecodeBody(t: string): (r: Option<(string, string)>)
    ensures r.Some? ==> |r.value.1| < |t|
    decreases |t|
  {
    if |t| == 0 then None
    else if t[0] == '"' then Some(("", t[1..]))
    else match DecodeUnit(t)
      case None => None
      case Some((c, rest)) =>
        match DecodeBody(rest)
        case None => None
        case Some((s, after)) => Some(([c] + s, after))
  }

  function DecodeString(t: string): Option<(string, string)> {
    if 0 < |t| && t[0] == '"' then DecodeBody(t[1..]) else None
  }

  /** An integer literal: a maximal run of digits, without a leading zero
      unless it is the single digit 0. */
  function DecodeNat(t: string): (r: Option<(nat, string)>)
    ensures r.Some? ==> |r.value.1| < |t|
  {
    var k := LeadRun(t, IsDigit);
    if k == 0 || (k > 1 && t[0] == '0') then None
    else Some((DigitsValue(t[..k]), t[k..]))
  }

  /** `t` with the prefix `p` removed, when it has that prefix. */
  function After(p: string, t: string): (r: Option<string>)
    ensures r.Some? <==> |p| <= |t| && t[..|p|] == p
    ensures r.Some? ==> t == p + r.value
  {
    if |p| <= |t| && t[..|p|] == p then Some(t[|p|..]) else None
  }

  /** The request object in the layout the client writes. */
  function ParseRequest(j: string): Option<StartRequest> {
    match After(TaskKey, j)
    case None => None
    case Some(t0) =>
      match DecodeString(t0)
      case None => None
      case Some((task, t1)) =>
        match After(HeadersKey, t1)
        case None => None
        case Some(t2) =>
          match DecodeString(t2)
          case None => None
          case Some((headers, t3)) =>
            match After(RowCountKey, t3)
            case None => None
            case Some(t4) =>
              match DecodeNat(t4)
              case None => None
              case Some((n, t5)) =>
                if t5 == "}" then Some(StartRequest(task, headers, n)) else None
  }

  /** backend/server.py: a message starting with "start" is parsed from its
      seventh character on; a session starts only for a non-empty task. */
  function ServerReceive(data: string): (r: Option<StartRequest>)
    ensures r.Some? ==> |data| >= 6 && data[..5] == "start" && r.value.task != ""
  {
    if 6 <= |data| && data[..5] == "start" then
      match ParseRequest(data[6..])
      case Some(req) => if req.task != "" then Some(req) else None
      case None => None
    else None
  }

  // ---------------------------------------------------------------------------
  // Round trips
  // ---------------------------------------------------------------------------

  lemma {:induction false} HexRoundTrip(c: char)
    requires (c as int) < 0x20
    ensures Hex4(['0', '0', HexDigit(c as int / 16), HexDigit(c as int % 16)]) == Some(c as int)
  {
  }

  /** Every character's encoding decodes to that character. */
  lemma {:induction false} DecodeUnitOfEncode(c: char, t: string)
    ensures DecodeUnit(EncodeChar(c) + t) == Some((c, t))
  {
    var e := EncodeChar(c);
    if e[0] == '\\' && e[1] == 'u' {
      HexRoundTrip(c);
      assert (e + t)[2..6] == e[2..6];
      assert (e + t)[6..] == t;
    } else if e[0] == '\\' {
      assert (e + t)[2..] == t;
    } else {
      assert (e + t)[1..] == t;
    }
  }

  /** The body of an encoded string decodes to the string, and the decoder
      stops at the closing quote. */
  lemma {:induction false} DecodeBodyOfEncode(s: string, t: string)
    ensures DecodeBody(EncodeBody(s) + "\"" + t) == Some((s, t))
    decreases |s|
  {
    if |s| == 0 {
      assert EncodeBody(s) + "\"" + t == "\"" + t;
    } else {
      var e := EncodeChar(s[0]);
      var rest := EncodeBody(s[1..]) + "\"" + t;
      assert EncodeBody(s) + "\"" + t == e + rest;
      DecodeUnitOfEncode(s[0], rest);
      DecodeBodyOfEncode(s[1..], t);
      assert [s[0]] + s[1..] == s;
    }
  }

  lemma {:induction false} DecodeStringOfEncode(s: string, t: string)
    ensures DecodeString(EncodeString(s) + t) == Some((s, t))
  {
    var u := EncodeString(s) + t;
    assert u[1..] == EncodeBody(s) + "\"" + t;
    DecodeBodyOfEncode(s, t);
  }

  lemma {:induction false} DecodeNatOfEncode(n: nat, t: string)
    requires 0 < |t| && !IsDigit(t[0])
    ensures DecodeNat(EncodeNat(n) + t) == Some((n, t))
  {
    var e := EncodeNat(n);
    var u := e + t;
    var k := LeadRun(u, IsDigit);
    assert u[|e|] == t[0];
    assert k == |e|;
    assert u[..k] == e;
    assert u[k..] == t;
    DigitsOfEncode(n);
  }

  lemma {:induction false} AfterPrefix(p: string, t: string)
    ensures After(p, p + t) == Some(t)
  {
    assert (p + t)[..|p|] == p;
    assert (p + t)[|p|..] == t;
  }

  /** Parsing the JSON the client writes gives back the request. */
  lemma {:induction false} ParseStringify(r: StartRequest)
    ensures ParseRequest(Stringify(r)) == Some(r)
  {
    var t4 := EncodeNat(r.rowCount) + "}";
    var t3 := RowCountKey + t4;
    var t2 := EncodeString(r.columnHeaders) + t3;
    var t1 := HeadersKey + t2;
    var t0 := EncodeString(r.task) + t1;
    assert Stringify(r) == TaskKey + t0;
    AfterPrefix(TaskKey, t0);
    DecodeStringOfEncode(r.task, t1);
    AfterPrefix(HeadersKey, t2);
    DecodeStringOfEncode(r.columnHeaders, t3);
    AfterPrefix(RowCountKey, t4);
    DecodeNatOfEncode(r.rowCount, "}");
    ParseSteps(Stringify(r), t0, r.task, t1, t2, r.columnHeaders, t3, t4, r.rowCount);
  }

  /** ParseRequest, one step at a time. */
  lemma {:induction false} ParseSteps(j: string, t0: string, task: string, t1: string, t2: string,
                   headers: string, t3: string, t4: string, n: nat)
    requires After(TaskKey, j) == Some(t0)
    requires DecodeString(t0) == Some((task, t1))
    requires After(HeadersKey, t1) == Some(t2)
    requires DecodeString(t2) == Some((headers, t3))
    requires After(RowCountKey, t3) == Some(t4)
    requires DecodeNat(t4) == Some((n, "}"))
    ensures ParseRequest(j) == Some(StartRequest(task, headers, n))
  {
  }

  /** The server reads back exactly the request the client sent, and starts a
      session for it exactly when its task is non-empty. */
  lemma {:induction false} ServerReadsStartMessage(r: StartRequest)
    ensures ServerReceive(StartMessage(r)) == (if r.task != "" then Some(r) else None)
  {
    var m := StartMessage(r);
    assert m[..5] == "start";
    ParseStringify(r);
  }

  /** A column field with no column never reaches the server. */
  lemma {:induction false} NoColumnsNoRequest(task: string, columnsValue: string)
    ensures SessionRequest(task, columnsValue).None? <==> ColumnSpec.ColumnHeaders(columnsValue) == ""
  {
  }
}
