/** The column-spec parser of the client (magi/src/pages/index.tsx, repeated
    in magi/src/pages/indexzero.tsx): `"a, b, row count: 10"` is read as the
    column list `["a", "b"]` and the row count 10.

    `/row count:\s*(\d+)/i` and `toLowerCase().startsWith('row count:')` are
    modelled with ASCII lower-casing: no non-ASCII character matches or
    lower-cases onto the letters of "row count:", so this is exact. */
module ColumnSpec {
  import opened Base
  import opened Text

  const RowCountLabel: string := "row count:"

  /** The input at position `i` reads "row count:" in any letter case. */
  predicate LabelAt(s: string, i: nat) {
    i + |RowCountLabel| <= |s| && LowerAscii(s[i..i + |RowCountLabel|]) == RowCountLabel
  }

  /** Where the digits of a match starting at `i` would begin: after the
      label and all the whitespace that follows it. */
  function DigitsStart(s: string, i: nat): (j: nat)
    requires LabelAt(s, i)
    ensures i + |RowCountLabel| <= j <= |s|
    ensures forall k | i + |RowCountLabel| <= k < j :: IsJsWhitespace(s[k])
    ensures j < |s| ==> !IsJsWhitespace(s[j])
  {
    var from := i + |RowCountLabel|;
    from + LeadRun(s[from..], IsJsWhitespace)
  }

  /** The regular expression matches at position `i`: the label, optional
      whitespace, then at least one digit. Backtracking into the whitespace
      cannot help, since a shorter run is followed by whitespace, not a digit. */
  predicate MatchAt(s: string, i: nat) {
    LabelAt(s, i) && DigitsStart(s, i) < |s| && IsDigit(s[DigitsStart(s, i)])
  }

  /** The leftmost match at or after `i`, as the regex search finds it. */
  function FirstMatch(s: string, i: nat): (r: Option<nat>)
    requires i <= |s|
    ensures r.Some? ==> i <= r.value < |s| && MatchAt(s, r.value)
    ensures r.Some? ==> forall k | i <= k < r.value :: !MatchAt(s, k)
    ensures r.None? ==> forall k | i <= k < |s| :: !MatchAt(s, k)
    decreases |s| - i
  {
    if i == |s| then None
    else if MatchAt(s, i) then Some(i)
    else FirstMatch(s, i + 1)
  }

  /** The digits a match at `i` captures: the longest run of digits at
      `DigitsStart`. */
  function MatchDigits(s: string, i: nat): (d: string)
    requires MatchAt(s, i)
    ensures 0 < |d| && DigitsStart(s, i) + |d| <= |s|
    ensures d == s[DigitsStart(s, i)..DigitsStart(s, i) + |d|]
    ensures forall k | 0 <= k < |d| :: IsDigit(d[k])
    ensures DigitsStart(s, i) + |d| < |s| ==> !IsDigit(s[DigitsStart(s, i) + |d|])
  {
    var j := DigitsStart(s, i);
    s[j..][..LeadRun(s[j..], IsDigit)]
  }

  /** The row count: the decimal value of the digits captured by the leftmost
      match, or 0 when nothing matches. */
  function RowCount(s: string): (n: nat)
    ensures (forall k | 0 <= k < |s| :: !MatchAt(s, k)) ==> n == 0
    ensures FirstMatch(s, 0).Some? ==> n == DigitsValue(MatchDigits(s, FirstMatch(s, 0).value))
  {
    match FirstMatch(s, 0)
    case None => 0
    case Some(i) => DigitsValue(MatchDigits(s, i))
  }

  /** The segment, lower-cased, begins with the row-count label. */
  predicate StartsWithLabel(v: string) {
    LabelAt(v, 0)
  }

  /** A trimmed segment the parser keeps. */
  predicate Kept(v: string) {
    v != "" && !StartsWithLabel(v)
  }

  /** A trimmed segment that names a column. */
  predicate IsColumnName(v: string) {
    Kept(v) && JsTrimmed(v) && ',' !in v
  }

  /** The filter of the parser over already trimmed segments: the kept
      segments, each as often as it occurs (their order is kept, see
      `KeepColumnsAppend`). */
  function KeepColumns(segments: seq<string>): (r: seq<string>)
    ensures |r| <= |segments|
    ensures forall v :: v in r <==> v in segments && Kept(v)
  {
    if |segments| == 0 then []
    else
      (if Kept(segments[0]) then [segments[0]] else []) + KeepColumns(segments[1..])
  }

  /** Each kept segment survives as often as it occurs, and nothing else does. */
  lemma {:induction false} KeepColumnsCounts(segments: seq<string>)
    ensures forall v :: multiset(KeepColumns(segments))[v] == if Kept(v) then multiset(segments)[v] else 0
  {
    if |segments| > 0 {
      assert segments == [segments[0]] + segments[1..];
      KeepColumnsCounts(segments[1..]);
    }
  }

  /** The filter works segment by segment, so it keeps their order. */
  lemma {:induction false} KeepColumnsAppend(a: seq<string>, b: seq<string>)
    ensures KeepColumns(a + b) == KeepColumns(a) + KeepColumns(b)
  {
    if |a| == 0 {
      assert a + b == b;
    } else {
      assert (a + b)[0] == a[0] && (a + b)[1..] == a[1..] + b;
      KeepColumnsAppend(a[1..], b);
    }
  }

  /** Every segment, trimmed. */
  function TrimAll(segments: seq<string>): (r: seq<string>)
    ensures |r| == |segments|
    ensures forall i | 0 <= i < |r| :: r[i] == JsTrim(segments[i])
  {
    seq(|segments|, i requires 0 <= i < |segments| => JsTrim(segments[i]))
  }

  /** The columns of the field: the comma-separated segments, trimmed, less
      the empty ones and the row-count label. Every kept segment is a column. */
  function Columns(s: string): (cols: seq<string>)
    ensures forall i | 0 <= i < |cols| :: IsColumnName(cols[i])
    ensures |cols| <= |Split(s, ',')|
    ensures forall k | 0 <= k < |Split(s, ',')| ::
      Kept(JsTrim(Split(s, ',')[k])) ==> JsTrim(Split(s, ',')[k]) in cols
  {
    var segments := Split(s, ',');
    var cols := KeepColumns(TrimAll(segments));
    KeptSegments(segments, cols);
    cols
  }

  /** The kept trimmed segments of comma-free segments are column names, and
      every segment that trims to a kept value is among them. */
  lemma {:induction false} KeptSegments(segments: seq<string>, cols: seq<string>)
    requires forall k | 0 <= k < |segments| :: ',' !in segments[k]
    requires cols == KeepColumns(TrimAll(segments))
    ensures forall i | 0 <= i < |cols| :: IsColumnName(cols[i])
    ensures forall k | 0 <= k < |segments| :: Kept(JsTrim(segments[k])) ==> JsTrim(segments[k]) in cols
  {
    forall i | 0 <= i < |cols| ensures IsColumnName(cols[i]) {
      assert cols[i] in TrimAll(segments);
      var k :| 0 <= k < |segments| && cols[i] == JsTrim(segments[k]);
      TrimKeepsOut(segments[k], ',');
    }
    forall k | 0 <= k < |segments| ensures Kept(JsTrim(segments[k])) ==> JsTrim(segments[k]) in cols {
      assert TrimAll(segments)[k] == JsTrim(segments[k]);
    }
  }

  /** Columns, one stage at a time. */
  lemma {:induction false} ColumnsVia(s: string, segments: seq<string>, cols: seq<string>)
    requires Split(s, ',') == segments
    requires KeepColumns(TrimAll(segments)) == cols
    ensures Columns(s) == cols
  {
  }

  lemma {:induction false} TrimAllAppend(xs: seq<string>, ys: seq<string>)
    ensures TrimAll(xs + ys) == TrimAll(xs) + TrimAll(ys)
  {
  }

  /** The parse of a field is the parses of its two sides of a comma, in order. */
  lemma {:induction false} ColumnsAppend(a: string, b: string)
    ensures Columns(a + [','] + b) == Columns(a) + Columns(b)
  {
    var xs, ys := Split(a, ','), Split(b, ',');
    SplitAppend(a, b, ',');
    TrimAllAppend(xs, ys);
    KeepColumnsAppend(TrimAll(xs), TrimAll(ys));
    ColumnsVia(a, xs, KeepColumns(TrimAll(xs)));
    ColumnsVia(b, ys, KeepColumns(TrimAll(ys)));
    ColumnsVia(a + [','] + b, xs + ys, KeepColumns(TrimAll(xs)) + KeepColumns(TrimAll(ys)));
  }

  /** A comma-free segment is one column, its trimmed text, unless that text
      is empty or starts with the label. */
  lemma {:induction false} ColumnsOfSegment(v: string)
    requires ',' !in v
    ensures Columns(v) == if Kept(JsTrim(v)) then [JsTrim(v)] else []
  {
    SplitJoin([v], ',');
    assert Join([','], [v]) == v;
    assert TrimAll([v]) == [JsTrim(v)];
    assert KeepColumns([JsTrim(v)]) == (if Kept(JsTrim(v)) then [JsTrim(v)] else []) + KeepColumns([]);
  }

  lemma {:induction false} TrimKeepsOut(s: string, c: char)
    requires c !in s
    ensures c !in JsTrim(s)
  {
  }

  /** The header string sent to the server: the columns joined by ", ". */
  function ColumnHeaders(s: string): (h: string)
    ensures h == "" <==> |Columns(s)| == 0
    ensures |Columns(s)| > 0 ==> Split(h, ',') == [Columns(s)[0]] + SpaceAll(Columns(s)[1..])
  {
    var cols := Columns(s);
    assert forall i | 0 <= i < |cols| :: |cols[i]| > 0 by {
      forall i | 0 <= i < |cols| ensures |cols[i]| > 0 {
        assert IsColumnName(cols[i]);
      }
    }
    JoinEmptyIff(", ", cols);
    assert |cols| > 0 ==> Split(Join(", ", cols), ',') == [cols[0]] + SpaceAll(cols[1..]) by {
      if |cols| > 0 {
        SplitOfHeaders(cols);
      }
    }
    Join(", ", cols)
  }

  /** indexzero.tsx: the column count shown to the user. */
  function ColumnCount(s: string): (n: nat)
    ensures n == |Columns(s)|
  {
    |Columns(s)|
  }

  /** Joining column names with ", " is the comma join of the names, each after
      the first prefixed by a space. */
  lemma {:induction false} JoinWithSpace(cols: seq<string>)
    requires |cols| > 0
    ensures Join(", ", cols) == Join(",", [cols[0]] + SpaceAll(cols[1..]))
  {
    if |cols| > 1 {
      JoinWithSpace(cols[1..]);
      assert ([cols[0]] + SpaceAll(cols[1..]))[1..] == [" " + cols[1]] + SpaceAll(cols[2..]);
      assert Join(",", [cols[0]] + SpaceAll(cols[1..])) == cols[0] + "," + Join(",", [" " + cols[1]] + SpaceAll(cols[2..]));
      JoinHeadSpace(cols[1], SpaceAll(cols[2..]));
    }
  }

  lemma {:induction false} JoinHeadSpace(x: string, rest: seq<string>)
    ensures Join(",", [" " + x] + rest) == " " + Join(",", [x] + rest)
  {
    if |rest| > 0 {
      assert ([" " + x] + rest)[1..] == rest;
      assert ([x] + rest)[1..] == rest;
    }
  }

  function SpaceAll(xs: seq<string>): (r: seq<string>)
    ensures |r| == |xs|
    ensures forall i | 0 <= i < |xs| :: r[i] == " " + xs[i]
  {
    seq(|xs|, i requires 0 <= i < |xs| => " " + xs[i])
  }

  /** Parsing the header string the client builds gives back the same
      columns, so the normalisation is idempotent. */
  lemma {:induction false} ColumnsOfHeaders(s: string)
    ensures Columns(ColumnHeaders(s)) == Columns(s)
  {
    ColumnsOfJoin(Columns(s));
  }

  /** Column names joined by ", " parse back to the same names. */
  lemma {:induction false} ColumnsOfJoin(cols: seq<string>)
    requires forall i | 0 <= i < |cols| :: IsColumnName(cols[i])
    ensures Columns(Join(", ", cols)) == cols
  {
    var s := Join(", ", cols);
    if |cols| == 0 {
      ColumnsOfEmptyJoin(cols, s);
    } else {
      ColumnsOfJoinParts(cols, s, [cols[0]] + SpaceAll(cols[1..]));
    }
  }

  lemma {:induction false} ColumnsOfEmptyJoin(cols: seq<string>, s: string)
    requires |cols| == 0 && s == Join(", ", cols)
    ensures Columns(s) == cols
  {
    ColumnsOfEmpty();
  }

  lemma {:induction false} ColumnsOfJoinParts(cols: seq<string>, s: string, parts: seq<string>)
    requires |cols| > 0 && forall i | 0 <= i < |cols| :: IsColumnName(cols[i])
    requires s == Join(", ", cols) && parts == [cols[0]] + SpaceAll(cols[1..])
    ensures Columns(s) == cols
  {
    assert forall i | 0 <= i < |cols| :: ',' !in cols[i] && JsTrimmed(cols[i]);
    SplitOfHeaders(cols);
    TrimParts(cols);
    KeepAllColumns(cols);
    ColumnsVia(s, parts, cols);
  }

  lemma {:induction false} ColumnsOfEmpty()
    ensures Columns("") == []
  {
    SplitEmpty(',');
    assert JsTrim("") == "";
    assert TrimAll([""]) == [""];
    assert KeepColumns([""]) == [];
  }

  /** Splitting the ", " join at commas gives the names, each after the first with a leading space. */
  lemma {:induction false} SplitOfHeaders(cols: seq<string>)
    requires |cols| > 0
    requires forall i | 0 <= i < |cols| :: ',' !in cols[i]
    ensures Split(Join(", ", cols), ',') == [cols[0]] + SpaceAll(cols[1..])
  {
    JoinWithSpace(cols);
    PartsHaveNoComma(cols);
    SplitJoin([cols[0]] + SpaceAll(cols[1..]), ',');
  }

  lemma {:induction false} SplitEmpty(c: char)
    ensures Split("", c) == [""]
  {
    var parts := Split("", c);
    assert Join([c], parts) == "";
  }

  lemma {:induction false} PartsHaveNoComma(cols: seq<string>)
    requires |cols| > 0
    requires forall i | 0 <= i < |cols| :: ',' !in cols[i]
    ensures forall i | 0 <= i < |cols| :: ',' !in ([cols[0]] + SpaceAll(cols[1..]))[i]
  {
    var parts := [cols[0]] + SpaceAll(cols[1..]);
    forall i | 0 <= i < |cols| ensures ',' !in parts[i] {
      if i > 0 {
        assert parts[i] == " " + cols[i];
      }
    }
  }

  /** Trimming those parts gives the names back. */
  lemma {:induction false} TrimParts(cols: seq<string>)
    requires |cols| > 0
    requires forall i | 0 <= i < |cols| :: JsTrimmed(cols[i])
    ensures TrimAll([cols[0]] + SpaceAll(cols[1..])) == cols
  {
    var parts := [cols[0]] + SpaceAll(cols[1..]);
    forall i | 0 <= i < |parts| ensures JsTrim(parts[i]) == cols[i] {
      if i == 0 {
        assert parts[0] == "" + cols[0] + "";
        JsTrimAround("", cols[0], "");
      } else {
        assert parts[i] == " " + cols[i] + "";
        JsTrimAround(" ", cols[i], "");
      }
    }
  }

  lemma {:induction false} KeepAllColumns(cols: seq<string>)
    requires forall i | 0 <= i < |cols| :: IsColumnName(cols[i])
    ensures KeepColumns(cols) == cols
  {
    if |cols| > 0 {
      KeepAllColumns(cols[1..]);
    }
  }

  /** indexzero.tsx: the text area and the column field share one handler,
      so each event recomputes both counts from the value of the field that
      fired. */
  function SharedHandler(counts: (nat, nat), fired: seq<string>): (nat, nat)
    decreases |fired|
  {
    if |fired| == 0 then counts
    else SharedHandler((RowCount(fired[0]), ColumnCount(fired[0])), fired[1..])
  }

  /** Whatever was typed before, the counts shown are those of the last value
      seen by the handler, even when it came from the text area. */
  lemma {:induction false} LastFieldWins(counts: (nat, nat), fired: seq<string>)
    requires |fired| > 0
    ensures SharedHandler(counts, fired) == (RowCount(fired[|fired| - 1]), |Columns(fired[|fired| - 1])|)
    decreases |fired|
  {
    if |fired| > 1 {
      LastFieldWins((RowCount(fired[0]), ColumnCount(fired[0])), fired[1..]);
    }
  }

  /** A label starts with an r and has its colon nine characters later. */
  lemma {:induction false} LabelEnds(s: string, i: nat)
    requires LabelAt(s, i)
    ensures AsciiLower(s[i]) == 'r' && AsciiLower(s[i + 9]) == ':'
  {
    var w := s[i..i + |RowCountLabel|];
    assert LowerAscii(w)[0] == AsciiLower(w[0]);
    assert LowerAscii(w)[9] == AsciiLower(w[9]);
  }

  /** A single segment that is already a column name parses to itself. */
  lemma {:induction false} ColumnsOfName(v: string)
    requires IsColumnName(v)
    ensures Columns(v) == [v]
  {
    SplitJoin([v], ',');
    assert Join([','], [v]) == v;
    JsTrimAround("", v, "");
    assert "" + v + "" == v;
    assert TrimAll([v]) == [v];
    assert KeepColumns([v]) == [v];
  }

  /** Without an r that has a colon nine characters later there is no match. */
  lemma {:induction false} NoLabelNoRowCount(s: string)
    requires forall k | 0 <= k < |s| - 9 :: AsciiLower(s[k]) != 'r' || AsciiLower(s[k + 9]) != ':'
    ensures RowCount(s) == 0
  {
    forall k | 0 <= k < |s| ensures !MatchAt(s, k) {
      if LabelAt(s, k) {
        LabelEnds(s, k);
        assert false;
      }
    }
  }

  /** The label as written is already in lower case. */
  lemma {:induction false} LabelLower()
    ensures LowerAscii(RowCountLabel) == RowCountLabel
  {
    assert forall k | 0 <= k < |RowCountLabel| :: !IsAsciiUpper(RowCountLabel[k]);
  }

  /** No match starts before `m` when no colon, in any case, occurs at
      positions 9 to `m + 8`, where the colon of such a label would be. */
  lemma {:induction false} NoMatchBefore(s: string, m: nat)
    requires m <= |s|
    requires forall k | 9 <= k < m + 9 && k < |s| :: AsciiLower(s[k]) != ':'
    ensures forall k | 0 <= k < m :: !MatchAt(s, k)
  {
    forall k | 0 <= k < m ensures !MatchAt(s, k) {
      if LabelAt(s, k) {
        LabelEnds(s, k);
        assert false;
      }
    }
  }

  /** Text that starts with the label has a label at 0. */
  lemma {:induction false} LabelAtStart(u: string, rest: string)
    requires u == RowCountLabel + rest
    ensures LabelAt(u, 0)
  {
    assert u[0..|RowCountLabel|] == RowCountLabel;
    LabelLower();
  }

  /** The leading run of a run followed by a character outside it is that run. */
  lemma {:induction false} LeadRunOf(run: string, rest: string, p: char -> bool)
    requires forall i | 0 <= i < |run| :: p(run[i])
    requires |rest| > 0 ==> !p(rest[0])
    ensures LeadRun(run + rest, p) == |run|
  {
    var n := LeadRun(run + rest, p);
    assert forall i | 0 <= i < |run| :: (run + rest)[i] == run[i];
    assert |rest| > 0 ==> (run + rest)[|run|] == rest[0];
  }

  /** The label, whitespace, a digit run and a non-digit match at 0 and
      capture exactly that digit run. */
  lemma {:induction false} MatchAfterLabel(u: string, ws: string, e: string, t: string)
    requires u == RowCountLabel + (ws + (e + t))
    requires forall i | 0 <= i < |ws| :: IsJsWhitespace(ws[i])
    requires 0 < |e| && forall i | 0 <= i < |e| :: IsDigit(e[i])
    requires |t| > 0 ==> !IsDigit(t[0])
    ensures MatchAt(u, 0) && MatchDigits(u, 0) == e
  {
    var rest := e + t;
    assert rest[0] == e[0];
    var j := DigitsAfterLabel(u, ws, rest);
    LeadRunOf(e, t, IsDigit);
    assert rest[..|e|] == e;
  }

  /** After the label and a whitespace run, the digits would start where
      the run ends. */
  lemma {:induction false} DigitsAfterLabel(u: string, ws: string, rest: string) returns (j: nat)
    requires u == RowCountLabel + (ws + rest)
    requires forall i | 0 <= i < |ws| :: IsJsWhitespace(ws[i])
    requires |rest| > 0 ==> !IsJsWhitespace(rest[0])
    ensures LabelAt(u, 0) && j == DigitsStart(u, 0) && j <= |u| && u[j..] == rest
  {
    LabelAtStart(u, ws + rest);
    var from := |RowCountLabel|;
    var after := u[from..];
    assert after == ws + rest;
    LeadRunOf(ws, rest, IsJsWhitespace);
    assert DigitsStart(u, 0) == from + LeadRun(after, IsJsWhitespace);
    j := from + |ws|;
    SliceAfter(u, from, |ws|, rest);
  }

  /** Dropping `from + n` characters is dropping `from`, then `n`. */
  lemma {:induction false} SliceAfter(u: string, from: nat, n: nat, rest: string)
    requires from <= |u| && n <= |u| - from && u[from..][n..] == rest
    ensures u[from + n..] == rest
  {
    assert u[from..][n..] == u[from + n..];
  }

  /** A match at the start of `u` is a match right after `p` in `p + u`,
      capturing the same digits. */
  lemma {:induction false} MatchShift(p: string, u: string)
    requires MatchAt(u, 0)
    ensures MatchAt(p + u, |p|) && MatchDigits(p + u, |p|) == MatchDigits(u, 0)
  {
    var s := p + u;
    var m := |p|;
    var from := |RowCountLabel|;
    assert s[m..m + from] == u[0..from];
    assert s[m + from..] == u[from..];
    assert DigitsStart(s, m) == m + DigitsStart(u, 0);
    var j := DigitsStart(u, 0);
    assert s[m + j..] == u[j..];
  }

  /** A match with none before it is the leftmost one, and gives the row count. */
  lemma {:induction false} FirstMatchIs(s: string, m: nat)
    requires m < |s| && MatchAt(s, m)
    requires forall k | 0 <= k < m :: !MatchAt(s, k)
    ensures FirstMatch(s, 0) == Some(m)
    ensures RowCount(s) == DigitsValue(MatchDigits(s, m))
  {
  }

  /** The row count written after the label reads back: text without a
      colon, the label, whitespace, the digits of `k`, then anything that
      does not start with a digit give the row count `k`. */
  lemma {:induction false} RowCountOfLabel(p: string, ws: string, k: nat, t: string)
    requires ':' !in p
    requires forall i | 0 <= i < |ws| :: IsJsWhitespace(ws[i])
    requires |t| > 0 ==> !IsDigit(t[0])
    ensures RowCount(p + (RowCountLabel + (ws + (EncodeNat(k) + t)))) == k
  {
    var e := EncodeNat(k);
    var u := RowCountLabel + (ws + (e + t));
    var s := p + u;
    var m := |p|;
    assert forall i | 9 <= i < m + 9 && i < |s| :: AsciiLower(s[i]) != ':' by {
      assert forall i | 0 <= i < m :: s[i] == p[i];
      assert forall i | m <= i < m + 9 :: s[i] == RowCountLabel[i - m];
      assert forall i | 0 <= i < 9 :: RowCountLabel[i] != ':';
    }
    NoMatchBefore(s, m);
    MatchAfterLabel(u, ws, e, t);
    MatchShift(p, u);
    FirstMatchIs(s, m);
    DigitsOfEncode(k);
  }

  /** The row-count clause of the field: the label, a space and the count. */
  function CountClause(k: nat): string {
    RowCountLabel + (" " + EncodeNat(k))
  }

  /** The clause is dropped from the columns and holds no comma. */
  lemma {:induction false} CountClauseShape(k: nat)
    ensures StartsWithLabel(CountClause(k)) && JsTrimmed(CountClause(k)) && ',' !in CountClause(k)
  {
    LabelAtStart(CountClause(k), " " + EncodeNat(k));
    ClauseEnds(k);
  }

  lemma {:induction false} ClauseEnds(k: nat)
    ensures JsTrimmed(CountClause(k)) && ',' !in CountClause(k)
  {
    var e := EncodeNat(k);
    var c := CountClause(k);
    assert c[0] == 'r';
    assert c[|c| - 1] == e[|e| - 1];
    assert forall i | 0 <= i < |e| :: e[i] != ',';
    assert ',' !in RowCountLabel;
  }

  /** Joining by ", " puts a comma and a space before the last part. */
  lemma {:induction false} JoinLast(cols: seq<string>, x: string)
    requires |cols| > 0
    ensures Join(", ", cols + [x]) == Join(", ", cols) + [','] + (" " + x)
  {
    JoinAppend(", ", cols, x);
    CommaSpace(Join(", ", cols), x);
  }

  lemma {:induction false} CommaSpace(a: string, b: string)
    ensures a + ", " + b == a + [','] + (" " + b)
  {
    assert ", " == [','] + [' '];
  }

  /** Whitespace and then a comma-free part the parser drops give no column. */
  lemma {:induction false} SegmentDropped(w: string, x: string)
    requires forall i | 0 <= i < |w| :: IsJsWhitespace(w[i])
    requires ',' !in w && ',' !in x && JsTrimmed(x) && !Kept(x)
    ensures Columns(w + x) == []
  {
    JsTrimAround(w, x, "");
    assert w + x + "" == w + x;
    ColumnsOfSegment(w + x);
  }

  /** Column names followed by a comma-free part that trims to something
      the parser drops parse to the names alone. */
  lemma {:induction false} ColumnsDropLast(cols: seq<string>, x: string)
    requires forall i | 0 <= i < |cols| :: IsColumnName(cols[i])
    requires ',' !in x && JsTrimmed(x) && !Kept(x)
    ensures Columns(Join(", ", cols + [x])) == cols
  {
    var s := Join(", ", cols + [x]);
    if |cols| == 0 {
      ColumnsDropOnly(cols, x, s);
    } else {
      JoinLast(cols, x);
      ColumnsDropAfter(cols, x, s);
    }
  }

  lemma {:induction false} ColumnsDropOnly(cols: seq<string>, x: string, s: string)
    requires |cols| == 0
    requires ',' !in x && JsTrimmed(x) && !Kept(x)
    requires s == Join(", ", cols + [x])
    ensures Columns(s) == cols
  {
    assert cols + [x] == [x];
    assert "" + x == x;
    SegmentDropped("", x);
  }

  lemma {:induction false} ColumnsDropAfter(cols: seq<string>, x: string, s: string)
    requires |cols| > 0
    requires forall i | 0 <= i < |cols| :: IsColumnName(cols[i])
    requires ',' !in x && JsTrimmed(x) && !Kept(x)
    requires s == Join(", ", cols) + [','] + (" " + x)
    ensures Columns(s) == cols
  {
    var a, b := Join(", ", cols), " " + x;
    ColumnsAppend(a, b);
    ColumnsOfJoin(cols);
    SpaceThenDropped(x, b);
    AppendNothing(Columns(s), Columns(a), Columns(b), cols);
  }

  lemma {:induction false} SpaceThenDropped(x: string, b: string)
    requires ',' !in x && JsTrimmed(x) && !Kept(x)
    requires b == " " + x
    ensures Columns(b) == []
  {
    SegmentDropped(" ", x);
  }

  lemma {:induction false} AppendNothing(whole: seq<string>, front: seq<string>, back: seq<string>, cols: seq<string>)
    requires whole == front + back && front == cols && back == []
    ensures whole == cols
  {
    assert cols + [] == cols;
  }

  /** A field in the documented form, column names and then the row-count
      clause, parses to exactly those columns... */
  lemma {:induction false} FieldColumns(cols: seq<string>, k: nat)
    requires forall i | 0 <= i < |cols| :: IsColumnName(cols[i])
    ensures Columns(Join(", ", cols + [CountClause(k)])) == cols
  {
    CountClauseShape(k);
    ColumnsDropLast(cols, CountClause(k));
  }

  /** The clause after colon-free text gives its count. */
  lemma {:induction false} RowCountOfClause(p: string, k: nat)
    requires ':' !in p
    ensures RowCount(p + CountClause(k)) == k
  {
    var e := EncodeNat(k);
    assert e + "" == e;
    RowCountOfLabel(p, " ", k, "");
  }

  /** ... and to that row count, when no column name holds a colon. */
  lemma {:induction false} FieldRowCount(cols: seq<string>, k: nat)
    requires forall i | 0 <= i < |cols| :: ':' !in cols[i]
    ensures RowCount(Join(", ", cols + [CountClause(k)])) == k
  {
    var p := ColonFreeBefore(cols, CountClause(k));
    RowCountOfClause(p, k);
  }

  /** Colon-free parts joined by ", " before a last part `x` form a colon-free
      prefix of the whole. */
  lemma {:induction false} ColonFreeBefore(cols: seq<string>, x: string) returns (p: string)
    requires forall i | 0 <= i < |cols| :: ':' !in cols[i]
    ensures Join(", ", cols + [x]) == p + x && ':' !in p
  {
    if |cols| == 0 {
      p := "";
      assert cols + [x] == [x];
      assert "" + x == x;
    } else {
      JoinChars(", ", cols, ':');
      JoinAppend(", ", cols, x);
      p := Join(", ", cols) + ", ";
    }
  }

  /** The field `a, b, row count: 10` reads as the columns a and b and the row count 10. */
  lemma {:induction false} FieldExample()
    ensures Columns("a, b, row count: 10") == ["a", "b"]
    ensures RowCount("a, b, row count: 10") == 10
  {
    var cols := ["a", "b"];
    ExampleField();
    assert IsColumnName("a") && IsColumnName("b");
    FieldColumns(cols, 10);
    FieldRowCount(cols, 10);
  }

  lemma {:induction false} ExampleField()
    ensures Join(", ", ["a", "b"] + [CountClause(10)]) == "a, b, row count: 10"
  {
    var x := ClauseOfTen();
    JoinOfThree("a", "b", x);
    assert "a" + ", " + ("b" + ", " + x) == "a, b, row count: 10";
  }

  lemma {:induction false} ClauseOfTen() returns (x: string)
    ensures x == CountClause(10) && x == "row count: 10"
  {
    assert EncodeNat(10) == "10";
    x := CountClause(10);
  }

  lemma {:induction false} JoinOfThree(a: string, b: string, x: string)
    ensures Join(", ", [a, b] + [x]) == a + ", " + (b + ", " + x)
  {
    assert [a, b] + [x] == [a, b, x];
    assert Join(", ", [x]) == x;
    assert Join(", ", [b, x]) == b + ", " + x;
  }

  /** A space before the colon defeats the regular expression: the row
      count stays 0. */
  lemma {:induction false} SpacedLabelNoRowCount()
    ensures RowCount("row count : 5") == 0
  {
    var s := "row count : 5";
    assert |s| == 13 && s[0] == 'r' && s[1] == 'o' && s[2] == 'w' && s[3] == ' ' && s[9] == ' ';
    NoLabelNoRowCount(s);
  }

  /** ... and the prefix test: the segment counts as a column. */
  lemma {:induction false} SpacedLabelIsAColumn()
    ensures Columns("row count : 5") == ["row count : 5"]
  {
    var s := "row count : 5";
    if StartsWithLabel(s) {
      LabelEnds(s, 0);
      assert false;
    }
    ColumnsOfName(s);
  }
}
