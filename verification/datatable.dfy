/** The result table of the client (magi/src/components/ui/DataTable.tsx):
    the columns generated from the first row's keys with their header labels,
    and the tab-separated text copied to the clipboard for the selected rows.

    A row is its keys in `Object.keys` order and a map from key to cell. A
    cell is absent/null, a string, or another value given by the text
    `String(value)` renders it as. */
module DataTable {
  import opened Base
  import opened Text

  datatype CellValue = Null | Str(s: string) | Other(rendered: string)

  datatype Record = Record(keys: seq<string>, values: map<string, CellValue>)

  /** The id of the checkbox column. A data column's id is its key, so a
      data column keyed "select" has this id too. */
  const SelectId: string := "select"

  datatype Column = Select | DataColumn(key: string, header: string)

  function ColumnId(c: Column): string {
    if c.Select? then SelectId else c.key
  }

  // ---------------------------------------------------------------------------
  // Header labels
  // ---------------------------------------------------------------------------

  /** The first step of a header label: a space inserted before every ASCII
      capital of the key. */
  function SpaceBeforeCapitals(s: string): (r: string)
    ensures |r| > 0 ==> !IsAsciiUpper(r[0])
    ensures |s| > 0 && !IsAsciiUpper(s[0]) ==> r == [s[0]] + SpaceBeforeCapitals(s[1..])
  {
    if |s| == 0 then ""
    else (if IsAsciiUpper(s[0]) then [' ', s[0]] else [s[0]]) + SpaceBeforeCapitals(s[1..])
  }

  /** The characters `.` does not match. */
  predicate IsLineTerminator(c: char) {
    c == '\n' || c == '\r' || c as int == 0x2028 || c as int == 0x2029
  }

  /** The second step: the first character upper-cased (ASCII letters only),
      unless it is a line terminator, which the pattern's dot does not match. */
  function CapitalizeFirst(s: string): (r: string)
    ensures |r| == |s|
    ensures |s| > 0 ==> r[1..] == s[1..]
    ensures |s| > 0 && !IsLineTerminator(s[0]) ==> r[0] == AsciiUpper(s[0])
    ensures |s| > 0 && IsLineTerminator(s[0]) ==> r == s
  {
    if |s| > 0 && !IsLineTerminator(s[0]) then [AsciiUpper(s[0])] + s[1..] else s
  }

  function HeaderLabel(key: string): string {
    CapitalizeFirst(SpaceBeforeCapitals(key))
  }

  /** Removes the space in front of every ASCII capital: the inverse of
      `SpaceBeforeCapitals`. */
  function DropSpaceBeforeCapitals(t: string): string {
    if |t| == 0 then ""
    else if |t| >= 2 && t[0] == ' ' && IsAsciiUpper(t[1]) then DropSpaceBeforeCapitals(t[1..])
    else [t[0]] + DropSpaceBeforeCapitals(t[1..])
  }

  /** Number of ASCII capitals. */
  function Capitals(s: string): nat {
    if |s| == 0 then 0 else (if IsAsciiUpper(s[0]) then 1 else 0) + Capitals(s[1..])
  }

  /** The inserted spaces are exactly one per capital and can be taken out
      again, whatever spaces the key had of its own. */
  lemma {:induction false} SpacingRoundTrip(s: string)
    ensures DropSpaceBeforeCapitals(SpaceBeforeCapitals(s)) == s
    ensures |SpaceBeforeCapitals(s)| == |s| + Capitals(s)
  {
    if |s| > 0 {
      var rest := SpaceBeforeCapitals(s[1..]);
      SpacingRoundTrip(s[1..]);
      if IsAsciiUpper(s[0]) {
        var t := [' ', s[0]] + rest;
        assert t[1..] == [s[0]] + rest;
        assert ([s[0]] + rest)[1..] == rest;
      } else {
        var t := [s[0]] + rest;
        assert t[1..] == rest;
      }
    }
  }

  /** A camel-case key: its label starts with the capitalised first letter,
      and the rest of the label, with the inserted spaces removed, is the rest
      of the key. A key starting with a capital gets a leading space instead. */
  lemma {:induction false} HeaderLabelOfKey(key: string)
    requires |key| > 0
    ensures IsAsciiUpper(key[0]) ==> HeaderLabel(key)[0] == ' ' && DropSpaceBeforeCapitals(HeaderLabel(key)) == key
    ensures !IsAsciiUpper(key[0]) && !IsLineTerminator(key[0]) ==>
      HeaderLabel(key)[0] == AsciiUpper(key[0]) && DropSpaceBeforeCapitals(HeaderLabel(key)[1..]) == key[1..]
    ensures |HeaderLabel(key)| == |key| + Capitals(key)
  {
    SpacingRoundTrip(key);
    SpacingRoundTrip(key[1..]);
    var spaced := SpaceBeforeCapitals(key);
    if IsAsciiUpper(key[0]) {
      assert spaced == [' ', key[0]] + SpaceBeforeCapitals(key[1..]);
      assert HeaderLabel(key) == spaced;
    }
  }

  lemma {:induction false} HeaderLabelExamples(camel: string, pascal: string)
    requires camel == "firmName" && pascal == "FirmName"
    ensures HeaderLabel(camel) == "Firm Name"
    ensures HeaderLabel(pascal) == " Firm Name"
  {
    assert camel == ['f'] + "irmName";
    FirmNameLabel(camel, 'f');
    assert pascal == ['F'] + "irmName";
    FirmNameLabel(pascal, 'F');
  }

  /** The label of "firmName" and of "FirmName". */
  lemma {:induction false} FirmNameLabel(key: string, c: char)
    requires key == [c] + "irmName" && (c == 'f' || c == 'F')
    ensures c == 'f' ==> HeaderLabel(key) == "Firm Name"
    ensures c == 'F' ==> HeaderLabel(key) == " Firm Name"
  {
    var spaced := SpacedIrmName();
    SpacingAppend([c], "irmName");
    if c == 'f' {
      assert SpaceBeforeCapitals([c]) == [c];
      assert HeaderLabel(key) == [AsciiUpper(c)] + spaced;
    } else {
      assert SpaceBeforeCapitals([c]) == [' ', c];
      assert HeaderLabel(key) == [' ', c] + spaced;
    }
  }

  lemma {:induction false} SpacedIrmName() returns (spaced: string)
    ensures spaced == SpaceBeforeCapitals("irmName") && spaced == "irm Name"
  {
    var irm, ame := "irm", "ame";
    assert "irmName" == irm + ['N'] + ame;
    SpacedWord(irm, 'N', ame);
    spaced := SpaceBeforeCapitals("irmName");
  }

  /** A capital between two runs without capitals gets one space before it. */
  lemma {:induction false} SpacedWord(a: string, n: char, b: string)
    requires forall i | 0 <= i < |a| :: !IsAsciiUpper(a[i])
    requires forall i | 0 <= i < |b| :: !IsAsciiUpper(b[i])
    requires IsAsciiUpper(n)
    ensures SpaceBeforeCapitals(a + [n] + b) == a + [' ', n] + b
  {
    SpacingAppend(a, [n] + b);
    SpacingAppend([n], b);
    NoCapitalsUnspaced(a);
    NoCapitalsUnspaced(b);
    assert a + [n] + b == a + ([n] + b);
  }

  /** Spacing works part by part. */
  lemma {:induction false} SpacingAppend(a: string, b: string)
    ensures SpaceBeforeCapitals(a + b) == SpaceBeforeCapitals(a) + SpaceBeforeCapitals(b)
  {
    if |a| > 0 {
      assert (a + b)[0] == a[0] && (a + b)[1..] == a[1..] + b;
      SpacingAppend(a[1..], b);
    } else {
      assert a + b == b;
    }
  }

  /** A key without capitals gets no space. */
  lemma {:induction false} NoCapitalsUnspaced(s: string)
    requires forall i | 0 <= i < |s| :: !IsAsciiUpper(s[i])
    ensures SpaceBeforeCapitals(s) == s
  {
    if |s| > 0 {
      NoCapitalsUnspaced(s[1..]);
    }
  }

  // ---------------------------------------------------------------------------
  // Columns
  // ---------------------------------------------------------------------------

  function DataColumnsOf(keys: seq<string>): (cols: seq<Column>)
    ensures |cols| == |keys|
    ensures forall i | 0 <= i < |keys| :: cols[i] == DataColumn(keys[i], HeaderLabel(keys[i]))
  {
    if |keys| == 0 then [] else [DataColumn(keys[0], HeaderLabel(keys[0]))] + DataColumnsOf(keys[1..])
  }

  /** `generateColumns`: nothing for no data, otherwise the checkbox column
      followed by one column per key of the first row, in key order. */
  function GenerateColumns(data: seq<Record>): (cols: seq<Column>)
    ensures |data| == 0 <==> |cols| == 0
    ensures |data| > 0 ==>
      |cols| == |data[0].keys| + 1 && cols[0] == Select
      && forall i | 0 <= i < |data[0].keys| ::
           cols[i + 1].DataColumn? && cols[i + 1].key == data[0].keys[i]
           && cols[i + 1].header == HeaderLabel(data[0].keys[i])
  {
    if |data| == 0 then [] else [Select] + DataColumnsOf(data[0].keys)
  }

  // ---------------------------------------------------------------------------
  // Clipboard
  // ---------------------------------------------------------------------------

  /** Every tab of a string cell becomes a space. */
  function TabsToSpaces(s: string): (r: string)
    ensures |r| == |s|
    ensures forall i | 0 <= i < |s| :: r[i] == (if s[i] == '\t' then ' ' else s[i])
  {
    if |s| == 0 then "" else [if s[0] == '\t' then ' ' else s[0]] + TabsToSpaces(s[1..])
  }

  /** A cell's text in the copied line: `?? ""`, tabs of strings replaced,
      other values as they render. */
  function CellText(v: CellValue): (t: string)
    ensures v.Str? ==> '\t' !in t && |t| == |v.s|
    ensures v.Str? ==> forall i | 0 <= i < |t| :: t[i] == (if v.s[i] == '\t' then ' ' else v.s[i])
    ensures v.Null? ==> t == ""
    ensures v.Other? ==> t == v.rendered
  {
    match v
    case Null => ""
    case Str(s) => TabsToSpaces(s)
    case Other(r) => r
  }

  /** A row's value under a key; an absent key reads as undefined. */
  function Get(row: Record, key: string): CellValue {
    if key in row.values then row.values[key] else Null
  }

  /** The header list filters column definitions on their `id` field, which
      only the checkbox column sets (a data column's definition names its key
      as `accessorKey`): every data column survives, whatever its key. */
  function DataColumns(cols: seq<Column>): (r: seq<Column>)
    ensures |r| <= |cols|
    ensures forall i | 0 <= i < |r| :: r[i] in cols && r[i].DataColumn?
    ensures forall c | c in cols && c.DataColumn? :: c in r
  {
    if |cols| == 0 then []
    else (if cols[0].DataColumn? then [cols[0]] else []) + DataColumns(cols[1..])
  }

  /** The cells of a row are filtered on their column's id, which for a data
      column is its key: a data column keyed "select" loses its cells here. */
  function Unselectable(cols: seq<Column>): (r: seq<Column>)
    ensures |r| <= |cols|
    ensures forall i | 0 <= i < |r| :: r[i] in cols && ColumnId(r[i]) != SelectId
    ensures forall c | c in cols && ColumnId(c) != SelectId :: c in r
  {
    if |cols| == 0 then []
    else (if ColumnId(cols[0]) != SelectId then [cols[0]] else []) + Unselectable(cols[1..])
  }

  /** The columns a row's visible cells come from. */
  function Shown(cols: seq<Column>, hidden: set<string>): (r: seq<Column>)
    ensures |r| <= |cols|
    ensures forall i | 0 <= i < |r| :: r[i] in cols && ColumnId(r[i]) !in hidden
    ensures forall c | c in cols && ColumnId(c) !in hidden :: c in r
  {
    if |cols| == 0 then []
    else (if ColumnId(cols[0]) !in hidden then [cols[0]] else []) + Shown(cols[1..], hidden)
  }

  function Headers(cols: seq<Column>): (hs: seq<string>)
    ensures |hs| == |cols|
    ensures forall i | 0 <= i < |cols| :: hs[i] == (if cols[i].DataColumn? then cols[i].header else "")
  {
    if |cols| == 0 then []
    else [if cols[0].DataColumn? then cols[0].header else ""] + Headers(cols[1..])
  }

  function Cells(cols: seq<Column>, row: Record): (ts: seq<string>)
    ensures |ts| == |cols|
    ensures forall i | 0 <= i < |cols| :: ts[i] == CellText(Get(row, ColumnId(cols[i])))
  {
    if |cols| == 0 then [] else [CellText(Get(row, ColumnId(cols[0])))] + Cells(cols[1..], row)
  }

  /** The header line lists every data column, hidden or not, and whatever
      its key. */
  function HeaderLine(cols: seq<Column>): string {
    Join("\t", Headers(DataColumns(cols)))
  }

  /** A row's line lists its visible data cells only. */
  function RowFields(cols: seq<Column>, hidden: set<string>, row: Record): seq<string> {
    Cells(Unselectable(Shown(cols, hidden)), row)
  }

  function RowLines(cols: seq<Column>, hidden: set<string>, rows: seq<Record>): (ls: seq<string>)
    ensures |ls| == |rows|
    ensures forall i | 0 <= i < |rows| :: ls[i] == Join("\t", RowFields(cols, hidden, rows[i]))
  {
    if |rows| == 0 then [] else [Join("\t", RowFields(cols, hidden, rows[0]))] + RowLines(cols, hidden, rows[1..])
  }

  /** `copyToClipboard`: nothing without a selection, otherwise the header line
      and one line per selected row, in selection order, joined by newlines. */
  function CopyText(data: seq<Record>, hidden: set<string>, selected: seq<Record>): (r: Option<string>)
    ensures r.None? <==> |selected| == 0
  {
    if |selected| == 0 then None
    else
      var cols := GenerateColumns(data);
      Some(Join("\n", [HeaderLine(cols)] + RowLines(cols, hidden, selected)))
  }

  /** With no newline in any header or cell text, the copied text splits back
      into the header line and the row lines. */
  lemma {:induction false} CopyTextLines(data: seq<Record>, hidden: set<string>, selected: seq<Record>)
    requires |selected| > 0
    requires '\n' !in HeaderLine(GenerateColumns(data))
    requires forall i | 0 <= i < |selected| :: '\n' !in Join("\t", RowFields(GenerateColumns(data), hidden, selected[i]))
    ensures Split(CopyText(data, hidden, selected).value, '\n')
      == [HeaderLine(GenerateColumns(data))] + RowLines(GenerateColumns(data), hidden, selected)
  {
    var cols := GenerateColumns(data);
    var lines := [HeaderLine(cols)] + RowLines(cols, hidden, selected);
    forall i | 0 <= i < |lines| ensures '\n' !in lines[i] {
      if i > 0 {
        assert lines[i] == RowLines(cols, hidden, selected)[i - 1];
      }
    }
    SplitJoin(lines, '\n');
  }

  /** A row line splits at tabs into exactly its visible data cells when no
      rendered non-string value holds a tab; string cells never do. */
  lemma {:induction false} RowLineFields(cols: seq<Column>, hidden: set<string>, row: Record)
    requires forall k | k in row.values && row.values[k].Other? :: '\t' !in row.values[k].rendered
    ensures |RowFields(cols, hidden, row)| > 0 ==>
      Split(Join("\t", RowFields(cols, hidden, row)), '\t') == RowFields(cols, hidden, row)
  {
    var fs := RowFields(cols, hidden, row);
    var shown := Unselectable(Shown(cols, hidden));
    forall i | 0 <= i < |fs| ensures '\t' !in fs[i] {
      var v := Get(row, ColumnId(shown[i]));
      assert fs[i] == CellText(v);
    }
    if |fs| > 0 {
      SplitJoin(fs, '\t');
    }
  }

  /** Hiding a data column shortens every row line but not the header line,
      so the copied rows no longer line up with the headers. */
  lemma {:induction false} HiddenColumnMisaligns(data: seq<Record>, hidden: set<string>, row: Record, k: string)
    requires |data| > 0 && k in data[0].keys && k != SelectId && k in hidden
    ensures var cols := GenerateColumns(data);
      |RowFields(cols, hidden, row)| < |Headers(DataColumns(cols))|
  {
    var cols := GenerateColumns(data);
    var i :| 0 <= i < |data[0].keys| && data[0].keys[i] == k;
    var c := cols[i + 1];
    assert c in cols && ColumnId(c) == k;
    assert c in Unselectable(cols);
    ShownSubset(Unselectable(cols), hidden, c);
    FilterCommutes(cols, hidden);
    UnselectableWithinData(cols);
  }

  /** A data column keyed "select" keeps its header but loses its cells, so
      even with no column hidden the copied rows are shorter than the header
      line. */
  lemma {:induction false} SelectKeyMisaligns(data: seq<Record>, hidden: set<string>, row: Record)
    requires |data| > 0 && SelectId in data[0].keys
    ensures var cols := GenerateColumns(data);
      |RowFields(cols, hidden, row)| < |Headers(DataColumns(cols))|
  {
    var cols := GenerateColumns(data);
    var i :| 0 <= i < |data[0].keys| && data[0].keys[i] == SelectId;
    var c := cols[i + 1];
    assert c in cols && c.DataColumn? && ColumnId(c) == SelectId;
    DataColumnsDropSelectKey(cols, c);
    assert |Shown(Unselectable(cols), hidden)| <= |Unselectable(cols)|;
    FilterCommutes(cols, hidden);
  }

  /** The cell filter keeps no more columns than the header filter. */
  lemma {:induction false} UnselectableWithinData(cols: seq<Column>)
    ensures |Unselectable(cols)| <= |DataColumns(cols)|
  {
    if |cols| > 0 {
      UnselectableWithinData(cols[1..]);
    }
  }

  /** A data column with the checkbox's id makes the cell filter keep
      strictly fewer columns than the header filter. */
  lemma {:induction false} DataColumnsDropSelectKey(cols: seq<Column>, c: Column)
    requires c in cols && c.DataColumn? && ColumnId(c) == SelectId
    ensures |Unselectable(cols)| < |DataColumns(cols)|
  {
    if cols[0] != c {
      DataColumnsDropSelectKey(cols[1..], c);
    } else {
      UnselectableWithinData(cols[1..]);
    }
  }

  /** Filtering out a column that is hidden shrinks the list. */
  lemma {:induction false} ShownSubset(cols: seq<Column>, hidden: set<string>, c: Column)
    requires c in cols && ColumnId(c) in hidden
    ensures |Shown(cols, hidden)| < |cols|
  {
    if cols[0] != c {
      ShownSubset(cols[1..], hidden, c);
    } else {
      assert |Shown(cols[1..], hidden)| <= |cols[1..]|;
    }
  }

  /** The two filters of the copy commute. */
  lemma {:induction false} FilterCommutes(cols: seq<Column>, hidden: set<string>)
    ensures Unselectable(Shown(cols, hidden)) == Shown(Unselectable(cols), hidden)
  {
    if |cols| > 0 {
      var c, rest := cols[0], cols[1..];
      FilterCommutes(rest, hidden);
      var s := Shown(cols, hidden);
      var u := Unselectable(cols);
      if ColumnId(c) !in hidden {
        assert s[0] == c && s[1..] == Shown(rest, hidden);
      } else {
        assert s == Shown(rest, hidden);
      }
      if ColumnId(c) != SelectId {
        assert u[0] == c && u[1..] == Unselectable(rest);
      } else {
        assert u == Unselectable(rest);
      }
    }
  }
}
