/** Printing a document of named tables in fixed-width form, and reading it back. */
module FixedWidthRoundTrip {
  import opened Common
  import opened FixedWidth
  import opened FixedWidthTheorems

  // ---------------------------------------------------------------------------
  // Printing a line
  // ---------------------------------------------------------------------------

  function Pad(cell: string, width: nat): (r: string)
    requires |cell| <= width
    ensures |r| == width
  {
    cell + Spaces(width - |cell|)
  }

  predicate Fits(widths: seq<nat>, cells: seq<string>) {
    |cells| == |widths| && forall i :: 0 <= i < |cells| ==> |cells[i]| <= widths[i]
  }

  /** The first n cells, padded and separated by one space. */
  function LineUpTo(widths: seq<nat>, cells: seq<string>, n: nat): string
    requires Fits(widths, cells) && n <= |widths|
  {
    if n == 0 then ""
    else if n == 1 then Pad(cells[0], widths[0])
    else LineUpTo(widths, cells, n - 1) + " " + Pad(cells[n - 1], widths[n - 1])
  }

  function LineOf(widths: seq<nat>, cells: seq<string>): string
    requires Fits(widths, cells)
  {
    LineUpTo(widths, cells, |widths|)
  }

  /** Where the i-th column begins. */
  function Start(widths: seq<nat>, i: nat): nat
    requires i <= |widths|
  {
    if i == 0 then 0 else Start(widths, i - 1) + widths[i - 1] + 1
  }

  lemma {:induction false} LineLength(widths: seq<nat>, cells: seq<string>, n: nat)
    requires Fits(widths, cells) && 0 < n <= |widths|
    ensures |LineUpTo(widths, cells, n)| == Start(widths, n) - 1
  {
    if n > 1 {
      LineLength(widths, cells, n - 1);
    } else {
      assert Start(widths, 1) == Start(widths, 0) + widths[0] + 1;
    }
  }

  /** The i-th cell of a line sits at the i-th column and is followed by a space or the end. */
  ghost predicate CellSits(line: string, widths: seq<nat>, cells: seq<string>, n: nat, i: nat)
    requires Fits(widths, cells) && i < n <= |widths|
  {
    var a := Start(widths, i);
    var b := a + widths[i];
    && b <= |line| && line[a..b] == Pad(cells[i], widths[i])
    && if i == n - 1 then b == |line| else b < |line| && line[b] == ' '
  }

  lemma LastCellSits(before: string, last: string)
    ensures var line := before + " " + last; line[|before| + 1..|line|] == last
  {
  }

  lemma EarlierCellSits(before: string, last: string, a: nat, b: nat)
    requires a <= b <= |before|
    ensures var line := before + " " + last;
            line[a..b] == before[a..b] && line[b] == if b == |before| then ' ' else before[b]
  {
  }

  lemma {:induction false} CellsSit(widths: seq<nat>, cells: seq<string>, n: nat, i: nat)
    requires Fits(widths, cells) && i < n <= |widths|
    ensures CellSits(LineUpTo(widths, cells, n), widths, cells, n, i)
  {
    LineLength(widths, cells, n);
    var last := Pad(cells[n - 1], widths[n - 1]);
    if n == 1 {
      assert last[..|last|] == last;
    } else {
      var before := LineUpTo(widths, cells, n - 1);
      LineLength(widths, cells, n - 1);
      if i == n - 1 {
        LastCellSits(before, last);
      } else {
        CellsSit(widths, cells, n - 1, i);
        EarlierCellSits(before, last, Start(widths, i), Start(widths, i) + widths[i]);
      }
    }
  }

  // ---------------------------------------------------------------------------
  // The dash line fixes the columns
  // ---------------------------------------------------------------------------

  function Dashes(n: nat): (r: string)
    ensures |r| == n && forall i :: 0 <= i < n ==> r[i] == '-'
  {
    seq(n, _ => '-')
  }

  function DashCells(widths: seq<nat>): (r: seq<string>)
    ensures Fits(widths, r) && forall i :: 0 <= i < |r| ==> r[i] == Dashes(widths[i])
  {
    seq(|widths|, i requires 0 <= i < |widths| => Dashes(widths[i]))
  }

  function DashLine(widths: seq<nat>): string {
    LineOf(widths, DashCells(widths))
  }

  function SpanAt(widths: seq<nat>, i: nat): Span
    requires i < |widths|
  {
    Span(Start(widths, i), Start(widths, i) + widths[i])
  }

  function SpansFrom(widths: seq<nat>, i: nat): (r: seq<Span>)
    requires i <= |widths|
    ensures |r| == |widths| - i && forall k :: 0 <= k < |r| ==> r[k] == SpanAt(widths, i + k)
    decreases |widths| - i
  {
    if i == |widths| then [] else [SpanAt(widths, i)] + SpansFrom(widths, i + 1)
  }

  lemma {:induction false} RunEndAt(s: string, i: nat, e: nat)
    requires i <= e <= |s| && (forall k :: i <= k < e ==> s[k] == '-') && (e < |s| ==> s[e] != '-')
    ensures RunEnd(s, i) == e
    decreases e - i
  {
    if i < e {
      RunEndAt(s, i + 1, e);
    }
  }

  lemma {:induction false} DashRunsFrom(widths: seq<nat>, i: nat)
    requires i < |widths| && forall k :: 0 <= k < |widths| ==> widths[k] > 0
    ensures Start(widths, i) < |DashLine(widths)|
    ensures DashRuns(DashLine(widths), Start(widths, i)) == SpansFrom(widths, i)
    decreases |widths| - i
  {
    var line := DashLine(widths);
    var a := Start(widths, i);
    var b := a + widths[i];
    CellsSit(widths, DashCells(widths), |widths|, i);
    forall k | a <= k < b
      ensures line[k] == '-'
    {
      assert line[k] == line[a..b][k - a];
    }
    RunEndAt(line, a, b);
    assert DashRuns(line, a) == [Span(a, b)] + DashRuns(line, b);
    if i == |widths| - 1 {
      assert SpansFrom(widths, i + 1) == [];
    } else {
      DashRunsFrom(widths, i + 1);
      assert Start(widths, i + 1) == b + 1;
      assert DashRuns(line, b) == DashRuns(line, b + 1);
    }
  }

  predicate DashOrSpace(c: char) {
    c == '-' || c == ' '
  }

  lemma {:induction false} OnlyDashes(widths: seq<nat>, n: nat)
    requires n <= |widths|
    ensures forall c :: c in LineUpTo(widths, DashCells(widths), n) ==> DashOrSpace(c)
  {
    if n > 0 {
      var last := Pad(DashCells(widths)[n - 1], widths[n - 1]);
      assert last == Dashes(widths[n - 1]);
      assert forall c :: c in last ==> DashOrSpace(c);
      OnlyDashes(widths, n - 1);
    }
  }

  lemma DashLineIsDashLine(widths: seq<nat>)
    requires widths != [] && forall k :: 0 <= k < |widths| ==> widths[k] > 0
    ensures IsDashLine(DashLine(widths))
  {
    var line := DashLine(widths);
    CellsSit(widths, DashCells(widths), |widths|, 0);
    assert line[0] == line[0..widths[0]][0];
    OnlyDashes(widths, |widths|);
    forall i | 0 <= i < |line|
      ensures line[i] == '-' || IsSpace(line[i])
    {
      assert line[i] in line && DashOrSpace(line[i]);
    }
  }

  // ---------------------------------------------------------------------------
  // One table
  // ---------------------------------------------------------------------------

  /** What the parser makes of a row. */
  function RecordUpTo(names: seq<string>, cells: seq<string>, n: nat): Row
    requires |names| == |cells| && n <= |names|
  {
    if n == 0 then map[] else RecordUpTo(names, cells, n - 1)[names[n - 1] := CellText(cells[n - 1])]
  }

  /** The row itself. */
  function ContentUpTo(names: seq<string>, cells: seq<string>, n: nat): Row
    requires |names| == |cells| && n <= |names|
  {
    if n == 0 then map[] else ContentUpTo(names, cells, n - 1)[names[n - 1] := cells[n - 1]]
  }

  predicate Clean(cell: string) {
    Trim(cell) == cell && cell != "NULL"
  }

  /** A cell that fits its column comes back exactly when it is trimmed and is not NULL. */
  lemma CellComesBack(cell: string, width: nat)
    requires |cell| <= width
    ensures CellText(Pad(cell, width)) == CellText(cell)
    ensures CellText(cell) == cell <==> Clean(cell)
  {
    TrimPadded("", cell, Spaces(width - |cell|));
    assert "" + cell + Spaces(width - |cell|) == Pad(cell, width);
    assert Trim("") == "";
  }

  lemma SubstringAt(line: string, a: nat, b: nat)
    requires a <= b <= |line|
    ensures Substring(line, a, b) == line[a..b]
  {
  }

  /** A line without the white space at its end reads the same at every column, also where it has become too short. */
  lemma TrimmedLineReads(line: string, e: nat, a: nat, b: nat)
    requires e <= |line| && (forall i :: e <= i < |line| ==> IsSpace(line[i])) && a <= b
    ensures CellText(Substring(line[..e], a, b)) == CellText(Substring(line, a, b))
    ensures b <= |line| ==> Substring(line, a, b) == line[a..b]
  {
    var short, long := Substring(line[..e], a, b), Substring(line, a, b);
    var rest := long[|short|..];
    assert AllSpace(rest);
    assert long == "" + short + rest;
    TrimPadded("", short, rest);
  }

  /** The columns of a printed table. */
  ghost predicate Laid(columns: seq<Column>, names: seq<string>, widths: seq<nat>) {
    && |columns| == |names| == |widths|
    && forall i :: 0 <= i < |columns| ==> columns[i] == Column(names[i], SpanAt(widths, i))
  }

  lemma {:induction false} RecordReadBack(columns: seq<Column>, text: Span -> string, names: seq<string>,
                                           cells: seq<string>, n: nat)
    requires |columns| == |names| == |cells| && n <= |columns|
    requires forall i :: 0 <= i < |columns| ==> columns[i].name == names[i] && text(columns[i].span) == CellText(cells[i])
    ensures Record(columns, text, n) == RecordUpTo(names, cells, n)
  {
    if n > 0 {
      RecordReadBack(columns, text, names, cells, n - 1);
    }
  }

  lemma TextAt(widths: seq<nat>, cells: seq<string>, i: nat)
    requires Fits(widths, cells) && i < |widths|
    ensures TextsOf(LineOf(widths, cells))(SpanAt(widths, i)) == CellText(cells[i])
  {
    CellsSit(widths, cells, |widths|, i);
    SubstringAt(LineOf(widths, cells), Start(widths, i), Start(widths, i) + widths[i]);
    CellComesBack(cells[i], widths[i]);
  }

  lemma RowReadBack(columns: seq<Column>, names: seq<string>, widths: seq<nat>, cells: seq<string>)
    requires Laid(columns, names, widths) && Fits(widths, cells)
    ensures Record(columns, TextsOf(LineOf(widths, cells)), |columns|) == RecordUpTo(names, cells, |names|)
  {
    var text := TextsOf(LineOf(widths, cells));
    forall i | 0 <= i < |columns|
      ensures text(columns[i].span) == CellText(cells[i])
    {
      TextAt(widths, cells, i);
    }
    RecordReadBack(columns, text, names, cells, |names|);
  }

  lemma {:induction false} ColumnsAt(header: string, spans: seq<Span>, i: nat)
    requires i < |spans|
    ensures |Columns(header, spans)| == |spans| && Columns(header, spans)[i] == ColumnOf(header, spans[i])
  {
    var n := |spans| - 1;
    if i < n {
      ColumnsAt(header, spans[..n], i);
    } else if n > 0 {
      ColumnsAt(header, spans[..n], 0);
    }
  }

  predicate Names(names: seq<string>, widths: seq<nat>) {
    && Fits(widths, names) && names != []
    && (forall i :: 0 <= i < |names| ==> Trim(names[i]) == names[i])
    && forall i :: 0 <= i < |widths| ==> widths[i] > 0
  }

  lemma ColumnReadBack(names: seq<string>, widths: seq<nat>, i: nat)
    requires Names(names, widths) && i < |names|
    ensures ColumnOf(LineOf(widths, names), SpanAt(widths, i)) == Column(names[i], SpanAt(widths, i))
  {
    var header := LineOf(widths, names);
    CellsSit(widths, names, |widths|, i);
    SubstringAt(header, Start(widths, i), Start(widths, i) + widths[i]);
    var padding := Spaces(widths[i] - |names[i]|);
    TrimPadded("", names[i], padding);
    assert "" + names[i] + padding == Pad(names[i], widths[i]);
  }

  lemma ColumnsReadBack(names: seq<string>, widths: seq<nat>)
    requires Names(names, widths)
    ensures Laid(Columns(LineOf(widths, names), DashRuns(DashLine(widths), 0)), names, widths)
  {
    var header, spans := LineOf(widths, names), SpansFrom(widths, 0);
    assert DashRuns(DashLine(widths), 0) == spans by {
      DashRunsFrom(widths, 0);
    }
    ColumnsAt(header, spans, 0);
    forall i | 0 <= i < |names|
      ensures Columns(header, spans)[i] == Column(names[i], SpanAt(widths, i))
    {
      ColumnsAt(header, spans, i);
      ColumnReadBack(names, widths, i);
    }
  }

  datatype Table = Table(names: seq<string>, widths: seq<nat>, rows: seq<seq<string>>)

  function RowLines(t: Table, n: nat): seq<string>
    requires n <= |t.rows| && forall k :: 0 <= k < |t.rows| ==> Fits(t.widths, t.rows[k])
  {
    if n == 0 then [] else RowLines(t, n - 1) + [LineOf(t.widths, t.rows[n - 1])]
  }

  function Records(t: Table, n: nat): seq<Row>
    requires n <= |t.rows| && forall k :: 0 <= k < |t.rows| ==> |t.rows[k]| == |t.names|
  {
    if n == 0 then [] else Records(t, n - 1) + [RecordUpTo(t.names, t.rows[n - 1], |t.names|)]
  }

  lemma {:induction false} GatherConcat<T>(a: seq<string>, b: seq<string>, f: string -> seq<T>)
    ensures Gather(a + b, f) == Gather(a, f) + Gather(b, f)
  {
    if b == [] {
      assert a + b == a;
    } else {
      assert (a + b)[..|a + b| - 1] == a + b[..|b| - 1];
      GatherConcat(a, b[..|b| - 1], f);
    }
  }

  lemma GatherOne<T>(lines: seq<string>, line: string, f: string -> seq<T>)
    ensures Gather(lines + [line], f) == Gather(lines, f) + f(line)
  {
    assert (lines + [line])[..|lines|] == lines;
  }

  /** A table whose lines are taken for what they are. */
  predicate Printable(t: Table) {
    && Names(t.names, t.widths)
    && (forall k :: 0 <= k < |t.rows| ==> Fits(t.widths, t.rows[k]))
    && !IsDashLine(LineOf(t.widths, t.names))
    && forall k :: 0 <= k < |t.rows| ==> !IsSkipped(LineOf(t.widths, t.rows[k]))
  }

  lemma {:induction false} RowLinesGather(t: Table, f: string -> seq<Row>, n: nat)
    requires n <= |t.rows| && (forall k :: 0 <= k < |t.rows| ==> Fits(t.widths, t.rows[k])) && |t.names| == |t.widths|
    requires forall k :: 0 <= k < |t.rows| ==> f(LineOf(t.widths, t.rows[k])) == [RecordUpTo(t.names, t.rows[k], |t.names|)]
    ensures Gather(RowLines(t, n), f) == Records(t, n)
  {
    if n > 0 {
      RowLinesGather(t, f, n - 1);
      GatherOne(RowLines(t, n - 1), LineOf(t.widths, t.rows[n - 1]), f);
    }
  }

  lemma RowLinesReadBack(t: Table, columns: seq<Column>)
    requires Printable(t) && Laid(columns, t.names, t.widths)
    ensures RowsOf(columns, RowLines(t, |t.rows|)) == Records(t, |t.rows|)
  {
    var f := (line: string) => LineRows(columns, line);
    forall k | 0 <= k < |t.rows|
      ensures f(LineOf(t.widths, t.rows[k])) == [RecordUpTo(t.names, t.rows[k], |t.names|)]
    {
      RowReadBack(columns, t.names, t.widths, t.rows[k]);
    }
    RowLinesGather(t, f, |t.rows|);
  }

  lemma {:induction false} NothingGathered<T>(lines: seq<string>, f: string -> seq<T>)
    requires forall k :: 0 <= k < |lines| ==> f(lines[k]) == []
    ensures Gather(lines, f) == []
  {
    if lines != [] {
      NothingGathered(lines[..|lines| - 1], f);
    }
  }

  lemma RowsReadBack(t: Table, columns: seq<Column>, notes: seq<string>)
    requires Printable(t) && Laid(columns, t.names, t.widths)
    requires forall k :: 0 <= k < |notes| ==> IsSkipped(notes[k])
    ensures RowsOf(columns, RowLines(t, |t.rows|) + notes) == Records(t, |t.rows|)
  {
    var f := (line: string) => LineRows(columns, line);
    GatherConcat(RowLines(t, |t.rows|), notes, f);
    NothingGathered(notes, f);
    RowLinesReadBack(t, columns);
  }

  function TableLines(t: Table): seq<string>
    requires Printable(t)
  {
    [LineOf(t.widths, t.names), DashLine(t.widths)] + RowLines(t, |t.rows|)
  }

  lemma TableShape(header: string, dashes: string, body: seq<string>)
    requires !IsDashLine(header) && IsDashLine(dashes)
    ensures TableOf([header, dashes] + body) == RowsOf(Columns(header, DashRuns(dashes, 0)), body)
  {
    var lines := [header, dashes] + body;
    assert lines[1..][0] == dashes;
    assert FirstDashLine(lines) == 1 + FirstDashLine(lines[1..]) == 1;
    assert lines[2..] == body;
  }

  lemma TableLinesShape(t: Table, notes: seq<string>)
    requires Printable(t)
    ensures TableLines(t) + notes == [LineOf(t.widths, t.names), DashLine(t.widths)] + (RowLines(t, |t.rows|) + notes)
  {
  }

  lemma TableReadBack(t: Table, notes: seq<string>)
    requires Printable(t) && forall k :: 0 <= k < |notes| ==> IsSkipped(notes[k])
    ensures TableOf(TableLines(t) + notes) == Records(t, |t.rows|)
  {
    var header, dashes, body := LineOf(t.widths, t.names), DashLine(t.widths), RowLines(t, |t.rows|) + notes;
    TableLinesShape(t, notes);
    DashLineIsDashLine(t.widths);
    TableShape(header, dashes, body);
    ColumnsReadBack(t.names, t.widths);
    RowsReadBack(t, Columns(header, DashRuns(dashes, 0)), notes);
  }
}
