/**
 * The parser for fixed-width query output: named sections, each a header, a line of dash
 * groups that fixes the columns, and rows. Printing a document and parsing it again gives the
 * document back.
 */
module FixedWidth {
  import opened Common

  // ---------------------------------------------------------------------------
  // Characters and trimming
  // ---------------------------------------------------------------------------

  /** The white space of trim and of \s. */
  predicate IsSpace(c: char) {
    var n := c as int;
    || 9 <= n <= 13 || n == 32 || n == 160 || n == 5760 || 8192 <= n <= 8202
    || n == 8232 || n == 8233 || n == 8239 || n == 8287 || n == 12288 || n == 65279
  }

  /** What a dot does not match. */
  predicate IsTerminator(c: char) {
    var n := c as int;
    n == 10 || n == 13 || n == 8232 || n == 8233
  }

  predicate AllSpace(s: string) {
    forall i :: 0 <= i < |s| ==> IsSpace(s[i])
  }

  predicate NoTerminator(s: string) {
    forall i :: 0 <= i < |s| ==> !IsTerminator(s[i])
  }

  function TrimStart(s: string): string {
    if s != "" && IsSpace(s[0]) then TrimStart(s[1..]) else s
  }

  function TrimEnd(s: string): string {
    if s != "" && IsSpace(s[|s| - 1]) then TrimEnd(s[..|s| - 1]) else s
  }

  function Trim(s: string): string {
    TrimEnd(TrimStart(s))
  }

  function Clamp(i: int, length: nat): (r: nat)
    ensures r <= length
  {
    Max(0, Min(i, length))
  }

  /** substring clamps its bounds and swaps them when they are out of order. */
  function Substring(s: string, start: int, end: int): string {
    s[Clamp(Min(start, end), |s|)..Clamp(Max(start, end), |s|)]
  }

  predicate StartsWith(s: string, prefix: string) {
    |prefix| <= |s| && s[..|prefix|] == prefix
  }

  // ---------------------------------------------------------------------------
  // Lines and what they are
  // ---------------------------------------------------------------------------

  function WithoutReturn(s: string): string {
    if s != "" && s[|s| - 1] == '\r' then s[..|s| - 1] else s
  }

  function NextNewline(s: string, i: nat): (r: nat)
    requires i <= |s|
    ensures i <= r <= |s|
    decreases |s| - i
  {
    if i == |s| || s[i] == '\n' then i else NextNewline(s, i + 1)
  }

  /** text.split(/\r?\n/) */
  function SplitLines(text: string): seq<string> {
    var i := NextNewline(text, 0);
    if i == |text| then [text] else [WithoutReturn(text[..i])] + SplitLines(text[i + 1..])
  }

  /** The last character of a run of white space that a dot matches. */
  function LastMatchable(s: string): Option<string> {
    if s == "" then None
    else if !IsTerminator(s[|s| - 1]) then Some([s[|s| - 1]])
    else LastMatchable(s[..|s| - 1])
  }

  /** The name in a section marker: what the group of ^===\s*(.+?)\s*===$ matches. */
  function MarkerName(line: string): Option<string> {
    if |line| < 7 || !StartsWith(line, "===") || line[|line| - 3..] != "===" then None
    else
      var body := line[3..|line| - 3];
      var name := Trim(body);
      if name == "" then LastMatchable(body)
      else if NoTerminator(name) then Some(name)
      else None
  }

  predicate IsComment(line: string) {
    var trimmed := TrimStart(line);
    StartsWith(trimmed, "//") || StartsWith(trimmed, "#")
  }

  predicate IsDashLine(line: string) {
    '-' in line && forall i :: 0 <= i < |line| ==> line[i] == '-' || IsSpace(line[i])
  }

  function Digits(s: string): nat {
    if s != "" && '0' <= s[0] <= '9' then 1 + Digits(s[1..]) else 0
  }

  lemma {:induction false} DigitsWithin(s: string)
    ensures Digits(s) <= |s|
  {
    if s != "" && '0' <= s[0] <= '9' {
      DigitsWithin(s[1..]);
    }
  }

  /** ^\(\d+ rows? affected\) */
  predicate IsRowCount(trimmed: string) {
    && StartsWith(trimmed, "(")
    && var n := Digits(trimmed[1..]);
       DigitsWithin(trimmed[1..]);
       && n > 0
       && (StartsWith(trimmed[1 + n..], " row affected)") || StartsWith(trimmed[1 + n..], " rows affected)"))
  }

  function LowerCase(c: char): char {
    if 'A' <= c <= 'Z' then (c as int + 32) as char else c
  }

  /** ^Completion time: in any case. */
  predicate IsCompletion(trimmed: string) {
    var form := "completion time:";
    |form| <= |trimmed| && forall i :: 0 <= i < |form| ==> LowerCase(trimmed[i]) == form[i]
  }

  /** Lines below the dashes that carry no row. */
  predicate IsSkipped(line: string) {
    var trimmed := Trim(line);
    trimmed == "" || IsRowCount(trimmed) || IsCompletion(trimmed)
  }

  // ---------------------------------------------------------------------------
  // One table
  // ---------------------------------------------------------------------------

  datatype Span = Span(start: int, end: int)

  datatype Column = Column(name: string, span: Span)

  type Row = map<string, string>

  /** Where the dashes that begin at i end. */
  function RunEnd(s: string, i: nat): (e: nat)
    requires i <= |s|
    ensures i <= e <= |s|
    decreases |s| - i
  {
    if i < |s| && s[i] == '-' then RunEnd(s, i + 1) else i
  }

  /** The dash groups from position i on. */
  function DashRuns(s: string, i: nat): seq<Span>
    requires i <= |s|
    decreases |s| - i
  {
    if i == |s| then []
    else if s[i] != '-' then DashRuns(s, i + 1)
    else [Span(i, RunEnd(s, i))] + DashRuns(s, RunEnd(s, i))
  }

  function ColumnOf(header: string, span: Span): Column {
    Column(Trim(Substring(header, span.start, span.end)), span)
  }

  function Columns(header: string, spans: seq<Span>): seq<Column> {
    if spans == [] then []
    else Columns(header, spans[..|spans| - 1]) + [ColumnOf(header, spans[|spans| - 1])]
  }

  function CellText(raw: string): string {
    var trimmed := Trim(raw);
    if trimmed == "NULL" then "" else trimmed
  }

  /** One object from the texts at the first n columns; a later column of the same name overwrites an earlier one. */
  function Record(columns: seq<Column>, text: Span -> string, n: nat): Row
    requires n <= |columns|
  {
    if n == 0 then map[]
    else Record(columns, text, n - 1)[columns[n - 1].name := text(columns[n - 1].span)]
  }

  function TextsOf(line: string): Span -> string {
    (span: Span) => CellText(Substring(line, span.start, span.end))
  }

  function LineRows(columns: seq<Column>, line: string): seq<Row> {
    if IsSkipped(line) then [] else [Record(columns, TextsOf(line), |columns|)]
  }

  function Gather<T>(lines: seq<string>, f: string -> seq<T>): seq<T> {
    if lines == [] then []
    else
      var n := |lines| - 1;
      Gather(lines[..n], f) + f(lines[n])
  }

  function RowsOf(columns: seq<Column>, lines: seq<string>): seq<Row> {
    Gather(lines, (line: string) => LineRows(columns, line))
  }

  function FirstDashLine(lines: seq<string>): (i: nat)
    ensures i <= |lines| && (i < |lines| ==> IsDashLine(lines[i])) && forall k :: 0 <= k < i ==> !IsDashLine(lines[k])
  {
    if lines == [] || IsDashLine(lines[0]) then 0 else 1 + FirstDashLine(lines[1..])
  }

  function TableOf(lines: seq<string>): seq<Row> {
    var i := FirstDashLine(lines);
    if i < 1 || i == |lines| then []
    else RowsOf(Columns(lines[i - 1], DashRuns(lines[i], 0)), lines[i + 1..])
  }

  lemma Regroup(before: seq<Span>, span: Span, after: seq<Span>)
    ensures before + ([span] + after) == before + [span] + after
  {
  }

  lemma ColumnsMore(header: string, spans: seq<Span>, span: Span)
    ensures Columns(header, spans + [span]) == Columns(header, spans) + [ColumnOf(header, span)]
  {
    assert (spans + [span])[..|spans|] == spans;
  }

  /** The loop over the matches of -+ in the dash line. */
  method FindColumns(header: string, dashes: string) returns (columns: seq<Column>)
    ensures columns == Columns(header, DashRuns(dashes, 0))
  {
    columns := [];
    ghost var spans: seq<Span> := [];
    var i := 0;
    while i < |dashes|
      invariant i <= |dashes| && spans + DashRuns(dashes, i) == DashRuns(dashes, 0)
      invariant columns == Columns(header, spans)
      decreases |dashes| - i
    {
      if dashes[i] != '-' {
        i := i + 1;
      } else {
        var span := Span(i, RunEnd(dashes, i));
        ColumnsMore(header, spans, span);
        Regroup(spans, span, DashRuns(dashes, span.end));
        spans := spans + [span];
        columns := columns + [ColumnOf(header, span)];
        i := RunEnd(dashes, i);
      }
    }
    assert spans == DashRuns(dashes, 0);
  }

  /** The inner loop: one row object. */
  method ParseRow(columns: seq<Column>, line: string) returns (row: Row)
    ensures row == Record(columns, TextsOf(line), |columns|)
  {
    row := map[];
    for k := 0 to |columns|
      invariant row == Record(columns, TextsOf(line), k)
    {
      var raw := Trim(Substring(line, columns[k].span.start, columns[k].span.end));
      row := row[columns[k].name := if raw == "NULL" then "" else raw];
    }
  }

  lemma GatherMore<T>(lines: seq<string>, i: nat, f: string -> seq<T>)
    requires i < |lines|
    ensures Gather(lines[..i + 1], f) == Gather(lines[..i], f) + f(lines[i])
  {
    assert lines[..i + 1][..i] == lines[..i];
  }

  /** One turn of the row loop. */
  method PushRow(before: seq<Row>, columns: seq<Column>, line: string) returns (rows: seq<Row>)
    ensures rows == before + LineRows(columns, line)
  {
    if IsSkipped(line) {
      return before;
    }
    var row := ParseRow(columns, line);
    rows := before + [row];
  }

  method ParseFixedWidthTable(lines: seq<string>) returns (rows: seq<Row>)
    ensures rows == TableOf(lines)
  {
    var dashIndex := FirstDashLine(lines);
    if dashIndex < 1 || dashIndex == |lines| {
      return [];
    }
    var columns := FindColumns(lines[dashIndex - 1], lines[dashIndex]);
    rows := ParseRows(columns, lines[dashIndex + 1..]);
  }

  method ParseRows(columns: seq<Column>, lines: seq<string>) returns (rows: seq<Row>)
    ensures rows == RowsOf(columns, lines)
  {
    rows := [];
    ghost var f := (line: string) => LineRows(columns, line);
    for i := 0 to |lines|
      invariant rows == Gather(lines[..i], f)
    {
      rows := PushRow(rows, columns, lines[i]);
      GatherMore(lines, i, f);
    }
    assert lines[..|lines|] == lines;
  }

  // ---------------------------------------------------------------------------
  // Sections
  // ---------------------------------------------------------------------------

  type Sections = map<string, seq<Row>>

  datatype Scan = Scan(result: Sections, current: Option<string>, lines: seq<string>)

  function Flush(s: Scan): Sections {
    if s.current.Some? && s.lines != [] then s.result[s.current.value := TableOf(s.lines)] else s.result
  }

  function Next(s: Scan, line: string): Scan {
    var name := MarkerName(line);
    if name.Some? then Scan(Flush(s), name, [])
    else if s.current.None? || IsComment(line) then s
    else s.(lines := s.lines + [line])
  }

  function ScanFrom(s: Scan, lines: seq<string>): Scan {
    if lines == [] then s else Next(ScanFrom(s, lines[..|lines| - 1]), lines[|lines| - 1])
  }

  const START := Scan(map[], None, [])

  function SectionsOf(text: string): Sections {
    Flush(ScanFrom(START, SplitLines(text)))
  }

  method ParseFixedWidthSections(text: string) returns (result: Sections)
    ensures result == SectionsOf(text)
  {
    result := map[];
    var lines := SplitLines(text);
    var currentSection: Option<string> := None;
    var sectionLines: seq<string> := [];
    for i := 0 to |lines|
      invariant Scan(result, currentSection, sectionLines) == ScanFrom(START, lines[..i])
    {
      assert lines[..i + 1][..i] == lines[..i];
      var line := lines[i];
      var name := MarkerName(line);
      if name.Some? {
        result := FlushSection(result, currentSection, sectionLines);
        sectionLines := [];
        currentSection := name;
        continue;
      }
      if currentSection.Some? {
        if IsComment(line) {
          continue;
        }
        sectionLines := sectionLines + [line];
      }
    }
    assert lines[..|lines|] == lines;
    result := FlushSection(result, currentSection, sectionLines);
  }

  method FlushSection(before: Sections, currentSection: Option<string>, sectionLines: seq<string>)
    returns (result: Sections)
    ensures result == Flush(Scan(before, currentSection, sectionLines))
  {
    result := before;
    if currentSection.Some? && sectionLines != [] {
      var table := ParseFixedWidthTable(sectionLines);
      result := result[currentSection.value := table];
    }
  }
}
