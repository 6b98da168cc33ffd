/** Whole documents: sections, comments and footers between them, and line endings. */
module FixedWidthDocument {
  import opened Common
  import opened FixedWidth
  import opened FixedWidthTheorems
  import opened FixedWidthRoundTrip

  // ---------------------------------------------------------------------------
  // Lines to text and back
  // ---------------------------------------------------------------------------

  datatype Ending = Newline | ReturnNewline

  function EndingText(e: Ending): string {
    if e == Newline then "\n" else "\r\n"
  }

  /** A line that its own ending does not run into. */
  predicate Plain(line: string) {
    '\n' !in line && (line == "" || line[|line| - 1] != '\r')
  }

  function JoinLines(lines: seq<string>, e: Ending): string
    requires lines != []
  {
    if |lines| == 1 then lines[0] else lines[0] + EndingText(e) + JoinLines(lines[1..], e)
  }

  lemma {:induction false} NextNewlineAt(s: string, i: nat, e: nat)
    requires i <= e <= |s| && (e < |s| ==> s[e] == '\n') && forall k :: i <= k < e ==> s[k] != '\n'
    ensures NextNewline(s, i) == e
    decreases e - i
  {
    if i < e {
      NextNewlineAt(s, i + 1, e);
    }
  }

  /** A text up to its first newline is its first line, less a return before the newline. */
  lemma SplitFirst(before: string, rest: string)
    requires '\n' !in before
    ensures SplitLines(before + "\n" + rest) == [WithoutReturn(before)] + SplitLines(rest)
  {
    var text := before + "\n" + rest;
    NextNewlineAt(text, 0, |before|);
    assert text[..|before|] == before && text[|before| + 1..] == rest;
  }

  lemma ReturnDropped(line: string)
    ensures WithoutReturn(line + "\r") == line
  {
    assert (line + "\r")[..|line|] == line;
  }

  lemma EndingSplits(line: string, rest: string)
    ensures line + "\r\n" + rest == line + "\r" + "\n" + rest
  {
    assert "\r\n" == "\r" + "\n";
  }

  lemma FirstLineSplits(line: string, e: Ending, rest: string)
    requires Plain(line)
    ensures SplitLines(line + EndingText(e) + rest) == [line] + SplitLines(rest)
  {
    if e == Newline {
      SplitFirst(line, rest);
    } else {
      SplitFirst(line + "\r", rest);
      ReturnDropped(line);
      EndingSplits(line, rest);
    }
  }

  lemma {:induction false} LinesReadBack(lines: seq<string>, e: Ending)
    requires lines != [] && forall k :: 0 <= k < |lines| ==> Plain(lines[k])
    ensures SplitLines(JoinLines(lines, e)) == lines
  {
    if |lines| == 1 {
      NextNewlineAt(lines[0], 0, |lines[0]|);
      assert [lines[0]] == lines;
    } else {
      LinesReadBack(lines[1..], e);
      FirstLineSplits(lines[0], e, JoinLines(lines[1..], e));
      assert [lines[0]] + lines[1..] == lines;
    }
  }

  // ---------------------------------------------------------------------------
  // Sections
  // ---------------------------------------------------------------------------

  /** A named table with the comments and footers that follow it. */
  datatype Section = Section(name: string, table: Table, notes: seq<string>)

  predicate Sectional(s: Section) {
    && s.name != "" && Trim(s.name) == s.name && NoTerminator(s.name)
    && Printable(s.table)
    && (forall k :: 0 <= k < |TableLines(s.table)| ==>
          var line := TableLines(s.table)[k];
          Plain(line) && MarkerName(line).None? && !IsComment(line))
    && forall k :: 0 <= k < |s.notes| ==>
         Plain(s.notes[k]) && MarkerName(s.notes[k]).None? && (IsComment(s.notes[k]) || IsSkipped(s.notes[k]))
  }

  function SectionLines(s: Section): seq<string>
    requires Sectional(s)
  {
    [Marker(s.name)] + (TableLines(s.table) + s.notes)
  }

  function Uncommented(lines: seq<string>): seq<string> {
    Gather(lines, (line: string) => if IsComment(line) then [] else [line])
  }

  lemma {:induction false} ScanConcat(s: Scan, a: seq<string>, b: seq<string>)
    ensures ScanFrom(s, a + b) == ScanFrom(ScanFrom(s, a), b)
  {
    if b == [] {
      assert a + b == a;
    } else {
      assert (a + b)[..|a + b| - 1] == a + b[..|b| - 1];
      ScanConcat(s, a, b[..|b| - 1]);
    }
  }

  lemma {:induction false} ScanBody(s: Scan, lines: seq<string>)
    requires s.current.Some? && forall k :: 0 <= k < |lines| ==> MarkerName(lines[k]).None?
    ensures ScanFrom(s, lines) == s.(lines := s.lines + Uncommented(lines))
  {
    if lines != [] {
      var n := |lines| - 1;
      ScanBody(s, lines[..n]);
      assert MarkerName(lines[n]).None?;
    }
  }

  lemma {:induction false} ScanPreamble(lines: seq<string>)
    requires forall k :: 0 <= k < |lines| ==> MarkerName(lines[k]).None?
    ensures ScanFrom(START, lines) == START
  {
    if lines != [] {
      ScanPreamble(lines[..|lines| - 1]);
    }
  }

  lemma {:induction false} UncommentedKeeps(lines: seq<string>)
    requires forall k :: 0 <= k < |lines| ==> !IsComment(lines[k])
    ensures Uncommented(lines) == lines
  {
    if lines != [] {
      var n := |lines| - 1;
      UncommentedKeeps(lines[..n]);
      assert lines[..n] + [lines[n]] == lines;
    }
  }

  lemma {:induction false} UncommentedNotes(notes: seq<string>)
    requires forall k :: 0 <= k < |notes| ==> IsComment(notes[k]) || IsSkipped(notes[k])
    ensures forall k :: 0 <= k < |Uncommented(notes)| ==> IsSkipped(Uncommented(notes)[k])
  {
    if notes != [] {
      var n := |notes| - 1;
      UncommentedNotes(notes[..n]);
      assert Uncommented(notes) == Uncommented(notes[..n]) + if IsComment(notes[n]) then [] else [notes[n]];
    }
  }

  lemma UncommentedConcat(a: seq<string>, b: seq<string>)
    ensures Uncommented(a + b) == Uncommented(a) + Uncommented(b)
  {
    GatherConcat(a, b, (line: string) => if IsComment(line) then [] else [line]);
  }

  lemma ScanMarker(s: Scan, name: string)
    requires name != "" && Trim(name) == name && NoTerminator(name)
    ensures ScanFrom(s, [Marker(name)]) == Scan(Flush(s), Some(name), [])
  {
    MarkerReadBack(name);
    assert [Marker(name)][..0] == [];
    assert ScanFrom(s, [Marker(name)]) == Next(s, Marker(name));
  }

  /** A marker with no line under it ends the section before it and makes none of its own. */
  lemma MarkerAlone(s: Scan, name: string)
    requires name != "" && Trim(name) == name && NoTerminator(name)
    ensures Flush(ScanFrom(s, [Marker(name)])) == Flush(s)
  {
    ScanMarker(s, name);
  }

  lemma ScanLines(s: Scan, section: Section)
    requires Sectional(section)
    ensures ScanFrom(s, SectionLines(section))
         == Scan(Flush(s), Some(section.name), TableLines(section.table) + Uncommented(section.notes))
  {
    var body := TableLines(section.table) + section.notes;
    ScanMarker(s, section.name);
    ScanConcat(s, [Marker(section.name)], body);
    BodyHasNoMarker(section);
    ScanBody(Scan(Flush(s), Some(section.name), []), body);
    assert Uncommented(body) == TableLines(section.table) + Uncommented(section.notes) by {
      UncommentedConcat(TableLines(section.table), section.notes);
      UncommentedKeeps(TableLines(section.table));
    }
  }

  /** Reading one section finishes the section before it and leaves this one pending. */
  lemma ScanSection(s: Scan, section: Section)
    requires Sectional(section)
    ensures Flush(ScanFrom(s, SectionLines(section)))
         == Flush(s)[section.name := Records(section.table, |section.table.rows|)]
  {
    ScanLines(s, section);
    UncommentedNotes(section.notes);
    TableReadBack(section.table, Uncommented(section.notes));
  }

  lemma BodyHasNoMarker(section: Section)
    requires Sectional(section)
    ensures var body := TableLines(section.table) + section.notes;
            forall k :: 0 <= k < |body| ==> MarkerName(body[k]).None? && Plain(body[k])
  {
  }

  // ---------------------------------------------------------------------------
  // Documents
  // ---------------------------------------------------------------------------

  ghost predicate AllPlain(lines: seq<string>) {
    forall k :: 0 <= k < |lines| ==> Plain(lines[k])
  }

  /** The lines of a document: a preamble without a marker, then one block per section. */
  function Blocks(preamble: seq<string>, blocks: seq<seq<string>>, n: nat): seq<string>
    requires n <= |blocks|
  {
    if n == 0 then preamble else Blocks(preamble, blocks, n - 1) + blocks[n - 1]
  }

  datatype Named = Named(name: string, rows: seq<Row>)

  /** The sections by name; a later one replaces an earlier one of the same name. */
  function Collect(named: seq<Named>, n: nat): Sections
    requires n <= |named|
  {
    if n == 0 then map[] else Collect(named, n - 1)[named[n - 1].name := named[n - 1].rows]
  }

  ghost predicate BlockReads(block: seq<string>, named: Named) {
    forall s :: Flush(ScanFrom(s, block)) == Flush(s)[named.name := named.rows]
  }

  lemma {:induction false} ScanBlocks(preamble: seq<string>, blocks: seq<seq<string>>, named: seq<Named>, n: nat)
    requires forall k :: 0 <= k < |preamble| ==> MarkerName(preamble[k]).None?
    requires |blocks| == |named| && n <= |blocks|
    requires forall k :: 0 <= k < |blocks| ==> BlockReads(blocks[k], named[k])
    ensures Flush(ScanFrom(START, Blocks(preamble, blocks, n))) == Collect(named, n)
  {
    if n == 0 {
      ScanPreamble(preamble);
    } else {
      ScanBlocks(preamble, blocks, named, n - 1);
      ScanConcat(START, Blocks(preamble, blocks, n - 1), blocks[n - 1]);
      assert BlockReads(blocks[n - 1], named[n - 1]);
    }
  }

  lemma {:induction false} BlocksPlain(preamble: seq<string>, blocks: seq<seq<string>>, n: nat)
    requires AllPlain(preamble) && n <= |blocks| && forall k :: 0 <= k < |blocks| ==> AllPlain(blocks[k])
    ensures AllPlain(Blocks(preamble, blocks, n))
  {
    if n > 0 {
      BlocksPlain(preamble, blocks, n - 1);
      assert AllPlain(blocks[n - 1]);
    }
  }

  lemma SectionPlain(s: Section)
    requires Sectional(s)
    ensures AllPlain(SectionLines(s))
  {
    BodyHasNoMarker(s);
  }

  ghost predicate Document(preamble: seq<string>, doc: seq<Section>) {
    && (forall k :: 0 <= k < |preamble| ==> Plain(preamble[k]) && MarkerName(preamble[k]).None?)
    && forall k :: 0 <= k < |doc| ==> Sectional(doc[k])
  }

  function SectionBlocks(doc: seq<Section>): (r: seq<seq<string>>)
    requires forall k :: 0 <= k < |doc| ==> Sectional(doc[k])
    ensures |r| == |doc|
  {
    seq(|doc|, k requires 0 <= k < |doc| => SectionLines(doc[k]))
  }

  function Lines(preamble: seq<string>, doc: seq<Section>): seq<string>
    requires forall k :: 0 <= k < |doc| ==> Sectional(doc[k])
  {
    Blocks(preamble, SectionBlocks(doc), |doc|)
  }

  /** What the parser makes of a section: cells trimmed, NULL as the empty text. */
  function MeaningOf(s: Section): Named
    requires Sectional(s)
  {
    Named(s.name, Records(s.table, |s.table.rows|))
  }

  function Meanings(doc: seq<Section>): (r: seq<Named>)
    requires forall k :: 0 <= k < |doc| ==> Sectional(doc[k])
    ensures |r| == |doc|
  {
    seq(|doc|, k requires 0 <= k < |doc| => MeaningOf(doc[k]))
  }

  /** Printing any document and parsing it gives its meaning, with either line ending. */
  lemma DocumentReadBack(preamble: seq<string>, doc: seq<Section>, e: Ending)
    requires Document(preamble, doc) && Lines(preamble, doc) != []
    ensures SectionsOf(JoinLines(Lines(preamble, doc), e)) == Collect(Meanings(doc), |doc|)
  {
    var blocks, named := SectionBlocks(doc), Meanings(doc);
    assert AllPlain(Lines(preamble, doc)) by {
      forall k | 0 <= k < |doc|
        ensures AllPlain(blocks[k])
      {
        SectionPlain(doc[k]);
      }
      BlocksPlain(preamble, blocks, |doc|);
    }
    LinesReadBack(Lines(preamble, doc), e);
    forall k | 0 <= k < |doc|
      ensures BlockReads(blocks[k], named[k])
    {
      SectionReads(doc[k]);
    }
    ScanBlocks(preamble, blocks, named, |doc|);
  }

  lemma SectionReads(s: Section)
    requires Sectional(s)
    ensures BlockReads(SectionLines(s), MeaningOf(s))
  {
    forall scan
      ensures Flush(ScanFrom(scan, SectionLines(s))) == Flush(scan)[s.name := Records(s.table, |s.table.rows|)]
    {
      ScanSection(scan, s);
    }
  }

  // ---------------------------------------------------------------------------
  // When the meaning is the content
  // ---------------------------------------------------------------------------

  function Contents(t: Table, n: nat): seq<Row>
    requires n <= |t.rows| && forall k :: 0 <= k < |t.rows| ==> |t.rows[k]| == |t.names|
  {
    if n == 0 then [] else Contents(t, n - 1) + [ContentUpTo(t.names, t.rows[n - 1], |t.names|)]
  }

  function OriginalOf(s: Section): Named
    requires Sectional(s)
  {
    Named(s.name, Contents(s.table, |s.table.rows|))
  }

  function Originals(doc: seq<Section>): (r: seq<Named>)
    requires forall k :: 0 <= k < |doc| ==> Sectional(doc[k])
    ensures |r| == |doc|
  {
    seq(|doc|, k requires 0 <= k < |doc| => OriginalOf(doc[k]))
  }

  predicate Distinct(names: seq<string>) {
    forall i, j :: 0 <= i < j < |names| ==> names[i] != names[j]
  }

  predicate CleanRow(cells: seq<string>) {
    forall i :: 0 <= i < |cells| ==> Clean(cells[i])
  }

  predicate CleanTable(t: Table) {
    forall k :: 0 <= k < |t.rows| ==> CleanRow(t.rows[k])
  }

  lemma {:induction false} RecordAt(names: seq<string>, cells: seq<string>, n: nat, i: nat)
    requires |names| == |cells| && n <= |names| && Distinct(names) && i < |names|
    ensures names[i] in RecordUpTo(names, cells, n) <==> i < n
    ensures names[i] in ContentUpTo(names, cells, n) <==> i < n
    ensures i < n ==> RecordUpTo(names, cells, n)[names[i]] == CellText(cells[i])
                      && ContentUpTo(names, cells, n)[names[i]] == cells[i]
  {
    if n > 0 {
      RecordAt(names, cells, n - 1, i);
    }
  }

  lemma {:induction false} CleanRecord(names: seq<string>, cells: seq<string>, n: nat)
    requires |names| == |cells| && n <= |names| && CleanRow(cells)
    ensures RecordUpTo(names, cells, n) == ContentUpTo(names, cells, n)
  {
    if n > 0 {
      CleanRecord(names, cells, n - 1);
      CellComesBack(cells[n - 1], |cells[n - 1]|);
    }
  }

  lemma RowComesBack(names: seq<string>, cells: seq<string>)
    requires |names| == |cells| && Distinct(names)
    ensures RecordUpTo(names, cells, |names|) == ContentUpTo(names, cells, |names|) <==> CleanRow(cells)
  {
    if CleanRow(cells) {
      CleanRecord(names, cells, |names|);
    } else {
      var i :| 0 <= i < |cells| && !Clean(cells[i]);
      CellComesBack(cells[i], |cells[i]|);
      RecordAt(names, cells, |names|, i);
    }
  }

  lemma {:induction false} RowsComeBack(t: Table, n: nat)
    requires n <= |t.rows| && (forall k :: 0 <= k < |t.rows| ==> |t.rows[k]| == |t.names|) && Distinct(t.names)
    ensures |Records(t, n)| == |Contents(t, n)| == n
    ensures Records(t, n) == Contents(t, n) <==> forall k :: 0 <= k < n ==> CleanRow(t.rows[k])
  {
    if n > 0 {
      RowsComeBack(t, n - 1);
      var x, y := RecordUpTo(t.names, t.rows[n - 1], |t.names|), ContentUpTo(t.names, t.rows[n - 1], |t.names|);
      assert x == y <==> CleanRow(t.rows[n - 1]) by { RowComesBack(t.names, t.rows[n - 1]); }
      assert Records(t, n) == Contents(t, n) <==> Records(t, n - 1) == Contents(t, n - 1) && x == y by {
        LastDecides(Records(t, n - 1), x, Contents(t, n - 1), y);
      }
    }
  }

  lemma LastDecides(a: seq<Row>, x: Row, b: seq<Row>, y: Row)
    requires |a| == |b|
    ensures a + [x] == b + [y] <==> a == b && x == y
  {
    if a + [x] == b + [y] {
      assert (a + [x])[..|a|] == a && (b + [y])[..|b|] == b;
      assert (a + [x])[|a|] == x && (b + [y])[|b|] == y;
    }
  }

  ghost predicate DistinctNames(named: seq<Named>) {
    forall i, j :: 0 <= i < j < |named| ==> named[i].name != named[j].name
  }

  lemma {:induction false} CollectAt(named: seq<Named>, n: nat, i: nat)
    requires n <= |named| && DistinctNames(named) && i < |named|
    ensures named[i].name in Collect(named, n) <==> i < n
    ensures i < n ==> Collect(named, n)[named[i].name] == named[i].rows
  {
    if n > 0 {
      CollectAt(named, n - 1, i);
    }
  }

  lemma {:induction false} CollectSame(a: seq<Named>, b: seq<Named>, n: nat)
    requires |a| == |b| && n <= |a| && forall k :: 0 <= k < |a| ==> a[k] == b[k]
    ensures Collect(a, n) == Collect(b, n)
  {
    if n > 0 {
      CollectSame(a, b, n - 1);
    }
  }

  lemma CollectEqual(a: seq<Named>, b: seq<Named>)
    requires |a| == |b| && DistinctNames(a) && forall k :: 0 <= k < |a| ==> a[k].name == b[k].name
    ensures Collect(a, |a|) == Collect(b, |b|) <==> forall k :: 0 <= k < |a| ==> a[k].rows == b[k].rows
  {
    if forall k :: 0 <= k < |a| ==> a[k].rows == b[k].rows {
      CollectSame(a, b, |a|);
    } else {
      var k :| 0 <= k < |a| && a[k].rows != b[k].rows;
      CollectAt(a, |a|, k);
      CollectAt(b, |b|, k);
    }
  }

  ghost predicate DistinctSections(doc: seq<Section>) {
    && (forall i, j :: 0 <= i < j < |doc| ==> doc[i].name != doc[j].name)
    && forall k :: 0 <= k < |doc| ==> Distinct(doc[k].table.names)
  }

  lemma SectionComesBack(s: Section)
    requires Sectional(s) && Distinct(s.table.names)
    ensures Records(s.table, |s.table.rows|) == Contents(s.table, |s.table.rows|) <==> CleanTable(s.table)
  {
    RowsComeBack(s.table, |s.table.rows|);
  }

  /**
   * With distinct section and column names, printing and parsing gives back exactly the
   * tables that were printed if and only if every cell is trimmed and none is NULL.
   */
  lemma DocumentComesBack(preamble: seq<string>, doc: seq<Section>, e: Ending)
    requires Document(preamble, doc) && DistinctSections(doc) && Lines(preamble, doc) != []
    ensures SectionsOf(JoinLines(Lines(preamble, doc), e)) == Collect(Originals(doc), |doc|)
       <==> forall k :: 0 <= k < |doc| ==> CleanTable(doc[k].table)
  {
    var a, b := Meanings(doc), Originals(doc);
    DocumentReadBack(preamble, doc, e);
    forall k | 0 <= k < |doc|
      ensures a[k].rows == b[k].rows <==> CleanTable(doc[k].table)
    {
      SectionComesBack(doc[k]);
    }
    CollectEqual(a, b);
  }
}
