/** What the fixed-width parser guarantees: which columns it finds, and that printed documents come back. */
module FixedWidthTheorems {
  import opened Common
  import opened FixedWidth

  // ---------------------------------------------------------------------------
  // Columns are the maximal dash groups
  // ---------------------------------------------------------------------------

  /** s[a..b] is a group of dashes that cannot be extended. */
  predicate IsRun(s: string, a: int, b: int) {
    && 0 <= a < b <= |s|
    && (forall i :: a <= i < b ==> s[i] == '-')
    && (a == 0 || s[a - 1] != '-')
    && (b == |s| || s[b] != '-')
  }

  lemma {:induction false} RunEndSpec(s: string, i: nat)
    requires i <= |s|
    ensures var e := RunEnd(s, i); (forall k :: i <= k < e ==> s[k] == '-') && (e < |s| ==> s[e] != '-')
    decreases |s| - i
  {
    if i < |s| && s[i] == '-' {
      RunEndSpec(s, i + 1);
    }
  }

  /** A position that does not split a group. */
  predicate Between(s: string, i: nat) {
    i == 0 || i >= |s| || s[i - 1] != '-' || s[i] != '-'
  }

  lemma {:induction false} RunsFrom(s: string, i: nat, a: int, b: int)
    requires i <= |s| && Between(s, i)
    ensures Span(a, b) in DashRuns(s, i) <==> i <= a && IsRun(s, a, b)
    decreases |s| - i
  {
    if i < |s| {
      if s[i] != '-' {
        RunsFrom(s, i + 1, a, b);
      } else {
        RunEndSpec(s, i);
        RunsFrom(s, RunEnd(s, i), a, b);
        RunAt(s, i, a, b);
      }
    }
  }

  lemma RunAt(s: string, i: nat, a: int, b: int)
    requires i < |s| && Between(s, i) && s[i] == '-'
    ensures i <= a && IsRun(s, a, b) <==> (a == i && b == RunEnd(s, i)) || (RunEnd(s, i) <= a && IsRun(s, a, b))
  {
    RunEndSpec(s, i);
  }

  predicate DashAt(s: string, i: nat, start: int) {
    i <= start < |s| && s[start] == '-'
  }

  lemma {:induction false} RunsIncrease(s: string, i: nat)
    requires i <= |s|
    ensures forall k :: 0 <= k < |DashRuns(s, i)| ==> DashAt(s, i, DashRuns(s, i)[k].start)
    ensures forall k, l :: 0 <= k < l < |DashRuns(s, i)| ==> DashRuns(s, i)[k].end < DashRuns(s, i)[l].start
    decreases |s| - i
  {
    if i < |s| {
      if s[i] != '-' {
        RunsIncrease(s, i + 1);
      } else {
        RunEndSpec(s, i);
        RunsIncrease(s, RunEnd(s, i));
      }
    }
  }

  /** The columns of a table lie exactly on the maximal dash groups of its dash line, left to right and apart. */
  lemma ColumnsAreMaximalRuns(dashes: string)
    ensures forall a, b :: Span(a, b) in DashRuns(dashes, 0) <==> IsRun(dashes, a, b)
    ensures forall i, j :: 0 <= i < j < |DashRuns(dashes, 0)| ==> DashRuns(dashes, 0)[i].end < DashRuns(dashes, 0)[j].start
  {
    forall a, b
      ensures Span(a, b) in DashRuns(dashes, 0) <==> IsRun(dashes, a, b)
    {
      RunsFrom(dashes, 0, a, b);
    }
    RunsIncrease(dashes, 0);
  }

  // ---------------------------------------------------------------------------
  // Trimming
  // ---------------------------------------------------------------------------

  /** s[w..e] is what is left of s without its outer white space. */
  ghost predicate Core(s: string, w: nat, e: nat) {
    && w < e <= |s|
    && (forall i :: 0 <= i < w || e <= i < |s| ==> IsSpace(s[i]))
    && !IsSpace(s[w]) && !IsSpace(s[e - 1])
  }

  lemma {:induction false} TrimStartOf(s: string, w: nat)
    requires w <= |s| && (forall i :: 0 <= i < w ==> IsSpace(s[i])) && (w < |s| ==> !IsSpace(s[w]))
    ensures TrimStart(s) == s[w..]
  {
    if w > 0 {
      TrimStartOf(s[1..], w - 1);
    }
  }

  lemma {:induction false} TrimEndOf(s: string, e: nat)
    requires e <= |s| && (forall i :: e <= i < |s| ==> IsSpace(s[i])) && (e > 0 ==> !IsSpace(s[e - 1]))
    ensures TrimEnd(s) == s[..e]
  {
    if e < |s| {
      TrimEndOf(s[..|s| - 1], e);
    }
  }

  lemma TrimCore(s: string, w: nat, e: nat)
    requires Core(s, w, e)
    ensures Trim(s) == s[w..e]
  {
    TrimStartOf(s, w);
    TrimEndOf(s[w..], e - w);
  }

  lemma TrimSpace(s: string)
    requires AllSpace(s)
    ensures Trim(s) == ""
  {
    TrimStartOf(s, |s|);
  }

  lemma SomeCore(s: string) returns (w: nat, e: nat)
    requires !AllSpace(s)
    ensures Core(s, w, e)
  {
    w, e := 0, |s|;
    while IsSpace(s[w])
      invariant w < |s| && (forall i :: 0 <= i < w ==> IsSpace(s[i])) && exists i :: w <= i < |s| && !IsSpace(s[i])
      decreases |s| - w
    {
      w := w + 1;
    }
    while IsSpace(s[e - 1])
      invariant w < e <= |s| && forall i :: e <= i < |s| ==> IsSpace(s[i])
      decreases e
    {
      e := e - 1;
    }
  }

  /** Trimming gives nothing for white space and the core of everything else. */
  lemma TrimIsCore(s: string)
    ensures Trim(s) == "" <==> AllSpace(s)
  {
    if AllSpace(s) {
      TrimSpace(s);
    } else {
      var w, e := SomeCore(s);
      TrimCore(s, w, e);
    }
  }

  function Spaces(n: nat): (r: string)
    ensures |r| == n && AllSpace(r)
  {
    seq(n, _ => ' ')
  }

  /** White space around a text does not change what trimming leaves. */
  lemma TrimPadded(before: string, s: string, after: string)
    requires AllSpace(before) && AllSpace(after)
    ensures Trim(before + s + after) == Trim(s)
  {
    var t := before + s + after;
    if AllSpace(s) {
      assert AllSpace(t);
      TrimSpace(s);
      TrimSpace(t);
    } else {
      var w, e := SomeCore(s);
      TrimCore(s, w, e);
      var p := |before|;
      assert forall i :: p <= i < p + |s| ==> t[i] == s[i - p];
      TrimCore(t, p + w, p + e);
      assert t[p + w..p + e] == s[w..e];
    }
  }

  // ---------------------------------------------------------------------------
  // Section markers
  // ---------------------------------------------------------------------------

  /** One way for \s*(.+?)\s* to match a body: w white-space characters, then a group of g. */
  ghost predicate MarkerSplit(body: string, w: int, g: int) {
    && 0 <= w && g >= 1 && w + g <= |body|
    && (forall i :: 0 <= i < w || w + g <= i < |body| ==> IsSpace(body[i]))
    && forall i :: w <= i < w + g ==> !IsTerminator(body[i])
  }

  predicate HasBody(line: string) {
    |line| >= 6 && StartsWith(line, "===") && line[|line| - 3..] == "==="
  }

  /** The last character of the body that a dot matches, with only terminators after it. */
  ghost predicate LastDot(s: string, w: int) {
    && 0 <= w < |s| && !IsTerminator(s[w])
    && forall i :: w < i < |s| ==> IsTerminator(s[i])
  }

  lemma {:induction false} LastMatchableSpec(s: string)
    ensures match LastMatchable(s)
            case None => forall i :: 0 <= i < |s| ==> IsTerminator(s[i])
            case Some(name) => exists w :: LastDot(s, w) && name == [s[w]]
  {
    if s != "" {
      var n := |s| - 1;
      if IsTerminator(s[n]) {
        LastMatchableSpec(s[..n]);
        if LastMatchable(s).Some? {
          var w :| LastDot(s[..n], w) && LastMatchable(s[..n]).value == [s[..n][w]];
          assert LastDot(s, w);
        }
      } else {
        assert LastDot(s, n);
      }
    }
  }

  /** A split's group contains the core of the body, so it contains whatever terminator the core contains. */
  lemma SplitAroundCore(body: string, w: nat, e: nat, w': int, g': int)
    requires Core(body, w, e) && MarkerSplit(body, w', g')
    ensures w' <= w && e <= w' + g' && NoTerminator(body[w..e])
  {
  }

  ghost predicate FirstMatch(body: string, w: int, g: int) {
    && MarkerSplit(body, w, g)
    && forall w', g' :: MarkerSplit(body, w', g') ==> w' < w || (w' == w && g <= g')
  }

  /**
   * A line is a marker exactly when the pattern matches it, and its name is the group of the
   * match the pattern prefers: as much white space first as possible, then the shortest group.
   */
  lemma MarkerIsFirstMatch(line: string)
    requires HasBody(line)
    ensures var body := line[3..|line| - 3];
            match MarkerName(line)
            case None => forall w, g :: !MarkerSplit(body, w, g)
            case Some(name) => exists w, g :: FirstMatch(body, w, g) && name == body[w..w + g]
  {
    var body := line[3..|line| - 3];
    TrimIsCore(body);
    if body == "" {
    } else if AllSpace(body) {
      SpaceMarker(body);
    } else {
      var w, e := SomeCore(body);
      TrimCore(body, w, e);
      forall w', g' | MarkerSplit(body, w', g')
        ensures w' < w || (w' == w && e - w <= g')
        ensures NoTerminator(Trim(body))
      {
        SplitAroundCore(body, w, e, w', g');
      }
      if NoTerminator(Trim(body)) {
        assert body[w..w + (e - w)] == body[w..e];
        assert FirstMatch(body, w, e - w);
      }
    }
  }

  lemma SpaceMarker(body: string)
    requires AllSpace(body)
    ensures match LastMatchable(body)
            case None => forall w, g :: !MarkerSplit(body, w, g)
            case Some(name) => exists w, g :: FirstMatch(body, w, g) && name == body[w..w + g]
  {
    LastMatchableSpec(body);
    match LastMatchable(body)
    case None =>
      forall w, g
        ensures !MarkerSplit(body, w, g)
      {
        assert 0 <= w < |body| ==> IsTerminator(body[w]);
      }
    case Some(name) =>
      var w :| LastDot(body, w) && name == [body[w]];
      assert name == body[w..w + 1] && MarkerSplit(body, w, 1);
      forall w', g' | MarkerSplit(body, w', g')
        ensures w' <= w
      {
        assert !IsTerminator(body[w']);
      }
      assert FirstMatch(body, w, 1);
  }

  function Marker(name: string): string {
    "=== " + name + " ==="
  }

  lemma MarkerReadBack(name: string)
    requires name != "" && Trim(name) == name && NoTerminator(name)
    ensures MarkerName(Marker(name)) == Some(name)
  {
    var line := Marker(name);
    assert line[3..|line| - 3] == " " + name + " ";
    TrimPadded(" ", name, " ");
    assert line[..3] == "===" && line[|line| - 3..] == "===";
  }

  // ---------------------------------------------------------------------------
  // What each kind of line looks like
  // ---------------------------------------------------------------------------

  /** White space and line terminators of section 12.2 and 12.3 of ECMA-262, by code point. */
  lemma SpacesAre(c: char)
    ensures IsSpace(c) <==>
            c as int in {9, 10, 11, 12, 13, 32, 160, 5760, 8192, 8193, 8194, 8195, 8196, 8197, 8198, 8199, 8200, 8201,
                         8202, 8232, 8233, 8239, 8287, 12288, 65279}
    ensures IsTerminator(c) <==> c as int in {10, 13, 8232, 8233}
  {
  }

  /** A line of dashes holds a dash, and nothing but dashes and characters that trimming removes. */
  lemma DashLineIff(line: string)
    ensures IsDashLine(line) <==>
            (exists i :: 0 <= i < |line| && line[i] == '-') && forall i :: 0 <= i < |line| && line[i] != '-' ==> Trim([line[i]]) == ""
  {
    forall i | 0 <= i < |line|
      ensures Trim([line[i]]) == "" <==> IsSpace(line[i])
    {
      TrimIsCore([line[i]]);
    }
  }

  ghost predicate CommentAt(line: string, w: int) {
    && 0 <= w <= |line| && (forall i :: 0 <= i < w ==> IsSpace(line[i]))
    && ((w + 1 < |line| && line[w] == '/' && line[w + 1] == '/') || (w < |line| && line[w] == '#'))
  }

  /** A comment starts with two slashes or a hash, after white space at most. */
  lemma CommentIff(line: string)
    ensures IsComment(line) <==> exists w :: CommentAt(line, w)
  {
    var w := 0;
    while w < |line| && IsSpace(line[w])
      invariant w <= |line| && forall i :: 0 <= i < w ==> IsSpace(line[i])
    {
      w := w + 1;
    }
    TrimStartOf(line, w);
    if IsComment(line) {
      assert CommentAt(line, w);
    }
    if v :| CommentAt(line, v) {
      assert v == w;
    }
  }

  predicate AllDigits(s: string) {
    forall i :: 0 <= i < |s| ==> '0' <= s[i] <= '9'
  }

  lemma {:induction false} DigitsOf(d: string, rest: string)
    requires AllDigits(d) && (rest == "" || !('0' <= rest[0] <= '9'))
    ensures Digits(d + rest) == |d|
  {
    if d == "" {
      assert d + rest == rest;
    } else {
      assert (d + rest)[1..] == d[1..] + rest;
      DigitsOf(d[1..], rest);
    }
  }

  lemma {:induction false} DigitsTaken(s: string)
    ensures Digits(s) <= |s| && AllDigits(s[..Digits(s)])
  {
    if s != "" && '0' <= s[0] <= '9' {
      DigitsTaken(s[1..]);
      assert forall i :: 0 < i < Digits(s) ==> s[i] == s[1..][i - 1];
    }
  }

  /** The count of affected rows, with any text after it. */
  ghost predicate CountsRows(t: string, d: string, rest: string) {
    && d != "" && AllDigits(d)
    && (t == "(" + d + " row affected)" + rest || t == "(" + d + " rows affected)" + rest)
  }

  /** A footer of the first kind: a number in parentheses with what is counted. */
  lemma RowCountIff(t: string)
    ensures IsRowCount(t) <==> exists d, rest :: CountsRows(t, d, rest)
  {
    if IsRowCount(t) {
      var n := Digits(t[1..]);
      DigitsTaken(t[1..]);
      var d, form := t[1..1 + n], if StartsWith(t[1 + n..], " row affected)") then " row affected)" else " rows affected)";
      var rest := t[1 + n + |form|..];
      assert t[1..][..n] == d && t[0] == '(';
      assert t == "(" + d + form + rest by {
        assert t == t[..1] + t[1..1 + n] + t[1 + n..1 + n + |form|] + t[1 + n + |form|..];
        assert t[1 + n..][..|form|] == t[1 + n..1 + n + |form|];
      }
      assert CountsRows(t, d, rest);
    }
    if d, rest :| CountsRows(t, d, rest) {
      CountedRows(t, d, rest);
    }
  }

  lemma CountedForm(t: string, d: string, form: string, rest: string)
    requires d != "" && AllDigits(d) && t == "(" + d + form + rest && form != "" && form[0] == ' '
    ensures t[0] == '(' && Digits(t[1..]) == |d| && 1 + |d| <= |t| && StartsWith(t[1 + |d|..], form)
  {
    assert t[1..] == d + (form + rest);
    DigitsOf(d, form + rest);
    assert t[1 + |d|..] == form + rest;
  }

  lemma CountedRows(t: string, d: string, rest: string)
    requires CountsRows(t, d, rest)
    ensures IsRowCount(t)
  {
    if t == "(" + d + " row affected)" + rest {
      CountedForm(t, d, " row affected)", rest);
    } else {
      CountedForm(t, d, " rows affected)", rest);
    }
  }

  /** A footer of the second kind: this text at the start, in any case. */
  lemma CompletionIff(t: string)
    ensures IsCompletion(t) <==>
            |t| >= 16 && forall i :: 0 <= i < 16 ==> t[i] == "completion time:"[i] || t[i] == "COMPLETION TIME:"[i]
  {
  }

  /** The lines below the dashes that carry no row are the blank ones and the two footers, indented or not. */
  lemma SkippedIff(line: string)
    ensures IsSkipped(line) <==>
            || (forall i :: 0 <= i < |line| ==> IsSpace(line[i]))
            || (exists d, rest :: CountsRows(Trim(line), d, rest))
            || (|Trim(line)| >= 16 &&
                forall i :: 0 <= i < 16 ==> Trim(line)[i] == "completion time:"[i] || Trim(line)[i] == "COMPLETION TIME:"[i])
  {
    CompletionIff(Trim(line));
    TrimIsCore(line);
    RowCountIff(Trim(line));
  }

  /** The text NULL in a cell reads as empty, with any white space around it. */
  lemma NullReadsEmpty(before: string, after: string)
    requires AllSpace(before) && AllSpace(after)
    ensures CellText(before + "NULL" + after) == ""
  {
    TrimPadded(before, "NULL", after);
    TrimCore("NULL", 0, 4);
  }

  lemma {:induction false} FirstDashLineAfter(above: seq<string>, lines: seq<string>)
    requires forall k :: 0 <= k < |above| ==> !IsDashLine(above[k])
    ensures FirstDashLine(above + lines) == |above| + FirstDashLine(lines)
  {
    if above == [] {
      assert above + lines == lines;
    } else {
      assert (above + lines)[1..] == above[1..] + lines;
      FirstDashLineAfter(above[1..], lines);
    }
  }

  lemma LinesBelow(above: seq<string>, lines: seq<string>, i: nat)
    requires 0 < i < |lines|
    ensures var all := above + lines;
            all[|above| + i - 1] == lines[i - 1] && all[|above| + i] == lines[i] && all[|above| + i + 1..] == lines[i + 1..]
  {
  }

  lemma TableBelow(lines: seq<string>, i: nat, header: string, dashes: string, body: seq<string>)
    requires FirstDashLine(lines) == i && 0 < i < |lines|
    requires lines[i - 1] == header && lines[i] == dashes && lines[i + 1..] == body
    ensures TableOf(lines) == RowsOf(Columns(header, DashRuns(dashes, 0)), body)
  {
  }

  /** Without a line of dashes, or without a header above it, there is no table. */
  lemma NoHeaderNoRows(lines: seq<string>)
    requires (forall k :: 0 <= k < |lines| ==> !IsDashLine(lines[k])) || IsDashLine(lines[0])
    ensures TableOf(lines) == []
  {
    var i := FirstDashLine(lines);
  }

  lemma SameTable(above: seq<string>, lines: seq<string>, i: nat)
    requires 0 < i < |lines| && FirstDashLine(lines) == i && FirstDashLine(above + lines) == |above| + i
    ensures TableOf(above + lines) == TableOf(lines)
  {
    LinesBelow(above, lines, i);
    TableBelow(lines, i, lines[i - 1], lines[i], lines[i + 1..]);
    TableBelow(above + lines, |above| + i, lines[i - 1], lines[i], lines[i + 1..]);
  }

  /** Lines above the header are ignored. */
  lemma HeaderIsTheLineAbove(above: seq<string>, lines: seq<string>)
    requires forall k :: 0 <= k < |above| ==> !IsDashLine(above[k])
    requires lines != [] && !IsDashLine(lines[0])
    ensures TableOf(above + lines) == TableOf(lines)
  {
    var i := FirstDashLine(lines);
    FirstDashLineAfter(above, lines);
    if i < |lines| {
      SameTable(above, lines, i);
    } else {
      assert TableOf(lines) == [] && TableOf(above + lines) == [];
    }
  }
}
