/**
 * The downtime search cuts each DOWN entry at the boundaries of the shifts that apply to its
 * station. Times are milliseconds; an interval contains its start and not its end.
 */
module ShiftClamp {
  import opened Common

  datatype Shift = Shift(id: nat, workcenter: Option<nat>, start: int, end: int)

  datatype Entry = Entry(id: nat, workcenter: Option<nat>, start: int, end: Option<int>)

  datatype Row = Row(entry: nat, shift: Option<nat>, start: int, end: Option<int>, seconds: Option<int>)

  // ---------------------------------------------------------------------------
  // The rows
  // ---------------------------------------------------------------------------

  function ShiftsOf(shifts: seq<Shift>, workcenter: Option<nat>): seq<Shift> {
    if shifts == [] then []
    else
      var n := |shifts| - 1;
      ShiftsOf(shifts[..n], workcenter) + if shifts[n].workcenter == workcenter then [shifts[n]] else []
  }

  /** The shifts of the station's work center, or the site's own when it has none. */
  function Applicable(shifts: seq<Shift>, workcenter: Option<nat>): seq<Shift> {
    var own := ShiftsOf(shifts, workcenter);
    if own != [] then own else ShiftsOf(shifts, None)
  }

  function ClampedStart(e: Entry, s: Shift): int {
    Max(e.start, s.start)
  }

  function ClampedEnd(e: Entry, s: Shift): int
    requires e.end.Some?
  {
    Min(e.end.value, s.end)
  }

  /** The row for one entry and one shift, when at least a whole rounded second of it is left. */
  function Piece(e: Entry, s: Shift): seq<Row>
    requires e.end.Some?
  {
    var seconds := RoundedSeconds(ClampedEnd(e, s) - ClampedStart(e, s));
    if e.start >= s.end || e.end.value <= s.start || seconds <= 0 then []
    else [Row(e.id, Some(s.id), ClampedStart(e, s), Some(ClampedEnd(e, s)), Some(seconds))]
  }

  function Pieces(e: Entry, shifts: seq<Shift>): seq<Row>
    requires e.end.Some?
  {
    if shifts == [] then []
    else Pieces(e, shifts[..|shifts| - 1]) + Piece(e, shifts[|shifts| - 1])
  }

  function Raw(e: Entry): Row {
    Row(e.id, None, e.start, e.end, if e.end.Some? then Some(RoundedSeconds(e.end.value - e.start)) else None)
  }

  function EntryRows(e: Entry, shifts: seq<Shift>): seq<Row> {
    if shifts == [] then [Raw(e)]
    else if e.end.None? then []
    else Pieces(e, Applicable(shifts, e.workcenter))
  }

  function RowsOf(entries: seq<Entry>, shifts: seq<Shift>): seq<Row> {
    if entries == [] then []
    else RowsOf(entries[..|entries| - 1], shifts) + EntryRows(entries[|entries| - 1], shifts)
  }

  /** The grouping of shifts by work center that the search builds first. */
  method GroupShifts(shifts: seq<Shift>) returns (byWorkcenter: map<Option<nat>, seq<Shift>>)
    ensures forall w :: w in byWorkcenter <==> ShiftsOf(shifts, w) != []
    ensures forall w :: w in byWorkcenter ==> byWorkcenter[w] == ShiftsOf(shifts, w)
  {
    byWorkcenter := map[];
    for i := 0 to |shifts|
      invariant forall w :: w in byWorkcenter <==> ShiftsOf(shifts[..i], w) != []
      invariant forall w :: w in byWorkcenter ==> byWorkcenter[w] == ShiftsOf(shifts[..i], w)
    {
      var key := shifts[i].workcenter;
      if key !in byWorkcenter {
        byWorkcenter := byWorkcenter[key := []];
      }
      byWorkcenter := byWorkcenter[key := byWorkcenter[key] + [shifts[i]]];
      assert shifts[..i + 1][..i] == shifts[..i];
    }
    assert shifts[..|shifts|] == shifts;
  }

  /** The inner loop: the rows of one closed entry are pushed behind the rows so far. */
  method PushPieces(before: seq<Row>, e: Entry, applicable: seq<Shift>) returns (rows: seq<Row>)
    requires e.end.Some?
    ensures rows == before + Pieces(e, applicable)
  {
    rows := before;
    for k := 0 to |applicable|
      invariant rows == before + Pieces(e, applicable[..k])
    {
      var s := applicable[k];
      assert applicable[..k + 1][..k] == applicable[..k];
      if e.start >= s.end || e.end.value <= s.start {
        continue;
      }
      var start := if e.start < s.start then s.start else e.start;
      var end := if e.end.value > s.end then s.end else e.end.value;
      var seconds := RoundedSeconds(end - start);
      if seconds <= 0 {
        continue;
      }
      rows := rows + [Row(e.id, Some(s.id), start, Some(end), Some(seconds))];
    }
    assert applicable[..|applicable|] == applicable;
  }

  /** One turn of the outer loop. */
  method PushEntry(before: seq<Row>, e: Entry, shifts: seq<Shift>, byWorkcenter: map<Option<nat>, seq<Shift>>)
    returns (rows: seq<Row>)
    requires forall w :: w in byWorkcenter <==> ShiftsOf(shifts, w) != []
    requires forall w :: w in byWorkcenter ==> byWorkcenter[w] == ShiftsOf(shifts, w)
    ensures rows == before + EntryRows(e, shifts)
  {
    if shifts == [] {
      return before + [Raw(e)];
    }
    if e.end.None? {
      return before;
    }
    var applicable := if e.workcenter in byWorkcenter then byWorkcenter[e.workcenter]
                      else if None in byWorkcenter then byWorkcenter[None] else [];
    assert applicable == Applicable(shifts, e.workcenter);
    rows := PushPieces(before, e, applicable);
  }

  method SearchRows(entries: seq<Entry>, shifts: seq<Shift>) returns (rows: seq<Row>)
    ensures rows == RowsOf(entries, shifts)
  {
    rows := [];
    var byWorkcenter := GroupShifts(shifts);
    for i := 0 to |entries|
      invariant rows == RowsOf(entries[..i], shifts)
    {
      rows := PushEntry(rows, entries[i], shifts, byWorkcenter);
      RowsOfMore(entries, i, shifts);
    }
    assert entries[..|entries|] == entries;
  }

  lemma RowsOfMore(entries: seq<Entry>, i: nat, shifts: seq<Shift>)
    requires i < |entries|
    ensures RowsOf(entries[..i + 1], shifts) == RowsOf(entries[..i], shifts) + EntryRows(entries[i], shifts)
  {
    assert entries[..i + 1][..i] == entries[..i];
  }

  // ---------------------------------------------------------------------------
  // Time as sets of milliseconds
  // ---------------------------------------------------------------------------

  predicate Within(t: int, a: int, b: int) {
    a <= t < b
  }

  function Span(a: int, b: int): set<int> {
    set t | a <= t < b && Within(t, a, b)
  }

  lemma {:induction false} SpanSize(a: int, b: int)
    ensures |Span(a, b)| == Max(0, b - a)
    decreases b - a
  {
    if a < b {
      SpanSize(a, b - 1);
      assert Span(a, b) == Span(a, b - 1) + {b - 1};
    } else {
      assert Span(a, b) == {};
    }
  }

  /** The part of an entry inside one shift. */
  function Overlap(e: Entry, s: Shift): set<int>
    requires e.end.Some?
  {
    Span(ClampedStart(e, s), ClampedEnd(e, s))
  }

  predicate Down(e: Entry, t: int)
    requires e.end.Some?
  {
    e.start <= t < e.end.value
  }

  predicate InShift(s: Shift, t: int) {
    s.start <= t < s.end
  }

  ghost predicate InSomeShift(shifts: seq<Shift>, t: int) {
    exists s :: s in shifts && InShift(s, t)
  }

  /** The downtime of an entry that falls into any of the shifts. */
  ghost function Covered(e: Entry, shifts: seq<Shift>): set<int>
    requires e.end.Some?
  {
    set t | t in Span(e.start, e.end.value) && InSomeShift(shifts, t)
  }

  ghost predicate DisjointShifts(shifts: seq<Shift>) {
    forall i, j, t :: 0 <= i < j < |shifts| ==> !(InShift(shifts[i], t) && InShift(shifts[j], t))
  }

  ghost predicate DisjointPieces(e: Entry, shifts: seq<Shift>)
    requires e.end.Some?
  {
    forall i, j :: 0 <= i < j < |shifts| ==> Overlap(e, shifts[i]) !! Overlap(e, shifts[j])
  }

  function OverlapTotal(e: Entry, shifts: seq<Shift>): int
    requires e.end.Some?
  {
    if shifts == [] then 0
    else
      var s := shifts[|shifts| - 1];
      OverlapTotal(e, shifts[..|shifts| - 1]) + Max(0, ClampedEnd(e, s) - ClampedStart(e, s))
  }

  lemma CoveredMore(e: Entry, shifts: seq<Shift>, s: Shift)
    requires e.end.Some?
    ensures Covered(e, shifts + [s]) == Covered(e, shifts) + Overlap(e, s)
  {
    forall t
      ensures InSomeShift(shifts + [s], t) <==> InSomeShift(shifts, t) || InShift(s, t)
    {
      if InSomeShift(shifts, t) {
        var x :| x in shifts && InShift(x, t);
        assert x in shifts + [s];
      }
      if InShift(s, t) {
        assert s in shifts + [s];
      }
    }
  }

  lemma UnionSize(a: set<int>, b: set<int>, total: int)
    requires |a| <= total
    ensures |a + b| <= total + |b|
    ensures |a + b| == total + |b| <==> |a| == total && a !! b
  {
    assert |a + b| + |a * b| == |a| + |b|;
    assert a !! b <==> |a * b| == 0;
  }

  lemma DisjointFromCovered(e: Entry, shifts: seq<Shift>, s: Shift)
    requires e.end.Some?
    ensures Covered(e, shifts) !! Overlap(e, s) <==> forall i :: 0 <= i < |shifts| ==> Overlap(e, shifts[i]) !! Overlap(e, s)
  {
    if Covered(e, shifts) !! Overlap(e, s) {
      forall i | 0 <= i < |shifts|
        ensures Overlap(e, shifts[i]) !! Overlap(e, s)
      {
        forall t | t in Overlap(e, shifts[i])
          ensures t in Covered(e, shifts)
        {
          assert InShift(shifts[i], t);
        }
      }
    }
    if forall i :: 0 <= i < |shifts| ==> Overlap(e, shifts[i]) !! Overlap(e, s) {
      forall t | t in Covered(e, shifts)
        ensures t !in Overlap(e, s)
      {
        var x :| x in shifts && InShift(x, t);
        var i :| 0 <= i < |shifts| && shifts[i] == x;
        assert t in Overlap(e, shifts[i]);
      }
    }
  }

  lemma DisjointPiecesSplit(e: Entry, shifts: seq<Shift>)
    requires e.end.Some? && shifts != []
    ensures var n := |shifts| - 1;
            DisjointPieces(e, shifts) <==> DisjointPieces(e, shifts[..n]) && Covered(e, shifts[..n]) !! Overlap(e, shifts[n])
  {
    var n := |shifts| - 1;
    DisjointFromCovered(e, shifts[..n], shifts[n]);
    if DisjointPieces(e, shifts) {
      assert forall i :: 0 <= i < n ==> shifts[..n][i] == shifts[i];
    }
    if DisjointPieces(e, shifts[..n]) && Covered(e, shifts[..n]) !! Overlap(e, shifts[n]) {
      forall i, j | 0 <= i < j < |shifts|
        ensures Overlap(e, shifts[i]) !! Overlap(e, shifts[j])
      {
        assert shifts[..n][i] == shifts[i];
        if j < n {
          assert shifts[..n][j] == shifts[j];
        }
      }
    }
  }

  /** The pieces never add up to less than the covered downtime, and to exactly that when no two share an instant. */
  lemma {:induction false} PiecesMeasureCover(e: Entry, shifts: seq<Shift>)
    requires e.end.Some?
    ensures |Covered(e, shifts)| <= OverlapTotal(e, shifts)
    ensures |Covered(e, shifts)| == OverlapTotal(e, shifts) <==> DisjointPieces(e, shifts)
  {
    if shifts == [] {
      assert Covered(e, shifts) == {};
    } else {
      var n := |shifts| - 1;
      PiecesMeasureCover(e, shifts[..n]);
      assert shifts[..n] + [shifts[n]] == shifts;
      CoveredMore(e, shifts[..n], shifts[n]);
      SpanSize(ClampedStart(e, shifts[n]), ClampedEnd(e, shifts[n]));
      UnionSize(Covered(e, shifts[..n]), Overlap(e, shifts[n]), OverlapTotal(e, shifts[..n]));
      DisjointPiecesSplit(e, shifts);
    }
  }

  lemma DisjointShiftsDisjointPieces(e: Entry, shifts: seq<Shift>)
    requires e.end.Some? && DisjointShifts(shifts)
    ensures DisjointPieces(e, shifts)
  {
    forall i, j | 0 <= i < j < |shifts|
      ensures Overlap(e, shifts[i]) !! Overlap(e, shifts[j])
    {
      forall t | t in Overlap(e, shifts[i])
        ensures t !in Overlap(e, shifts[j])
      {
        assert InShift(shifts[i], t);
      }
    }
  }

  lemma DisjointCover(e: Entry, shifts: seq<Shift>)
    requires e.end.Some? && DisjointShifts(shifts)
    ensures |Covered(e, shifts)| == OverlapTotal(e, shifts)
  {
    DisjointShiftsDisjointPieces(e, shifts);
    PiecesMeasureCover(e, shifts);
  }

  // ---------------------------------------------------------------------------
  // Reported seconds
  // ---------------------------------------------------------------------------

  function Seconds(rows: seq<Row>): int {
    if rows == [] then 0
    else
      var r := rows[|rows| - 1];
      Seconds(rows[..|rows| - 1]) + if r.seconds.Some? then r.seconds.value else 0
  }

  lemma {:induction false} SecondsConcat(a: seq<Row>, b: seq<Row>)
    ensures Seconds(a + b) == Seconds(a) + Seconds(b)
  {
    if b == [] {
      assert a + b == a;
    } else {
      assert (a + b)[..|a + b| - 1] == a + b[..|b| - 1];
      SecondsConcat(a, b[..|b| - 1]);
    }
  }

  /** How many shifts the entry reaches into. */
  function Touched(e: Entry, shifts: seq<Shift>): nat
    requires e.end.Some?
  {
    if shifts == [] then 0
    else
      var s := shifts[|shifts| - 1];
      Touched(e, shifts[..|shifts| - 1]) + if ClampedStart(e, s) < ClampedEnd(e, s) then 1 else 0
  }

  lemma PieceSeconds(e: Entry, s: Shift)
    requires e.end.Some?
    ensures var ms := Max(0, ClampedEnd(e, s) - ClampedStart(e, s));
            Near(Seconds(Piece(e, s)), ms, if ms > 0 then 1 else 0)
  {
    RoundingError(ClampedEnd(e, s) - ClampedStart(e, s));
    var rows := Piece(e, s);
    if rows != [] {
      assert rows[..0] == [];
    }
  }

  lemma {:induction false} SecondsNearOverlap(e: Entry, shifts: seq<Shift>)
    requires e.end.Some?
    ensures Near(Seconds(Pieces(e, shifts)), OverlapTotal(e, shifts), Touched(e, shifts))
  {
    if shifts != [] {
      var n := |shifts| - 1;
      SecondsNearOverlap(e, shifts[..n]);
      PieceSeconds(e, shifts[n]);
      SecondsConcat(Pieces(e, shifts[..n]), Piece(e, shifts[n]));
    }
  }

  lemma PiecesConserve(e: Entry, shifts: seq<Shift>)
    requires e.end.Some? && DisjointShifts(shifts)
    ensures |Covered(e, shifts)| == OverlapTotal(e, shifts)
    ensures Near(Seconds(Pieces(e, shifts)), |Covered(e, shifts)|, Touched(e, shifts))
  {
    SecondsNearOverlap(e, shifts);
    DisjointCover(e, shifts);
  }

  lemma ClosedEntryRows(e: Entry, shifts: seq<Shift>)
    requires e.end.Some? && shifts != []
    ensures EntryRows(e, shifts) == Pieces(e, Applicable(shifts, e.workcenter))
  {
  }

  /**
   * One closed entry over disjoint shifts: every row lies inside the entry, and the reported
   * seconds, with dropped rows counted as zero, miss the covered downtime by at most half a
   * second per shift the entry reaches into.
   */
  lemma ClampingConserves(e: Entry, shifts: seq<Shift>, rows: seq<Row>)
    requires e.end.Some? && shifts != [] && DisjointShifts(Applicable(shifts, e.workcenter))
    requires rows == EntryRows(e, shifts)
    ensures var applicable := Applicable(shifts, e.workcenter);
            && |Covered(e, applicable)| == OverlapTotal(e, applicable)
            && Near(Seconds(rows), |Covered(e, applicable)|, Touched(e, applicable))
  {
    var applicable := Applicable(shifts, e.workcenter);
    var pieces := Pieces(e, applicable);
    assert rows == pieces by {
      ClosedEntryRows(e, shifts);
    }
    PiecesConserve(e, applicable);
  }

  /** The rows of one entry are exactly its pieces of at least half a second, each inside its entry and its shift. */
  lemma {:induction false} RowsArePieces(e: Entry, shifts: seq<Shift>, r: Row)
    requires e.end.Some?
    ensures r in Pieces(e, shifts) <==>
            exists s :: s in shifts && ClampedEnd(e, s) - ClampedStart(e, s) >= 500 && r == PieceRow(e, s)
  {
    if shifts != [] {
      var n := |shifts| - 1;
      RowsArePieces(e, shifts[..n], r);
      assert shifts == shifts[..n] + [shifts[n]];
      LongEnough(e, shifts[n]);
    }
  }

  function PieceRow(e: Entry, s: Shift): (r: Row)
    requires e.end.Some?
    ensures ClampedEnd(e, s) - ClampedStart(e, s) >= 500 ==>
              r.end.Some? && Span(r.start, r.end.value) == Overlap(e, s) && Overlap(e, s) <= Span(e.start, e.end.value)
  {
    Row(e.id, Some(s.id), ClampedStart(e, s), Some(ClampedEnd(e, s)),
        Some(RoundedSeconds(ClampedEnd(e, s) - ClampedStart(e, s))))
  }

  lemma LongEnough(e: Entry, s: Shift)
    requires e.end.Some?
    ensures Piece(e, s) == if ClampedEnd(e, s) - ClampedStart(e, s) >= 500 then [PieceRow(e, s)] else []
  {
  }

  // ---------------------------------------------------------------------------
  // The whole answer
  // ---------------------------------------------------------------------------

  ghost function CoveredMs(e: Entry, shifts: seq<Shift>): nat {
    if e.end.Some? then |Covered(e, Applicable(shifts, e.workcenter))| else 0
  }

  function TouchedShifts(e: Entry, shifts: seq<Shift>): nat {
    if e.end.Some? then Touched(e, Applicable(shifts, e.workcenter)) else 0
  }

  ghost function CoveredTotal(entries: seq<Entry>, shifts: seq<Shift>): int {
    if entries == [] then 0
    else CoveredTotal(entries[..|entries| - 1], shifts) + CoveredMs(entries[|entries| - 1], shifts)
  }

  function TouchedTotal(entries: seq<Entry>, shifts: seq<Shift>): nat {
    if entries == [] then 0
    else TouchedTotal(entries[..|entries| - 1], shifts) + TouchedShifts(entries[|entries| - 1], shifts)
  }

  lemma EntryConserves(e: Entry, shifts: seq<Shift>, rows: seq<Row>)
    requires shifts != [] && DisjointShifts(Applicable(shifts, e.workcenter))
    requires rows == EntryRows(e, shifts)
    ensures Near(Seconds(rows), CoveredMs(e, shifts), TouchedShifts(e, shifts))
  {
    if e.end.Some? {
      ClampingConserves(e, shifts, rows);
    }
  }

  /** The whole search conserves downtime: open entries add nothing, closed ones what the shifts cover. */
  lemma {:induction false} SearchConserves(entries: seq<Entry>, shifts: seq<Shift>, rows: seq<Row>)
    requires shifts != []
    requires forall e :: e in entries ==> DisjointShifts(Applicable(shifts, e.workcenter))
    requires rows == RowsOf(entries, shifts)
    ensures Near(Seconds(rows), CoveredTotal(entries, shifts), TouchedTotal(entries, shifts))
  {
    if entries != [] {
      var n := |entries| - 1;
      var before, last := RowsOf(entries[..n], shifts), EntryRows(entries[n], shifts);
      SearchConserves(entries[..n], shifts, before);
      assert Seconds(rows) == Seconds(before) + Seconds(last) by {
        SecondsConcat(before, last);
      }
      EntryConserves(entries[n], shifts, last);
      TotalsMore(entries, shifts);
      NearSum(Seconds(before), CoveredTotal(entries[..n], shifts), TouchedTotal(entries[..n], shifts),
                    Seconds(last), CoveredMs(entries[n], shifts), TouchedShifts(entries[n], shifts));
    }
  }

  lemma TotalsMore(entries: seq<Entry>, shifts: seq<Shift>)
    requires entries != []
    ensures var n := |entries| - 1;
            && RowsOf(entries, shifts) == RowsOf(entries[..n], shifts) + EntryRows(entries[n], shifts)
            && CoveredTotal(entries, shifts) == CoveredTotal(entries[..n], shifts) + CoveredMs(entries[n], shifts)
            && TouchedTotal(entries, shifts) == TouchedTotal(entries[..n], shifts) + TouchedShifts(entries[n], shifts)
  {
  }

  // ---------------------------------------------------------------------------
  // Which rows the search gives
  // ---------------------------------------------------------------------------

  predicate HasOwnShifts(shifts: seq<Shift>, workcenter: Option<nat>) {
    exists k :: 0 <= k < |shifts| && shifts[k].workcenter == workcenter
  }

  /** The shift counts for the stations of a work center: its own shifts do, and the site's only when it has none. */
  predicate CountsFor(shifts: seq<Shift>, s: Shift, workcenter: Option<nat>) {
    s.workcenter == if HasOwnShifts(shifts, workcenter) then workcenter else None
  }

  /** The picked shifts are those at the given positions, in order, and the positions are all that carry the work center. */
  predicate Picks(shifts: seq<Shift>, at: seq<nat>, picked: seq<Shift>, workcenter: Option<nat>) {
    && |picked| == |at|
    && (forall i :: 0 <= i < |at| ==> at[i] < |shifts| && picked[i] == shifts[at[i]] && picked[i].workcenter == workcenter)
    && (forall i, j :: 0 <= i < j < |at| ==> at[i] < at[j])
    && forall k :: 0 <= k < |shifts| && shifts[k].workcenter == workcenter ==> k in at
  }

  lemma {:induction false} ShiftsOfPicks(shifts: seq<Shift>, workcenter: Option<nat>) returns (at: seq<nat>)
    ensures Picks(shifts, at, ShiftsOf(shifts, workcenter), workcenter)
  {
    if shifts == [] {
      at := [];
    } else {
      var n := |shifts| - 1;
      at := ShiftsOfPicks(shifts[..n], workcenter);
      if shifts[n].workcenter == workcenter {
        at := at + [n];
      }
    }
  }

  lemma PickedAre(shifts: seq<Shift>, at: seq<nat>, picked: seq<Shift>, workcenter: Option<nat>, s: Shift)
    requires Picks(shifts, at, picked, workcenter)
    ensures s in picked <==> s in shifts && s.workcenter == workcenter
  {
    if s in picked {
      var i :| 0 <= i < |picked| && picked[i] == s;
      assert shifts[at[i]] == s;
    }
    if s in shifts && s.workcenter == workcenter {
      var k :| 0 <= k < |shifts| && shifts[k] == s;
      var i :| 0 <= i < |at| && at[i] == k;
      assert picked[i] == s;
    }
  }

  lemma PickedSome(shifts: seq<Shift>, at: seq<nat>, picked: seq<Shift>, workcenter: Option<nat>)
    requires Picks(shifts, at, picked, workcenter)
    ensures picked != [] <==> HasOwnShifts(shifts, workcenter)
  {
    if picked != [] {
      assert shifts[at[0]].workcenter == workcenter;
    }
  }

  /** The shifts that apply to a station are exactly those that count for its work center, each once and in order. */
  lemma ApplicableIs(shifts: seq<Shift>, workcenter: Option<nat>) returns (at: seq<nat>)
    ensures Picks(shifts, at, Applicable(shifts, workcenter), if HasOwnShifts(shifts, workcenter) then workcenter else None)
  {
    at := ShiftsOfPicks(shifts, workcenter);
    PickedSome(shifts, at, ShiftsOf(shifts, workcenter), workcenter);
    if ShiftsOf(shifts, workcenter) == [] {
      at := ShiftsOfPicks(shifts, None);
    }
  }

  /** The row reports the time of the entry inside the shift, at least half a second of it, rounded to whole seconds. */
  ghost predicate Reports(r: Row, e: Entry, s: Shift)
    requires e.end.Some?
  {
    && r.entry == e.id && r.shift == Some(s.id) && r.end.Some? && r.seconds.Some?
    && r.end.value - r.start >= 500 && NearestSecond(r.seconds.value, r.end.value - r.start)
    && forall t :: Within(t, r.start, r.end.value) <==> Down(e, t) && InShift(s, t)
  }

  predicate LongPiece(e: Entry, s: Shift)
    requires e.end.Some?
  {
    ClampedEnd(e, s) - ClampedStart(e, s) >= 500
  }

  /** The rows are the pieces at the given positions, in order, and the positions are all with a piece long enough. */
  predicate Cuts(e: Entry, shifts: seq<Shift>, at: seq<nat>, rows: seq<Row>)
    requires e.end.Some?
  {
    && |rows| == |at|
    && (forall i :: 0 <= i < |at| ==> at[i] < |shifts| && LongPiece(e, shifts[at[i]]) && rows[i] == PieceRow(e, shifts[at[i]]))
    && (forall i, j :: 0 <= i < j < |at| ==> at[i] < at[j])
    && forall k :: 0 <= k < |shifts| && LongPiece(e, shifts[k]) ==> k in at
  }

  /** One entry gives one row for each shift it is long enough in, in the order of the shifts. */
  lemma {:induction false} PiecesInOrder(e: Entry, shifts: seq<Shift>) returns (at: seq<nat>)
    requires e.end.Some?
    ensures Cuts(e, shifts, at, Pieces(e, shifts))
  {
    if shifts == [] {
      at := [];
    } else {
      var n := |shifts| - 1;
      at := PiecesInOrder(e, shifts[..n]);
      LongEnough(e, shifts[n]);
      if LongPiece(e, shifts[n]) {
        at := at + [n];
      }
    }
  }

  ghost predicate ReportedFor(r: Row, e: Entry, shifts: seq<Shift>) {
    && e.end.Some?
    && exists s :: s in shifts && CountsFor(shifts, s, e.workcenter) && Reports(r, e, s)
  }

  /** An entry as it is, when no shifts are known. */
  predicate ReportedRaw(r: Row, e: Entry) {
    && r.entry == e.id && r.shift == None && r.start == e.start && r.end == e.end
    && (r.seconds.None? <==> e.end.None?)
    && (e.end.Some? ==> NearestSecond(r.seconds.value, e.end.value - e.start))
  }

  lemma ReportsIs(r: Row, e: Entry, s: Shift)
    requires e.end.Some?
    ensures Reports(r, e, s) <==> ClampedEnd(e, s) - ClampedStart(e, s) >= 500 && r == PieceRow(e, s)
  {
    var a, b := ClampedStart(e, s), ClampedEnd(e, s);
    RoundsToNearest(b - a);
    assert forall t :: Within(t, a, b) <==> Down(e, t) && InShift(s, t);
    if Reports(r, e, s) {
      assert Within(r.start, a, b) && Within(r.end.value - 1, a, b) by {
        assert Within(r.start, r.start, r.end.value) && Within(r.end.value - 1, r.start, r.end.value);
      }
      assert Within(a, r.start, r.end.value) && Within(b - 1, r.start, r.end.value) by {
        assert Within(a, a, b) && Within(b - 1, a, b);
      }
    }
  }

  lemma EntryFinds(e: Entry, shifts: seq<Shift>, r: Row)
    requires shifts != []
    ensures r in EntryRows(e, shifts) <==> ReportedFor(r, e, shifts)
  {
    if e.end.Some? {
      var at := ApplicableIs(shifts, e.workcenter);
      var applicable := Applicable(shifts, e.workcenter);
      RowsArePieces(e, applicable, r);
      forall s
        ensures s in applicable <==> s in shifts && CountsFor(shifts, s, e.workcenter)
        ensures Reports(r, e, s) <==> ClampedEnd(e, s) - ClampedStart(e, s) >= 500 && r == PieceRow(e, s)
      {
        PickedAre(shifts, at, applicable, if HasOwnShifts(shifts, e.workcenter) then e.workcenter else None, s);
        ReportsIs(r, e, s);
      }
    }
  }

  ghost predicate ReportedForSome(r: Row, entries: seq<Entry>, shifts: seq<Shift>) {
    exists i :: 0 <= i < |entries| && ReportedFor(r, entries[i], shifts)
  }

  lemma ReportedMore(r: Row, entries: seq<Entry>, shifts: seq<Shift>)
    requires entries != []
    ensures var n := |entries| - 1;
            ReportedForSome(r, entries, shifts) <==> ReportedForSome(r, entries[..n], shifts) || ReportedFor(r, entries[n], shifts)
  {
    var n := |entries| - 1;
    if i :| 0 <= i < n && ReportedFor(r, entries[..n][i], shifts) {
      assert ReportedFor(r, entries[i], shifts);
    }
    if i :| 0 <= i < |entries| && ReportedFor(r, entries[i], shifts) {
      assert i < n ==> ReportedFor(r, entries[..n][i], shifts);
    }
  }

  /**
   * The whole search, with shifts known: the rows are exactly the times of closed entries inside
   * the shifts that count for their station.
   */
  lemma {:induction false} SearchFinds(entries: seq<Entry>, shifts: seq<Shift>, r: Row)
    requires shifts != []
    ensures r in RowsOf(entries, shifts) <==> ReportedForSome(r, entries, shifts)
  {
    if entries != [] {
      var n := |entries| - 1;
      SearchFinds(entries[..n], shifts, r);
      EntryFinds(entries[n], shifts, r);
      ReportedMore(r, entries, shifts);
      assert r in RowsOf(entries, shifts) <==> r in RowsOf(entries[..n], shifts) || r in EntryRows(entries[n], shifts);
    }
  }

  /** Without shifts, the rows are the entries as they are, in order. */
  lemma {:induction false} SearchWithoutShifts(entries: seq<Entry>)
    ensures var rows := RowsOf(entries, []);
            |rows| == |entries| && forall i :: 0 <= i < |entries| ==> ReportedRaw(rows[i], entries[i])
  {
    if entries != [] {
      var e := entries[|entries| - 1];
      SearchWithoutShifts(entries[..|entries| - 1]);
      if e.end.Some? {
        RoundsToNearest(e.end.value - e.start);
      }
    }
  }
}
