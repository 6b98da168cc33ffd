/**
 * What the station state log guarantees over runs of any length that mix cycle completions,
 * downtime and slow detection, and replay repairs.
 */
module StateLogTheorems {
  import opened Common
  import opened StateLog
  import opened CycleRecorder

  /** Everything that writes the state log, and the replayed completions that do not. */
  datatype Step =
    | Complete(keepOpen: bool, replayed: bool, call: Call)
    | DetectDown(ts: int, jobBlob: Option<nat>)
    | DetectSlow(ts: int)
    | RepairWindow(min: int, max: int, activeJobBlob: Option<nat>)

  function Apply(t: Tables, s: Step): Tables {
    match s
    case Complete(keepOpen, replayed, call) => Strategy(keepOpen, replayed, t, call)
    case DetectDown(ts, jobBlob) => t.(log := ToDown(t.log, ts, jobBlob))
    case DetectSlow(ts) => t.(log := ToSlow(t.log, ts))
    case RepairWindow(min, max, jobBlob) => t.(log := Repair(t.log, min, max, jobBlob))
  }

  function Run(t: Tables, steps: seq<Step>): Tables {
    if steps == [] then t
    else Apply(Run(t, steps[..|steps| - 1]), steps[|steps| - 1])
  }

  /** The four ways a step can change the log. */
  datatype LogStep =
    | Keep
    | Up(ts: int, jobBlob: nat, slow: bool)
    | Down(downTs: int, downBlob: Option<nat>)
    | Slow(slowTs: int)
    | Fix(min: int, max: int, fixBlob: Option<nat>)

  function ApplyLog(l: Log, s: LogStep): Log {
    match s
    case Keep => l
    case Up(ts, jobBlob, slow) => ToUp(l, ts, jobBlob, slow)
    case Down(ts, jobBlob) => ToDown(l, ts, jobBlob)
    case Slow(ts) => ToSlow(l, ts)
    case Fix(min, max, jobBlob) => Repair(l, min, max, jobBlob)
  }

  /** What a step does to the log, given the cycles it finds. */
  function LogEffect(t: Tables, s: Step): LogStep {
    match s
    case Complete(keepOpen, replayed, call) =>
      if replayed then Keep
      else if keepOpen then
        var open := OpenCycles(t.cycles);
        Up(call.ts, call.jobBlob, open != [] && IsSlow(call.ts - open[0].start, call.slowThreshold))
      else Up(call.ts, call.jobBlob, IsSlow(call.ts - ChainStart(t.cycles, call.ts), call.slowThreshold))
    case DetectDown(ts, jobBlob) => Down(ts, jobBlob)
    case DetectSlow(ts) => Slow(ts)
    case RepairWindow(min, max, jobBlob) => Fix(min, max, jobBlob)
  }

  lemma StepOnLog(t: Tables, s: Step)
    ensures Apply(t, s).log == ApplyLog(t.log, LogEffect(t, s))
  {
    match s
    case Complete(keepOpen, replayed, call) =>
      assert CloseForCall(t, call).log == t.log;
    case _ =>
  }

  // ---------------------------------------------------------------------------
  // At most one open live row
  // ---------------------------------------------------------------------------

  lemma OneOpenUp(l: Log, ts: int, jobBlob: nat, slow: bool)
    requires OneOpen(l)
    ensures OneOpen(ToUp(l, ts, jobBlob, slow))
  {
    OpenRowSpec(l.rows);
    var closed := CloseOpen(l.rows, ts);
    assert forall i :: 0 <= i < |closed| ==> !IsOpen(closed[i]);
    forall r | r in closed
      ensures r.id < l.nextRow && r.block < l.nextBlock
    {
      var i :| 0 <= i < |closed| && closed[i] == r;
      assert l.rows[i] in l.rows;
    }
  }

  lemma OneOpenMark(l: Log, id: nat, ts: int, jobBlob: Option<nat>)
    requires OneOpen(l)
    ensures OneOpen(Log(MarkSlow(l.rows, id), l.nextRow, l.nextBlock))
    ensures OneOpen(Log(MarkDown(l.rows, id, ts, l.nextBlock, jobBlob), l.nextRow, l.nextBlock + 1))
  {
    var slow, down := MarkSlow(l.rows, id), MarkDown(l.rows, id, ts, l.nextBlock, jobBlob);
    assert forall i :: 0 <= i < |slow| ==> IsOpen(slow[i]) == IsOpen(l.rows[i]);
    assert forall i :: 0 <= i < |down| ==> IsOpen(down[i]) ==> IsOpen(l.rows[i]);
    forall i | 0 <= i < |l.rows|
      ensures slow[i].id < l.nextRow && slow[i].block < l.nextBlock
      ensures down[i].id < l.nextRow && down[i].block < l.nextBlock + 1
    {
      assert l.rows[i] in l.rows;
    }
  }

  lemma OneOpenFix(l: Log, min: int, max: int, jobBlob: Option<nat>)
    requires OneOpen(l)
    ensures OneOpen(Repair(l, min, max, jobBlob))
  {
    var kept := SoftDelete(l.rows, min, max);
    assert forall i :: 0 <= i < |kept| ==> !IsOpen(kept[i]);
    forall r | r in kept
      ensures r.id < l.nextRow && r.block < l.nextBlock
    {
      var i :| 0 <= i < |kept| && kept[i] == r;
      assert l.rows[i] in l.rows;
    }
  }

  lemma OneOpenStep(l: Log, s: LogStep)
    requires OneOpen(l)
    ensures OneOpen(ApplyLog(l, s))
  {
    OpenRowSpec(l.rows);
    match s
    case Keep =>
    case Up(ts, jobBlob, slow) => OneOpenUp(l, ts, jobBlob, slow);
    case Down(ts, jobBlob) =>
      if OpenRow(l.rows).Some? {
        OneOpenMark(l, OpenRow(l.rows).value.id, ts, jobBlob);
      }
    case Slow(ts) =>
      if OpenRow(l.rows).Some? {
        OneOpenMark(l, OpenRow(l.rows).value.id, ts, None);
      }
    case Fix(min, max, jobBlob) => OneOpenFix(l, min, max, jobBlob);
  }

  /** Whatever happened, the station never has two open live rows. */
  lemma {:induction false} AtMostOneOpenAlways(steps: seq<Step>)
    ensures OneOpen(Run(EMPTY_TABLES, steps).log)
  {
    if steps != [] {
      var n := |steps| - 1;
      var t := Run(EMPTY_TABLES, steps[..n]);
      AtMostOneOpenAlways(steps[..n]);
      StepOnLog(t, steps[n]);
      OneOpenStep(t.log, LogEffect(t, steps[n]));
    }
  }

  /** So in every run the row that is searched for is the one open live row, whatever order the search takes. */
  lemma FoundIsTheOpenRow(steps: seq<Step>, r: StateRow)
    ensures var rows := Run(EMPTY_TABLES, steps).log.rows;
            OpenRow(rows) == Some(r) <==> r in rows && IsOpen(r)
  {
    var rows := Run(EMPTY_TABLES, steps).log.rows;
    AtMostOneOpenAlways(steps);
    OpenRowSpec(rows);
    if r in rows && IsOpen(r) {
      OpenRowUnique(rows, r);
    }
  }

  // ---------------------------------------------------------------------------
  // What each step means for the station
  // ---------------------------------------------------------------------------

  /** A row is DOWN in both columns or in neither. */
  predicate StatusFits(rows: seq<StateRow>) {
    forall r :: r in rows ==> (r.state == DOWN <==> r.status == StatusDown)
  }

  lemma StatusFitsStep(l: Log, s: LogStep)
    requires StatusFits(l.rows) && OneOpen(l)
    ensures StatusFits(ApplyLog(l, s).rows)
  {
    var after := ApplyLog(l, s).rows;
    match s
    case Keep =>
    case Up(ts, jobBlob, slow) => UpMoves(l, ts, jobBlob, slow);
    case Down(ts, jobBlob) => DownMarks(l, ts, jobBlob);
    case Slow(ts) => SlowMarks(l, ts);
    case Fix(min, max, jobBlob) => RepairMarks(l, min, max, jobBlob);
    forall i | 0 <= i < |after|
      ensures after[i].state == DOWN <==> after[i].status == StatusDown
    {
      if i < |l.rows| {
        assert l.rows[i] in l.rows;
        RowOfStep(l, s, i);
      }
    }
  }

  /** A step leaves a row's state and status, or marks the open row. */
  lemma RowOfStep(l: Log, s: LogStep, i: nat)
    requires OneOpen(l) && i < |l.rows|
    ensures var after := ApplyLog(l, s).rows;
            i < |after| &&
            (|| (after[i].state == l.rows[i].state && after[i].status == l.rows[i].status)
             || (after[i].state == DOWN && after[i].status == StatusDown)
             || (l.rows[i].state == UP && after[i].state == UP && after[i].status == StatusSlow))
  {
    if IsOpen(l.rows[i]) {
      FoundIs(l.rows, i);
    } else if OpenRow(l.rows).Some? {
      OpenRowSpec(l.rows);
    }
  }

  lemma {:induction false} StatusAlwaysFits(steps: seq<Step>)
    ensures StatusFits(Run(EMPTY_TABLES, steps).log.rows)
  {
    if steps != [] {
      var n := |steps| - 1;
      var t := Run(EMPTY_TABLES, steps[..n]);
      StatusAlwaysFits(steps[..n]);
      AtMostOneOpenAlways(steps[..n]);
      StepOnLog(t, steps[n]);
      StatusFitsStep(t.log, LogEffect(t, steps[n]));
    }
  }

  lemma OneMoreStep(steps: seq<Step>, s: Step)
    ensures Run(EMPTY_TABLES, steps + [s]) == Apply(Run(EMPTY_TABLES, steps), s)
  {
    assert (steps + [s])[..|steps|] == steps;
  }

  /** The station is in this state, with a status that fits: exactly one row is open, and it says so. */
  ghost predicate StationIs(rows: seq<StateRow>, state: State) {
    exists i :: OpenAt(rows, i) && rows[i].state == state
                && (forall j :: OpenAt(rows, j) ==> j == i) && (state == DOWN <==> rows[i].status == StatusDown)
  }

  lemma StationIsAt(rows: seq<StateRow>, i: int)
    requires AtMostOneOpen(rows) && StatusFits(rows) && OpenAt(rows, i)
    ensures StationIs(rows, rows[i].state)
  {
    assert rows[i] in rows;
  }

  lemma DownStation(before: seq<StateRow>, after: seq<StateRow>, ts: int, jobBlob: Option<nat>)
    requires AtMostOneOpen(after) && StatusFits(after) && MarkedDown(before, after, ts, jobBlob)
    ensures StationIs(after, DOWN)
  {
    if i :| OpenAt(before, i) {
      StationIsAt(after, i);
    } else {
      StationIsAt(after, |before|);
    }
  }

  lemma SlowStation(before: seq<StateRow>, after: seq<StateRow>, ts: int)
    requires AtMostOneOpen(before) && StatusFits(before) && AtMostOneOpen(after) && StatusFits(after)
    requires MarkedSlow(before, after, ts)
    ensures StationIs(after, if StationIs(before, DOWN) then DOWN else UP)
  {
    if i :| OpenAt(before, i) {
      StationIsAt(before, i);
      StationIsAt(after, i);
    } else {
      StationIsAt(after, |before|);
    }
  }

  /**
   * Downtime detected after any run: the station is DOWN. A row that was open and UP became DOWN
   * from its own start on, under a new block; nothing else changed.
   */
  lemma DetectedDownIsDown(steps: seq<Step>, ts: int, jobBlob: Option<nat>)
    ensures var before := Run(EMPTY_TABLES, steps).log.rows;
            var after := Run(EMPTY_TABLES, steps + [DetectDown(ts, jobBlob)]).log.rows;
            MarkedDown(before, after, ts, jobBlob) && StationIs(after, DOWN)
  {
    var l := Run(EMPTY_TABLES, steps).log;
    var after := Run(EMPTY_TABLES, steps + [DetectDown(ts, jobBlob)]).log.rows;
    AtMostOneOpenAlways(steps);
    AtMostOneOpenAlways(steps + [DetectDown(ts, jobBlob)]);
    StatusAlwaysFits(steps + [DetectDown(ts, jobBlob)]);
    OneMoreStep(steps, DetectDown(ts, jobBlob));
    DownMarks(l, ts, jobBlob);
    DownStation(l.rows, after, ts, jobBlob);
  }

  /** Slowness detected after any run: an UP station is SLOW and still UP, a DOWN one stays DOWN, and nothing else changed. */
  lemma DetectedSlowIsSlow(steps: seq<Step>, ts: int)
    ensures var before := Run(EMPTY_TABLES, steps).log.rows;
            var after := Run(EMPTY_TABLES, steps + [DetectSlow(ts)]).log.rows;
            MarkedSlow(before, after, ts) && StationIs(after, if StationIs(before, DOWN) then DOWN else UP)
  {
    var l := Run(EMPTY_TABLES, steps).log;
    var after := Run(EMPTY_TABLES, steps + [DetectSlow(ts)]).log.rows;
    AtMostOneOpenAlways(steps);
    AtMostOneOpenAlways(steps + [DetectSlow(ts)]);
    StatusAlwaysFits(steps);
    StatusAlwaysFits(steps + [DetectSlow(ts)]);
    OneMoreStep(steps, DetectSlow(ts));
    SlowMarks(l, ts);
    SlowStation(l.rows, after, ts);
  }

  /** A live completion after any run: the station is UP from its time stamp on; a replayed one leaves the log alone. */
  lemma CompletionIsUp(steps: seq<Step>, keepOpen: bool, call: Call)
    ensures var before := Run(EMPTY_TABLES, steps).log.rows;
            var after := Run(EMPTY_TABLES, steps + [Complete(keepOpen, false, call)]).log.rows;
            && MovedUp(before, after, call.ts, call.jobBlob, after != [] && after[|after| - 1].status == StatusSlow)
            && StationIs(after, UP)
    ensures Run(EMPTY_TABLES, steps + [Complete(keepOpen, true, call)]).log == Run(EMPTY_TABLES, steps).log
  {
    var t := Run(EMPTY_TABLES, steps);
    var s, replayed := Complete(keepOpen, false, call), Complete(keepOpen, true, call);
    var after := Run(EMPTY_TABLES, steps + [s]).log.rows;
    AtMostOneOpenAlways(steps);
    AtMostOneOpenAlways(steps + [s]);
    StatusAlwaysFits(steps + [s]);
    OneMoreStep(steps, s);
    OneMoreStep(steps, replayed);
    StepOnLog(t, s);
    StepOnLog(t, replayed);
    UpMoves(t.log, call.ts, call.jobBlob, LogEffect(t, s).slow);
    StationIsAt(after, |after| - 1);
  }

  /** A repair after any run: exactly the rows the window meets and the open one are gone, and the station is UP. */
  lemma RepairIsUp(steps: seq<Step>, min: int, max: int, jobBlob: Option<nat>)
    ensures var before := Run(EMPTY_TABLES, steps).log.rows;
            var after := Run(EMPTY_TABLES, steps + [RepairWindow(min, max, jobBlob)]).log.rows;
            Repaired(before, after, min, max, jobBlob) && StationIs(after, UP)
  {
    var s := RepairWindow(min, max, jobBlob);
    var after := Run(EMPTY_TABLES, steps + [s]).log.rows;
    AtMostOneOpenAlways(steps);
    AtMostOneOpenAlways(steps + [s]);
    StatusAlwaysFits(steps + [s]);
    OneMoreStep(steps, s);
    RepairMarks(Run(EMPTY_TABLES, steps).log, min, max, jobBlob);
    StationIsAt(after, |after| - 1);
  }

  // ---------------------------------------------------------------------------
  // Tiling and blocks
  // ---------------------------------------------------------------------------

  /** The rows follow each other without gap or overlap, and only the last is open. */
  predicate Tiles(rows: seq<StateRow>) {
    && (forall i :: 0 < i < |rows| ==> rows[i - 1].end == Some(rows[i].start) && rows[i - 1].start <= rows[i].start)
    && (rows != [] ==> rows[|rows| - 1].end.None?)
  }

  predicate AllUp(rows: seq<StateRow>, i: int, j: int)
    requires 0 <= i <= j < |rows|
  {
    forall k :: i <= k <= j ==> rows[k].state == UP
  }

  /** Two rows share a block exactly when every row from one to the other is UP. */
  predicate BlocksFollowState(rows: seq<StateRow>) {
    forall i, j :: 0 <= i < j < |rows| ==> (rows[i].block == rows[j].block <==> AllUp(rows, i, j))
  }

  predicate NoneOpen(rows: seq<StateRow>) {
    forall r :: r in rows ==> r.end.Some?
  }

  /** Nothing deleted, and the open row, if the log has rows at all, is the last one. */
  predicate LastOpen(rows: seq<StateRow>) {
    && (forall i :: 0 <= i < |rows| ==> !rows[i].deleted && (rows[i].end.None? <==> i == |rows| - 1))
  }

  /** A completion is in order when it does not end before the open row starts. */
  predicate InOrder(l: Log, s: LogStep) {
    s.Up? ==>
      var open := OpenRow(l.rows);
      open.Some? ==> open.value.start <= s.ts
  }

  /** A completed row that ends before it starts. */
  predicate HasReversed(rows: seq<StateRow>) {
    exists i :: 0 <= i < |rows| && rows[i].end.Some? && rows[i].end.value < rows[i].start
  }

  lemma OpenRowIsLast(rows: seq<StateRow>)
    requires LastOpen(rows)
    ensures OpenRow(rows) == if rows == [] then None else Some(rows[|rows| - 1])
  {
  }

  lemma CloseOpenLast(rows: seq<StateRow>, ts: int)
    requires LastOpen(rows) && rows != []
    ensures var n := |rows| - 1;
            CloseOpen(rows, ts) == rows[..n] + [rows[n].(end := Some(ts))]
  {
  }

  lemma LastOpenStep(l: Log, s: LogStep)
    requires LastOpen(l.rows) && !s.Fix?
    ensures LastOpen(ApplyLog(l, s).rows)
    ensures |l.rows| <= |ApplyLog(l, s).rows| && (l.rows != [] && ApplyLog(l, s).rows != [] ==>
              ApplyLog(l, s).rows[0].start == l.rows[0].start)
  {
    OpenRowIsLast(l.rows);
  }

  /** A step that is in order extends a tiling; a completion that is not leaves a reversed row. */
  lemma TilesStep(l: Log, s: LogStep)
    requires LastOpen(l.rows) && Tiles(l.rows) && !s.Fix?
    ensures InOrder(l, s) ==> Tiles(ApplyLog(l, s).rows)
    ensures !InOrder(l, s) ==> HasReversed(ApplyLog(l, s).rows)
  {
    OpenRowIsLast(l.rows);
    if s.Up? {
      if l.rows != [] {
        var n := |l.rows| - 1;
        CloseOpenLast(l.rows, s.ts);
        assert ApplyLog(l, s).rows[n] == l.rows[n].(end := Some(s.ts));
      }
    } else if s.Keep? {
    } else if l.rows != [] {
      TilesSameTimes(l.rows, ApplyLog(l, s).rows);
    }
  }

  /** Tiling depends on nothing but when rows start and end. */
  lemma TilesSameTimes(rows: seq<StateRow>, other: seq<StateRow>)
    requires Tiles(rows) && |rows| == |other|
    requires forall i :: 0 <= i < |rows| ==> rows[i].start == other[i].start && rows[i].end == other[i].end
    ensures Tiles(other)
  {
  }

  /** Steps other than repair never touch a row that is already closed. */
  lemma ReversedStays(l: Log, s: LogStep)
    requires HasReversed(l.rows) && !s.Fix?
    ensures HasReversed(ApplyLog(l, s).rows)
  {
    var i :| 0 <= i < |l.rows| && l.rows[i].end.Some? && l.rows[i].end.value < l.rows[i].start;
    assert ApplyLog(l, s).rows[i] == l.rows[i];
  }

  /** AllUp reads nothing beyond the rows it spans. */
  lemma AllUpLocal(a: seq<StateRow>, b: seq<StateRow>, i: nat, j: nat)
    requires i <= j < |a| && j < |b|
    requires forall k :: i <= k <= j ==> a[k].state == b[k].state
    ensures AllUp(a, i, j) == AllUp(b, i, j)
  {
  }

  lemma BlocksAppendAt(rows: seq<StateRow>, r: StateRow, i: nat)
    requires BlocksFollowState(rows) && r.state == UP && i < |rows|
    requires var last := rows[|rows| - 1];
             if last.state == UP then r.block == last.block else rows[i].block != r.block
    ensures rows[i].block == r.block <==> AllUp(rows + [r], i, |rows|)
  {
    var n := |rows|;
    var all := rows + [r];
    assert forall k :: i <= k < n ==> all[k] == rows[k];
    if rows[n - 1].state == UP {
      assert AllUp(all, i, n) <==> AllUp(rows, i, n - 1);
    } else {
      assert all[n - 1].state == DOWN;
    }
  }

  lemma BlocksAppend(rows: seq<StateRow>, r: StateRow)
    requires BlocksFollowState(rows) && r.state == UP
    requires rows != [] ==>
               var last := rows[|rows| - 1];
               if last.state == UP then r.block == last.block else forall x :: x in rows ==> x.block != r.block
    ensures BlocksFollowState(rows + [r])
  {
    var all := rows + [r];
    forall i, j | 0 <= i < j < |all|
      ensures all[i].block == all[j].block <==> AllUp(all, i, j)
    {
      if j < |rows| {
        AllUpLocal(all, rows, i, j);
      } else {
        assert rows[i] in rows;
        BlocksAppendAt(rows, r, i);
      }
    }
  }

  /** Blocks depend only on states and blocks, not on when rows end. */
  lemma BlocksSameShape(rows: seq<StateRow>, other: seq<StateRow>)
    requires BlocksFollowState(rows) && |rows| == |other|
    requires forall i :: 0 <= i < |rows| ==> rows[i].state == other[i].state && rows[i].block == other[i].block
    ensures BlocksFollowState(other)
  {
    forall i, j | 0 <= i < j < |other|
      ensures other[i].block == other[j].block <==> AllUp(other, i, j)
    {
      AllUpLocal(other, rows, i, j);
    }
  }

  lemma BlocksMarkDown(rows: seq<StateRow>, ts: int, block: nat, jobBlob: Option<nat>)
    requires LastOpen(rows) && BlocksFollowState(rows) && rows != []
    requires forall r :: r in rows ==> r.block != block
    ensures BlocksFollowState(MarkDown(rows, rows[|rows| - 1].id, ts, block, jobBlob))
  {
    var n := |rows| - 1;
    var down := MarkDown(rows, rows[n].id, ts, block, jobBlob);
    assert forall i :: 0 <= i < n ==> down[i] == rows[i];
    forall i, j | 0 <= i < j < |down|
      ensures down[i].block == down[j].block <==> AllUp(down, i, j)
    {
      assert rows[i] in rows;
      if j < n {
        AllUpLocal(down, rows, i, j);
      } else {
        assert down[n].state == DOWN && down[n].block == block;
      }
    }
  }

  lemma BlocksStep(l: Log, s: LogStep)
    requires LastOpen(l.rows) && Fresh(l) && BlocksFollowState(l.rows) && !s.Fix?
    ensures BlocksFollowState(ApplyLog(l, s).rows)
  {
    OpenRowIsLast(l.rows);
    assert forall r :: r in l.rows ==> r.block != l.nextBlock;
    match s
    case Keep =>
    case Up(ts, jobBlob, slow) =>
      var closed := CloseOpen(l.rows, ts);
      BlocksSameShape(l.rows, closed);
      forall x | x in closed
        ensures x.block != l.nextBlock
      {
        var i :| 0 <= i < |closed| && closed[i] == x;
        assert l.rows[i] in l.rows;
      }
      BlocksAppend(closed, ApplyLog(l, s).rows[|closed|]);
    case Down(ts, jobBlob) =>
      if l.rows != [] {
        BlocksMarkDown(l.rows, ts, l.nextBlock, jobBlob);
      }
    case Slow(ts) =>
      if l.rows != [] {
        BlocksSameShape(l.rows, MarkSlow(l.rows, l.rows[|l.rows| - 1].id));
      }
  }

  /** No step of the run is a repair. */
  predicate NoRepairs(steps: seq<Step>) {
    forall s :: s in steps ==> !s.RepairWindow?
  }

  /** Every completion of the run is in order in the state it finds. */
  predicate AllInOrder(t: Tables, steps: seq<Step>) {
    steps == [] ||
    var n := |steps| - 1;
    var before := Run(t, steps[..n]);
    AllInOrder(t, steps[..n]) && InOrder(before.log, LogEffect(before, steps[n]))
  }

  lemma ReversedDoesNotTile(rows: seq<StateRow>)
    ensures !(HasReversed(rows) && Tiles(rows))
  {
    if Tiles(rows) {
      forall i | 0 <= i < |rows| && rows[i].end.Some?
        ensures rows[i].start <= rows[i].end.value
      {
        var j := i + 1;
        assert rows[j - 1].end == Some(rows[j].start);
      }
    }
  }

  /** Once a completion was out of order the log never tiles again; until then it always does. */
  lemma TilesIffStep(l: Log, s: LogStep, tiled: bool)
    requires LastOpen(l.rows) && !s.Fix?
    requires if tiled then Tiles(l.rows) else HasReversed(l.rows)
    ensures var rows := ApplyLog(l, s).rows;
            if tiled && InOrder(l, s) then Tiles(rows) else HasReversed(rows)
  {
    if tiled {
      TilesStep(l, s);
    } else {
      ReversedStays(l, s);
    }
  }

  lemma TilesOrReversedStep(t: Tables, step: Step, inOrder: bool)
    requires LastOpen(t.log.rows) && !step.RepairWindow?
    requires if inOrder then Tiles(t.log.rows) else HasReversed(t.log.rows)
    ensures var rows := Apply(t, step).log.rows;
            && LastOpen(rows)
            && if inOrder && InOrder(t.log, LogEffect(t, step)) then Tiles(rows) else HasReversed(rows)
  {
    var s := LogEffect(t, step);
    StepOnLog(t, step);
    LastOpenStep(t.log, s);
    TilesIffStep(t.log, s, inOrder);
  }

  lemma {:induction false} TilesOrReversed(steps: seq<Step>)
    requires NoRepairs(steps)
    ensures var rows := Run(EMPTY_TABLES, steps).log.rows;
            && LastOpen(rows)
            && if AllInOrder(EMPTY_TABLES, steps) then Tiles(rows) else HasReversed(rows)
  {
    if steps != [] {
      var n := |steps| - 1;
      assert steps == steps[..n] + [steps[n]];
      TilesOrReversed(steps[..n]);
      TilesOrReversedStep(Run(EMPTY_TABLES, steps[..n]), steps[n], AllInOrder(EMPTY_TABLES, steps[..n]));
    }
  }

  /**
   * Over every repair-free run from an empty station the open row is the last one written,
   * and the rows tile time exactly when no completion ended before the row it closed had
   * started.
   */
  lemma TilesIffInOrder(steps: seq<Step>)
    requires NoRepairs(steps)
    ensures var rows := Run(EMPTY_TABLES, steps).log.rows;
            && LastOpen(rows)
            && (Tiles(rows) <==> AllInOrder(EMPTY_TABLES, steps))
  {
    TilesOrReversed(steps);
    ReversedDoesNotTile(Run(EMPTY_TABLES, steps).log.rows);
  }

  /**
   * Over every repair-free run, in order or not, two rows share a block exactly when the
   * station was UP from one to the other. So neighbouring UP rows share a block, and no UP
   * row written after a DOWN row shares one with a row before it.
   */
  lemma {:induction false} BlocksOfRun(steps: seq<Step>)
    requires NoRepairs(steps)
    ensures BlocksFollowState(Run(EMPTY_TABLES, steps).log.rows)
  {
    if steps != [] {
      var n := |steps| - 1;
      assert steps == steps[..n] + [steps[n]];
      var t := Run(EMPTY_TABLES, steps[..n]);
      var s := LogEffect(t, steps[n]);
      assert Fresh(t.log) by { AtMostOneOpenAlways(steps[..n]); }
      assert LastOpen(t.log.rows) by { TilesOrReversed(steps[..n]); }
      BlocksOfRun(steps[..n]);
      assert BlocksFollowState(ApplyLog(t.log, s).rows) by { BlocksStep(t.log, s); }
      StepOnLog(t, steps[n]);
    }
  }

  // ---------------------------------------------------------------------------
  // After a repair
  // ---------------------------------------------------------------------------

  /** The live rows a repair of [min, max] leaves alone: closed, and wholly outside the window. */
  function Survivors(live: seq<StateRow>, min: int, max: int): seq<StateRow> {
    if live == [] then []
    else
      var last := live[|live| - 1];
      Survivors(live[..|live| - 1], min, max) +
      if last.end.Some? && (last.end.value < min || last.start > max) then [last] else []
  }

  lemma {:induction false} SurvivorsAre(live: seq<StateRow>, min: int, max: int, r: StateRow)
    ensures r in Survivors(live, min, max) <==>
            r in live && r.end.Some? && (r.end.value < min || r.start > max)
  {
    if live != [] {
      var n := |live| - 1;
      SurvivorsAre(live[..n], min, max, r);
      assert live == live[..n] + [live[n]];
    }
  }

  lemma SurvivorsMore(live: seq<StateRow>, r: StateRow, min: int, max: int)
    ensures Survivors(live + [r], min, max) ==
            Survivors(live, min, max) + if r.end.Some? && (r.end.value < min || r.start > max) then [r] else []
  {
    assert (live + [r])[..|live|] == live;
  }

  lemma {:induction false} LiveSoftDelete(rows: seq<StateRow>, min: int, max: int)
    ensures Live(SoftDelete(rows, min, max)) == Survivors(Live(rows), min, max)
  {
    if rows != [] {
      var n := |rows| - 1;
      var init, last := rows[..n], rows[n];
      LiveSoftDelete(init, min, max);
      assert SoftDelete(rows, min, max)[..n] == SoftDelete(init, min, max);
      if last.deleted {
        assert Live(rows) == Live(init);
      } else {
        assert Live(rows) == Live(init) + [last];
        SurvivorsMore(Live(init), last, min, max);
      }
    }
  }

  lemma {:induction false} LiveAll(rows: seq<StateRow>)
    requires forall i :: 0 <= i < |rows| ==> !rows[i].deleted
    ensures Live(rows) == rows
  {
    if rows != [] {
      var n := |rows| - 1;
      LiveAll(rows[..n]);
      assert rows == rows[..n] + [rows[n]];
    }
  }

  /** After a repair the live rows are the survivors and the two rows of the window. */
  lemma LiveAfterRepair(l: Log, min: int, max: int, jobBlob: Option<nat>)
    ensures Live(Repair(l, min, max, jobBlob).rows) ==
            Survivors(Live(l.rows), min, max) + RepairRows(l, min, max, jobBlob)
  {
    LiveConcat(SoftDelete(l.rows, min, max), RepairRows(l, min, max, jobBlob));
    LiveSoftDelete(l.rows, min, max);
    LiveAll(RepairRows(l, min, max, jobBlob));
  }

  /** The live row is in effect at time x. */
  predicate Covers(r: StateRow, x: int) {
    r.start <= x && (r.end.None? || x < r.end.value)
  }

  ghost predicate CoveredUp(live: seq<StateRow>, x: int) {
    exists r :: r in live && r.state == UP && Covers(r, x)
  }

  /**
   * A repair of the window [min, max] keeps exactly the closed live rows that end before the
   * window or start after it; every moment from min on is covered by a live UP row; and
   * exactly one live row is open, from max on.
   */
  lemma RepairCorrect(l: Log, min: int, max: int, jobBlob: Option<nat>)
    requires min <= max
    ensures var live := Live(Repair(l, min, max, jobBlob).rows);
            var added := RepairRows(l, min, max, jobBlob);
            && (forall r :: r in live <==>
                  || r in added
                  || (r in Live(l.rows) && r.end.Some? && (r.end.value < min || r.start > max)))
            && (forall x :: x >= min ==> CoveredUp(live, x))
            && (forall r :: r in live && r.end.None? <==> r == added[1])
  {
    var live := Live(Repair(l, min, max, jobBlob).rows);
    var added := RepairRows(l, min, max, jobBlob);
    LiveAfterRepair(l, min, max, jobBlob);
    forall r
      ensures r in Survivors(Live(l.rows), min, max) <==>
              r in Live(l.rows) && r.end.Some? && (r.end.value < min || r.start > max)
    {
      SurvivorsAre(Live(l.rows), min, max, r);
    }
    forall x | x >= min
      ensures CoveredUp(live, x)
    {
      var r := added[if x < max then 0 else 1];
      assert r in live && Covers(r, x);
    }
  }

  /** Both rows are in effect at some moment. */
  ghost predicate Overlap(a: StateRow, b: StateRow) {
    exists x :: Covers(a, x) && Covers(b, x)
  }

  ghost predicate Disjoint(live: seq<StateRow>) {
    forall a, b :: a in live && b in live && a != b ==> !Overlap(a, b)
  }

  lemma LiveAfterRepairMembers(l: Log, min: int, max: int, jobBlob: Option<nat>, r: StateRow)
    ensures r in Live(Repair(l, min, max, jobBlob).rows) <==>
            || r in RepairRows(l, min, max, jobBlob)
            || (r in Live(l.rows) && r.end.Some? && (r.end.value < min || r.start > max))
  {
    LiveAfterRepair(l, min, max, jobBlob);
    SurvivorsAre(Live(l.rows), min, max, r);
  }

  /**
   * Repairing a log whose live rows do not overlap keeps them from overlapping exactly when
   * no closed row of positive length starts after the window: such a row stays, and the new
   * open row runs over it.
   */
  lemma RepairKeepsDisjointIff(l: Log, min: int, max: int, jobBlob: Option<nat>)
    requires min <= max && Disjoint(Live(l.rows))
    ensures Disjoint(Live(Repair(l, min, max, jobBlob).rows)) <==>
            (forall r :: r in Live(l.rows) && r.end.Some? && r.start > max ==> r.end.value <= r.start)
  {
    var live := Live(Repair(l, min, max, jobBlob).rows);
    var added := RepairRows(l, min, max, jobBlob);
    if r :| r in Live(l.rows) && r.end.Some? && r.start > max && r.end.value > r.start {
      LiveAfterRepairMembers(l, min, max, jobBlob, r);
      LiveAfterRepairMembers(l, min, max, jobBlob, added[1]);
      assert Covers(r, r.start) && Covers(added[1], r.start);
    } else {
      forall a, b | a in live && b in live && a != b
        ensures !Overlap(a, b)
      {
        LiveAfterRepairMembers(l, min, max, jobBlob, a);
        LiveAfterRepairMembers(l, min, max, jobBlob, b);
      }
    }
  }

  function Completions(calls: seq<Call>): seq<Step> {
    if calls == [] then []
    else Completions(calls[..|calls| - 1]) + [Complete(false, false, calls[|calls| - 1])]
  }

  predicate Sorted(calls: seq<Call>) {
    forall i, j :: 0 <= i < j < |calls| ==> calls[i].ts <= calls[j].ts
  }

  lemma CompletionAppends(steps: seq<Step>, call: Call)
    ensures var before := Run(EMPTY_TABLES, steps).log;
            var after := Run(EMPTY_TABLES, steps + [Complete(false, false, call)]).log;
            && |after.rows| == |before.rows| + 1 && after.rows[..|before.rows|] == CloseOpen(before.rows, call.ts)
            && after.rows[|before.rows|].start == call.ts && IsOpen(after.rows[|before.rows|])
    ensures AllInOrder(EMPTY_TABLES, steps + [Complete(false, false, call)]) <==>
            AllInOrder(EMPTY_TABLES, steps)
            && var open := OpenRow(Run(EMPTY_TABLES, steps).log.rows); open.Some? ==> open.value.start <= call.ts
  {
    assert (steps + [Complete(false, false, call)])[..|steps|] == steps;
  }

  lemma NextCompletion(steps: seq<Step>, call: Call)
    requires var rows := Run(EMPTY_TABLES, steps).log.rows;
             LastOpen(rows) && (rows != [] ==> rows[|rows| - 1].start <= call.ts)
    ensures var before := Run(EMPTY_TABLES, steps).log.rows;
            var after := Run(EMPTY_TABLES, steps + [Complete(false, false, call)]).log.rows;
            && |after| == |before| + 1 && after[|before|].start == call.ts
            && forall i :: 0 <= i < |before| ==> after[i].start == before[i].start
    ensures AllInOrder(EMPTY_TABLES, steps + [Complete(false, false, call)]) <==> AllInOrder(EMPTY_TABLES, steps)
  {
    var before := Run(EMPTY_TABLES, steps).log.rows;
    OpenRowIsLast(before);
    CompletionAppends(steps, call);
    var after := Run(EMPTY_TABLES, steps + [Complete(false, false, call)]).log.rows;
    forall i | 0 <= i < |before|
      ensures after[i].start == before[i].start
    {
      assert after[i] == after[..|before|][i];
    }
  }

  /** Completions in time order leave rows that tile, the last one open since the last of them. */
  lemma {:induction false} CompletionsTile(calls: seq<Call>)
    requires Sorted(calls)
    ensures var rows := Run(EMPTY_TABLES, Completions(calls)).log.rows;
            && NoRepairs(Completions(calls)) && AllInOrder(EMPTY_TABLES, Completions(calls))
            && LastOpen(rows) && Tiles(rows) && |rows| == |calls|
            && forall i :: 0 <= i < |calls| ==> rows[i].start == calls[i].ts
  {
    if calls != [] {
      var n := |calls| - 1;
      var steps := Completions(calls[..n]);
      CompletionsTile(calls[..n]);
      NextCompletion(steps, calls[n]);
    }
    TilesIffInOrder(Completions(calls));
  }

  lemma {:induction false} LiveMembers(rows: seq<StateRow>, r: StateRow)
    ensures r in Live(rows) <==> r in rows && !r.deleted
  {
    if rows != [] {
      var n := |rows| - 1;
      LiveMembers(rows[..n], r);
      assert rows == rows[..n] + [rows[n]];
    }
  }

  lemma OverlapAt(live: seq<StateRow>, a: StateRow, b: StateRow, x: int)
    requires a in live && b in live && a != b && Covers(a, x) && Covers(b, x)
    ensures !Disjoint(live)
  {
    assert Overlap(a, b);
  }

  /** A tiling log overlaps after a repair when its last closed row has length and starts after the window. */
  lemma RepairOverlaps(l: Log, min: int, max: int, jobBlob: Option<nat>)
    requires LastOpen(l.rows) && Tiles(l.rows) && |l.rows| > 1 && min <= max
    requires max < l.rows[|l.rows| - 2].start < l.rows[|l.rows| - 1].start
    ensures Tiles(Live(l.rows)) && !Disjoint(Live(Repair(l, min, max, jobBlob).rows))
  {
    LiveAll(l.rows);
    var between, added := l.rows[|l.rows| - 2], RepairRows(l, min, max, jobBlob);
    LiveMembers(l.rows, between);
    LiveAfterRepairMembers(l, min, max, jobBlob, between);
    LiveAfterRepairMembers(l, min, max, jobBlob, added[1]);
    OverlapAt(Live(Repair(l, min, max, jobBlob).rows), between, added[1], between.start);
  }

  /**
   * Runs whose repair overlaps: completions in time order, with at least two after the window.
   * Their rows tile time before the repair; the one that ends at the last completion is closed
   * and starts after the window, so it stays under the new open row.
   */
  lemma {:induction false} RepairOverlapsInRun(calls: seq<Call>, min: int, max: int, jobBlob: Option<nat>)
    requires Sorted(calls) && |calls| > 1 && min <= max
    requires max < calls[|calls| - 2].ts < calls[|calls| - 1].ts
    ensures var l := Run(EMPTY_TABLES, Completions(calls)).log;
            Tiles(Live(l.rows)) && !Disjoint(Live(Repair(l, min, max, jobBlob).rows))
  {
    CompletionsTile(calls);
    RepairOverlaps(Run(EMPTY_TABLES, Completions(calls)).log, min, max, jobBlob);
  }

  // ---------------------------------------------------------------------------
  // What a repair loses
  // ---------------------------------------------------------------------------

  /** Some live row, UP or DOWN, is in effect at time x. */
  ghost predicate Recorded(live: seq<StateRow>, x: int) {
    exists r :: r in live && Covers(r, x)
  }

  ghost predicate InReplaced(live: seq<StateRow>, min: int, max: int, x: int) {
    exists r :: r in live && Replaced(r, min, max) && Covers(r, x)
  }

  lemma {:induction false} LiveNotDeleted(rows: seq<StateRow>)
    ensures forall r :: r in Live(rows) ==> !r.deleted
  {
    if rows != [] {
      LiveNotDeleted(rows[..|rows| - 1]);
    }
  }

  /** A moment on record is off the record after a repair exactly when it is before the window and in a replaced row. */
  lemma LostByRepair(l: Log, min: int, max: int, jobBlob: Option<nat>, x: int)
    requires min <= max && Disjoint(Live(l.rows))
    ensures Recorded(Live(l.rows), x) && !Recorded(Live(Repair(l, min, max, jobBlob).rows), x)
       <==> x < min && InReplaced(Live(l.rows), min, max, x)
  {
    var before, after := Live(l.rows), Live(Repair(l, min, max, jobBlob).rows);
    RepairCorrect(l, min, max, jobBlob);
    LiveNotDeleted(l.rows);
    if x >= min {
      assert CoveredUp(after, x);
    } else if InReplaced(before, min, max, x) {
      var r :| r in before && Replaced(r, min, max) && Covers(r, x);
      if a :| a in after && Covers(a, x) {
        LiveAfterRepairMembers(l, min, max, jobBlob, a);
        assert a in before && a != r && Overlap(a, r);
      }
    } else if Recorded(before, x) {
      var r :| r in before && Covers(r, x);
      LiveAfterRepairMembers(l, min, max, jobBlob, r);
    }
  }

  /** A repair keeps every recorded moment on record exactly when every row it replaces starts in or after the window. */
  lemma NothingLostIff(l: Log, min: int, max: int, jobBlob: Option<nat>)
    requires min <= max && Disjoint(Live(l.rows))
    ensures (forall x :: Recorded(Live(l.rows), x) ==> Recorded(Live(Repair(l, min, max, jobBlob).rows), x))
       <==> (forall r :: r in Live(l.rows) && Replaced(r, min, max) ==> min <= r.start)
  {
    var live := Live(l.rows);
    if r :| r in live && Replaced(r, min, max) && r.start < min {
      assert Covers(r, r.start);
      assert InReplaced(live, min, max, r.start);
      LostByRepair(l, min, max, jobBlob, r.start);
    } else {
      forall x | Recorded(live, x)
        ensures Recorded(Live(Repair(l, min, max, jobBlob).rows), x)
      {
        LostByRepair(l, min, max, jobBlob, x);
      }
    }
  }

  /**
   * The usual case: whatever row is open is replaced, also one flipped DOWN in place that kept
   * its old start, so its time before the window is no longer on record.
   */
  lemma OpenRowLosesItsPast(l: Log, min: int, max: int, jobBlob: Option<nat>, open: StateRow, x: int)
    requires min <= max && Disjoint(Live(l.rows))
    requires open in Live(l.rows) && IsOpen(open) && open.start <= x < min
    ensures Recorded(Live(l.rows), x) && !Recorded(Live(Repair(l, min, max, jobBlob).rows), x)
  {
    assert Replaced(open, min, max) && Covers(open, x);
    LostByRepair(l, min, max, jobBlob, x);
  }

  /** The live rows tile time after a repair exactly when no row survives it. */
  lemma TilesAfterRepairIff(l: Log, min: int, max: int, jobBlob: Option<nat>)
    requires min <= max
    ensures Tiles(Live(Repair(l, min, max, jobBlob).rows)) <==> Survivors(Live(l.rows), min, max) == []
  {
    var kept, added := Survivors(Live(l.rows), min, max), RepairRows(l, min, max, jobBlob);
    var live := kept + added;
    LiveAfterRepair(l, min, max, jobBlob);
    if kept == [] {
      assert live == added;
    } else {
      assert kept[|kept| - 1] in kept;
      SurvivorsAre(Live(l.rows), min, max, kept[|kept| - 1]);
      SeamDoesNotTile(kept, added);
    }
  }

  /** Rows do not tile where one neither ends at the start of the next nor starts before it. */
  lemma SeamDoesNotTile(kept: seq<StateRow>, added: seq<StateRow>)
    requires kept != [] && added != []
    requires var last := kept[|kept| - 1]; last.end != Some(added[0].start) || last.start > added[0].start
    ensures !Tiles(kept + added)
  {
    var rows, n := kept + added, |kept|;
    assert rows[n - 1] == kept[n - 1] && rows[n] == added[0];
  }

  /** The row without the numbers drawn from the supplies. */
  function Erase(r: StateRow): StateRow {
    r.(id := 0, block := 0)
  }

  function EraseAll(rows: seq<StateRow>): (r: seq<StateRow>)
    ensures |r| == |rows|
  {
    seq(|rows|, i requires 0 <= i < |rows| => Erase(rows[i]))
  }

  lemma {:induction false} SurvivorsConcat(a: seq<StateRow>, b: seq<StateRow>, min: int, max: int)
    ensures Survivors(a + b, min, max) == Survivors(a, min, max) + Survivors(b, min, max)
  {
    if b == [] {
      assert a + b == a;
    } else {
      assert (a + b)[..|a + b| - 1] == a + b[..|b| - 1];
      SurvivorsConcat(a, b[..|b| - 1], min, max);
    }
  }

  lemma {:induction false} AllSurvive(rows: seq<StateRow>, min: int, max: int)
    requires forall i :: 0 <= i < |rows| ==> rows[i].end.Some? && (rows[i].end.value < min || rows[i].start > max)
    ensures Survivors(rows, min, max) == rows
  {
    if rows != [] {
      var n := |rows| - 1;
      AllSurvive(rows[..n], min, max);
      assert rows == rows[..n] + [rows[n]];
    }
  }

  lemma SurvivorsSurvive(rows: seq<StateRow>, min: int, max: int)
    ensures Survivors(Survivors(rows, min, max), min, max) == Survivors(rows, min, max)
  {
    var kept := Survivors(rows, min, max);
    forall i | 0 <= i < |kept|
      ensures kept[i].end.Some? && (kept[i].end.value < min || kept[i].start > max)
    {
      SurvivorsAre(rows, min, max, kept[i]);
    }
    AllSurvive(kept, min, max);
  }

  lemma NoAddedRowSurvives(l: Log, min: int, max: int, jobBlob: Option<nat>)
    requires min <= max
    ensures Survivors(RepairRows(l, min, max, jobBlob), min, max) == []
  {
    var added := RepairRows(l, min, max, jobBlob);
    assert added[..1][..0] == [];
    assert Survivors(added[..1], min, max) == [];
  }

  /** Repairing the same window again changes nothing but row and block numbers. */
  lemma RepairTwice(l: Log, min: int, max: int, jobBlob: Option<nat>)
    requires min <= max
    ensures var once := Repair(l, min, max, jobBlob);
            var twice := Repair(once, min, max, jobBlob);
            EraseAll(Live(twice.rows)) == EraseAll(Live(once.rows))
  {
    var once := Repair(l, min, max, jobBlob);
    var kept := Survivors(Live(l.rows), min, max);
    var added := RepairRows(l, min, max, jobBlob);
    LiveAfterRepair(l, min, max, jobBlob);
    assert Survivors(Live(once.rows), min, max) == kept by {
      SurvivorsConcat(kept, added, min, max);
      SurvivorsSurvive(Live(l.rows), min, max);
      NoAddedRowSurvives(l, min, max, jobBlob);
    }
    LiveAfterRepair(once, min, max, jobBlob);
    EraseAppended(kept, added, RepairRows(once, min, max, jobBlob));
  }

  lemma EraseAppended(kept: seq<StateRow>, a: seq<StateRow>, b: seq<StateRow>)
    requires EraseAll(a) == EraseAll(b)
    ensures EraseAll(kept + a) == EraseAll(kept + b)
  {
    assert EraseAll(kept + a) == EraseAll(kept) + EraseAll(a);
    assert EraseAll(kept + b) == EraseAll(kept) + EraseAll(b);
  }

  // ---------------------------------------------------------------------------
  // From one repair to the next
  // ---------------------------------------------------------------------------

  lemma OpenRowInTail(earlier: seq<StateRow>, tail: seq<StateRow>)
    requires NoneOpen(earlier) && LastOpen(tail)
    ensures OpenRow(earlier + tail) == OpenRow(tail)
  {
    OpenRowIsLast(tail);
    if tail == [] {
      assert earlier + tail == earlier;
      OpenRowSpec(earlier);
    }
  }

  lemma UpdatesInTail(earlier: seq<StateRow>, tail: seq<StateRow>, id: nat, ts: int, block: nat, jobBlob: Option<nat>)
    requires NoneOpen(earlier)
    ensures CloseOpen(earlier + tail, ts) == earlier + CloseOpen(tail, ts)
    ensures MarkDown(earlier + tail, id, ts, block, jobBlob) == earlier + MarkDown(tail, id, ts, block, jobBlob)
    ensures MarkSlow(earlier + tail, id) == earlier + MarkSlow(tail, id)
  {
    forall i | 0 <= i < |earlier|
      ensures earlier[i].end.Some?
    {
      assert earlier[i] in earlier;
    }
  }

  function LiveLog(l: Log): Log {
    Log(Live(l.rows), l.nextRow, l.nextBlock)
  }

  lemma LiveMore(rows: seq<StateRow>, r: StateRow)
    requires !r.deleted
    ensures Live(rows + [r]) == Live(rows) + [r]
  {
    assert (rows + [r])[..|rows|] == rows;
  }

  /** What a step does to the live rows does not depend on the deleted ones. */
  lemma LiveUp(l: Log, ts: int, jobBlob: nat, slow: bool)
    ensures LiveLog(ToUp(l, ts, jobBlob, slow)) == ToUp(LiveLog(l), ts, jobBlob, slow)
  {
    var closed := CloseOpen(l.rows, ts);
    OpenRowLive(l.rows);
    LiveMore(closed, ToUp(l, ts, jobBlob, slow).rows[|closed|]);
    LiveCloseOpen(l.rows, ts);
  }

  lemma LiveDown(l: Log, ts: int, jobBlob: Option<nat>)
    ensures LiveLog(ToDown(l, ts, jobBlob)) == ToDown(LiveLog(l), ts, jobBlob)
  {
    OpenRowLive(l.rows);
    if OpenRow(l.rows).None? {
      LiveMore(l.rows, StateRow(l.nextRow, ts, None, DOWN, StatusDown, l.nextBlock, jobBlob, false));
    } else {
      LiveMarkDown(l.rows, OpenRow(l.rows).value.id, ts, l.nextBlock, jobBlob);
    }
  }

  lemma LiveSlow(l: Log, ts: int)
    ensures LiveLog(ToSlow(l, ts)) == ToSlow(LiveLog(l), ts)
  {
    OpenRowLive(l.rows);
    if OpenRow(l.rows).None? {
      LiveMore(l.rows, StateRow(l.nextRow, ts, None, UP, StatusSlow, l.nextBlock, None, false));
    } else {
      LiveMarkSlow(l.rows, OpenRow(l.rows).value.id);
    }
  }

  lemma LiveStep(l: Log, s: LogStep)
    requires !s.Fix?
    ensures LiveLog(ApplyLog(l, s)) == ApplyLog(LiveLog(l), s)
    ensures InOrder(l, s) == InOrder(LiveLog(l), s)
  {
    OpenRowLive(l.rows);
    match s
    case Keep =>
    case Up(ts, jobBlob, slow) => LiveUp(l, ts, jobBlob, slow);
    case Down(ts, jobBlob) => LiveDown(l, ts, jobBlob);
    case Slow(ts) => LiveSlow(l, ts);
  }

  /** The log with some closed rows put in front. */
  function Prepend(earlier: seq<StateRow>, l: Log): Log {
    Log(earlier + l.rows, l.nextRow, l.nextBlock)
  }

  /** Closed rows in front of the log change nothing about a step. */
  lemma PrependStep(earlier: seq<StateRow>, l: Log, s: LogStep)
    requires NoneOpen(earlier) && LastOpen(l.rows) && !s.Fix?
    ensures ApplyLog(Prepend(earlier, l), s) == Prepend(earlier, ApplyLog(l, s))
    ensures InOrder(Prepend(earlier, l), s) == InOrder(l, s)
  {
    OpenRowInTail(earlier, l.rows);
    var id := if OpenRow(l.rows).Some? then OpenRow(l.rows).value.id else 0;
    match s
    case Keep =>
    case Up(ts, jobBlob, slow) => UpdatesInTail(earlier, l.rows, id, ts, 0, None);
    case Down(ts, jobBlob) => UpdatesInTail(earlier, l.rows, id, ts, l.nextBlock, jobBlob);
    case Slow(ts) => UpdatesInTail(earlier, l.rows, id, ts, 0, None);
  }

  /** The live rows are the closed ones in earlier, then those of the log tail. */
  predicate Follows(l: Log, earlier: seq<StateRow>, tail: Log) {
    && LiveLog(l) == Prepend(earlier, tail) && NoneOpen(earlier)
    && LastOpen(tail.rows) && Fresh(tail)
  }

  lemma FollowsStep(l: Log, earlier: seq<StateRow>, tail: Log, s: LogStep)
    requires Follows(l, earlier, tail) && !s.Fix?
    ensures Follows(ApplyLog(l, s), earlier, ApplyLog(tail, s))
    ensures InOrder(l, s) == InOrder(tail, s)
  {
    LiveStep(l, s);
    PrependStep(earlier, tail, s);
    LastOpenStep(tail, s);
    FreshStep(tail, s);
  }

  lemma FreshStep(l: Log, s: LogStep)
    requires Fresh(l) && LastOpen(l.rows) && !s.Fix?
    ensures Fresh(ApplyLog(l, s))
  {
    assert AtMostOneOpen(l.rows);
    OneOpenStep(l, s);
  }

  lemma RepairRowsTile(l: Log, min: int, max: int, jobBlob: Option<nat>)
    requires min <= max
    ensures var rows := RepairRows(l, min, max, jobBlob);
            && LastOpen(rows) && Tiles(rows) && BlocksFollowState(rows)
            && Fresh(Log(rows, l.nextRow + 2, l.nextBlock + 1))
  {
    var rows := RepairRows(l, min, max, jobBlob);
    assert AllUp(rows, 0, 1);
  }

  lemma NoSurvivorOpen(live: seq<StateRow>, min: int, max: int)
    ensures NoneOpen(Survivors(live, min, max))
  {
    forall r | r in Survivors(live, min, max)
      ensures r.end.Some?
    {
      SurvivorsAre(live, min, max, r);
    }
  }

  lemma RepairStarts(l: Log, min: int, max: int, jobBlob: Option<nat>)
    requires min <= max
    ensures var tail := Log(RepairRows(l, min, max, jobBlob), l.nextRow + 2, l.nextBlock + 1);
            Follows(Repair(l, min, max, jobBlob), Survivors(Live(l.rows), min, max), tail)
  {
    LiveAfterRepair(l, min, max, jobBlob);
    NoSurvivorOpen(Live(l.rows), min, max);
    RepairRowsTile(l, min, max, jobBlob);
  }

  /**
   * From a repair of [min, max] to the next, over every repair-free run: the surviving rows
   * stay as they were, followed by rows that start at min, end with the open row, and share
   * blocks exactly where the station was UP throughout; those rows tile all time from min on
   * exactly when every completion was in order.
   */
  lemma AfterRepair(t: Tables, min: int, max: int, jobBlob: Option<nat>, steps: seq<Step>)
    requires min <= max && NoRepairs(steps)
    ensures var r := Apply(t, RepairWindow(min, max, jobBlob));
            var kept := Survivors(Live(t.log.rows), min, max);
            var live := Live(Run(r, steps).log.rows);
            && |kept| < |live| && live[..|kept|] == kept
            && var tail := live[|kept|..];
               && LastOpen(tail) && tail[0].start == min && BlocksFollowState(tail)
               && (Tiles(tail) <==> AllInOrder(r, steps))
  {
    var r := Apply(t, RepairWindow(min, max, jobBlob));
    var kept := Survivors(Live(t.log.rows), min, max);
    var first := Log(RepairRows(t.log, min, max, jobBlob), r.log.nextRow, r.log.nextBlock);
    RepairStarts(t.log, min, max, jobBlob);
    RepairRowsTile(t.log, min, max, jobBlob);
    var tail := TailOfRun(r, kept, first, steps);
    var live := Live(Run(r, steps).log.rows);
    assert live == kept + tail.rows;
    assert live[..|kept|] == kept && live[|kept|..] == tail.rows;
    ReversedDoesNotTile(tail.rows);
  }

  /** A tail that grew from a first one: blocks still follow state, and it tiles exactly if all steps were in order. */
  ghost predicate Grown(first: Log, tail: Log, inOrder: bool)
    requires first.rows != []
  {
    && BlocksFollowState(tail.rows) && |tail.rows| >= 1 && tail.rows[0].start == first.rows[0].start
    && if inOrder then Tiles(tail.rows) else HasReversed(tail.rows)
  }

  lemma TailStep(l: Log, kept: seq<StateRow>, first: Log, tail: Log, s: LogStep, inOrder: bool)
    requires Follows(l, kept, tail) && first.rows != [] && Grown(first, tail, inOrder) && !s.Fix?
    ensures Follows(ApplyLog(l, s), kept, ApplyLog(tail, s))
    ensures Grown(first, ApplyLog(tail, s), inOrder && InOrder(l, s))
  {
    FollowsStep(l, kept, tail, s);
    LastOpenStep(tail, s);
    assert BlocksFollowState(ApplyLog(tail, s).rows) by {
      BlocksStep(tail, s);
    }
    TilesIffStep(tail, s, inOrder);
  }

  lemma {:induction false} TailOfRun(r: Tables, kept: seq<StateRow>, first: Log, steps: seq<Step>) returns (tail: Log)
    requires Follows(r.log, kept, first) && Tiles(first.rows) && BlocksFollowState(first.rows) && first.rows != []
    requires NoRepairs(steps)
    ensures Follows(Run(r, steps).log, kept, tail)
    ensures Grown(first, tail, AllInOrder(r, steps))
  {
    if steps == [] {
      tail := first;
    } else {
      var n := |steps| - 1;
      assert steps == steps[..n] + [steps[n]];
      var before := TailOfRun(r, kept, first, steps[..n]);
      var t := Run(r, steps[..n]);
      tail := ExtendTail(t, kept, first, before, steps[n], AllInOrder(r, steps[..n]));
    }
  }

  lemma ExtendTail(t: Tables, kept: seq<StateRow>, first: Log, before: Log, step: Step, inOrder: bool) returns (tail: Log)
    requires Follows(t.log, kept, before) && first.rows != [] && Grown(first, before, inOrder) && !step.RepairWindow?
    ensures Follows(Apply(t, step).log, kept, tail)
    ensures Grown(first, tail, inOrder && InOrder(t.log, LogEffect(t, step)))
  {
    var s := LogEffect(t, step);
    tail := ApplyLog(before, s);
    StepOnLog(t, step);
    TailStep(t.log, kept, first, before, s, inOrder);
  }
}
