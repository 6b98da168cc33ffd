/**
 * Recording production cycles on one station. `Complete` picks one of four transactional
 * strategies; each is a method over the station's tables and is proved against a function
 * on table values. The theorems about those functions are in CycleTheorems and
 * StateLogTheorems.
 */
module CycleRecorder {
  import opened Common
  import opened StateLog

  datatype Cycle = Cycle(id: nat, start: int, end: Option<int>, jobBlob: nat)

  /** One inventory batch: the items created on a cycle for a job. */
  datatype Batch = Batch(cycle: nat, job: nat, items: nat)

  /** What the recorder has added to the station's HOUR bucket counters. */
  datatype HourCounts = HourCounts(cycles: int, items: int, idealSeconds: int, cycleSeconds: int)

  /** The arguments a strategy receives, with the number of items the job yields per cycle. */
  datatype Call = Call(ts: int, job: nat, jobBlob: nat, items: nat, idealSeconds: int, slowThreshold: Option<real>)

  datatype Tables = Tables(cycles: seq<Cycle>, nextCycle: nat, log: Log, batches: seq<Batch>, allocations: nat, counts: HourCounts)

  datatype ClosedEntry = ClosedEntry(start: int, end: int, state: State)

  const NO_COUNTS := HourCounts(0, 0, 0, 0)
  const EMPTY_TABLES := Tables([], 0, EMPTY_LOG, [], 0, NO_COUNTS)

  /** The greatest end among the completed cycles. */
  function LatestEnd(cycles: seq<Cycle>): Option<int> {
    if cycles == [] then None
    else
      var rest := LatestEnd(cycles[..|cycles| - 1]);
      var last := cycles[|cycles| - 1].end;
      if last.None? then rest
      else if rest.None? then last
      else Some(Max(rest.value, last.value))
  }

  /** The ids of the cycles still open, in table order. */
  function OpenCycles(cycles: seq<Cycle>): seq<Cycle> {
    if cycles == [] then []
    else
      var last := cycles[|cycles| - 1];
      OpenCycles(cycles[..|cycles| - 1]) + if last.end.None? then [last] else []
  }

  function CloseCycles(cycles: seq<Cycle>, ts: int): (r: seq<Cycle>) {
    seq(|cycles|, i requires 0 <= i < |cycles| =>
      if cycles[i].end.None? then cycles[i].(end := Some(ts)) else cycles[i])
  }

  function AddBatches(batches: seq<Batch>, cycles: seq<Cycle>, job: nat, items: nat): seq<Batch> {
    if cycles == [] then batches
    else
      var n := |cycles| - 1;
      AddBatches(batches, cycles[..n], job, items) + [Batch(cycles[n].id, job, items)]
  }

  /** A completed cycle is slow when it took longer than a positive threshold. */
  predicate IsSlow(durationMs: int, threshold: Option<real>) {
    durationMs > 0 && threshold.Some? && threshold.value > 0.0 && durationMs as real / 1000.0 > threshold.value
  }

  function AddCounts(h: HourCounts, cycles: int, items: int, ideal: int, seconds: int): HourCounts {
    HourCounts(h.cycles + cycles, h.items + items, h.idealSeconds + ideal, h.cycleSeconds + seconds)
  }

  /** The start of the next immediate cycle: where the latest completed one ended. */
  function ChainStart(cycles: seq<Cycle>, ts: int): int {
    var prev := LatestEnd(cycles);
    if prev.None? then ts else prev.value
  }

  /** Insert one complete cycle with its inventory batch. */
  function InsertComplete(t: Tables, start: int, call: Call): Tables {
    t.(cycles := t.cycles + [Cycle(t.nextCycle, start, Some(call.ts), call.jobBlob)],
       nextCycle := t.nextCycle + 1,
       batches := t.batches + [Batch(t.nextCycle, call.job, call.items)],
       allocations := t.allocations + call.items)
  }

  function ImmediateReplay(t: Tables, call: Call): Tables {
    InsertComplete(t, ChainStart(t.cycles, call.ts), call)
  }

  function Immediate(t: Tables, call: Call): Tables {
    var start := ChainStart(t.cycles, call.ts);
    var duration := call.ts - start;
    var t' := InsertComplete(t, start, call);
    t'.(log := ToUp(t.log, call.ts, call.jobBlob, IsSlow(duration, call.slowThreshold)),
        counts := AddCounts(t.counts, 1, call.items, call.idealSeconds, RoundedSeconds(Max(0, duration))))
  }

  /** Close the open cycles, or record a first zero-length cycle on a station that never had one. */
  function CloseForCall(t: Tables, call: Call): Tables {
    var open := OpenCycles(t.cycles);
    if open != [] then
      t.(cycles := CloseCycles(t.cycles, call.ts),
         batches := AddBatches(t.batches, open, call.job, call.items),
         allocations := t.allocations + |open| * call.items)
    else if t.cycles == [] then InsertComplete(t, call.ts, call)
    else t
  }

  function OpenNext(t: Tables, call: Call): Tables {
    t.(cycles := t.cycles + [Cycle(t.nextCycle, call.ts, None, call.jobBlob)],
       nextCycle := t.nextCycle + 1)
  }

  function OpenCloseReplay(t: Tables, call: Call): Tables {
    OpenNext(CloseForCall(t, call), call)
  }

  function OpenClose(t: Tables, call: Call): Tables {
    var open := OpenCycles(t.cycles);
    var slow := open != [] && IsSlow(call.ts - open[0].start, call.slowThreshold);
    var t' := OpenNext(CloseForCall(t, call), call);
    var made := t'.allocations - t.allocations;
    t'.(log := ToUp(t.log, call.ts, call.jobBlob, slow),
        counts := AddCounts(t.counts, 1, made, call.idealSeconds, 0))
  }

  // ---------------------------------------------------------------------------
  // Choosing a strategy
  // ---------------------------------------------------------------------------

  /** The station, job, tool and product data one query fetches before the transaction. */
  datatype Setup = Setup(site: nat, jobSite: nat, jobBlob: Option<nat>, standardCycle: Option<real>, slowDetect: Option<real>, items: nat)

  datatype Request = Request(ts: int, job: nat, keepOpen: bool, replayed: bool)

  datatype CompleteError = StationNotFound | JobNoBlob | SiteMismatch

  function RoundReal(x: real): int {
    (x + 0.5).Floor
  }

  function SlowThreshold(standard: Option<real>, fraction: Option<real>): Option<real> {
    if standard.Some? && standard.value > 0.0 && fraction.Some? && fraction.value > 0.0
    then Some(standard.value * (1.0 + fraction.value))
    else None
  }

  function CallFor(s: Setup, r: Request): Call
    requires s.jobBlob.Some?
  {
    Call(r.ts, r.job, s.jobBlob.value, s.items,
         if s.standardCycle.Some? then RoundReal(s.standardCycle.value) else 0,
         SlowThreshold(s.standardCycle, s.slowDetect))
  }

  function Strategy(keepOpen: bool, replayed: bool, t: Tables, call: Call): Tables {
    if replayed then (if keepOpen then OpenCloseReplay(t, call) else ImmediateReplay(t, call))
    else if keepOpen then OpenClose(t, call)
    else Immediate(t, call)
  }

  // ---------------------------------------------------------------------------
  // What a completion leaves behind
  // ---------------------------------------------------------------------------

  predicate IsLatestEnd(cycles: seq<Cycle>, end: int) {
    && (exists i :: 0 <= i < |cycles| && cycles[i].end == Some(end))
    && forall i :: 0 <= i < |cycles| && cycles[i].end.Some? ==> cycles[i].end.value <= end
  }

  predicate SomeCompleted(cycles: seq<Cycle>) {
    exists i :: 0 <= i < |cycles| && cycles[i].end.Some?
  }

  /** The ids of the cycles that are complete afterwards and were not before, among the first n rows. */
  function NewlyCompleted(before: seq<Cycle>, after: seq<Cycle>, n: nat): seq<nat>
    requires n <= |after|
  {
    if n == 0 then []
    else
      NewlyCompleted(before, after, n - 1)
      + if after[n - 1].end.Some? && (n > |before| || before[n - 1].end.None?) then [after[n - 1].id] else []
  }

  /** Each cycle newly completed has one batch for the job, in table order, and its items are allocated. */
  predicate Booked(before: Tables, after: Tables, job: nat, items: nat) {
    var ids := NewlyCompleted(before.cycles, after.cycles, |after.cycles|);
    && |after.batches| == |before.batches| + |ids| && after.batches[..|before.batches|] == before.batches
    && (forall k :: 0 <= k < |ids| ==> after.batches[|before.batches| + k] == Batch(ids[k], job, items))
    && after.allocations == before.allocations + |ids| * items
  }

  /** One more row, complete at ts, that starts at the latest end so far, or at ts when nothing was completed yet. */
  predicate AddsCompleteCycle(before: Tables, after: Tables, ts: int, jobBlob: nat) {
    var n := |before.cycles|;
    && |after.cycles| == n + 1 && after.cycles[..n] == before.cycles
    && after.cycles[n] == Cycle(before.nextCycle, after.cycles[n].start, Some(ts), jobBlob)
    && after.nextCycle == before.nextCycle + 1
    && if SomeCompleted(before.cycles) then IsLatestEnd(before.cycles, after.cycles[n].start) else after.cycles[n].start == ts
  }

  /**
   * Every row so far is complete, the open ones now since ts; a station without any row gets a
   * zero-length one first; the last row is new and open since ts.
   */
  predicate OpensNextCycle(before: Tables, after: Tables, ts: int, jobBlob: nat) {
    var n := |after.cycles| - 1;
    && n == (if before.cycles == [] then 1 else |before.cycles|)
    && (forall i :: 0 <= i < |before.cycles| ==>
          after.cycles[i] == if before.cycles[i].end.None? then before.cycles[i].(end := Some(ts)) else before.cycles[i])
    && (before.cycles == [] ==> after.cycles[0] == Cycle(before.nextCycle, ts, Some(ts), jobBlob))
    && after.cycles[n] == Cycle(before.nextCycle + (if before.cycles == [] then 1 else 0), ts, None, jobBlob)
    && after.nextCycle == before.nextCycle + if before.cycles == [] then 2 else 1
  }

  /** Longer than the standard time by more than the fraction the station tolerates, when both are set. */
  predicate TookTooLong(ms: int, s: Setup) {
    && s.standardCycle.Some? && s.slowDetect.Some? && s.standardCycle.value > 0.0 && s.slowDetect.value > 0.0
    && ms > 0 && ms as real > 1000.0 * s.standardCycle.value * (1.0 + s.slowDetect.value)
  }

  predicate FirstOpen(cycles: seq<Cycle>, i: int) {
    0 <= i < |cycles| && cycles[i].end.None? && forall j :: 0 <= j < i ==> cycles[j].end.Some?
  }

  /** How the completion reads as slow: by its own length, or by that of the first cycle it closes. */
  ghost predicate CountsAsSlow(before: Tables, after: Tables, s: Setup, r: Request) {
    if r.keepOpen then exists i :: FirstOpen(before.cycles, i) && TookTooLong(r.ts - before.cycles[i].start, s)
    else |before.cycles| < |after.cycles| && TookTooLong(r.ts - after.cycles[|before.cycles|].start, s)
  }

  predicate NearestWhole(n: int, x: real) {
    n as real - 0.5 <= x < n as real + 0.5
  }

  /** One cycle more, its items, the rounded standard time, and the rounded time of a cycle completed at once. */
  predicate Counted(before: Tables, after: Tables, s: Setup, r: Request) {
    var b, a := before.counts, after.counts;
    && a.cycles == b.cycles + 1 && a.items - b.items == after.allocations - before.allocations
    && (s.standardCycle.None? ==> a.idealSeconds == b.idealSeconds)
    && (s.standardCycle.Some? ==> NearestWhole(a.idealSeconds - b.idealSeconds, s.standardCycle.value))
    && (r.keepOpen ==> a.cycleSeconds == b.cycleSeconds)
    && (!r.keepOpen ==>
          && |before.cycles| < |after.cycles|
          && NearestSecond(a.cycleSeconds - b.cycleSeconds, Max(0, r.ts - after.cycles[|before.cycles|].start)))
  }

  /** The whole effect of an accepted completion, read off the tables before and after it. */
  ghost predicate Completed(before: Tables, after: Tables, s: Setup, r: Request)
    requires s.jobBlob.Some?
  {
    && Booked(before, after, r.job, s.items)
    && (!r.keepOpen ==> AddsCompleteCycle(before, after, r.ts, s.jobBlob.value))
    && (r.keepOpen ==> OpensNextCycle(before, after, r.ts, s.jobBlob.value))
    && (r.replayed ==> after.log == before.log && after.counts == before.counts)
    && (!r.replayed ==> Counted(before, after, s, r))
    && (!r.replayed && OneOpen(before.log) ==>
          MovedUp(before.log.rows, after.log.rows, r.ts, s.jobBlob.value, CountsAsSlow(before, after, s, r)))
  }

  lemma {:induction false} LatestEndIs(cycles: seq<Cycle>)
    ensures LatestEnd(cycles).Some? <==> SomeCompleted(cycles)
    ensures LatestEnd(cycles).Some? ==> IsLatestEnd(cycles, LatestEnd(cycles).value)
  {
    if cycles != [] {
      var n := |cycles| - 1;
      LatestEndIs(cycles[..n]);
      if cycles[n].end.Some? {
        assert SomeCompleted(cycles);
      } else if SomeCompleted(cycles) {
        assert SomeCompleted(cycles[..n]);
      }
    }
  }

  lemma {:induction false} OpenCyclesFirst(cycles: seq<Cycle>)
    ensures OpenCycles(cycles) == [] <==> forall i :: 0 <= i < |cycles| ==> cycles[i].end.Some?
    ensures OpenCycles(cycles) != [] ==> exists i :: FirstOpen(cycles, i) && cycles[i] == OpenCycles(cycles)[0]
  {
    if cycles != [] {
      var n := |cycles| - 1;
      OpenCyclesFirst(cycles[..n]);
      if OpenCycles(cycles[..n]) != [] {
        var i :| FirstOpen(cycles[..n], i) && cycles[..n][i] == OpenCycles(cycles[..n])[0];
        assert FirstOpen(cycles, i);
      } else if cycles[n].end.None? {
        assert forall i :: 0 <= i < n ==> cycles[i] == cycles[..n][i];
        assert FirstOpen(cycles, n);
      }
    }
  }

  lemma {:induction false} NoneNewlyCompleted(before: seq<Cycle>, after: seq<Cycle>, n: nat)
    requires n <= |before| && n <= |after| && forall i :: 0 <= i < n ==> after[i] == before[i]
    ensures NewlyCompleted(before, after, n) == []
  {
    if n > 0 {
      NoneNewlyCompleted(before, after, n - 1);
    }
  }

  function CycleIds(cycles: seq<Cycle>): (r: seq<nat>)
    ensures |r| == |cycles|
  {
    seq(|cycles|, i requires 0 <= i < |cycles| => cycles[i].id)
  }

  lemma {:induction false} ClosedAreCompleted(before: seq<Cycle>, after: seq<Cycle>, ts: int, n: nat)
    requires n <= |before| && n <= |after|
    requires forall i :: 0 <= i < n ==> after[i] == CloseCycles(before, ts)[i]
    ensures NewlyCompleted(before, after, n) == CycleIds(OpenCycles(before[..n]))
  {
    if n > 0 {
      ClosedAreCompleted(before, after, ts, n - 1);
      assert before[..n][..n - 1] == before[..n - 1];
    }
  }

  lemma {:induction false} BatchesAt(batches: seq<Batch>, cycles: seq<Cycle>, job: nat, items: nat)
    ensures var r := AddBatches(batches, cycles, job, items);
            && |r| == |batches| + |cycles| && r[..|batches|] == batches
            && forall k :: 0 <= k < |cycles| ==> r[|batches| + k] == Batch(cycles[k].id, job, items)
  {
    if cycles != [] {
      BatchesAt(batches, cycles[..|cycles| - 1], job, items);
    }
  }

  lemma InsertAdds(t: Tables, call: Call)
    ensures var t' := InsertComplete(t, ChainStart(t.cycles, call.ts), call);
            AddsCompleteCycle(t, t', call.ts, call.jobBlob) && Booked(t, t', call.job, call.items)
  {
    var t' := InsertComplete(t, ChainStart(t.cycles, call.ts), call);
    LatestEndIs(t.cycles);
    NoneNewlyCompleted(t.cycles, t'.cycles, |t.cycles|);
    assert NewlyCompleted(t.cycles, t'.cycles, |t'.cycles|) == [t.nextCycle];
  }

  lemma FirstCallBooks(t: Tables, call: Call)
    requires t.cycles == []
    ensures Booked(t, OpenNext(InsertComplete(t, call.ts, call), call), call.job, call.items)
  {
    var after := OpenNext(InsertComplete(t, call.ts, call), call);
    assert NewlyCompleted(t.cycles, after.cycles, 1) == [t.nextCycle] by {
      assert NewlyCompleted(t.cycles, after.cycles, 0) == [];
    }
    assert NewlyCompleted(t.cycles, after.cycles, 2) == [t.nextCycle];
  }

  lemma ClosingBooks(t: Tables, after: Tables, call: Call)
    requires |after.cycles| == |t.cycles| + 1 && after.cycles[|t.cycles|].end.None?
    requires after.cycles[..|t.cycles|] == CloseCycles(t.cycles, call.ts)
    requires after.batches == AddBatches(t.batches, OpenCycles(t.cycles), call.job, call.items)
    requires after.allocations == t.allocations + |OpenCycles(t.cycles)| * call.items
    ensures Booked(t, after, call.job, call.items)
  {
    var n, open := |t.cycles|, OpenCycles(t.cycles);
    forall i | 0 <= i < n
      ensures after.cycles[i] == CloseCycles(t.cycles, call.ts)[i]
    {
      assert after.cycles[i] == after.cycles[..n][i];
    }
    ClosedAreCompleted(t.cycles, after.cycles, call.ts, n);
    assert t.cycles[..n] == t.cycles;
    assert NewlyCompleted(t.cycles, after.cycles, n + 1) == CycleIds(open);
    BatchesAt(t.batches, open, call.job, call.items);
  }

  lemma NothingToClose(cycles: seq<Cycle>, ts: int)
    requires OpenCycles(cycles) == []
    ensures CloseCycles(cycles, ts) == cycles
  {
    OpenCyclesFirst(cycles);
  }

  lemma OpenCloseBooks(t: Tables, call: Call)
    ensures Booked(t, OpenNext(CloseForCall(t, call), call), call.job, call.items)
  {
    if OpenCycles(t.cycles) != [] {
      ClosingBooks(t, OpenNext(CloseForCall(t, call), call), call);
    } else if t.cycles == [] {
      FirstCallBooks(t, call);
    } else {
      NothingToClose(t.cycles, call.ts);
      ClosingBooks(t, OpenNext(CloseForCall(t, call), call), call);
    }
  }

  lemma OpenCloseOpens(t: Tables, call: Call)
    ensures OpensNextCycle(t, OpenNext(CloseForCall(t, call), call), call.ts, call.jobBlob)
  {
    OpenCyclesFirst(t.cycles);
  }

  lemma SlowIs(s: Setup, r: Request, ms: int)
    requires s.jobBlob.Some?
    ensures IsSlow(ms, CallFor(s, r).slowThreshold) <==> TookTooLong(ms, s)
  {
    if s.standardCycle.Some? && s.slowDetect.Some? {
      SlowScaled(ms, s.standardCycle.value * (1.0 + s.slowDetect.value));
      Positive(s.standardCycle.value, s.slowDetect.value);
      Thousandfold(s.standardCycle.value, 1.0 + s.slowDetect.value);
    }
  }

  lemma SlowScaled(ms: int, threshold: real)
    ensures ms as real / 1000.0 > threshold <==> ms as real > 1000.0 * threshold
  {
  }

  lemma Positive(x: real, f: real)
    ensures x > 0.0 && f > 0.0 ==> x * (1.0 + f) > 0.0
  {
  }

  lemma Thousandfold(x: real, y: real)
    ensures 1000.0 * x * y == 1000.0 * (x * y)
  {
  }

  lemma SlowOnClose(t: Tables, after: Tables, s: Setup, r: Request)
    requires s.jobBlob.Some? && r.keepOpen
    ensures var open := OpenCycles(t.cycles);
            (open != [] && IsSlow(r.ts - open[0].start, CallFor(s, r).slowThreshold)) <==> CountsAsSlow(t, after, s, r)
  {
    OpenCyclesFirst(t.cycles);
    var open := OpenCycles(t.cycles);
    if open != [] {
      var i :| FirstOpen(t.cycles, i) && t.cycles[i] == open[0];
      SlowIs(s, r, r.ts - open[0].start);
      assert forall j :: FirstOpen(t.cycles, j) ==> j == i;
    }
  }

  lemma ImmediateCounted(t: Tables, s: Setup, r: Request)
    requires s.jobBlob.Some? && !r.keepOpen
    ensures Counted(t, Immediate(t, CallFor(s, r)), s, r)
  {
    RoundsToNearest(Max(0, r.ts - ChainStart(t.cycles, r.ts)));
  }

  lemma ImmediateMovesUp(t: Tables, s: Setup, r: Request)
    requires s.jobBlob.Some? && !r.keepOpen && OneOpen(t.log)
    ensures var t' := Immediate(t, CallFor(s, r));
            MovedUp(t.log.rows, t'.log.rows, r.ts, s.jobBlob.value, CountsAsSlow(t, t', s, r))
  {
    var call := CallFor(s, r);
    var ms := r.ts - ChainStart(t.cycles, r.ts);
    SlowIs(s, r, ms);
    UpMoves(t.log, call.ts, call.jobBlob, IsSlow(ms, call.slowThreshold));
  }

  lemma OpenCloseMovesUp(t: Tables, s: Setup, r: Request)
    requires s.jobBlob.Some? && r.keepOpen && OneOpen(t.log)
    ensures var t' := OpenClose(t, CallFor(s, r));
            MovedUp(t.log.rows, t'.log.rows, r.ts, s.jobBlob.value, CountsAsSlow(t, t', s, r))
  {
    var call := CallFor(s, r);
    var open := OpenCycles(t.cycles);
    SlowOnClose(t, OpenClose(t, call), s, r);
    UpMoves(t.log, call.ts, call.jobBlob, open != [] && IsSlow(call.ts - open[0].start, call.slowThreshold));
  }

  /** Only the cycle rows, the batches and the allocations matter to these. */
  lemma SameRows(t: Tables, a: Tables, b: Tables, call: Call)
    requires a.cycles == b.cycles && a.nextCycle == b.nextCycle && a.batches == b.batches && a.allocations == b.allocations
    ensures Booked(t, a, call.job, call.items) == Booked(t, b, call.job, call.items)
    ensures AddsCompleteCycle(t, a, call.ts, call.jobBlob) == AddsCompleteCycle(t, b, call.ts, call.jobBlob)
    ensures OpensNextCycle(t, a, call.ts, call.jobBlob) == OpensNextCycle(t, b, call.ts, call.jobBlob)
  {
  }

  /** Each combination of the two options has the effect it should have. */
  lemma StrategyCompletes(t: Tables, s: Setup, r: Request)
    requires s.jobBlob.Some?
    ensures Completed(t, Strategy(r.keepOpen, r.replayed, t, CallFor(s, r)), s, r)
  {
    var call := CallFor(s, r);
    if r.keepOpen {
      OpenCloseOpens(t, call);
      OpenCloseBooks(t, call);
      SameRows(t, OpenClose(t, call), OpenCloseReplay(t, call), call);
      if OneOpen(t.log) {
        OpenCloseMovesUp(t, s, r);
      }
    } else {
      InsertAdds(t, call);
      SameRows(t, Immediate(t, call), ImmediateReplay(t, call), call);
      ImmediateCounted(t, s, r);
      if OneOpen(t.log) {
        ImmediateMovesUp(t, s, r);
      }
    }
  }

  // ---------------------------------------------------------------------------
  // The tables of one station
  // ---------------------------------------------------------------------------

  class StationTables {
    var cycles: seq<Cycle>
    var nextCycle: nat
    var rows: seq<StateRow>
    var nextRow: nat
    var nextBlock: nat
    var batches: seq<Batch>
    var allocations: nat
    var counts: HourCounts

    ghost function View(): Tables
      reads this
    {
      Tables(cycles, nextCycle, Log(rows, nextRow, nextBlock), batches, allocations, counts)
    }

    constructor ()
      ensures View() == EMPTY_TABLES
    {
      cycles, nextCycle := [], 0;
      rows, nextRow, nextBlock := [], 0, 0;
      batches, allocations, counts := [], 0, NO_COUNTS;
    }

    /** The items of a new batch go through order allocation one by one. */
    method CreateItems(cycle: nat, call: Call)
      modifies this`batches, this`allocations
      ensures batches == old(batches) + [Batch(cycle, call.job, call.items)]
      ensures allocations == old(allocations) + call.items
    {
      batches := batches + [Batch(cycle, call.job, call.items)];
      for i := 0 to call.items
        invariant allocations == old(allocations) + i
        invariant batches == old(batches) + [Batch(cycle, call.job, call.items)]
      {
        allocations := allocations + 1;
      }
    }

    method InsertCycle(start: int, end: Option<int>, jobBlob: nat) returns (cycle: Cycle)
      modifies this`cycles, this`nextCycle
      ensures cycle == Cycle(old(nextCycle), start, end, jobBlob)
      ensures cycles == old(cycles) + [cycle] && nextCycle == old(nextCycle) + 1
    {
      cycle := Cycle(nextCycle, start, end, jobBlob);
      cycles := cycles + [cycle];
      nextCycle := nextCycle + 1;
    }

    /** Close what is open, open an UP row, then upgrade it when the cycle was slow. */
    method TransitionToUp(ts: int, jobBlob: nat, slow: bool) returns (closed: Option<ClosedEntry>)
      modifies this`rows, this`nextRow, this`nextBlock
      ensures Log(rows, nextRow, nextBlock) == ToUp(old(View()).log, ts, jobBlob, slow)
      ensures var open := OpenRow(old(rows));
              closed == if open.None? then None else Some(ClosedEntry(open.value.start, ts, open.value.state))
      ensures OneOpen(old(View()).log) ==> MovedUp(old(rows), rows, ts, jobBlob, slow)
    {
      if OneOpen(View().log) {
        UpMoves(View().log, ts, jobBlob, slow);
      }
      var current := OpenRow(rows);
      closed := None;
      if current.Some? {
        closed := Some(ClosedEntry(current.value.start, ts, current.value.state));
      }
      rows := CloseOpen(rows, ts);
      var block := nextBlock;
      if current.Some? && current.value.state == UP {
        block := current.value.block;
      } else {
        nextBlock := nextBlock + 1;
      }
      rows := rows + [StateRow(nextRow, ts, None, UP, StatusUp, block, Some(jobBlob), false)];
      nextRow := nextRow + 1;
      if slow {
        rows := rows[|rows| - 1 := rows[|rows| - 1].(status := StatusSlow)];
        assert rows == ToUp(old(View()).log, ts, jobBlob, slow).rows;
      }
    }

    method CompleteImmediate(call: Call) returns (cycle: Cycle, closed: Option<ClosedEntry>, slow: bool)
      modifies this
      ensures View() == Immediate(old(View()), call)
      ensures cycles == old(cycles) + [cycle]
      ensures slow == IsSlow(call.ts - cycle.start, call.slowThreshold)
    {
      var start := ChainStart(cycles, call.ts);
      cycle := InsertCycle(start, Some(call.ts), call.jobBlob);
      var duration := call.ts - cycle.start;
      slow := IsSlow(duration, call.slowThreshold);
      closed := TransitionToUp(call.ts, call.jobBlob, slow);
      CreateItems(cycle.id, call);
      counts := AddCounts(counts, 1, call.items, call.idealSeconds, RoundedSeconds(Max(0, duration)));
    }

    method CompleteImmediateReplay(call: Call) returns (cycle: Cycle)
      modifies this
      ensures View() == ImmediateReplay(old(View()), call)
      ensures cycles == old(cycles) + [cycle]
    {
      cycle := InsertCycle(ChainStart(cycles, call.ts), Some(call.ts), call.jobBlob);
      CreateItems(cycle.id, call);
    }

    /** One batch for each of the given cycles, in order. */
    method CreateBatches(open: seq<Cycle>, call: Call)
      modifies this`batches, this`allocations
      ensures batches == AddBatches(old(batches), open, call.job, call.items)
      ensures allocations == old(allocations) + |open| * call.items
    {
      for i := 0 to |open|
        invariant batches == AddBatches(old(batches), open[..i], call.job, call.items)
        invariant allocations == old(allocations) + i * call.items
      {
        CreateItems(open[i].id, call);
        assert open[..i + 1][..i] == open[..i];
        assert (i + 1) * call.items == i * call.items + call.items;
      }
      assert open[..|open|] == open;
    }

    /** The first half of both open/close strategies; returns the number of items created. */
    method CloseOpenCycles(call: Call) returns (made: nat)
      modifies this`cycles, this`nextCycle, this`batches, this`allocations
      ensures View() == CloseForCall(old(View()), call)
      ensures made == allocations - old(allocations)
    {
      var open := OpenCycles(cycles);
      if open != [] {
        CreateBatches(open, call);
        cycles := CloseCycles(cycles, call.ts);
        made := |open| * call.items;
      } else if cycles == [] {
        var zero := InsertCycle(call.ts, Some(call.ts), call.jobBlob);
        CreateItems(zero.id, call);
        made := call.items;
      } else {
        made := 0;
      }
    }

    method CompleteOpenClose(call: Call) returns (cycle: Cycle, closed: Option<ClosedEntry>)
      modifies this
      ensures View() == OpenClose(old(View()), call)
      ensures cycle == Cycle(nextCycle - 1, call.ts, None, call.jobBlob) && cycles[|cycles| - 1..] == [cycle]
    {
      var open := OpenCycles(cycles);
      var slow := open != [] && IsSlow(call.ts - open[0].start, call.slowThreshold);
      var made := CloseOpenCycles(call);
      closed := TransitionToUp(call.ts, call.jobBlob, slow);
      cycle := InsertCycle(call.ts, None, call.jobBlob);
      counts := AddCounts(counts, 1, made, call.idealSeconds, 0);
    }

    method CompleteOpenCloseReplay(call: Call) returns (cycle: Cycle)
      modifies this
      ensures View() == OpenCloseReplay(old(View()), call)
      ensures cycle == Cycle(nextCycle - 1, call.ts, None, call.jobBlob) && cycles[|cycles| - 1..] == [cycle]
    {
      var made := CloseOpenCycles(call);
      cycle := InsertCycle(call.ts, None, call.jobBlob);
    }

    /**
     * Record a cycle. A missing station or job, a job without a blob or a foreign job leaves
     * the tables alone; otherwise exactly the chosen strategy runs.
     */
    method Complete(setup: Option<Setup>, r: Request) returns (res: Result<Cycle, CompleteError>)
      modifies this
      ensures res == Err(StationNotFound) <==> setup.None?
      ensures res == Err(JobNoBlob) <==> setup.Some? && setup.value.jobBlob.None?
      ensures res == Err(SiteMismatch) <==>
              setup.Some? && setup.value.jobBlob.Some? && setup.value.site != setup.value.jobSite
      ensures res.Err? ==> View() == old(View())
      ensures res.Ok? ==> View() == Strategy(r.keepOpen, r.replayed, old(View()), CallFor(setup.value, r))
      ensures res.Ok? ==> Completed(old(View()), View(), setup.value, r)
      ensures res.Ok? ==> cycles != [] && res.value == cycles[|cycles| - 1]
    {
      if setup.None? {
        return Err(StationNotFound);
      }
      var s := setup.value;
      if s.jobBlob.None? {
        return Err(JobNoBlob);
      }
      if s.site != s.jobSite {
        return Err(SiteMismatch);
      }
      var call := CallFor(s, r);
      StrategyCompletes(View(), s, r);
      var cycle: Cycle;
      if r.replayed {
        if r.keepOpen {
          cycle := CompleteOpenCloseReplay(call);
        } else {
          cycle := CompleteImmediateReplay(call);
        }
      } else if r.keepOpen {
        var closed;
        cycle, closed := CompleteOpenClose(call);
      } else {
        var closed, slow;
        cycle, closed, slow := CompleteImmediate(call);
      }
      res := Ok(cycle);
    }

    method TransitionToDown(ts: int, jobBlob: Option<nat>)
      modifies this`rows, this`nextRow, this`nextBlock
      ensures Log(rows, nextRow, nextBlock) == ToDown(old(View()).log, ts, jobBlob)
      ensures OneOpen(old(View()).log) ==> MarkedDown(old(rows), rows, ts, jobBlob)
    {
      if OneOpen(View().log) {
        DownMarks(View().log, ts, jobBlob);
      }
      var current := OpenRow(rows);
      if current.None? {
        rows := rows + [StateRow(nextRow, ts, None, DOWN, StatusDown, nextBlock, jobBlob, false)];
        nextRow, nextBlock := nextRow + 1, nextBlock + 1;
      } else if current.value.state == UP {
        var others, id, block := CloseOthers(rows, current.value.id, ts), current.value.id, nextBlock;
        rows := seq(|others|, i requires 0 <= i < |others| =>
          if IsOpen(others[i]) && others[i].id == id
          then others[i].(state := DOWN, status := StatusDown, block := block, jobBlob := jobBlob)
          else others[i]);
        assert rows == MarkDown(old(rows), id, ts, block, jobBlob);
        nextBlock := nextBlock + 1;
      }
    }

    method TransitionToSlow(ts: int)
      modifies this`rows, this`nextRow, this`nextBlock
      ensures Log(rows, nextRow, nextBlock) == ToSlow(old(View()).log, ts)
      ensures OneOpen(old(View()).log) ==> MarkedSlow(old(rows), rows, ts)
    {
      if OneOpen(View().log) {
        SlowMarks(View().log, ts);
      }
      var current := OpenRow(rows);
      if current.None? {
        rows := rows + [StateRow(nextRow, ts, None, UP, StatusSlow, nextBlock, None, false)];
        nextRow, nextBlock := nextRow + 1, nextBlock + 1;
      } else if current.value.state == UP && current.value.status != StatusSlow {
        rows := MarkSlow(rows, current.value.id);
      }
    }

    /** The repair transaction of replay reconciliation. */
    method FixStateEntries(min: int, max: int, activeJobBlob: Option<nat>)
      modifies this`rows, this`nextRow, this`nextBlock
      ensures Log(rows, nextRow, nextBlock) == Repair(old(View()).log, min, max, activeJobBlob)
      ensures Fresh(old(View()).log) ==> Repaired(old(rows), rows, min, max, activeJobBlob)
    {
      if Fresh(View().log) {
        RepairMarks(View().log, min, max, activeJobBlob);
      }
      rows := SoftDelete(rows, min, max);
      var block := nextBlock;
      nextBlock := nextBlock + 1;
      rows := rows + [StateRow(nextRow, min, Some(max), UP, StatusUp, block, activeJobBlob, false)];
      nextRow := nextRow + 1;
      rows := rows + [StateRow(nextRow, max, None, UP, StatusUp, block, activeJobBlob, false)];
      nextRow := nextRow + 1;
      assert rows == Repair(old(View()).log, min, max, activeJobBlob).rows;
    }
  }
}
