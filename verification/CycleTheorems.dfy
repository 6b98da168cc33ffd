/**
 * What cycle recording guarantees over runs of any length: the two live strategies record the
 * same production exactly when the time stamps are in order, durations telescope, and every
 * completed cycle carries exactly one inventory batch.
 */
module CycleTheorems {
  import opened Common
  import opened StateLog
  import opened CycleRecorder

  function RunImmediate(t: Tables, calls: seq<Call>): Tables {
    if calls == [] then t
    else Immediate(RunImmediate(t, calls[..|calls| - 1]), calls[|calls| - 1])
  }

  function RunOpenClose(t: Tables, calls: seq<Call>): Tables {
    if calls == [] then t
    else OpenClose(RunOpenClose(t, calls[..|calls| - 1]), calls[|calls| - 1])
  }

  /** The greatest time stamp of a run. */
  function Latest(calls: seq<Call>): int
    requires calls != []
  {
    var n := |calls| - 1;
    if n == 0 then calls[0].ts else Max(Latest(calls[..n]), calls[n].ts)
  }

  /** The time stamp before the i-th one; the first one for the first. */
  function Previous(calls: seq<Call>, i: nat): int
    requires i < |calls|
  {
    calls[if i == 0 then 0 else i - 1].ts
  }

  predicate NonDecreasing(calls: seq<Call>) {
    forall i :: 0 <= i < |calls| ==> Previous(calls, i) <= calls[i].ts
  }

  /** Only the last call of the run may carry an earlier time stamp than the one before it. */
  predicate OrderedBeforeLast(calls: seq<Call>) {
    calls == [] || NonDecreasing(calls[..|calls| - 1])
  }

  /** Start and end of every completed cycle, in table order. */
  function Spans(cycles: seq<Cycle>): seq<(int, int)> {
    if cycles == [] then []
    else
      var last := cycles[|cycles| - 1];
      Spans(cycles[..|cycles| - 1]) + if last.end.Some? then [(last.start, last.end.value)] else []
  }

  /** The ids of the completed cycles, in table order. */
  function ClosedIds(cycles: seq<Cycle>): seq<nat> {
    if cycles == [] then []
    else
      var last := cycles[|cycles| - 1];
      ClosedIds(cycles[..|cycles| - 1]) + if last.end.Some? then [last.id] else []
  }

  function BatchIds(batches: seq<Batch>): (r: seq<nat>)
    ensures |r| == |batches|
  {
    seq(|batches|, i requires 0 <= i < |batches| => batches[i].cycle)
  }

  /** [t1,t1], [t1,t2], ..., [tn-1,tn]. */
  function Chain(calls: seq<Call>): (r: seq<(int, int)>)
    ensures |r| == |calls|
  {
    seq(|calls|, i requires 0 <= i < |calls| => (Previous(calls, i), calls[i].ts))
  }

  // ---------------------------------------------------------------------------
  // Closed forms of the two runs from an empty station
  // ---------------------------------------------------------------------------

  function ImmediateStart(calls: seq<Call>, i: nat): int
    requires i < |calls|
  {
    if i == 0 then calls[0].ts else Latest(calls[..i])
  }

  function ImmediateCycles(calls: seq<Call>): (r: seq<Cycle>)
    ensures |r| == |calls|
  {
    seq(|calls|, i requires 0 <= i < |calls| =>
      Cycle(i, ImmediateStart(calls, i), Some(calls[i].ts), calls[i].jobBlob))
  }

  /** The zero cycle, then one cycle per call opened at that call and closed by the next. */
  function OpenCloseCycles(calls: seq<Call>): (r: seq<Cycle>)
    requires calls != []
    ensures |r| == |calls| + 1
  {
    seq(|calls| + 1, i requires 0 <= i < |calls| + 1 =>
      if i == 0 then Cycle(0, calls[0].ts, Some(calls[0].ts), calls[0].jobBlob)
      else Cycle(i, calls[i - 1].ts, if i < |calls| then Some(calls[i].ts) else None, calls[i - 1].jobBlob))
  }

  /** Call i creates the i-th batch, on cycle i, under its own job. */
  function OneBatchPerCall(calls: seq<Call>): (r: seq<Batch>)
    ensures |r| == |calls|
  {
    seq(|calls|, i requires 0 <= i < |calls| => Batch(i, calls[i].job, calls[i].items))
  }

  lemma ImmediateStep(t: Tables, call: Call)
    ensures var after := Immediate(t, call);
            && after.cycles == t.cycles + [Cycle(t.nextCycle, ChainStart(t.cycles, call.ts), Some(call.ts), call.jobBlob)]
            && after.nextCycle == t.nextCycle + 1
            && after.batches == t.batches + [Batch(t.nextCycle, call.job, call.items)]
            && LatestEnd(after.cycles) == Some(Max(ChainStart(t.cycles, call.ts), call.ts))
  {
    assert Immediate(t, call).cycles[..|t.cycles|] == t.cycles;
  }

  lemma ImmediateGrows(calls: seq<Call>)
    requires calls != []
    ensures var n := |calls| - 1;
            && ImmediateCycles(calls) ==
               ImmediateCycles(calls[..n]) + [Cycle(n, ImmediateStart(calls, n), Some(calls[n].ts), calls[n].jobBlob)]
            && OneBatchPerCall(calls) == OneBatchPerCall(calls[..n]) + [Batch(n, calls[n].job, calls[n].items)]
  {
    var n := |calls| - 1;
    forall i | 0 <= i < n
      ensures ImmediateCycles(calls)[i] == ImmediateCycles(calls[..n])[i]
    {
      assert calls[..n][..i] == calls[..i];
    }
  }

  lemma {:induction false} ImmediateClosedForm(calls: seq<Call>)
    ensures var t := RunImmediate(EMPTY_TABLES, calls);
            && t.cycles == ImmediateCycles(calls) && t.nextCycle == |calls|
            && t.batches == OneBatchPerCall(calls)
            && LatestEnd(t.cycles) == if calls == [] then None else Some(Latest(calls))
  {
    if calls != [] {
      var n := |calls| - 1;
      var before := RunImmediate(EMPTY_TABLES, calls[..n]);
      ImmediateClosedForm(calls[..n]);
      assert ChainStart(before.cycles, calls[n].ts) == ImmediateStart(calls, n);
      ImmediateGrows(calls);
      ImmediateStep(before, calls[n]);
    }
  }

  lemma {:induction false} AllClosed(cycles: seq<Cycle>)
    requires forall c :: c in cycles ==> c.end.Some?
    ensures OpenCycles(cycles) == []
    ensures |Spans(cycles)| == |ClosedIds(cycles)| == |cycles|
    ensures forall i :: 0 <= i < |cycles| ==>
              Spans(cycles)[i] == (cycles[i].start, cycles[i].end.value) && ClosedIds(cycles)[i] == cycles[i].id
  {
    if cycles != [] {
      AllClosed(cycles[..|cycles| - 1]);
    }
  }

  /** A table whose last row is its only open one. */
  lemma OnlyLastOpen(closed: seq<Cycle>, last: Cycle, ts: int)
    requires last.end.None? && forall c :: c in closed ==> c.end.Some?
    ensures OpenCycles(closed + [last]) == [last]
    ensures Spans(closed + [last]) == Spans(closed) && ClosedIds(closed + [last]) == ClosedIds(closed)
    ensures CloseCycles(closed + [last], ts) == closed + [last.(end := Some(ts))]
  {
    AllClosed(closed);
    assert (closed + [last])[..|closed|] == closed;
  }

  /** One open/close call on such a table closes its last row and opens the next. */
  lemma OpenCloseStep(t: Tables, closed: seq<Cycle>, last: Cycle, call: Call)
    requires t.cycles == closed + [last]
    requires last.end.None? && forall c :: c in closed ==> c.end.Some?
    ensures OpenClose(t, call).cycles ==
            closed + [last.(end := Some(call.ts))] + [Cycle(t.nextCycle, call.ts, None, call.jobBlob)]
    ensures OpenClose(t, call).nextCycle == t.nextCycle + 1
    ensures OpenClose(t, call).batches == t.batches + [Batch(last.id, call.job, call.items)]
    ensures OpenClose(t, call).allocations == t.allocations + call.items
    ensures OpenClose(t, call).log ==
            ToUp(t.log, call.ts, call.jobBlob, IsSlow(call.ts - last.start, call.slowThreshold))
    ensures OpenClose(t, call).counts == AddCounts(t.counts, 1, call.items, call.idealSeconds, 0)
  {
    OnlyLastOpen(closed, last, call.ts);
    assert AddBatches(t.batches, [last][..0], call.job, call.items) == t.batches;
  }

  /** What the station holds after the open/close calls, split at its open row. */
  function OpenCloseClosed(calls: seq<Call>): (r: seq<Cycle>)
    requires calls != []
    ensures |r| == |calls|
  {
    OpenCloseCycles(calls)[..|calls|]
  }

  function OpenCloseLast(calls: seq<Call>): Cycle
    requires calls != []
  {
    var n := |calls|;
    Cycle(n, calls[n - 1].ts, None, calls[n - 1].jobBlob)
  }

  lemma OpenCloseGrows(calls: seq<Call>)
    requires |calls| > 1
    ensures var n := |calls| - 1;
            && OpenCloseClosed(calls) == OpenCloseClosed(calls[..n]) + [OpenCloseLast(calls[..n]).(end := Some(calls[n].ts))]
            && OneBatchPerCall(calls) == OneBatchPerCall(calls[..n]) + [Batch(n, calls[n].job, calls[n].items)]
  {
    var n := |calls| - 1;
    forall i | 0 <= i < n
      ensures OpenCloseClosed(calls)[i] == OpenCloseClosed(calls[..n])[i]
    {}
  }

  lemma {:induction false} OpenCloseClosedForm(calls: seq<Call>)
    requires calls != []
    ensures RunOpenClose(EMPTY_TABLES, calls).cycles == OpenCloseClosed(calls) + [OpenCloseLast(calls)]
    ensures RunOpenClose(EMPTY_TABLES, calls).nextCycle == |calls| + 1
    ensures RunOpenClose(EMPTY_TABLES, calls).batches == OneBatchPerCall(calls)
  {
    var n := |calls| - 1;
    var init, call := calls[..n], calls[n];
    var before := RunOpenClose(EMPTY_TABLES, init);
    if n == 0 {
      assert before == EMPTY_TABLES;
      assert OneBatchPerCall(calls) == [Batch(0, call.job, call.items)];
    } else {
      OpenCloseClosedForm(init);
      OpenCloseGrows(calls);
      OpenCloseStep(before, OpenCloseClosed(init), OpenCloseLast(init), call);
    }
  }

  // ---------------------------------------------------------------------------
  // Strategy equivalence
  // ---------------------------------------------------------------------------

  lemma PrefixNonDecreasing(calls: seq<Call>, n: nat)
    requires NonDecreasing(calls) && n <= |calls|
    ensures NonDecreasing(calls[..n])
  {
    forall i | 0 <= i < n
      ensures Previous(calls[..n], i) <= calls[..n][i].ts
    {
      assert Previous(calls, i) <= calls[i].ts;
    }
  }

  lemma {:induction false} LatestIsLast(calls: seq<Call>)
    requires calls != [] && NonDecreasing(calls)
    ensures Latest(calls) == calls[|calls| - 1].ts
  {
    var n := |calls| - 1;
    if n > 0 {
      PrefixNonDecreasing(calls, n);
      LatestIsLast(calls[..n]);
      assert Previous(calls, n) <= calls[n].ts;
    }
  }

  lemma {:induction false} LatestBounds(calls: seq<Call>, i: nat)
    requires i < |calls|
    ensures calls[i].ts <= Latest(calls)
  {
    var n := |calls| - 1;
    if i < n {
      LatestBounds(calls[..n], i);
    }
  }

  /** Chaining to the latest end is chaining to the previous call exactly when calls came in order. */
  lemma StartsAgree(calls: seq<Call>)
    ensures Chained(ImmediateStarts(calls), calls) <==> OrderedBeforeLast(calls)
  {
    if OrderedBeforeLast(calls) {
      forall i | 0 <= i < |calls|
        ensures ImmediateStart(calls, i) == Previous(calls, i)
      {
        StartAgrees(calls, i);
      }
    } else {
      var known := calls[..|calls| - 1];
      var i :| 0 <= i < |known| && Previous(known, i) > known[i].ts;
      assert Previous(calls, i) == Previous(known, i);
      StartDisagrees(calls, i);
    }
  }

  lemma StartAgrees(calls: seq<Call>, i: nat)
    requires OrderedBeforeLast(calls) && i < |calls|
    ensures ImmediateStart(calls, i) == Previous(calls, i)
  {
    if i > 0 {
      var known := calls[..|calls| - 1];
      assert calls[..i] == known[..i];
      PrefixNonDecreasing(known, i);
      LatestIsLast(calls[..i]);
    }
  }

  lemma StartDisagrees(calls: seq<Call>, i: nat)
    requires i + 1 < |calls| && Previous(calls, i) > calls[i].ts
    ensures ImmediateStart(calls, i + 1) != Previous(calls, i + 1)
  {
    LatestBounds(calls[..i + 1], i - 1);
  }

  lemma ImmediateSpans(calls: seq<Call>)
    ensures var cycles := RunImmediate(EMPTY_TABLES, calls).cycles;
            && OpenCycles(cycles) == [] && |Spans(cycles)| == |ClosedIds(cycles)| == |calls|
            && forall i :: 0 <= i < |calls| ==>
                 Spans(cycles)[i] == (ImmediateStart(calls, i), calls[i].ts) && ClosedIds(cycles)[i] == i
  {
    ImmediateClosedForm(calls);
    AllClosed(ImmediateCycles(calls));
  }

  lemma OpenCloseClosedSpans(calls: seq<Call>)
    requires calls != []
    ensures Spans(OpenCloseClosed(calls)) == Chain(calls)
    ensures |ClosedIds(OpenCloseClosed(calls))| == |calls|
            && forall i :: 0 <= i < |calls| ==> ClosedIds(OpenCloseClosed(calls))[i] == i
  {
    AllClosed(OpenCloseClosed(calls));
  }

  lemma OpenCloseSpans(calls: seq<Call>)
    requires calls != []
    ensures var cycles := RunOpenClose(EMPTY_TABLES, calls).cycles;
            && OpenCycles(cycles) == [OpenCloseLast(calls)] && Spans(cycles) == Chain(calls)
            && |ClosedIds(cycles)| == |calls| && forall i :: 0 <= i < |calls| ==> ClosedIds(cycles)[i] == i
  {
    OpenCloseClosedForm(calls);
    OnlyLastOpen(OpenCloseClosed(calls), OpenCloseLast(calls), 0);
    OpenCloseClosedSpans(calls);
  }

  function ImmediateStarts(calls: seq<Call>): (r: seq<int>)
    ensures |r| == |calls| && forall i :: 0 <= i < |calls| ==> r[i] == ImmediateStart(calls, i)
  {
    seq(|calls|, i requires 0 <= i < |calls| => ImmediateStart(calls, i))
  }

  /** Every start is the time stamp of the call before. */
  predicate Chained(starts: seq<int>, calls: seq<Call>)
    requires |starts| == |calls|
  {
    forall i :: 0 <= i < |calls| ==> starts[i] == Previous(calls, i)
  }

  lemma ChainIffChained(calls: seq<Call>, starts: seq<int>, spans: seq<(int, int)>)
    requires |spans| == |starts| == |calls|
    requires forall i :: 0 <= i < |calls| ==> spans[i] == (starts[i], calls[i].ts)
    ensures spans == Chain(calls) <==> Chained(starts, calls)
  {
    var chain := Chain(calls);
    if spans == chain {
      forall i | 0 <= i < |calls|
        ensures starts[i] == Previous(calls, i)
      {
        assert spans[i] == chain[i];
      }
    }
  }

  /**
   * From an empty station, n open/close calls leave the completed cycles
   * [t1,t1],[t1,t2],...,[tn-1,tn] and one cycle open at tn, whatever the time stamps.
   * n immediate calls leave the same completed cycles exactly when no call but the last
   * steps back in time.
   */
  lemma StrategyEquivalence(calls: seq<Call>)
    requires calls != []
    ensures var im := RunImmediate(EMPTY_TABLES, calls).cycles;
            var oc := RunOpenClose(EMPTY_TABLES, calls).cycles;
            && Spans(oc) == Chain(calls)
            && (Spans(im) == Chain(calls) <==> OrderedBeforeLast(calls))
            && OpenCycles(im) == [] && OpenCycles(oc) == [OpenCloseLast(calls)]
  {
    ImmediateSpans(calls);
    OpenCloseSpans(calls);
    ChainIffChained(calls, ImmediateStarts(calls), Spans(RunImmediate(EMPTY_TABLES, calls).cycles));
    StartsAgree(calls);
  }

  /** Under either strategy, call i creates one batch, under its own job, on the i-th completed cycle. */
  lemma SameBatches(calls: seq<Call>)
    requires calls != []
    ensures var im := RunImmediate(EMPTY_TABLES, calls);
            var oc := RunOpenClose(EMPTY_TABLES, calls);
            && im.batches == oc.batches == OneBatchPerCall(calls)
            && ClosedIds(im.cycles) == ClosedIds(oc.cycles) == BatchIds(OneBatchPerCall(calls))
  {
    var im, oc := RunImmediate(EMPTY_TABLES, calls), RunOpenClose(EMPTY_TABLES, calls);
    assert im.batches == OneBatchPerCall(calls) by { ImmediateClosedForm(calls); }
    assert oc.batches == OneBatchPerCall(calls) by { OpenCloseClosedForm(calls); }
    BatchPerCallIds(calls);
    assert ClosedIds(im.cycles) == Ids(|calls|) by { ImmediateSpans(calls); }
    assert ClosedIds(oc.cycles) == Ids(|calls|) by { OpenCloseSpans(calls); }
  }

  /** 0, 1, ..., n - 1. */
  function Ids(n: nat): (r: seq<nat>)
    ensures |r| == n && forall i :: 0 <= i < n ==> r[i] == i
  {
    seq(n, i requires 0 <= i => i)
  }

  lemma BatchPerCallIds(calls: seq<Call>)
    ensures BatchIds(OneBatchPerCall(calls)) == Ids(|calls|)
  {
  }

  lemma OpenCloseAt(calls: seq<Call>, i: nat)
    requires i < |calls|
    ensures var cycles := OpenCloseClosed(calls) + [OpenCloseLast(calls)];
            cycles[i].end == Some(calls[i].ts) && cycles[i].jobBlob == calls[if i == 0 then 0 else i - 1].jobBlob
  {
  }

  /**
   * The equivalence covers spans and batches, not the job version stored on the cycle row:
   * an open/close cycle keeps the version of the call that opened it, one call before the
   * call whose job its items belong to.
   */
  lemma StoredJobVersionLags(calls: seq<Call>, i: nat)
    requires i < |calls|
    ensures var im := RunImmediate(EMPTY_TABLES, calls).cycles;
            |im| == |calls| && im[i].end == Some(calls[i].ts) && im[i].jobBlob == calls[i].jobBlob
    ensures var oc := RunOpenClose(EMPTY_TABLES, calls).cycles;
            && |oc| == |calls| + 1
            && oc[i].end == Some(calls[i].ts) && oc[i].jobBlob == calls[if i == 0 then 0 else i - 1].jobBlob
  {
    ImmediateClosedForm(calls);
    OpenCloseClosedForm(calls);
    OpenCloseAt(calls, i);
  }

  /** The two strategies agree on everything but cycle rows and counted seconds. */
  predicate SameEffects(im: Tables, oc: Tables) {
    im.log == oc.log && im.allocations == oc.allocations && oc.counts == im.counts.(cycleSeconds := 0)
  }

  lemma SameFirstStep(call: Call)
    ensures SameEffects(Immediate(EMPTY_TABLES, call), OpenClose(EMPTY_TABLES, call))
  {
    assert OpenCycles(EMPTY_TABLES.cycles) == [];
  }

  lemma SameStep(im: Tables, oc: Tables, closed: seq<Cycle>, last: Cycle, call: Call)
    requires SameEffects(im, oc)
    requires oc.cycles == closed + [last] && last.end.None? && forall c :: c in closed ==> c.end.Some?
    requires LatestEnd(im.cycles) == Some(last.start)
    ensures SameEffects(Immediate(im, call), OpenClose(oc, call))
  {
    OpenCloseStep(oc, closed, last, call);
  }

  /** In order, the two strategies also write the very same state log and count the same production. */
  lemma {:induction false} SameLogAndCounts(calls: seq<Call>)
    requires OrderedBeforeLast(calls)
    ensures SameEffects(RunImmediate(EMPTY_TABLES, calls), RunOpenClose(EMPTY_TABLES, calls))
  {
    if calls != [] {
      var n := |calls| - 1;
      var init, call := calls[..n], calls[n];
      if n == 0 {
        SameFirstStep(call);
      } else {
        var im, oc := RunImmediate(EMPTY_TABLES, init), RunOpenClose(EMPTY_TABLES, init);
        assert SameEffects(im, oc) by {
          PrefixNonDecreasing(init, n - 1);
          SameLogAndCounts(init);
        }
        assert LatestEnd(im.cycles) == Some(OpenCloseLast(init).start) by {
          ImmediateClosedForm(init);
          LatestIsLast(init);
        }
        assert oc.cycles == OpenCloseClosed(init) + [OpenCloseLast(init)] by {
          OpenCloseClosedForm(init);
        }
        SameStep(im, oc, OpenCloseClosed(init), OpenCloseLast(init), call);
      }
    }
  }

  // ---------------------------------------------------------------------------
  // Telescoping durations
  // ---------------------------------------------------------------------------

  /** The clamped duration, in milliseconds, each call of an immediate run contributes. */
  function Durations(t: Tables, calls: seq<Call>): (r: seq<int>)
    ensures |r| == |calls|
  {
    if calls == [] then []
    else
      Durations(t, calls[..|calls| - 1]) + [LastDuration(t, calls)]
  }

  function LastDuration(t: Tables, calls: seq<Call>): int
    requires calls != []
  {
    var n := |calls| - 1;
    Max(0, calls[n].ts - ChainStart(RunImmediate(t, calls[..n]).cycles, calls[n].ts))
  }

  function Rounded(ms: seq<int>): (r: seq<int>)
    ensures |r| == |ms|
  {
    seq(|ms|, i requires 0 <= i < |ms| => RoundedSeconds(ms[i]))
  }

  /** Row i of the run ends at call i, and its clamped length is the i-th duration. */
  predicate RowLasts(c: Cycle, ts: int, ms: int) {
    c.end == Some(ts) && ms == Max(0, ts - c.start)
  }

  /** The rows the run added are those whose clamped lengths Durations lists. */
  lemma {:induction false} DurationsOfRows(t: Tables, calls: seq<Call>)
    ensures var after := RunImmediate(t, calls);
            && |after.cycles| == |t.cycles| + |calls| && after.cycles[..|t.cycles|] == t.cycles
            && forall i :: 0 <= i < |calls| ==> RowLasts(after.cycles[|t.cycles| + i], calls[i].ts, Durations(t, calls)[i])
  {
    if calls != [] {
      var n := |calls| - 1;
      var before := RunImmediate(t, calls[..n]);
      DurationsOfRows(t, calls[..n]);
      ImmediateStep(before, calls[n]);
      assert RunImmediate(t, calls).cycles[..|t.cycles|] == before.cycles[..|t.cycles|];
    }
  }

  lemma RoundedMore(ms: seq<int>, last: int)
    ensures Sum(Rounded(ms + [last])) == Sum(Rounded(ms)) + RoundedSeconds(last)
  {
    assert Rounded(ms + [last]) == Rounded(ms) + [RoundedSeconds(last)];
    SumMore(Rounded(ms), RoundedSeconds(last));
  }

  lemma {:induction false} CounterIsSumOfRounded(t: Tables, calls: seq<Call>)
    ensures RunImmediate(t, calls).counts.cycleSeconds == t.counts.cycleSeconds + Sum(Rounded(Durations(t, calls)))
  {
    if calls != [] {
      var n := |calls| - 1;
      var before, last := Durations(t, calls[..n]), Durations(t, calls)[n];
      CounterIsSumOfRounded(t, calls[..n]);
      assert Durations(t, calls) == before + [last];
      RoundedMore(before, last);
    }
  }

  /** From any station, the clamped durations of a run add up to how far the latest end moved. */
  lemma {:induction false} DurationsTelescope(t: Tables, calls: seq<Call>)
    requires calls != []
    ensures var base := ChainStart(t.cycles, calls[0].ts);
            && LatestEnd(RunImmediate(t, calls).cycles) == Some(Max(base, Latest(calls)))
            && Sum(Durations(t, calls)) == Max(base, Latest(calls)) - base
  {
    var n := |calls| - 1;
    var before := RunImmediate(t, calls[..n]);
    ImmediateStep(before, calls[n]);
    DurationsMore(t, calls);
    if n > 0 {
      DurationsTelescope(t, calls[..n]);
    } else {
      assert before == t;
    }
  }

  lemma DurationsMore(t: Tables, calls: seq<Call>)
    requires calls != []
    ensures var n := |calls| - 1;
            Sum(Durations(t, calls)) == Sum(Durations(t, calls[..n])) + LastDuration(t, calls)
  {
    SumMore(Durations(t, calls[..|calls| - 1]), LastDuration(t, calls));
  }

  lemma SumMore(s: seq<int>, x: int)
    ensures Sum(s + [x]) == Sum(s) + x
  {
    assert (s + [x])[..|s|] == s;
  }

  /** Summing rounded seconds instead of milliseconds costs at most half a second per entry. */
  lemma {:induction false} RoundedSumError(ms: seq<int>)
    ensures Near(Sum(Rounded(ms)), Sum(ms), |ms|)
  {
    if ms != [] {
      var n := |ms| - 1;
      assert Rounded(ms)[..n] == Rounded(ms[..n]);
      RoundedSumError(ms[..n]);
      RoundingError(ms[n]);
      NearSum(Sum(Rounded(ms[..n])), Sum(ms[..n]), n, RoundedSeconds(ms[n]), ms[n], 1);
    }
  }

  /** The seconds a run of immediate completions adds to the hour counter. */
  function Added(t: Tables, calls: seq<Call>): int {
    RunImmediate(t, calls).counts.cycleSeconds - t.counts.cycleSeconds
  }

  /** From any station, those seconds are off by at most half a second per call. */
  lemma CounterError(t: Tables, calls: seq<Call>)
    requires calls != []
    ensures var base := ChainStart(t.cycles, calls[0].ts);
            Near(Added(t, calls), Max(base, Latest(calls)) - base, |calls|)
  {
    assert Added(t, calls) == Sum(Rounded(Durations(t, calls))) by {
      CounterIsSumOfRounded(t, calls);
    }
    assert Sum(Durations(t, calls)) == Max(ChainStart(t.cycles, calls[0].ts), Latest(calls)) - ChainStart(t.cycles, calls[0].ts) by {
      DurationsTelescope(t, calls);
    }
    RoundedSumError(Durations(t, calls));
  }

  lemma FirstAddsNothing(call: Call)
    ensures Added(EMPTY_TABLES, [call]) == 0
  {
    assert [call][..0] == [];
    assert RunImmediate(EMPTY_TABLES, [call]) == Immediate(EMPTY_TABLES, call);
  }

  lemma AddedByLast(calls: seq<Call>)
    requires |calls| > 1
    ensures var n := |calls| - 1;
            Added(EMPTY_TABLES, calls) == Added(EMPTY_TABLES, calls[..n]) + RoundedSeconds(Max(0, calls[n].ts - Latest(calls[..n])))
  {
    ImmediateClosedForm(calls[..|calls| - 1]);
  }

  lemma {:induction false} CounterErrorFromEmpty(calls: seq<Call>)
    requires calls != []
    ensures Near(Added(EMPTY_TABLES, calls), Latest(calls) - calls[0].ts, |calls| - 1)
  {
    var n := |calls| - 1;
    if n == 0 {
      assert calls == [calls[0]];
      FirstAddsNothing(calls[0]);
    } else {
      var init, last := calls[..n], Max(0, calls[n].ts - Latest(calls[..n]));
      CounterErrorFromEmpty(init);
      AddedByLast(calls);
      RoundingError(last);
      NearSum(Added(EMPTY_TABLES, init), Latest(init) - calls[0].ts, n - 1, RoundedSeconds(last), last, 1);
    }
  }

  /**
   * From an empty station, with time stamps in any order, the durations add up to exactly
   * max(t) - t1, and the whole seconds added to the hour counter are off by at most half a
   * second for every call but the first.
   */
  lemma TelescopingFromEmpty(calls: seq<Call>)
    requires calls != []
    ensures Sum(Durations(EMPTY_TABLES, calls)) == Latest(calls) - calls[0].ts
    ensures Near(RunImmediate(EMPTY_TABLES, calls).counts.cycleSeconds, Latest(calls) - calls[0].ts, |calls| - 1)
  {
    DurationsTelescope(EMPTY_TABLES, calls);
    LatestBounds(calls, 0);
    CounterErrorFromEmpty(calls);
  }

  // ---------------------------------------------------------------------------
  // Inventory conservation over any mix of strategies
  // ---------------------------------------------------------------------------

  datatype Recording = Recording(keepOpen: bool, replayed: bool, call: Call)

  function RunMixed(t: Tables, calls: seq<Recording>): Tables {
    if calls == [] then t
    else
      var r := calls[|calls| - 1];
      Strategy(r.keepOpen, r.replayed, RunMixed(t, calls[..|calls| - 1]), r.call)
  }

  function ItemTotal(batches: seq<Batch>): int {
    if batches == [] then 0 else ItemTotal(batches[..|batches| - 1]) + batches[|batches| - 1].items
  }

  /** The ids of the completed cycles, of the open cycles, and of the cycles that carry a batch. */
  function ClosedBag(cycles: seq<Cycle>): multiset<nat> {
    if cycles == [] then multiset{}
    else
      var last := cycles[|cycles| - 1];
      ClosedBag(cycles[..|cycles| - 1]) + if last.end.Some? then multiset{last.id} else multiset{}
  }

  function OpenBag(cycles: seq<Cycle>): multiset<nat> {
    if cycles == [] then multiset{}
    else
      var last := cycles[|cycles| - 1];
      OpenBag(cycles[..|cycles| - 1]) + if last.end.None? then multiset{last.id} else multiset{}
  }

  function BatchBag(batches: seq<Batch>): multiset<nat> {
    if batches == [] then multiset{}
    else BatchBag(batches[..|batches| - 1]) + multiset{batches[|batches| - 1].cycle}
  }

  /** One batch on each completed cycle, none on an open one; every item allocated; at most one open cycle. */
  predicate Balanced(t: Tables) {
    && BatchBag(t.batches) == ClosedBag(t.cycles)
    && t.allocations == ItemTotal(t.batches)
    && |OpenCycles(t.cycles)| <= 1
    && |t.cycles| == t.nextCycle && forall i :: 0 <= i < |t.cycles| ==> t.cycles[i].id == i
  }

  lemma MoveOne(closed: multiset<nat>, open: multiset<nat>, id: nat)
    ensures closed + open + multiset{id} == (closed + multiset{id}) + open == closed + (open + multiset{id})
  {
  }

  lemma ClosedBagGrows(cycles: seq<Cycle>, c: Cycle)
    ensures ClosedBag(cycles + [c]) == ClosedBag(cycles) + if c.end.Some? then multiset{c.id} else multiset{}
    ensures OpenBag(cycles + [c]) == OpenBag(cycles) + if c.end.None? then multiset{c.id} else multiset{}
  {
    assert (cycles + [c])[..|cycles|] == cycles;
  }

  lemma CloseCyclesGrows(cycles: seq<Cycle>, c: Cycle, ts: int)
    ensures CloseCycles(cycles + [c], ts) == CloseCycles(cycles, ts) + [if c.end.None? then c.(end := Some(ts)) else c]
  {
  }

  lemma {:induction false} ClosingMovesIds(cycles: seq<Cycle>, ts: int)
    ensures ClosedBag(CloseCycles(cycles, ts)) == ClosedBag(cycles) + OpenBag(cycles)
  {
    if cycles != [] {
      var init, last := cycles[..|cycles| - 1], cycles[|cycles| - 1];
      assert cycles == init + [last];
      ClosingMovesIds(init, ts);
      CloseCyclesGrows(init, last, ts);
      ClosedBagGrows(CloseCycles(init, ts), if last.end.None? then last.(end := Some(ts)) else last);
      ClosedBagGrows(init, last);
      MoveOne(ClosedBag(init), OpenBag(init), last.id);
    }
  }

  /** The batches made for the open cycles are on exactly those cycles. */
  lemma {:induction false} BatchesOnOpen(batches: seq<Batch>, cycles: seq<Cycle>, job: nat, items: nat)
    ensures BatchBag(AddBatches(batches, OpenCycles(cycles), job, items)) == BatchBag(batches) + OpenBag(cycles)
  {
    if cycles != [] {
      var init, last := cycles[..|cycles| - 1], cycles[|cycles| - 1];
      BatchesOnOpen(batches, init, job, items);
      var fewer := AddBatches(batches, OpenCycles(init), job, items);
      if last.end.None? {
        assert (OpenCycles(init) + [last])[..|OpenCycles(init)|] == OpenCycles(init);
        assert (fewer + [Batch(last.id, job, items)])[..|fewer|] == fewer;
      } else {
        assert OpenCycles(cycles) == OpenCycles(init);
      }
    }
  }

  lemma {:induction false} ItemTotalOfBatches(batches: seq<Batch>, cycles: seq<Cycle>, job: nat, items: nat)
    ensures ItemTotal(AddBatches(batches, cycles, job, items)) == ItemTotal(batches) + |cycles| * items
  {
    if cycles != [] {
      var n := |cycles| - 1;
      ItemTotalOfBatches(batches, cycles[..n], job, items);
      var fewer := AddBatches(batches, cycles[..n], job, items);
      assert (fewer + [Batch(cycles[n].id, job, items)])[..|fewer|] == fewer;
      assert |cycles| * items == n * items + items;
    }
  }

  lemma BalancedInsert(t: Tables, start: int, call: Call)
    requires Balanced(t)
    ensures Balanced(InsertComplete(t, start, call))
    ensures OpenCycles(InsertComplete(t, start, call).cycles) == OpenCycles(t.cycles)
  {
    var t' := InsertComplete(t, start, call);
    assert t'.cycles[..|t.cycles|] == t.cycles && t'.batches[..|t.batches|] == t.batches;
  }

  lemma ClosingClosesAll(cycles: seq<Cycle>, ts: int)
    ensures OpenCycles(CloseCycles(cycles, ts)) == []
  {
    AllClosed(CloseCycles(cycles, ts));
  }

  lemma ClosingKeepsIds(cycles: seq<Cycle>, ts: int)
    requires forall i :: 0 <= i < |cycles| ==> cycles[i].id == i
    ensures |CloseCycles(cycles, ts)| == |cycles|
    ensures forall i :: 0 <= i < |cycles| ==> CloseCycles(cycles, ts)[i].id == i
  {
  }

  lemma BalancedCloseAll(t: Tables, call: Call)
    requires Balanced(t) && OpenCycles(t.cycles) != []
    ensures Balanced(CloseForCall(t, call))
  {
    var open := OpenCycles(t.cycles);
    var after := CloseForCall(t, call);
    assert BatchBag(after.batches) == ClosedBag(after.cycles) by {
      ClosingMovesIds(t.cycles, call.ts);
      BatchesOnOpen(t.batches, t.cycles, call.job, call.items);
    }
    assert after.allocations == ItemTotal(after.batches) by {
      ItemTotalOfBatches(t.batches, open, call.job, call.items);
    }
    ClosingKeepsIds(t.cycles, call.ts);
    ClosingClosesAll(t.cycles, call.ts);
  }

  lemma BalancedClosing(t: Tables, call: Call)
    requires Balanced(t)
    ensures Balanced(CloseForCall(t, call)) && OpenCycles(CloseForCall(t, call).cycles) == []
  {
    if OpenCycles(t.cycles) != [] {
      BalancedCloseAll(t, call);
      ClosingClosesAll(t.cycles, call.ts);
    } else if t.cycles == [] {
      BalancedInsert(t, call.ts, call);
    }
  }

  lemma BalancedOpening(t: Tables, call: Call)
    requires Balanced(t) && OpenCycles(t.cycles) == []
    ensures Balanced(OpenNext(t, call))
  {
    assert OpenNext(t, call).cycles[..|t.cycles|] == t.cycles;
  }

  /** Over every mix of the four strategies, completed cycles and inventory batches stay in step. */
  lemma {:induction false} InventoryBalanced(calls: seq<Recording>)
    ensures Balanced(RunMixed(EMPTY_TABLES, calls))
  {
    if calls != [] {
      var r := calls[|calls| - 1];
      var t := RunMixed(EMPTY_TABLES, calls[..|calls| - 1]);
      InventoryBalanced(calls[..|calls| - 1]);
      if r.keepOpen {
        BalancedClosing(t, r.call);
        BalancedOpening(CloseForCall(t, r.call), r.call);
      } else {
        BalancedInsert(t, ChainStart(t.cycles, r.call.ts), r.call);
      }
    }
  }
}
