/**
 * The reconcile job of one station: take the stored window, repair the state log over it and
 * move the archived buckets it touches back, and what that means for the cycles tracked.
 */
module Reconcile {
  import opened Common
  import opened Timestamps
  import SL = StateLog
  import CR = CycleRecorder
  import ST = StateLogTheorems
  import RR = RepairRuns
  import RP = ReplayProtocol
  import RS = ReplayStore
  import MB = MetricBuckets

  predicate Readable(w: RP.Window) {
    |w.minTs| == 24 && |w.maxTs| == 24 && Valid(ParseIso(w.minTs)) && Valid(ParseIso(w.maxTs))
  }

  /** The instants a stored window parses to. */
  function Bounds(w: RP.Window): (int, int)
    requires Readable(w)
  {
    (Time(ParseIso(w.minTs)), Time(ParseIso(w.maxTs)))
  }

  /** The time stamps lie between the window's bounds, which are in order. */
  predicate Encloses(w: RP.Window, ts: seq<RP.Tracked>)
    requires Readable(w) && RP.AllFixedWidth(ts)
  {
    var (min, max) := Bounds(w);
    min <= max && forall t :: t in ts ==> min <= Time(t.at) <= max
  }

  /** A window made by merging is readable, and its bounds enclose every time stamp merged. */
  lemma MergedWindowEncloses(ts: seq<RP.Tracked>)
    requires ts != [] && RP.AllFixedWidth(ts)
    ensures Readable(RP.WindowOf(ts)) && Encloses(RP.WindowOf(ts), ts)
    ensures var (min, max) := Bounds(RP.WindowOf(ts));
            && (exists t :: t in ts && Time(t.at) == min) && (exists t :: t in ts && Time(t.at) == max)
  {
    var first, last := RP.WindowIsExact(ts);
    ParseIsoText(first);
    ParseIsoText(last);
    var f :| f in ts && f.at == first;
    var l :| l in ts && l.at == last;
    assert Time(f.at) == Time(first) && Time(l.at) == Time(last);
  }

  /** The whole effect of a reconcile on the station's tables and buckets. */
  method ReconcileReplay(stores: RS.Stores, tables: CR.StationTables, buckets: MB.BucketTables,
                         station: nat, workcenter: Option<nat>, job: Option<nat>, activeJobBlob: Option<nat>)
    returns (done: bool)
    requires stores.Valid() && buckets.Valid() && stores.SlotOf(station).job == RP.ActiveUnread
    requires station in stores.windows ==> Readable(stores.windows[station])
    modifies stores, tables, buckets
    ensures stores.Valid() && buckets.Valid()
    ensures done <==> old(station in stores.windows)
    ensures stores.SlotOf(station) == RP.Slot(None, RP.ActiveRead)
    ensures !done ==> tables.View() == old(tables.View()) && buckets.live == old(buckets.live) && buckets.archive == old(buckets.archive)
    ensures done ==>
              var w := old(stores.windows)[station];
              var (min, max) := Bounds(w);
              var scope := MB.Scope(w.site, MB.Entities(station, w.site, workcenter, job), min, max);
              && tables.View() == old(tables.View()).(log := SL.Repair(old(tables.View()).log, min, max, activeJobBlob))
              && buckets.live == MB.LiveAfter(old(buckets.live), old(buckets.archive), scope)
              && buckets.archive == MB.Unaffected(old(buckets.archive), scope)
    ensures done ==>
              var w := old(stores.windows)[station];
              var (min, max) := Bounds(w);
              min <= max ==>
                && MB.MovedOver(old(buckets.live), buckets.live, old(buckets.archive), buckets.archive)
                && MB.OnlyRedoneLeft(old(buckets.archive), buckets.archive, station, w.site, workcenter, job, min, max)
                && (SL.Fresh(old(tables.View()).log) ==>
                      SL.Repaired(old(tables.View()).log.rows, tables.View().log.rows, min, max, activeJobBlob))
  {
    var raw := stores.TakeWindow(station);
    if raw.None? {
      return false;
    }
    var (min, max) := Bounds(raw.value);
    tables.FixStateEntries(min, max, activeJobBlob);
    buckets.UnarchiveAffected(station, raw.value.site, workcenter, job, min, max);
    return true;
  }

  /** Throughout a repaired window the station is on record, and as nothing but UP. */
  lemma WindowIsUp(l: SL.Log, min: int, max: int, activeJobBlob: Option<nat>, x: int)
    requires min <= x <= max
    ensures var live := SL.Live(SL.Repair(l, min, max, activeJobBlob).rows);
            && ST.CoveredUp(live, x)
            && forall r :: r in live && ST.Covers(r, x) ==> r.state == SL.UP
  {
    ST.RepairCorrect(l, min, max, activeJobBlob);
    var live := SL.Live(SL.Repair(l, min, max, activeJobBlob).rows);
    forall r | r in live && ST.Covers(r, x)
      ensures r.state == SL.UP
    {
      ST.LiveAfterRepairMembers(l, min, max, activeJobBlob, r);
    }
  }

  /** A repair over the window's bounds records the station as UP, and only as UP, at every one of these time stamps. */
  ghost predicate Restores(w: RP.Window, ts: seq<RP.Tracked>, l: SL.Log, activeJobBlob: Option<nat>)
    requires RP.AllFixedWidth(ts)
  {
    && Readable(w)
    && var (min, max) := Bounds(w);
       var live := SL.Live(SL.Repair(l, min, max, activeJobBlob).rows);
       forall t :: t in ts ==>
         && ST.CoveredUp(live, Time(t.at))
         && forall r :: r in live && ST.Covers(r, Time(t.at)) ==> r.state == SL.UP
  }

  /**
   * End to end: once the window that some tracked cycles merged into has been reconciled,
   * the station is recorded as UP, and as nothing else, at every one of their time stamps,
   * whatever the log said before.
   */
  lemma TrackedCyclesAreUp(ts: seq<RP.Tracked>, l: SL.Log, activeJobBlob: Option<nat>)
    requires ts != [] && RP.AllFixedWidth(ts)
    ensures Restores(RP.WindowOf(ts), ts, l, activeJobBlob)
  {
    MergedWindowEncloses(ts);
    var (min, max) := Bounds(RP.WindowOf(ts));
    forall t | t in ts
      ensures var live := SL.Live(SL.Repair(l, min, max, activeJobBlob).rows);
              && ST.CoveredUp(live, Time(t.at))
              && forall r :: r in live && ST.Covers(r, Time(t.at)) ==> r.state == SL.UP
    {
      WindowIsUp(l, min, max, activeJobBlob, Time(t.at));
    }
  }

  /**
   * Over every trace of the protocol: the windows taken or expired hold consecutive stretches
   * of what was tracked, and repairing the log with a window that was taken records the station
   * as UP at every time stamp of its stretch.
   */
  lemma EveryTakenWindowRestores(trace: seq<RP.Event>, l: SL.Log, activeJobBlob: Option<nat>)
    returns (groups: seq<seq<RP.Tracked>>, current: seq<RP.Tracked>)
    requires RP.IsTrace(trace)
    ensures RP.Accounted(RP.After(trace), RP.TrackedBy(trace), groups, current)
    ensures forall k :: 0 <= k < |groups| ==>
              var retired := RP.After(trace).retired[k];
              retired.taken ==> Restores(retired.window, groups[k], l, activeJobBlob)
  {
    groups, current := RP.EveryTrackedOnce(trace);
    forall k | 0 <= k < |groups|
      ensures Restores(RP.After(trace).retired[k].window, groups[k], l, activeJobBlob)
    {
      TrackedCyclesAreUp(groups[k], l, activeJobBlob);
    }
  }

  predicate AllReadable(retired: seq<RP.Retired>, order: seq<nat>) {
    forall j :: 0 <= j < |order| ==> order[j] < |retired| && Readable(retired[order[j]].window)
  }

  /** The repairs of some retired windows, in the order their jobs ran. */
  function Repairs(retired: seq<RP.Retired>, order: seq<nat>, activeJobBlobs: seq<Option<nat>>): (r: seq<ST.Step>)
    requires |activeJobBlobs| == |order| && AllReadable(retired, order)
    ensures |r| == |order|
  {
    seq(|order|, j requires 0 <= j < |order| =>
      var (min, max) := Bounds(retired[order[j]].window);
      ST.RepairWindow(min, max, activeJobBlobs[j]))
  }

  /** At the end of the run the instant is on record exactly if some repair accounts for it, and never as anything but UP. */
  ghost predicate EndsUp(t: CR.Tables, steps: seq<ST.Step>, i: nat, x: int) {
    var live := SL.Live(ST.Run(t, steps).log.rows);
    RR.NothingButUp(live, x) && (ST.Recorded(live, x) <==> RR.StillCarried(steps, i, x))
  }

  /** Each window was merged from its group, so it encloses it. */
  predicate AllEnclosed(retired: seq<RP.Retired>, groups: seq<seq<RP.Tracked>>) {
    |groups| == |retired| &&
    forall k :: 0 <= k < |groups| ==>
      RP.AllFixedWidth(groups[k]) && Readable(retired[k].window) && Encloses(retired[k].window, groups[k])
  }

  lemma AccountedIsEnclosed(p: RP.Proto, tracked: seq<RP.Tracked>, groups: seq<seq<RP.Tracked>>, current: seq<RP.Tracked>)
    requires RP.Accounted(p, tracked, groups, current)
    ensures AllEnclosed(p.retired, groups)
  {
    forall k | 0 <= k < |groups|
      ensures Readable(p.retired[k].window) && Encloses(p.retired[k].window, groups[k])
    {
      MergedWindowEncloses(groups[k]);
    }
  }

  lemma TrackedEndsUp(t: CR.Tables, retired: seq<RP.Retired>, groups: seq<seq<RP.Tracked>>, order: seq<nat>,
                      activeJobBlobs: seq<Option<nat>>, j: nat, tr: RP.Tracked)
    requires AllEnclosed(retired, groups) && |activeJobBlobs| == |order| && AllReadable(retired, order)
    requires j < |order| && tr in groups[order[j]] && Valid(tr.at)
    ensures EndsUp(t, Repairs(retired, order, activeJobBlobs), j, Time(tr.at))
  {
    var steps := Repairs(retired, order, activeJobBlobs);
    forall i | 0 <= i < |order|
      ensures steps[i].RepairWindow? && steps[i].min <= steps[i].max
    {
      assert Encloses(retired[order[i]].window, groups[order[i]]);
    }
    assert Encloses(retired[order[j]].window, groups[order[j]]);
    RR.StillUpIff(t, steps, j, Time(tr.at));
  }

  /**
   * Over every trace of the protocol and any number of reconciles: at the time stamp of every
   * cycle tracked into a window that was reconciled, the station ends up on record exactly if
   * that repair or a later one still accounts for the instant, and then only as UP.
   */
  lemma AfterAllReconciles(trace: seq<RP.Event>, t: CR.Tables, order: seq<nat>, activeJobBlobs: seq<Option<nat>>)
    returns (groups: seq<seq<RP.Tracked>>, current: seq<RP.Tracked>)
    requires RP.IsTrace(trace) && |activeJobBlobs| == |order|
    requires forall j :: 0 <= j < |order| ==> order[j] < |RP.After(trace).retired|
    ensures RP.Accounted(RP.After(trace), RP.TrackedBy(trace), groups, current)
    ensures AllReadable(RP.After(trace).retired, order)
    ensures forall j, tr :: 0 <= j < |order| && tr in groups[order[j]] ==>
              EndsUp(t, Repairs(RP.After(trace).retired, order, activeJobBlobs), j, Time(tr.at))
  {
    groups, current := RP.EveryTrackedOnce(trace);
    var retired := RP.After(trace).retired;
    AccountedIsEnclosed(RP.After(trace), RP.TrackedBy(trace), groups, current);
    forall j, tr | 0 <= j < |order| && tr in groups[order[j]]
      ensures EndsUp(t, Repairs(retired, order, activeJobBlobs), j, Time(tr.at))
    {
      TrackedEndsUp(t, retired, groups, order, activeJobBlobs, j, tr);
    }
  }
}
