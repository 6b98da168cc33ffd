/**
 * What stays on record over whole runs with many repairs: which closed UP rows of repaired
 * windows are still live at the end, and at which tracked instants the station is still UP.
 */
module RepairRuns {
  import opened Common
  import opened StateLog
  import opened StateLogTheorems
  import opened CycleRecorder

  // ---------------------------------------------------------------------------
  // The row of one window, over any run
  // ---------------------------------------------------------------------------

  /** The two closed windows have an instant in common. */
  predicate Touches(min: int, max: int, other: Step)
    requires other.RepairWindow?
  {
    min <= other.max && other.min <= max
  }

  /** No repair from the given step on touches the window. */
  predicate Untouched(steps: seq<Step>, from: nat, min: int, max: int) {
    forall j :: from <= j < |steps| && steps[j].RepairWindow? ==> !Touches(min, max, steps[j])
  }

  /** The row is on record, and its id is its own. */
  predicate Kept(l: Log, row: StateRow) {
    row in l.rows && row.id < l.nextRow && forall r :: r in l.rows && r.id == row.id ==> r == row
  }

  /** The id was handed out, and no live row carries it. */
  predicate Gone(l: Log, id: nat) {
    id < l.nextRow && forall r :: r in l.rows && r.id == id ==> r.deleted
  }

  /** What any step does to the rows it finds, and which ids it adds. */
  predicate Updates(l: Log, after: Log, s: LogStep) {
    && l.nextRow <= after.nextRow && |l.rows| <= |after.rows|
    && (forall i :: |l.rows| <= i < |after.rows| ==> l.nextRow <= after.rows[i].id)
    && forall i :: 0 <= i < |l.rows| ==>
         && after.rows[i].id == l.rows[i].id && (l.rows[i].deleted ==> after.rows[i].deleted)
         && (l.rows[i].end.Some? ==>
               after.rows[i] == if s.Fix? && Replaced(l.rows[i], s.min, s.max)
                                then l.rows[i].(deleted := true) else l.rows[i])
  }

  lemma StepUpdates(l: Log, s: LogStep)
    ensures Updates(l, ApplyLog(l, s), s)
  {
    match s
    case _ =>
  }

  lemma KeptStep(l: Log, s: LogStep, row: StateRow)
    requires Kept(l, row) && row.end.Some? && !row.deleted
    ensures if s.Fix? && Replaced(row, s.min, s.max) then Gone(ApplyLog(l, s), row.id) else Kept(ApplyLog(l, s), row)
  {
    var after := ApplyLog(l, s);
    StepUpdates(l, s);
    var k :| 0 <= k < |l.rows| && l.rows[k] == row;
    assert after.rows[k] in after.rows;
    forall r | r in after.rows && r.id == row.id
      ensures r == if s.Fix? && Replaced(row, s.min, s.max) then row.(deleted := true) else row
    {
      var i :| 0 <= i < |after.rows| && after.rows[i] == r;
      assert i < |l.rows| && l.rows[i] in l.rows;
    }
  }

  lemma GoneStep(l: Log, s: LogStep, id: nat)
    requires Gone(l, id)
    ensures Gone(ApplyLog(l, s), id)
  {
    var after := ApplyLog(l, s);
    StepUpdates(l, s);
    forall r | r in after.rows && r.id == id
      ensures r.deleted
    {
      var i :| 0 <= i < |after.rows| && after.rows[i] == r;
      assert i < |l.rows| && l.rows[i] in l.rows;
    }
  }

  lemma {:induction false} RowOverRun(t: Tables, row: StateRow, steps: seq<Step>)
    requires Kept(t.log, row) && row.end.Some? && !row.deleted
    ensures if Untouched(steps, 0, row.start, row.end.value) then Kept(Run(t, steps).log, row)
            else Gone(Run(t, steps).log, row.id)
  {
    if steps != [] {
      var n := |steps| - 1;
      var before := Run(t, steps[..n]);
      var s := LogEffect(before, steps[n]);
      RowOverRun(t, row, steps[..n]);
      UntouchedMore(steps, 0, row.start, row.end.value);
      StepOnLog(before, steps[n]);
      if Untouched(steps[..n], 0, row.start, row.end.value) {
        KeptStep(before.log, s, row);
      } else {
        GoneStep(before.log, s, row.id);
      }
    }
  }

  lemma UntouchedMore(steps: seq<Step>, from: nat, min: int, max: int)
    requires from < |steps|
    ensures var n := |steps| - 1;
            Untouched(steps, from, min, max) <==>
            Untouched(steps[..n], from, min, max) && (steps[n].RepairWindow? ==> !Touches(min, max, steps[n]))
  {
    var n := |steps| - 1;
    assert forall j :: 0 <= j < n ==> steps[..n][j] == steps[j];
  }

  /** The closed UP row that a repair writes. */
  function RowOfWindow(t: Tables, min: int, max: int, jobBlob: Option<nat>): StateRow {
    RepairRows(t.log, min, max, jobBlob)[0]
  }

  /**
   * Over every run of completions, transitions and repairs: the UP row a repair writes for its
   * window is live at the end exactly when no later repair touched that window.
   */
  lemma WindowRowStaysIff(t: Tables, min: int, max: int, jobBlob: Option<nat>, steps: seq<Step>)
    requires OneOpen(t.log)
    ensures RowOfWindow(t, min, max, jobBlob) in Live(Run(Apply(t, RepairWindow(min, max, jobBlob)), steps).log.rows)
       <==> Untouched(steps, 0, min, max)
  {
    var row := RowOfWindow(t, min, max, jobBlob);
    var r := Apply(t, RepairWindow(min, max, jobBlob));
    JustWritten(t.log, min, max, jobBlob);
    RowOverRun(r, row, steps);
    LiveMembers(Run(r, steps).log.rows, row);
  }

  lemma JustWritten(l: Log, min: int, max: int, jobBlob: Option<nat>)
    requires Fresh(l)
    ensures Kept(Repair(l, min, max, jobBlob), RepairRows(l, min, max, jobBlob)[0])
  {
    var added := RepairRows(l, min, max, jobBlob);
    var kept := SoftDelete(l.rows, min, max);
    assert Repair(l, min, max, jobBlob).rows[|kept|] == added[0];
    forall r | r in kept
      ensures r.id < l.nextRow
    {
      var i :| 0 <= i < |kept| && kept[i] == r;
      assert l.rows[i] in l.rows;
    }
  }

  /** So whatever else happens, the window stays recorded as UP, short of its last instant, until a repair touches it. */
  lemma WindowStaysUp(t: Tables, min: int, max: int, jobBlob: Option<nat>, steps: seq<Step>, x: int)
    requires OneOpen(t.log) && min <= x < max && Untouched(steps, 0, min, max)
    ensures CoveredUp(Live(Run(Apply(t, RepairWindow(min, max, jobBlob)), steps).log.rows), x)
  {
    WindowRowStaysIff(t, min, max, jobBlob, steps);
    assert Covers(RowOfWindow(t, min, max, jobBlob), x);
  }

  // ---------------------------------------------------------------------------
  // Every tracked instant, over runs of reconciles
  // ---------------------------------------------------------------------------

  /** Replayed completions, which leave the log alone, and repairs of windows. */
  predicate ReplayOnly(steps: seq<Step>) {
    forall j :: 0 <= j < |steps| ==>
      match steps[j]
      case Complete(_, replayed, _) => replayed
      case RepairWindow(min, max, _) => min <= max
      case _ => false
  }

  /** A row with these times written by repair k is live at the end: the window's own row, or the open row after it. */
  predicate Stands(steps: seq<Step>, k: int, start: int, end: Option<int>) {
    && 0 <= k < |steps| && steps[k].RepairWindow?
    && ((start == steps[k].min && end == Some(steps[k].max) && Untouched(steps, k + 1, start, steps[k].max))
        || (start == steps[k].max && end == None && forall j :: k < j < |steps| ==> !steps[j].RepairWindow?))
  }

  /** Repair k still accounts for the instant at the end of the run. */
  predicate Carries(steps: seq<Step>, k: int, x: int) {
    && 0 <= k < |steps| && steps[k].RepairWindow?
    && ((Stands(steps, k, steps[k].min, Some(steps[k].max)) && steps[k].min <= x < steps[k].max)
        || (Stands(steps, k, steps[k].max, None) && steps[k].max <= x))
  }

  /** The live rows at the instant are UP rows of repairs from i on that still stand. */
  ghost predicate OnlyRepairRows(steps: seq<Step>, i: nat, x: int, live: seq<StateRow>) {
    forall r :: r in live && Covers(r, x) ==>
      r.state == UP && exists k :: i <= k && Stands(steps, k, r.start, r.end)
  }

  ghost predicate Written(live: seq<StateRow>, start: int, end: Option<int>) {
    exists r :: r in live && r.state == UP && r.start == start && r.end == end
  }

  /** Each row that still stands is there. */
  ghost predicate AllStanding(steps: seq<Step>, i: nat, live: seq<StateRow>) {
    forall k, start, end :: i <= k && Stands(steps, k, start, end) ==> Written(live, start, end)
  }

  lemma StandsMore(steps: seq<Step>, k: int, start: int, end: Option<int>)
    requires steps != []
    ensures var n := |steps| - 1;
            k != n ==>
            (Stands(steps, k, start, end) <==>
             && Stands(steps[..n], k, start, end)
             && (steps[n].RepairWindow? ==> end.Some? && !Touches(start, end.value, steps[n])))
  {
    var n := |steps| - 1;
    assert forall j :: 0 <= j < n ==> steps[..n][j] == steps[j];
    if 0 <= k < n && steps[k].RepairWindow? {
      UntouchedMore(steps, k + 1, steps[k].min, steps[k].max);
    }
  }

  /** The run's last step repairs the window that holds the instant. */
  lemma InstantAtItsRepair(l: Log, steps: seq<Step>, x: int)
    requires steps != [] && steps[|steps| - 1].RepairWindow? && steps[|steps| - 1].min <= x <= steps[|steps| - 1].max
    ensures var n := |steps| - 1;
            var live := Live(Repair(l, steps[n].min, steps[n].max, steps[n].activeJobBlob).rows);
            OnlyRepairRows(steps, n, x, live) && AllStanding(steps, n, live)
  {
    var n := |steps| - 1;
    var (min, max, jobBlob) := (steps[n].min, steps[n].max, steps[n].activeJobBlob);
    var live := Live(Repair(l, min, max, jobBlob).rows);
    AddedStand(l, steps);
    forall r | r in live && Covers(r, x)
      ensures r.state == UP && Stands(steps, n, r.start, r.end)
    {
      LiveAfterRepairMembers(l, min, max, jobBlob, r);
    }
  }

  lemma AddedStand(l: Log, steps: seq<Step>)
    requires steps != [] && steps[|steps| - 1].RepairWindow?
    ensures var n := |steps| - 1;
            var added := RepairRows(l, steps[n].min, steps[n].max, steps[n].activeJobBlob);
            var live := Live(Repair(l, steps[n].min, steps[n].max, steps[n].activeJobBlob).rows);
            && (forall r :: r in added ==> r.state == UP && Stands(steps, n, r.start, r.end))
            && (forall start, end :: Stands(steps, n, start, end) ==> Written(live, start, end))
  {
    var n := |steps| - 1;
    var (min, max, jobBlob) := (steps[n].min, steps[n].max, steps[n].activeJobBlob);
    var added := RepairRows(l, min, max, jobBlob);
    LiveAfterRepairMembers(l, min, max, jobBlob, added[0]);
    LiveAfterRepairMembers(l, min, max, jobBlob, added[1]);
  }

  lemma InstantThroughRepair(l: Log, steps: seq<Step>, i: nat, x: int)
    requires i < |steps| - 1 && steps[|steps| - 1].RepairWindow?
    requires OnlyRepairRows(steps[..|steps| - 1], i, x, Live(l.rows)) && AllStanding(steps[..|steps| - 1], i, Live(l.rows))
    ensures var n := |steps| - 1;
            var live := Live(Repair(l, steps[n].min, steps[n].max, steps[n].activeJobBlob).rows);
            OnlyRepairRows(steps, i, x, live) && AllStanding(steps, i, live)
  {
    var n := |steps| - 1;
    var (min, max, jobBlob) := (steps[n].min, steps[n].max, steps[n].activeJobBlob);
    var live := Live(Repair(l, min, max, jobBlob).rows);
    AddedStand(l, steps);
    forall r | r in live && Covers(r, x)
      ensures r.state == UP && exists k :: i <= k && Stands(steps, k, r.start, r.end)
    {
      LiveAfterRepairMembers(l, min, max, jobBlob, r);
      if r !in RepairRows(l, min, max, jobBlob) {
        var k :| i <= k && Stands(steps[..n], k, r.start, r.end);
        StandsMore(steps, k, r.start, r.end);
        assert Stands(steps, k, r.start, r.end);
      }
    }
    forall k, start, end | i <= k && Stands(steps, k, start, end)
      ensures Written(live, start, end)
    {
      if k < n {
        StandsMore(steps, k, start, end);
        var r :| r in Live(l.rows) && r.state == UP && r.start == start && r.end == end;
        LiveAfterRepairMembers(l, min, max, jobBlob, r);
      }
    }
  }

  lemma StandsWithoutRepair(steps: seq<Step>, i: nat, x: int, live: seq<StateRow>)
    requires steps != [] && !steps[|steps| - 1].RepairWindow?
    requires OnlyRepairRows(steps[..|steps| - 1], i, x, live) && AllStanding(steps[..|steps| - 1], i, live)
    ensures OnlyRepairRows(steps, i, x, live) && AllStanding(steps, i, live)
  {
    var n := |steps| - 1;
    forall r | r in live && Covers(r, x)
      ensures r.state == UP && exists k :: i <= k && Stands(steps, k, r.start, r.end)
    {
      var k :| i <= k && Stands(steps[..n], k, r.start, r.end);
      StandsMore(steps, k, r.start, r.end);
      assert Stands(steps, k, r.start, r.end);
    }
    forall k, start, end | i <= k && Stands(steps, k, start, end)
      ensures Written(live, start, end)
    {
      StandsMore(steps, k, start, end);
    }
  }

  lemma {:induction false} InstantOverRun(t: Tables, steps: seq<Step>, i: nat, x: int)
    requires ReplayOnly(steps) && i < |steps| && steps[i].RepairWindow? && steps[i].min <= x <= steps[i].max
    ensures var live := Live(Run(t, steps).log.rows);
            OnlyRepairRows(steps, i, x, live) && AllStanding(steps, i, live)
  {
    var n := |steps| - 1;
    var before := Run(t, steps[..n]);
    if i == n {
      InstantAtItsRepair(before.log, steps, x);
    } else {
      assert ReplayOnly(steps[..n]) && steps[..n][i] == steps[i];
      InstantOverRun(t, steps[..n], i, x);
      if steps[n].RepairWindow? {
        InstantThroughRepair(before.log, steps, i, x);
      } else {
        StepOnLog(before, steps[n]);
        StandsWithoutRepair(steps, i, x, Live(before.log.rows));
      }
    }
  }

  /** Some repair from i on accounts for the instant. */
  ghost predicate StillCarried(steps: seq<Step>, i: nat, x: int) {
    exists k :: i <= k && Carries(steps, k, x)
  }

  ghost predicate NothingButUp(live: seq<StateRow>, x: int) {
    forall r :: r in live && Covers(r, x) ==> r.state == UP
  }

  /**
   * Over every run of replayed completions and repairs, whatever the log said before: an
   * instant of a window once repaired is never on record as anything but UP, and it is on
   * record at the end exactly when some repair, its own or a later one, still accounts for it.
   */
  lemma StillUpIff(t: Tables, steps: seq<Step>, i: nat, x: int)
    requires ReplayOnly(steps) && i < |steps| && steps[i].RepairWindow? && steps[i].min <= x <= steps[i].max
    ensures var live := Live(Run(t, steps).log.rows);
            NothingButUp(live, x) && (Recorded(live, x) <==> StillCarried(steps, i, x))
  {
    var live := Live(Run(t, steps).log.rows);
    InstantOverRun(t, steps, i, x);
    if Recorded(live, x) {
      var r :| r in live && Covers(r, x);
      var k :| i <= k && Stands(steps, k, r.start, r.end);
      assert Carries(steps, k, x);
    } else if StillCarried(steps, i, x) {
      var k :| i <= k && Carries(steps, k, x);
      if Stands(steps, k, steps[k].min, Some(steps[k].max)) && steps[k].min <= x < steps[k].max {
        CoveredByWritten(live, steps[k].min, Some(steps[k].max), x);
      } else {
        CoveredByWritten(live, steps[k].max, None, x);
      }
    }
  }

  lemma CoveredByWritten(live: seq<StateRow>, start: int, end: Option<int>, x: int)
    requires Written(live, start, end) && start <= x && (end.None? || x < end.value)
    ensures Recorded(live, x)
  {
    var r :| r in live && r.state == UP && r.start == start && r.end == end;
    assert Covers(r, x);
  }

  /** Every window lies after the ones repaired before it. */
  predicate WindowsInOrder(steps: seq<Step>) {
    forall j, k :: 0 <= j < k < |steps| && steps[j].RepairWindow? && steps[k].RepairWindow? ==> steps[j].max < steps[k].min
  }

  /**
   * When the windows come in time order, the instants of a window stay on record but for the
   * last: a cycle tracked at the very end of the window goes off the record with the next repair.
   */
  lemma InOrderLosesLastInstants(t: Tables, steps: seq<Step>, i: nat, x: int)
    requires ReplayOnly(steps) && i < |steps| && steps[i].RepairWindow? && steps[i].min <= x <= steps[i].max
    requires WindowsInOrder(steps)
    ensures Recorded(Live(Run(t, steps).log.rows), x) <==>
            x < steps[i].max || forall j :: i < j < |steps| ==> !steps[j].RepairWindow?
  {
    StillUpIff(t, steps, i, x);
    if x < steps[i].max || forall j :: i < j < |steps| ==> !steps[j].RepairWindow? {
      assert Carries(steps, i, x);
    } else {
      assert forall k :: i <= k ==> !Carries(steps, k, x);
    }
  }
}
