/**
 * The replay windows and reconcile jobs of all stations, changed by the hot path, the worker
 * and startup recovery. Each operation is one event of the protocol on its station's slot and
 * leaves every other station alone.
 */
module ReplayStore {
  import opened Common
  import opened Text
  import opened Timestamps
  import opened ReplayProtocol

  class Stores {
    /** The key-value store, by station. */
    var windows: map<nat, Window>
    /** The job records, by station; a station without a record is absent. */
    var jobs: map<nat, Job>

    function SlotOf(station: nat): Slot
      reads this
    {
      Slot(if station in windows then Some(windows[station]) else None,
           if station in jobs then jobs[station] else NoJob)
    }

    /** A record in the queue is never the absence of one. */
    predicate Valid()
      reads this
    {
      forall s :: s in jobs ==> jobs[s] != NoJob
    }

    constructor ()
      ensures Valid() && forall s: nat :: SlotOf(s) == START.slot
    {
      windows, jobs := map[], map[];
    }

    method UpdateWindow(station: nat, item: Tracked)
      requires Valid() && FixedWidth(item.at)
      modifies this`windows
      ensures Valid()
      ensures SlotOf(station) == old(SlotOf(station)).(window := Some(Merge(old(SlotOf(station)).window, item)))
      ensures forall s :: s != station ==> SlotOf(s) == old(SlotOf(s))
    {
      var ts := IsoText(item.at);
      if station in windows {
        var data := windows[station];
        if TextBefore(ts, data.minTs) {
          data := data.(minTs := ts);
        }
        if TextBefore(data.maxTs, ts) {
          data := data.(maxTs := ts);
        }
        data := data.(count := data.count + 1);
        windows := windows[station := data];
      } else {
        windows := windows[station := Window(ts, ts, item.site, 1)];
      }
    }

    method Remove(station: nat)
      requires Valid()
      modifies this`jobs
      ensures Valid()
      ensures SlotOf(station) == old(SlotOf(station)).(job := RemoveJob(old(SlotOf(station)).job))
      ensures forall s :: s != station ==> SlotOf(s) == old(SlotOf(s))
    {
      if station in jobs && !Active(jobs[station]) {
        jobs := jobs - {station};
      }
    }

    method Add(station: nat)
      requires Valid()
      modifies this`jobs
      ensures Valid()
      ensures SlotOf(station) == old(SlotOf(station)).(job := AddJob(old(SlotOf(station)).job))
      ensures forall s :: s != station ==> SlotOf(s) == old(SlotOf(s))
    {
      if station !in jobs {
        jobs := jobs[station := Waiting];
      }
    }

    /** A tracking call that nothing interrupts. */
    method TrackReplayedCycle(station: nat, item: Tracked)
      requires Valid() && FixedWidth(item.at)
      modifies this
      ensures Valid()
      ensures SlotOf(station) ==
              Slot(Some(Merge(old(SlotOf(station)).window, item)), AddJob(RemoveJob(old(SlotOf(station)).job)))
      ensures forall s :: s != station ==> SlotOf(s) == old(SlotOf(s))
    {
      UpdateWindow(station, item);
      Remove(station);
      Add(station);
    }

    /** Read and delete the window in one step, inside the station's active job. */
    method TakeWindow(station: nat) returns (raw: Option<Window>)
      requires Valid() && SlotOf(station).job == ActiveUnread
      modifies this
      ensures Valid()
      ensures raw == old(SlotOf(station)).window && SlotOf(station) == Slot(None, ActiveRead)
      ensures forall s :: s != station ==> SlotOf(s) == old(SlotOf(s))
    {
      raw := if station in windows then Some(windows[station]) else None;
      windows := windows - {station};
      jobs := jobs[station := ActiveRead];
    }

    /**
     * Startup recovery. The scan cursor yields pages of station ids: every station with a
     * stored window at least once, possibly with repetitions and with stations whose window
     * has gone since. Afterwards every stored window has a job record; records that existed
     * are untouched and new ones are only made for scanned stations.
     */
    method RecoverReplayWindows(pages: seq<seq<nat>>)
      requires Valid()
      requires forall s :: s in windows ==> exists p :: p in pages && s in p
      modifies this`jobs
      ensures Valid()
      ensures forall s :: s in windows ==> SlotOf(s) == old(SlotOf(s)).(job := AddJob(old(SlotOf(s)).job))
      ensures forall s :: s in old(jobs) ==> s in jobs && jobs[s] == old(jobs)[s]
      ensures forall s :: s in jobs && s !in old(jobs) ==> jobs[s] == Waiting && exists p :: p in pages && s in p
      ensures forall s :: s in windows ==> s in jobs
    {
      var stationIds: seq<nat> := [];
      var cursor := 0;
      while cursor < |pages|
        invariant 0 <= cursor <= |pages|
        invariant forall s :: s in stationIds <==> exists i :: 0 <= i < cursor && s in pages[i]
      {
        var keys := pages[cursor];
        var longer := stationIds + keys;
        forall s
          ensures s in longer <==> exists i :: 0 <= i < cursor + 1 && s in pages[i]
        {
          if s in longer && s in keys {
            assert s in pages[cursor];
          }
        }
        stationIds := longer;
        cursor := cursor + 1;
      }
      forall s | s in windows
        ensures s in stationIds
      {
        var p :| p in pages && s in p;
        var i :| 0 <= i < |pages| && pages[i] == p;
      }
      for k := 0 to |stationIds|
        invariant Valid()
        invariant forall s :: s in old(jobs) ==> s in jobs && jobs[s] == old(jobs)[s]
        invariant forall s :: s in jobs && s !in old(jobs) ==> jobs[s] == Waiting && s in stationIds
        invariant forall i :: 0 <= i < k ==> stationIds[i] in jobs
      {
        var station := stationIds[k];
        if station !in jobs {
          jobs := jobs[station := Waiting];
        }
      }
      forall s | s in jobs && s !in old(jobs)
        ensures exists p :: p in pages && s in p
      {
        var i :| 0 <= i < |pages| && s in pages[i];
        assert pages[i] in pages;
      }
    }
  }

  /**
   * Recovery on one station's slot, after any trace: a stored window now has a record, and it is
   * attended exactly when the record found was not a spent one or a tracker is still to add one.
   */
  lemma RecoveredWindowAttended(trace: seq<Event>, stale: bool)
    requires IsTrace(trace) && After(trace).slot.window.Some?
    ensures IsTrace(trace + [Recover(stale)])
    ensures var before, after := After(trace), After(trace + [Recover(stale)]);
            && after.slot.job != NoJob
            && (Attended(after) <==>
                before.trackers != map[] || (before.slot.job != Failed && before.slot.job != ActiveRead))
  {
    Extend(trace, Recover(stale), After(trace));
  }

  /** Without a stored window recovery makes a record only where a stale scan lists the station and none exists. */
  lemma RecoveryWithoutWindow(trace: seq<Event>, stale: bool)
    requires IsTrace(trace) && After(trace).slot.window.None?
    ensures IsTrace(trace + [Recover(stale)])
    ensures After(trace + [Recover(stale)]).slot ==
            Slot(None, if stale && After(trace).slot.job == NoJob then Waiting else After(trace).slot.job)
  {
    Extend(trace, Recover(stale), After(trace));
  }
}
