/**
 * The replay protocol of one station: trackers merge time stamps into a stored window and
 * debounce a reconcile job by removing and re-adding it; a worker takes the window and
 * repairs the station; windows expire, jobs fail, processes crash and recover.
 *
 * Queue rules: adding a job id that exists does nothing, and removing a job does nothing
 * while it is active.
 */
module ReplayProtocol {
  import opened Common
  import opened Text
  import opened Timestamps

  /** One tracked cycle: its time stamp and the site the caller passed. */
  datatype Tracked = Tracked(at: Instant, site: nat)

  datatype Window = Window(minTs: string, maxTs: string, site: nat, count: nat)

  /** The job record of the station; an active job has or has not yet read the window. */
  datatype Job = NoJob | Waiting | ActiveUnread | ActiveRead | Failed

  /** What the stores hold for one station. */
  datatype Slot = Slot(window: Option<Window>, job: Job)

  // ---------------------------------------------------------------------------
  // The atomic operations
  // ---------------------------------------------------------------------------

  /** The window script: create the window, or widen it by string comparison and count one more. */
  function Merge(w: Option<Window>, t: Tracked): Window
    requires Valid(t.at)
  {
    var ts := IsoText(t.at);
    if w.None? then Window(ts, ts, t.site, 1)
    else
      w.value.(minTs := if TextBefore(ts, w.value.minTs) then ts else w.value.minTs,
               maxTs := if TextBefore(w.value.maxTs, ts) then ts else w.value.maxTs,
               count := w.value.count + 1)
  }

  predicate Active(j: Job) {
    j.ActiveUnread? || j.ActiveRead?
  }

  function RemoveJob(j: Job): Job {
    if Active(j) then j else NoJob
  }

  function AddJob(j: Job): Job {
    if j.NoJob? then Waiting else j
  }

  // ---------------------------------------------------------------------------
  // What a window says about the time stamps merged into it
  // ---------------------------------------------------------------------------

  predicate AllFixedWidth(ts: seq<Tracked>) {
    forall t :: t in ts ==> FixedWidth(t.at)
  }

  /** Merging the time stamps in order, starting without a window. */
  function WindowOf(ts: seq<Tracked>): Window
    requires ts != [] && AllFixedWidth(ts)
  {
    var n := |ts| - 1;
    Merge(if n == 0 then None else Some(WindowOf(ts[..n])), ts[n])
  }

  /** x is one of the time stamps and none is earlier (later). */
  predicate Earliest(x: Instant, ts: seq<Tracked>)
    requires AllFixedWidth(ts) && Valid(x)
  {
    (exists t :: t in ts && t.at == x) && forall t :: t in ts ==> Time(x) <= Time(t.at)
  }

  predicate LatestOf(x: Instant, ts: seq<Tracked>)
    requires AllFixedWidth(ts) && Valid(x)
  {
    (exists t :: t in ts && t.at == x) && forall t :: t in ts ==> Time(t.at) <= Time(x)
  }

  lemma FixedWidthOrder(a: Instant, b: Instant)
    requires FixedWidth(a) && FixedWidth(b)
    ensures TextBefore(IsoText(a), IsoText(b)) <==> Time(a) < Time(b)
    ensures IsoText(a) == IsoText(b) ==> a == b
  {
    TextOrderIsTimeOrder(a, b);
    TextOrderIsTimeOrder(b, a);
    TimeFollowsFields(a, b);
    if IsoText(a) == IsoText(b) {
      TextOrderIsTimeOrder(a, a);
    }
  }

  lemma EarliestStep(ts: seq<Tracked>, t: Tracked, x: Instant)
    requires ts != [] && AllFixedWidth(ts + [t]) && AllFixedWidth(ts) && FixedWidth(x) && Earliest(x, ts)
    ensures Earliest(if Time(t.at) < Time(x) then t.at else x, ts + [t])
  {
    var w :| w in ts && w.at == x;
    assert w in ts + [t] && t in ts + [t];
  }

  lemma LatestStep(ts: seq<Tracked>, t: Tracked, x: Instant)
    requires ts != [] && AllFixedWidth(ts + [t]) && AllFixedWidth(ts) && FixedWidth(x) && LatestOf(x, ts)
    ensures LatestOf(if Time(x) < Time(t.at) then t.at else x, ts + [t])
  {
    var w :| w in ts && w.at == x;
    assert w in ts + [t] && t in ts + [t];
  }

  /** The window carries the true earliest and latest time stamp and the number of merges. */
  lemma {:induction false} WindowIsExact(ts: seq<Tracked>) returns (first: Instant, last: Instant)
    requires ts != [] && AllFixedWidth(ts)
    ensures FixedWidth(first) && FixedWidth(last) && Earliest(first, ts) && LatestOf(last, ts)
    ensures WindowOf(ts) == Window(IsoText(first), IsoText(last), ts[0].site, |ts|)
  {
    var n := |ts| - 1;
    assert ts == ts[..n] + [ts[n]] && ts[n] in ts;
    if n == 0 {
      first, last := ts[0].at, ts[0].at;
    } else {
      var f, l := WindowIsExact(ts[..n]);
      first := if Time(ts[n].at) < Time(f) then ts[n].at else f;
      last := if Time(l) < Time(ts[n].at) then ts[n].at else l;
      EarliestStep(ts[..n], ts[n], f);
      LatestStep(ts[..n], ts[n], l);
      MergedBounds(WindowOf(ts[..n]), f, l, ts[n]);
    }
  }

  lemma MergedBounds(w: Window, first: Instant, last: Instant, t: Tracked)
    requires FixedWidth(first) && FixedWidth(last) && FixedWidth(t.at)
    requires w.minTs == IsoText(first) && w.maxTs == IsoText(last)
    ensures Merge(Some(w), t) == Window(IsoText(if Time(t.at) < Time(first) then t.at else first),
                                        IsoText(if Time(last) < Time(t.at) then t.at else last), w.site, w.count + 1)
  {
    FixedWidthOrder(t.at, first);
    FixedWidthOrder(last, t.at);
  }

  /** Every merged time stamp lies between the window's bounds, both as text and in time. */
  lemma WithinWindow(ts: seq<Tracked>, t: Tracked)
    requires AllFixedWidth(ts) && t in ts
    ensures var w := WindowOf(ts);
            !TextBefore(IsoText(t.at), w.minTs) && !TextBefore(w.maxTs, IsoText(t.at))
  {
    var first, last := WindowIsExact(ts);
    FixedWidthOrder(t.at, first);
    FixedWidthOrder(last, t.at);
  }

  lemma PermutationMembers(a: seq<Tracked>, b: seq<Tracked>, t: Tracked)
    requires multiset(a) == multiset(b)
    ensures t in a <==> t in b
    ensures |a| == |b|
  {
    assert t in a <==> t in multiset(a);
    assert t in b <==> t in multiset(b);
    assert |a| == |multiset(a)| && |b| == |multiset(b)|;
  }

  /**
   * The order of merging does not matter for the bounds and the count; the site is the one
   * of the first merge.
   */
  lemma MergeOrderIndependent(a: seq<Tracked>, b: seq<Tracked>)
    requires a != [] && b != [] && AllFixedWidth(a) && AllFixedWidth(b) && multiset(a) == multiset(b)
    ensures WindowOf(a).(site := 0) == WindowOf(b).(site := 0)
    ensures WindowOf(a) == WindowOf(b) <==> a[0].site == b[0].site
  {
    var firstA, lastA := WindowIsExact(a);
    var firstB, lastB := WindowIsExact(b);
    forall t
      ensures t in a <==> t in b
    {
      PermutationMembers(a, b, t);
    }
    PermutationMembers(a, b, a[0]);
    TimeFollowsFields(firstA, firstB);
    TimeFollowsFields(lastA, lastB);
  }

  // ---------------------------------------------------------------------------
  // The protocol
  // ---------------------------------------------------------------------------

  /** A tracking call that has merged its time stamp still has to remove, then add, the job. */
  datatype Phase = ToRemove | ToAdd

  datatype Retired = Retired(window: Window, taken: bool)

  datatype Proto = Proto(slot: Slot, trackers: map<nat, Phase>, retired: seq<Retired>)

  const START := Proto(Slot(None, NoJob), map[], [])

  /**
   * A tracking process may die with any of the trackers, and a worker with the job it runs,
   * which the queue then hands out again or fails. A stale recovery scan still lists a station
   * whose window has gone since.
   */
  datatype Event =
    | MergeStep(id: nat, item: Tracked)
    | RemoveStep(id: nat)
    | AddStep(id: nat)
    | StartJob
    | ReadWindow
    | FinishJob
    | FailJob
    | Expire
    | LoseTrackers(lost: set<nat>)
    | RetryJob
    | Recover(stale: bool)

  predicate Enabled(p: Proto, e: Event) {
    match e
    case MergeStep(id, item) => id !in p.trackers && FixedWidth(item.at)
    case RemoveStep(id) => id in p.trackers && p.trackers[id] == ToRemove
    case AddStep(id) => id in p.trackers && p.trackers[id] == ToAdd
    case StartJob => p.slot.job == Waiting
    case ReadWindow => p.slot.job == ActiveUnread
    case FinishJob => p.slot.job == ActiveRead
    case FailJob => Active(p.slot.job)
    case Expire => p.slot.window.Some?
    case LoseTrackers(_) => true
    case RetryJob => Active(p.slot.job)
    case Recover(_) => true
  }

  function RetireWindow(p: Proto, taken: bool): seq<Retired> {
    if p.slot.window.Some? then p.retired + [Retired(p.slot.window.value, taken)] else p.retired
  }

  function Next(p: Proto, e: Event): Proto
    requires Enabled(p, e)
  {
    match e
    case MergeStep(id, item) =>
      p.(slot := p.slot.(window := Some(Merge(p.slot.window, item))), trackers := p.trackers[id := ToRemove])
    case RemoveStep(id) =>
      p.(slot := p.slot.(job := RemoveJob(p.slot.job)), trackers := p.trackers[id := ToAdd])
    case AddStep(id) =>
      p.(slot := p.slot.(job := AddJob(p.slot.job)), trackers := p.trackers - {id})
    case StartJob => p.(slot := p.slot.(job := ActiveUnread))
    case ReadWindow => Proto(Slot(None, ActiveRead), p.trackers, RetireWindow(p, true))
    case FinishJob => p.(slot := p.slot.(job := NoJob))
    case FailJob => p.(slot := p.slot.(job := Failed))
    case Expire => Proto(p.slot.(window := None), p.trackers, RetireWindow(p, false))
    case LoseTrackers(lost) => p.(trackers := p.trackers - lost)
    case RetryJob => p.(slot := p.slot.(job := Waiting))
    case Recover(stale) =>
      p.(slot := p.slot.(job := if p.slot.window.Some? || stale then AddJob(p.slot.job) else p.slot.job))
  }

  /** Each event of the trace is enabled when it happens. */
  predicate IsTrace(trace: seq<Event>)
    decreases |trace|, 0
  {
    trace == [] ||
    var n := |trace| - 1;
    IsTrace(trace[..n]) && Enabled(After(trace[..n]), trace[n])
  }

  function After(trace: seq<Event>): Proto
    requires IsTrace(trace)
    decreases |trace|, 1
  {
    if trace == [] then START
    else
      var n := |trace| - 1;
      Next(After(trace[..n]), trace[n])
  }

  // ---------------------------------------------------------------------------
  // Accounting
  // ---------------------------------------------------------------------------

  /** What was tracked, in order of merging. */
  function TrackedBy(trace: seq<Event>): seq<Tracked> {
    if trace == [] then []
    else
      var n := |trace| - 1;
      TrackedBy(trace[..n]) + if trace[n].MergeStep? then [trace[n].item] else []
  }

  function Flatten(groups: seq<seq<Tracked>>): seq<Tracked> {
    if groups == [] then [] else Flatten(groups[..|groups| - 1]) + groups[|groups| - 1]
  }

  predicate WindowFor(w: Option<Window>, group: seq<Tracked>) {
    AllFixedWidth(group) && w == if group == [] then None else Some(WindowOf(group))
  }

  /** The groups partition what was tracked; each is the content of one window. */
  predicate Accounted(p: Proto, tracked: seq<Tracked>, groups: seq<seq<Tracked>>, current: seq<Tracked>) {
    && Flatten(groups) + current == tracked
    && WindowFor(p.slot.window, current)
    && |groups| == |p.retired|
    && forall k :: 0 <= k < |groups| ==> groups[k] != [] && WindowFor(Some(p.retired[k].window), groups[k])
  }

  lemma RetireAccounted(p: Proto, tracked: seq<Tracked>, groups: seq<seq<Tracked>>, current: seq<Tracked>, taken: bool, job: Job)
    requires Accounted(p, tracked, groups, current) && p.slot.window.Some?
    ensures Accounted(Proto(Slot(None, job), p.trackers, RetireWindow(p, taken)), tracked, groups + [current], [])
  {
    assert (groups + [current])[..|groups|] == groups;
    assert Flatten(groups + [current]) + [] == Flatten(groups) + current;
  }

  lemma MergeAccounted(p: Proto, tracked: seq<Tracked>, groups: seq<seq<Tracked>>, current: seq<Tracked>, item: Tracked)
    requires Accounted(p, tracked, groups, current) && FixedWidth(item.at)
    ensures WindowFor(Some(Merge(p.slot.window, item)), current + [item])
    ensures Flatten(groups) + (current + [item]) == tracked + [item]
  {
    assert (current + [item])[..|current|] == current;
    assert AllFixedWidth(current + [item]);
  }

  /**
   * Under every interleaving, each tracked time stamp was merged into exactly one window: the
   * windows taken or expired so far and the stored one hold consecutive stretches of what was
   * tracked, and each window is exactly what its stretch merges to.
   */
  lemma {:induction false} EveryTrackedOnce(trace: seq<Event>) returns (groups: seq<seq<Tracked>>, current: seq<Tracked>)
    requires IsTrace(trace)
    ensures Accounted(After(trace), TrackedBy(trace), groups, current)
  {
    if trace == [] {
      groups, current := [], [];
    } else {
      var n := |trace| - 1;
      var p, e := After(trace[..n]), trace[n];
      groups, current := EveryTrackedOnce(trace[..n]);
      if e.MergeStep? {
        MergeAccounted(p, TrackedBy(trace[..n]), groups, current, e.item);
        current := current + [e.item];
      } else if (e.ReadWindow? || e.Expire?) && p.slot.window.Some? {
        RetireAccounted(p, TrackedBy(trace[..n]), groups, current, e.ReadWindow?, Next(p, e).slot.job);
        groups, current := groups + [current], [];
      }
    }
  }

  function Counts(retired: seq<Retired>, taken: bool): nat {
    if retired == [] then 0
    else
      var last := retired[|retired| - 1];
      Counts(retired[..|retired| - 1], taken) + if last.taken == taken then last.window.count else 0
  }

  /** Tracking updates = counts of windows taken + count of the stored window + counts of windows expired. */
  lemma {:induction false} CountsAddUp(trace: seq<Event>)
    requires IsTrace(trace)
    ensures var p := After(trace);
            |TrackedBy(trace)| == Counts(p.retired, true) + Stored(p) + Counts(p.retired, false)
  {
    if trace != [] {
      var n := |trace| - 1;
      CountsAddUp(trace[..n]);
      CountStep(After(trace[..n]), trace[n]);
    }
  }

  function Stored(p: Proto): nat {
    if p.slot.window.Some? then p.slot.window.value.count else 0
  }

  lemma CountStep(p: Proto, e: Event)
    requires Enabled(p, e)
    ensures var p' := Next(p, e);
            Counts(p'.retired, true) + Stored(p') + Counts(p'.retired, false) ==
            Counts(p.retired, true) + Stored(p) + Counts(p.retired, false) + if e.MergeStep? then 1 else 0
  {
    if (e.ReadWindow? || e.Expire?) && p.slot.window.Some? {
      CountsMore(p.retired, Retired(p.slot.window.value, e.ReadWindow?), true);
      CountsMore(p.retired, Retired(p.slot.window.value, e.ReadWindow?), false);
    }
  }

  lemma CountsMore(retired: seq<Retired>, last: Retired, taken: bool)
    ensures Counts(retired + [last], taken) == Counts(retired, taken) + if last.taken == taken then last.window.count else 0
  {
    assert (retired + [last])[..|retired|] == retired;
  }

  // ---------------------------------------------------------------------------
  // No forgotten window
  // ---------------------------------------------------------------------------

  /** A stored window is attended: a job will read it, or a tracker has yet to add one. */
  predicate Attended(p: Proto) {
    p.slot.window.Some? ==> p.slot.job == Waiting || p.slot.job == ActiveUnread || p.trackers != map[]
  }

  /**
   * The events that forget a stored window: the last tracker in flight adds while a record
   * that will never read again occupies the job id, a job fails with no tracker in flight, or
   * the last trackers are lost while no job is left that will read.
   */
  predicate Forgets(p: Proto, e: Event) {
    p.slot.window.Some? &&
    match e
    case AddStep(id) => p.trackers.Keys == {id} && (p.slot.job == ActiveRead || p.slot.job == Failed)
    case FailJob => p.trackers == map[]
    case LoseTrackers(lost) => p.trackers.Keys <= lost && p.slot.job != Waiting && p.slot.job != ActiveUnread
    case _ => false
  }

  lemma NothingLeft(ids: set<nat>, lost: set<nat>)
    ensures ids - lost == {} <==> ids <= lost
  {
    if ids - lost == {} {
      forall id | id in ids
        ensures id in lost
      {
        assert id !in ids - lost;
      }
    }
  }

  /** From an attended state, an event leaves an attended state exactly when it is not a forgetting one. */
  lemma AttendedStep(p: Proto, e: Event)
    requires Enabled(p, e) && Attended(p)
    ensures Attended(Next(p, e)) <==> !Forgets(p, e)
  {
    match e
    case MergeStep(id, item) => assert id in Next(p, e).trackers;
    case RemoveStep(id) => assert id in Next(p, e).trackers;
    case AddStep(id) =>
      var left := Next(p, e).trackers;
      assert left.Keys == p.trackers.Keys - {id};
      assert left == map[] <==> left.Keys == {};
      assert left.Keys == {} <==> p.trackers.Keys == {id};
    case LoseTrackers(lost) =>
      var left := Next(p, e).trackers;
      assert left.Keys == p.trackers.Keys - lost;
      assert left == map[] <==> left.Keys == {};
      NothingLeft(p.trackers.Keys, lost);
    case _ =>
  }

  /** Every state along the trace satisfies the property. */
  predicate AttendedThroughout(trace: seq<Event>)
    requires IsTrace(trace)
  {
    (trace != [] ==> AttendedThroughout(trace[..|trace| - 1])) && Attended(After(trace))
  }

  predicate NeverForgets(trace: seq<Event>)
    requires IsTrace(trace)
  {
    trace != [] ==>
      var n := |trace| - 1;
      NeverForgets(trace[..n]) && !Forgets(After(trace[..n]), trace[n])
  }

  /** Over whole runs: windows stay attended exactly as long as no forgetting event happens. */
  lemma {:induction false} AttendedIffNeverForgets(trace: seq<Event>)
    requires IsTrace(trace)
    ensures AttendedThroughout(trace) <==> NeverForgets(trace)
  {
    if trace != [] {
      var n := |trace| - 1;
      AttendedIffNeverForgets(trace[..n]);
      if AttendedThroughout(trace[..n]) {
        assert Attended(After(trace[..n]));
        AttendedStep(After(trace[..n]), trace[n]);
      }
    }
  }

  /** A tracking call is in flight while a reconcile is active. */
  predicate Overlaps(p: Proto) {
    p.trackers != map[] && Active(p.slot.job)
  }

  /** No tracker lost, no job failing before its read, and no overlap in any state of the run. */
  predicate Orderly(trace: seq<Event>)
    requires IsTrace(trace)
  {
    !Overlaps(After(trace)) &&
    (trace != [] ==>
      var n := |trace| - 1;
      var p := After(trace[..n]);
      && Orderly(trace[..n]) && !trace[n].LoseTrackers?
      && !(trace[n].FailJob? && p.slot.job == ActiveUnread))
  }

  /** A tracker that has removed the job finds no spent record in the way of its add. */
  predicate PathClear(p: Proto) {
    forall id :: id in p.trackers && p.trackers[id] == ToAdd ==> p.slot.job == NoJob || p.slot.job == Waiting
  }

  lemma PathClearStep(p: Proto, e: Event)
    requires Enabled(p, e) && PathClear(p) && !Overlaps(p) && !Overlaps(Next(p, e)) && !e.LoseTrackers?
    ensures PathClear(Next(p, e))
  {
    var p' := Next(p, e);
    forall id | id in p'.trackers && p'.trackers[id] == ToAdd
      ensures p'.slot.job == NoJob || p'.slot.job == Waiting
    {
      assert p'.trackers != map[];
    }
  }

  lemma {:induction false} OrderlyKeepsPathClear(trace: seq<Event>)
    requires IsTrace(trace) && Orderly(trace)
    ensures PathClear(After(trace)) && (After(trace).slot.job == ActiveRead ==> After(trace).slot.window.None?)
  {
    if trace != [] {
      var n := |trace| - 1;
      var p := After(trace[..n]);
      OrderlyKeepsPathClear(trace[..n]);
      PathClearStep(p, trace[n]);
      if trace[n].MergeStep? {
        assert trace[n].id in After(trace).trackers;
      }
    }
  }

  /**
   * In every run in which no tracking call dies half-way or overlaps an active reconcile, a
   * stored window always has a waiting job, a tracker yet to add one, or a job that has
   * started and not yet read.
   */
  lemma {:induction false} NoForgottenWindow(trace: seq<Event>)
    requires IsTrace(trace) && Orderly(trace)
    ensures AttendedThroughout(trace)
  {
    if trace != [] {
      var n := |trace| - 1;
      NoForgottenWindow(trace[..n]);
      assert Attended(After(trace[..n]));
      OrderlyKeepsPathClear(trace[..n]);
      AttendedStep(After(trace[..n]), trace[n]);
    }
  }

  lemma Extend(trace: seq<Event>, e: Event, p: Proto)
    requires IsTrace(trace) && After(trace) == p && Enabled(p, e)
    ensures IsTrace(trace + [e]) && After(trace + [e]) == Next(p, e)
  {
    assert (trace + [e])[..|trace|] == trace;
  }

  /** A tracking call merges, removes the job and adds it again. */
  lemma TrackingCall(p: Proto, id: nat, item: Tracked)
    requires p.trackers == map[] && FixedWidth(item.at)
    ensures Enabled(p, MergeStep(id, item))
    ensures var p1 := Next(p, MergeStep(id, item));
            Enabled(p1, RemoveStep(id)) && Enabled(Next(p1, RemoveStep(id)), AddStep(id))
    ensures var p3 := Next(Next(Next(p, MergeStep(id, item)), RemoveStep(id)), AddStep(id));
            p3 == Proto(Slot(Some(Merge(p.slot.window, item)), AddJob(RemoveJob(p.slot.job))), map[], p.retired)
  {
    var p1 := Next(p, MergeStep(id, item));
    var p2 := Next(p1, RemoveStep(id));
    assert p2.trackers == map[id := ToAdd];
    assert Next(p2, AddStep(id)).trackers == map[];
  }

  lemma ExtendThrice(trace: seq<Event>, e1: Event, e2: Event, e3: Event, p: Proto)
    requires IsTrace(trace) && After(trace) == p && Enabled(p, e1) && Enabled(Next(p, e1), e2)
    requires Enabled(Next(Next(p, e1), e2), e3)
    ensures IsTrace(trace + [e1] + [e2] + [e3]) && After(trace + [e1] + [e2] + [e3]) == Next(Next(Next(p, e1), e2), e3)
  {
    Extend(trace, e1, p);
    Extend(trace + [e1], e2, Next(p, e1));
    Extend(trace + [e1] + [e2], e3, Next(Next(p, e1), e2));
  }

  /** One tracking call on its own, run to the end. */
  lemma TrackAlone(trace: seq<Event>, p: Proto, id: nat, item: Tracked) returns (longer: seq<Event>, p': Proto)
    requires IsTrace(trace) && After(trace) == p && p.trackers == map[] && FixedWidth(item.at)
    ensures IsTrace(longer) && After(longer) == p'
    ensures p' == Proto(Slot(Some(Merge(p.slot.window, item)), AddJob(RemoveJob(p.slot.job))), map[], p.retired)
  {
    TrackingCall(p, id, item);
    ExtendThrice(trace, MergeStep(id, item), RemoveStep(id), AddStep(id), p);
    longer := trace + [MergeStep(id, item)] + [RemoveStep(id)] + [AddStep(id)];
    p' := Next(Next(Next(p, MergeStep(id, item)), RemoveStep(id)), AddStep(id));
  }

  /**
   * Why the overlap must be excluded: one call runs, its job starts and reads, a second call
   * runs entirely while the job is active, and the job finishes. The second window is stored
   * and nothing will ever read it.
   */
  lemma OverlapForgets(a: Tracked, b: Tracked) returns (trace: seq<Event>)
    requires FixedWidth(a.at) && FixedWidth(b.at)
    ensures IsTrace(trace)
    ensures After(trace).slot.window == Some(WindowOf([b])) && After(trace).slot.job == NoJob
    ensures After(trace).trackers == map[] && !Attended(After(trace))
  {
    var t1, p1 := TrackAlone([], START, 1, a);
    Extend(t1, StartJob, p1);
    var p2 := Next(p1, StartJob);
    Extend(t1 + [StartJob], ReadWindow, p2);
    var p3 := Next(p2, ReadWindow);
    var t4, p4 := TrackAlone(t1 + [StartJob] + [ReadWindow], p3, 2, b);
    Extend(t4, FinishJob, p4);
    trace := t4 + [FinishJob];
    assert p4.slot.window == Some(Merge(None, b));
  }

  /**
   * Why recovery is no cure: a job reads its window, a second call runs entirely while the job
   * is active, and the job fails. Its record stays, so recovery adds nothing, and the second
   * window is stored with a failed record and no tracker in flight.
   */
  lemma RecoveryForgets(a: Tracked, b: Tracked, stale: bool) returns (trace: seq<Event>)
    requires FixedWidth(a.at) && FixedWidth(b.at)
    ensures IsTrace(trace) && trace != [] && trace[|trace| - 1] == Recover(stale)
    ensures After(trace).slot == Slot(Some(WindowOf([b])), Failed)
    ensures After(trace).trackers == map[] && !Attended(After(trace))
  {
    var t1, p1 := TrackAlone([], START, 1, a);
    Extend(t1, StartJob, p1);
    var p2 := Next(p1, StartJob);
    Extend(t1 + [StartJob], ReadWindow, p2);
    var p3 := Next(p2, ReadWindow);
    var t4, p4 := TrackAlone(t1 + [StartJob] + [ReadWindow], p3, 2, b);
    assert p4.slot.window == Some(Merge(None, b));
    Extend(t4, FailJob, p4);
    var p5 := Next(p4, FailJob);
    Extend(t4 + [FailJob], Recover(stale), p5);
    trace := t4 + [FailJob] + [Recover(stale)];
  }

  /**
   * The next tracking call is the cure: run on its own, it replaces a failed record by a waiting
   * job, and whatever window was stored is attended again.
   */
  lemma TrackingRevives(trace: seq<Event>, id: nat, item: Tracked) returns (longer: seq<Event>)
    requires IsTrace(trace) && After(trace).trackers == map[] && FixedWidth(item.at)
    requires !Active(After(trace).slot.job)
    ensures IsTrace(longer) && After(longer).slot == Slot(Some(Merge(After(trace).slot.window, item)), Waiting)
    ensures Attended(After(longer))
  {
    var p';
    longer, p' := TrackAlone(trace, After(trace), id, item);
  }

  /** A job that is handed out again reads and takes whatever window is stored by then. */
  lemma RetriedJobTakesWindow(trace: seq<Event>) returns (longer: seq<Event>)
    requires IsTrace(trace) && Active(After(trace).slot.job)
    ensures longer == trace + [RetryJob] + [StartJob] + [ReadWindow] && IsTrace(longer)
    ensures After(longer).slot == Slot(None, ActiveRead)
    ensures After(longer).retired ==
            After(trace).retired
            + if After(trace).slot.window.Some? then [Retired(After(trace).slot.window.value, true)] else []
  {
    ExtendThrice(trace, RetryJob, StartJob, ReadWindow, After(trace));
    longer := trace + [RetryJob] + [StartJob] + [ReadWindow];
  }

  /** A window that expires is gone unread, and nothing else changes. */
  lemma ExpiredWindowIsGone(trace: seq<Event>)
    requires IsTrace(trace) && After(trace).slot.window.Some?
    ensures IsTrace(trace + [Expire])
    ensures var before, after := After(trace), After(trace + [Expire]);
            && after.slot == Slot(None, before.slot.job) && after.trackers == before.trackers
            && after.retired == before.retired + [Retired(before.slot.window.value, false)]
  {
    Extend(trace, Expire, After(trace));
  }
}
