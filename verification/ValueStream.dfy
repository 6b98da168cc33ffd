/**
 * Streaming metric values: subscribe, buffer events, read a snapshot, emit it, then the
 * buffered events newer than it, then what was queued meanwhile. The stream is run against
 * writers that store a value and publish it later, in any interleaving.
 */
module ValueStream {
  import opened Common

  /**
   * A value written for the key of a metric value request; None is null. The stored row and the
   * published event each carry an observation time, and the two may come from different clocks.
   * Writes are numbered, so that no two are the same.
   */
  datatype Event = Event(site: nat, key: string, value: Option<int>, write: nat, at: int, sent: int)

  /** What a read yields for a key that was never written: null, observed at time 0. */
  function Unwritten(site: nat, key: string): Event {
    Event(site, key, None, 0, 0, 0)
  }

  datatype Emission = Emission(event: Event, initial: bool)

  /** The stream of one subscription; queued holds what the pump pushed, pulled how much was taken. */
  datatype Session = Session(buffering: bool, buffered: seq<Event>, queued: seq<Event>, pulled: nat, emitted: seq<Emission>)

  const NEW_SESSION := Session(true, [], [], 0, [])

  /** The site and the distinct keys a subscription asked for. */
  datatype Config = Config(site: nat, wanted: seq<string>)

  predicate DistinctKeys(c: Config) {
    forall i, j :: 0 <= i < j < |c.wanted| ==> c.wanted[i] != c.wanted[j]
  }

  predicate Wanted(c: Config, e: Event) {
    e.site == c.site && e.key in c.wanted
  }

  function OnEvent(c: Config, s: Session, e: Event): Session {
    if !Wanted(c, e) then s
    else if s.buffering then s.(buffered := s.buffered + [e])
    else s.(queued := s.queued + [e])
  }

  function Emitted(events: seq<Event>, initial: bool): (r: seq<Emission>)
    ensures |r| == |events|
  {
    if events == [] then [] else Emitted(events[..|events| - 1], initial) + [Emission(events[|events| - 1], initial)]
  }

  /** The observation time the snapshot has for a key, 0 when it has none. */
  function ObservedAt(values: seq<Event>, key: string): int {
    if values == [] then 0
    else
      var last := values[|values| - 1];
      if last.key == key then last.at else ObservedAt(values[..|values| - 1], key)
  }

  /** The buffered events observed after the snapshot's value of their key. */
  function Newer(buffered: seq<Event>, values: seq<Event>): seq<Event> {
    if buffered == [] then []
    else
      var last := buffered[|buffered| - 1];
      Newer(buffered[..|buffered| - 1], values) + if last.sent <= ObservedAt(values, last.key) then [] else [last]
  }

  function EndSnapshot(s: Session, values: seq<Event>): Session {
    s.(buffering := false, emitted := s.emitted + Emitted(values, true) + Emitted(Newer(s.buffered, values), false))
  }

  function Pull(s: Session): Session
    requires s.pulled < |s.queued|
  {
    s.(pulled := s.pulled + 1, emitted := s.emitted + [Emission(s.queued[s.pulled], false)])
  }

  function LastSeen(observedAt: map<string, int>, key: string): int {
    if key in observedAt then observedAt[key] else 0
  }

  /** The map of observation times says the same as the values it was made from. */
  ghost predicate Records(observedAt: map<string, int>, values: seq<Event>) {
    forall k :: LastSeen(observedAt, k) == ObservedAt(values, k)
  }

  method Observations(values: seq<Event>) returns (observedAt: map<string, int>)
    ensures Records(observedAt, values)
  {
    observedAt := map[];
    for i := 0 to |values|
      invariant Records(observedAt, values[..i])
    {
      observedAt := observedAt[values[i].key := values[i].at];
      assert values[..i + 1][..i] == values[..i];
    }
    assert values[..|values|] == values;
  }

  lemma EmittedMore(events: seq<Event>, i: nat, initial: bool)
    requires i < |events|
    ensures Emitted(events[..i + 1], initial) == Emitted(events[..i], initial) + [Emission(events[i], initial)]
  {
    assert events[..i + 1][..i] == events[..i];
  }

  lemma NewerMore(buffered: seq<Event>, i: nat, values: seq<Event>)
    requires i < |buffered|
    ensures Emitted(Newer(buffered[..i + 1], values), false) ==
            Emitted(Newer(buffered[..i], values), false)
            + if buffered[i].sent <= ObservedAt(values, buffered[i].key) then [] else [Emission(buffered[i], false)]
  {
    var before := Newer(buffered[..i], values);
    assert buffered[..i + 1][..i] == buffered[..i];
    if buffered[i].sent <= ObservedAt(values, buffered[i].key) {
      assert Newer(buffered[..i + 1], values) == before;
    } else {
      assert Newer(buffered[..i + 1], values) == before + [buffered[i]];
      EmittedMore(before + [buffered[i]], |before|, false);
      assert (before + [buffered[i]])[..|before|] == before && (before + [buffered[i]])[..|before| + 1] == before + [buffered[i]];
    }
  }

  /** The stream's own variables, changed event by event. */
  class Stream {
    const config: Config
    var buffering: bool
    var buffered: seq<Event>
    var queued: seq<Event>
    var pulled: nat
    var emitted: seq<Emission>

    ghost function View(): Session
      reads this
    {
      Session(buffering, buffered, queued, pulled, emitted)
    }

    constructor (config: Config)
      ensures this.config == config && View() == NEW_SESSION
    {
      this.config := config;
      buffering, buffered, queued, pulled, emitted := true, [], [], 0, [];
    }

    /** One turn of the pump. */
    method Receive(e: Event)
      modifies this
      ensures View() == OnEvent(config, old(View()), e)
    {
      if e.site != config.site {
        return;
      }
      if e.key !in config.wanted {
        return;
      }
      if buffering {
        buffered := buffered + [e];
        return;
      }
      queued := queued + [e];
    }

    /** The snapshot has been read: emit it, then the buffered events it does not cover. */
    method FinishSnapshot(values: seq<Event>)
      modifies this
      ensures View() == EndSnapshot(old(View()), values)
    {
      buffering := false;
      var observedAt := Observations(values);
      for i := 0 to |values|
        invariant View() == old(View()).(buffering := false, emitted := old(emitted) + Emitted(values[..i], true))
      {
        emitted := emitted + [Emission(values[i], true)];
        EmittedMore(values, i, true);
      }
      assert values[..|values|] == values;
      EmitNewer(values, observedAt);
    }

    method EmitNewer(values: seq<Event>, observedAt: map<string, int>)
      requires Records(observedAt, values)
      modifies this`emitted
      ensures emitted == old(emitted) + Emitted(Newer(buffered, values), false)
    {
      for i := 0 to |buffered|
        invariant emitted == old(emitted) + Emitted(Newer(buffered[..i], values), false)
      {
        var e := buffered[i];
        var last := LastSeen(observedAt, e.key);
        assert last == ObservedAt(values, e.key);
        NewerMore(buffered, i, values);
        if e.sent > last {
          emitted := emitted + [Emission(e, false)];
        }
      }
      assert buffered[..|buffered|] == buffered;
    }

    method Next() returns (e: Event)
      requires pulled < |queued|
      modifies this
      ensures View() == Pull(old(View())) && e == queued[old(pulled)]
    {
      e := queued[pulled];
      pulled := pulled + 1;
      emitted := emitted + [Emission(e, false)];
    }
  }

  // ---------------------------------------------------------------------------
  // The stream among its writers
  // ---------------------------------------------------------------------------

  /**
   * All stores so far, all publications so far, where in them the subscription began, how
   * many events were delivered to it, and the snapshot values read so far.
   */
  datatype World = World(stored: seq<Event>, published: seq<Event>, since: Option<nat>, delivered: nat,
                         read: map<string, Event>, session: Session)

  const NEW_WORLD := World([], [], None, 0, map[], NEW_SESSION)

  datatype Step =
    | Store(stored: Event)
    | Publish(published: Event)
    | Subscribe
    | Deliver
    | ReadValue(key: string)
    | Snapshot
    | PullOne

  /** The events of one key, in order. */
  function Of(events: seq<Event>, site: nat, key: string): seq<Event> {
    if events == [] then []
    else
      var last := events[|events| - 1];
      Of(events[..|events| - 1], site, key) + if last.site == site && last.key == key then [last] else []
  }

  /** What the key holds over time: nothing, then each value stored. */
  function History(c: Config, w: World, key: string): (r: seq<Event>)
    ensures r != []
  {
    [Unwritten(c.site, key)] + Of(w.stored, c.site, key)
  }

  function Current(c: Config, w: World, key: string): Event {
    var h := History(c, w, key);
    h[|h| - 1]
  }

  function SnapshotValues(c: Config, read: map<string, Event>): seq<Event>
    requires forall k :: k in c.wanted ==> k in read
  {
    seq(|c.wanted|, i requires 0 <= i < |c.wanted| => read[c.wanted[i]])
  }

  predicate Enabled(c: Config, w: World, s: Step) {
    match s
    case Store(e) => e.write > 0 && e !in w.stored
    case Publish(e) =>
      Of(w.published, e.site, e.key) + [e] <= Of(w.stored, e.site, e.key)
    case Subscribe => w.since.None?
    case Deliver => w.since.Some? && w.since.value + w.delivered < |w.published|
    case ReadValue(key) => w.since.Some? && w.session.buffering
    case Snapshot => w.since.Some? && w.session.buffering && forall k :: k in c.wanted ==> k in w.read
    case PullOne => !w.session.buffering && w.session.pulled < |w.session.queued|
  }

  function Apply(c: Config, w: World, s: Step): World
    requires Enabled(c, w, s)
  {
    match s
    case Store(e) => w.(stored := w.stored + [e])
    case Publish(e) => w.(published := w.published + [e])
    case Subscribe => w.(since := Some(|w.published|))
    case Deliver =>
      w.(session := OnEvent(c, w.session, w.published[w.since.value + w.delivered]), delivered := w.delivered + 1)
    case ReadValue(key) =>
      w.(read := w.read[key := Current(c, w, key)])
    case Snapshot => w.(session := EndSnapshot(w.session, SnapshotValues(c, w.read)))
    case PullOne => w.(session := Pull(w.session))
  }

  predicate IsRun(c: Config, steps: seq<Step>)
    decreases |steps|, 0
  {
    steps == [] ||
    var n := |steps| - 1;
    IsRun(c, steps[..n]) && Enabled(c, After(c, steps[..n]), steps[n])
  }

  function After(c: Config, steps: seq<Step>): World
    requires IsRun(c, steps)
    decreases |steps|, 1
  {
    if steps == [] then NEW_WORLD
    else
      var n := |steps| - 1;
      Apply(c, After(c, steps[..n]), steps[n])
  }

  /** Everything written to the key is published and delivered, the snapshot is out and the queue is empty. */
  predicate Quiescent(c: Config, w: World, key: string) {
    && Of(w.published, c.site, key) == Of(w.stored, c.site, key)
    && w.since.Some? && w.since.value + w.delivered == |w.published|
    && !w.session.buffering && w.session.pulled == |w.session.queued|
  }

  /** The emissions of one key, in order. */
  function EmittedOf(emitted: seq<Emission>, key: string): seq<Event> {
    if emitted == [] then []
    else
      var last := emitted[|emitted| - 1].event;
      EmittedOf(emitted[..|emitted| - 1], key) + if last.key == key then [last] else []
  }

  // ---------------------------------------------------------------------------
  // One key at a time
  // ---------------------------------------------------------------------------

  lemma {:induction false} OfConcat(a: seq<Event>, b: seq<Event>, site: nat, key: string)
    ensures Of(a + b, site, key) == Of(a, site, key) + Of(b, site, key)
  {
    if b == [] {
      assert a + b == a;
    } else {
      assert (a + b)[..|a + b| - 1] == a + b[..|b| - 1];
      OfConcat(a, b[..|b| - 1], site, key);
    }
  }

  lemma OfSnoc(a: seq<Event>, e: Event, site: nat, key: string)
    ensures Of(a + [e], site, key) == Of(a, site, key) + if e.site == site && e.key == key then [e] else []
  {
    assert (a + [e])[..|a|] == a;
  }

  lemma {:induction false} EmittedOfConcat(a: seq<Emission>, b: seq<Emission>, key: string)
    ensures EmittedOf(a + b, key) == EmittedOf(a, key) + EmittedOf(b, key)
  {
    if b == [] {
      assert a + b == a;
    } else {
      assert (a + b)[..|a + b| - 1] == a + b[..|b| - 1];
      EmittedOfConcat(a, b[..|b| - 1], key);
    }
  }

  predicate AllOfSite(events: seq<Event>, site: nat) {
    forall e :: e in events ==> e.site == site
  }

  lemma {:induction false} EmittedOfEvents(events: seq<Event>, initial: bool, site: nat, key: string)
    requires AllOfSite(events, site)
    ensures EmittedOf(Emitted(events, initial), key) == Of(events, site, key)
  {
    if events != [] {
      var n := |events| - 1;
      assert events == events[..n] + [events[n]];
      EmittedOfEvents(events[..n], initial, site, key);
    }
  }

  /** The events of a key sent as observed after a given time. */
  function Later(events: seq<Event>, at: int): seq<Event> {
    if events == [] then []
    else
      var last := events[|events| - 1];
      Later(events[..|events| - 1], at) + if last.sent <= at then [] else [last]
  }

  lemma LaterSnoc(events: seq<Event>, e: Event, at: int)
    ensures Later(events + [e], at) == Later(events, at) + if e.sent <= at then [] else [e]
  {
    assert (events + [e])[..|events|] == events;
  }

  lemma NewerSnoc(buffered: seq<Event>, e: Event, values: seq<Event>)
    ensures Newer(buffered + [e], values) == Newer(buffered, values) + if e.sent <= ObservedAt(values, e.key) then [] else [e]
  {
    assert (buffered + [e])[..|buffered|] == buffered;
  }

  lemma {:induction false} NewerMembers(buffered: seq<Event>, values: seq<Event>)
    ensures forall e :: e in Newer(buffered, values) ==> e in buffered
  {
    if buffered != [] {
      var n := |buffered| - 1;
      NewerMembers(buffered[..n], values);
      assert buffered == buffered[..n] + [buffered[n]];
    }
  }

  lemma NewerOfKeyStep(init: seq<Event>, e: Event, values: seq<Event>, site: nat, key: string)
    requires Of(Newer(init, values), site, key) == Later(Of(init, site, key), ObservedAt(values, key))
    ensures Of(Newer(init + [e], values), site, key) == Later(Of(init + [e], site, key), ObservedAt(values, key))
  {
    var newer, mine := Newer(init, values), Of(init, site, key);
    NewerSnoc(init, e, values);
    OfSnoc(init, e, site, key);
    if e.site == site && e.key == key {
      LaterSnoc(mine, e, ObservedAt(values, key));
    } else {
      assert Of(init + [e], site, key) == mine;
    }
    if e.sent <= ObservedAt(values, e.key) {
      assert Newer(init + [e], values) == newer;
    } else {
      OfSnoc(newer, e, site, key);
    }
  }

  lemma {:induction false} NewerOfKey(buffered: seq<Event>, values: seq<Event>, site: nat, key: string)
    ensures Of(Newer(buffered, values), site, key) == Later(Of(buffered, site, key), ObservedAt(values, key))
  {
    if buffered != [] {
      var init, e := buffered[..|buffered| - 1], buffered[|buffered| - 1];
      assert buffered == init + [e];
      assert Of(Newer(init, values), site, key) == Later(Of(init, site, key), ObservedAt(values, key)) by {
        NewerOfKey(init, values, site, key);
      }
      NewerOfKeyStep(init, e, values, site, key);
    }
  }

  lemma {:induction false} ValuesOfKey(values: seq<Event>, i: nat, site: nat, key: string)
    requires i < |values| && values[i].key == key && AllOfSite(values, site)
    requires forall j :: 0 <= j < |values| && j != i ==> values[j].key != key
    ensures Of(values, site, key) == [values[i]] && ObservedAt(values, key) == values[i].at
  {
    var n := |values| - 1;
    assert values[n] in values;
    assert AllOfSite(values[..n], site);
    if i < n {
      ValuesOfKey(values[..n], i, site, key);
    } else {
      NoneOfKey(values[..n], site, key);
    }
  }

  lemma {:induction false} NoneOfKey(values: seq<Event>, site: nat, key: string)
    requires forall j :: 0 <= j < |values| ==> values[j].key != key
    ensures Of(values, site, key) == []
  {
    if values != [] {
      NoneOfKey(values[..|values| - 1], site, key);
    }
  }

  // ---------------------------------------------------------------------------
  // What holds throughout a run, for one requested key
  // ---------------------------------------------------------------------------

  predicate Distinct(events: seq<Event>) {
    forall i, j :: 0 <= i < j < |events| ==> events[i] != events[j]
  }

  /** Publications of the key follow its stores, no two of which are the same. */
  predicate InOrder(c: Config, w: World, key: string) {
    && Distinct(History(c, w, key))
    && Of(w.published, c.site, key) <= Of(w.stored, c.site, key)
  }

  /** What the session has of the key, and what was delivered of it since the subscription. */
  function Arrived(c: Config, s: Session, key: string): seq<Event> {
    Of(s.buffered, c.site, key) + Of(s.queued, c.site, key)
  }

  function Due(c: Config, w: World, key: string): seq<Event>
    requires w.since.Some? && w.since.value + w.delivered <= |w.published|
  {
    Of(w.published[w.since.value..w.since.value + w.delivered], c.site, key)
  }

  /** Before the subscription nothing has happened; after it, nothing delivered was lost or reordered. */
  predicate Delivering(c: Config, w: World, key: string) {
    && AllOfSite(w.session.buffered, c.site) && AllOfSite(w.session.queued, c.site)
    && (w.since.None? ==> w.session == NEW_SESSION && w.delivered == 0)
    && (w.since.Some? ==>
          && w.since.value + w.delivered <= |w.published|
          && Arrived(c, w.session, key) == Due(c, w, key))
  }

  /** What was published of the key before the subscription. */
  function Missed(c: Config, w: World, key: string): seq<Event>
    requires w.since.Some? && w.since.value <= |w.published|
  {
    Of(w.published[..w.since.value], c.site, key)
  }

  /** The i-th entry of the history is this event, and it is no older than the last one missed. */
  predicate RecentStore(history: seq<Event>, missed: nat, i: int, e: Event) {
    missed <= i < |history| && history[i] == e
  }

  ghost predicate SomeRecentStore(history: seq<Event>, missed: nat, e: Event) {
    exists i :: RecentStore(history, missed, i, e)
  }

  /** The snapshot value is in the history of the key, no older than the last one published before the subscription. */
  ghost predicate ReadIsRecent(c: Config, w: World, key: string) {
    && (forall k :: k in w.read ==> w.read[k].site == c.site && w.read[k].key == k)
    && (w.since.None? ==> w.read == map[])
    && (w.since.Some? ==> w.since.value <= |w.published|)
    && (w.since.Some? && key in w.read ==>
          SomeRecentStore(History(c, w, key), |Missed(c, w, key)|, w.read[key]))
  }

  /** What went out for the key: the snapshot, the newer buffered events, the queued events pulled. */
  predicate Output(c: Config, w: World, key: string) {
    var s := w.session;
    && s.pulled <= |s.queued|
    && (s.buffering ==> s.queued == [] && s.emitted == [] && s.pulled == 0)
    && (!s.buffering ==>
          && key in w.read
          && EmittedOf(s.emitted, key) ==
             [w.read[key]] + Later(Of(s.buffered, c.site, key), w.read[key].at) + Of(s.queued[..s.pulled], c.site, key))
  }

  lemma InOrderStep(c: Config, w: World, s: Step, key: string)
    requires Enabled(c, w, s) && InOrder(c, w, key)
    ensures InOrder(c, Apply(c, w, s), key)
  {
    match s
    case Store(e) =>
      OfSnoc(w.stored, e, c.site, key);
      OfMembers(w.stored, c.site, key);
      if e.site == c.site && e.key == key {
        assert History(c, Apply(c, w, s), key) == History(c, w, key) + [e];
        DistinctMore(History(c, w, key), e);
      } else {
        assert History(c, Apply(c, w, s), key) == History(c, w, key);
      }
    case Publish(e) => OfSnoc(w.published, e, c.site, key);
    case _ =>
  }

  lemma DistinctMore(events: seq<Event>, e: Event)
    requires Distinct(events) && e !in events
    ensures Distinct(events + [e])
  {
  }

  lemma SessionReceives(c: Config, s: Session, e: Event, key: string)
    requires key in c.wanted && (s.buffering ==> s.queued == [])
    requires AllOfSite(s.buffered, c.site) && AllOfSite(s.queued, c.site)
    ensures var t := OnEvent(c, s, e);
            && AllOfSite(t.buffered, c.site) && AllOfSite(t.queued, c.site)
            && Arrived(c, t, key) == Arrived(c, s, key) + if e.site == c.site && e.key == key then [e] else []
  {
    if Wanted(c, e) {
      AllOfSiteMore(s.buffered, e, c.site);
      AllOfSiteMore(s.queued, e, c.site);
      if s.buffering {
        OfSnoc(s.buffered, e, c.site, key);
        assert Of(s.queued, c.site, key) == [];
      } else {
        OfSnoc(s.queued, e, c.site, key);
      }
    }
  }

  lemma AllOfSiteMore(events: seq<Event>, e: Event, site: nat)
    requires AllOfSite(events, site) && e.site == site
    ensures AllOfSite(events + [e], site)
  {
  }

  lemma OfNext(events: seq<Event>, from: nat, to: nat, site: nat, key: string)
    requires from <= to < |events|
    ensures Of(events[from..to + 1], site, key) ==
            Of(events[from..to], site, key) + if events[to].site == site && events[to].key == key then [events[to]] else []
  {
    assert events[from..to + 1] == events[from..to] + [events[to]];
    OfSnoc(events[from..to], events[to], site, key);
  }

  lemma DeliveringDeliver(c: Config, w: World, key: string)
    requires Enabled(c, w, Deliver) && Delivering(c, w, key) && key in c.wanted
    requires w.session.buffering ==> w.session.queued == []
    ensures Delivering(c, Apply(c, w, Deliver), key)
  {
    var w' := Apply(c, w, Deliver);
    DueNext(c, w, w', key);
    SessionReceives(c, w.session, w.published[w.since.value + w.delivered], key);
  }

  lemma DueNext(c: Config, w: World, w': World, key: string)
    requires w.since.Some? && w.since.value + w.delivered < |w.published|
    requires w'.since == w.since && w'.published == w.published && w'.delivered == w.delivered + 1
    ensures var e := w.published[w.since.value + w.delivered];
            Due(c, w', key) == Due(c, w, key) + if e.site == c.site && e.key == key then [e] else []
  {
    OfNext(w.published, w.since.value, w.since.value + w.delivered, c.site, key);
  }

  lemma DeliveringPublish(c: Config, w: World, e: Event, key: string)
    requires Enabled(c, w, Publish(e)) && Delivering(c, w, key)
    ensures Delivering(c, Apply(c, w, Publish(e)), key)
  {
    if w.since.Some? {
      var from, to := w.since.value, w.since.value + w.delivered;
      assert (w.published + [e])[from..to] == w.published[from..to];
    }
  }

  lemma DeliveringStep(c: Config, w: World, s: Step, key: string)
    requires Enabled(c, w, s) && Delivering(c, w, key) && key in c.wanted && Output(c, w, key)
    ensures Delivering(c, Apply(c, w, s), key)
  {
    match s
    case Deliver => DeliveringDeliver(c, w, key);
    case Publish(e) => DeliveringPublish(c, w, e, key);
    case Subscribe => assert w.published[|w.published|..|w.published|] == [];
    case _ =>
  }

  lemma {:induction false} OfPrefix(a: seq<Event>, n: nat, site: nat, key: string)
    requires n <= |a|
    ensures Of(a[..n], site, key) <= Of(a, site, key)
  {
    assert a == a[..n] + a[n..];
    OfConcat(a[..n], a[n..], site, key);
  }

  lemma CurrentIsOfKey(c: Config, w: World, key: string)
    ensures Current(c, w, key).site == c.site && Current(c, w, key).key == key
  {
    OfMembers(w.stored, c.site, key);
  }

  lemma {:induction false} OfMembers(events: seq<Event>, site: nat, key: string)
    ensures forall e :: e in Of(events, site, key) ==> e in events && e.site == site && e.key == key
  {
    if events != [] {
      var n := |events| - 1;
      OfMembers(events[..n], site, key);
      assert events == events[..n] + [events[n]];
    }
  }

  lemma RecentStoreStays(history: seq<Event>, more: seq<Event>, missed: nat, e: Event)
    requires SomeRecentStore(history, missed, e)
    ensures SomeRecentStore(history + more, missed, e)
  {
    var i :| RecentStore(history, missed, i, e);
    assert RecentStore(history + more, missed, i, e);
  }

  lemma HistoryGrows(c: Config, w: World, e: Event, key: string) returns (more: seq<Event>)
    requires Enabled(c, w, Store(e))
    ensures History(c, Apply(c, w, Store(e)), key) == History(c, w, key) + more
  {
    OfSnoc(w.stored, e, c.site, key);
    more := if e.site == c.site && e.key == key then [e] else [];
  }

  lemma ReadStore(c: Config, w: World, e: Event, key: string)
    requires Enabled(c, w, Store(e)) && ReadIsRecent(c, w, key)
    ensures ReadIsRecent(c, Apply(c, w, Store(e)), key)
  {
    if w.since.Some? && key in w.read {
      var more := HistoryGrows(c, w, e, key);
      RecentStoreStays(History(c, w, key), more, |Missed(c, w, key)|, w.read[key]);
    }
  }

  lemma ReadPublish(c: Config, w: World, e: Event, key: string)
    requires Enabled(c, w, Publish(e)) && ReadIsRecent(c, w, key)
    ensures ReadIsRecent(c, Apply(c, w, Publish(e)), key)
  {
    if w.since.Some? {
      assert (w.published + [e])[..w.since.value] == w.published[..w.since.value];
    }
  }

  lemma ReadReadValue(c: Config, w: World, k: string, key: string)
    requires Enabled(c, w, ReadValue(k)) && ReadIsRecent(c, w, key) && InOrder(c, w, key)
    ensures ReadIsRecent(c, Apply(c, w, ReadValue(k)), key)
  {
    CurrentIsOfKey(c, w, k);
    if k == key {
      OfPrefix(w.published, w.since.value, c.site, key);
      var h := History(c, w, key);
      assert RecentStore(h, |Missed(c, w, key)|, |h| - 1, h[|h| - 1]);
    }
  }

  lemma ReadStep(c: Config, w: World, s: Step, key: string)
    requires Enabled(c, w, s) && ReadIsRecent(c, w, key) && InOrder(c, w, key)
    ensures ReadIsRecent(c, Apply(c, w, s), key)
  {
    match s
    case Store(e) => ReadStore(c, w, e, key);
    case Publish(e) => ReadPublish(c, w, e, key);
    case ReadValue(k) => ReadReadValue(c, w, k, key);
    case _ =>
  }

  /** The emissions of one key when the snapshot goes out. */
  lemma SnapshotOfKey(c: Config, buffered: seq<Event>, read: map<string, Event>, key: string)
    requires key in c.wanted && DistinctKeys(c) && AllOfSite(buffered, c.site)
    requires (forall k :: k in c.wanted ==> k in read) && forall k :: k in read ==> read[k].site == c.site && read[k].key == k
    ensures var values := SnapshotValues(c, read);
            EmittedOf(Emitted(values, true) + Emitted(Newer(buffered, values), false), key) ==
            [read[key]] + Later(Of(buffered, c.site, key), read[key].at)
  {
    var values := SnapshotValues(c, read);
    var newer := Newer(buffered, values);
    var k :| 0 <= k < |c.wanted| && c.wanted[k] == key;
    assert AllOfSite(values, c.site);
    assert Of(values, c.site, key) == [read[key]] && ObservedAt(values, key) == read[key].at by {
      ValuesOfKey(values, k, c.site, key);
    }
    NewerOfKey(buffered, values, c.site, key);
    assert AllOfSite(newer, c.site) by {
      NewerMembers(buffered, values);
    }
    EmittedOfEvents(values, true, c.site, key);
    EmittedOfEvents(newer, false, c.site, key);
    EmittedOfConcat(Emitted(values, true), Emitted(newer, false), key);
  }

  /** The same on a session that has emitted nothing yet. */
  lemma SnapshotOfSession(c: Config, s: Session, read: map<string, Event>, key: string)
    requires key in c.wanted && DistinctKeys(c) && AllOfSite(s.buffered, c.site) && s.emitted == []
    requires (forall k :: k in c.wanted ==> k in read) && forall k :: k in read ==> read[k].site == c.site && read[k].key == k
    ensures EmittedOf(EndSnapshot(s, SnapshotValues(c, read)).emitted, key) ==
            [read[key]] + Later(Of(s.buffered, c.site, key), read[key].at)
  {
    var values := SnapshotValues(c, read);
    SnapshotOfKey(c, s.buffered, read, key);
    assert [] + Emitted(values, true) + Emitted(Newer(s.buffered, values), false) ==
           Emitted(values, true) + Emitted(Newer(s.buffered, values), false);
  }

  lemma OutputSnapshot(c: Config, w: World, key: string)
    requires Enabled(c, w, Snapshot) && key in c.wanted && DistinctKeys(c)
    requires AllOfSite(w.session.buffered, c.site) && w.session.emitted == [] && w.session.pulled == 0
    requires forall k :: k in w.read ==> w.read[k].site == c.site && w.read[k].key == k
    ensures Output(c, Apply(c, w, Snapshot), key)
  {
    SnapshotOfSession(c, w.session, w.read, key);
    assert Of(w.session.queued[..0], c.site, key) == [];
  }

  lemma OutputPull(c: Config, w: World, key: string)
    requires Enabled(c, w, PullOne) && Output(c, w, key) && AllOfSite(w.session.queued, c.site)
    ensures Output(c, Apply(c, w, PullOne), key)
  {
    var q, n, emitted := w.session.queued, w.session.pulled, w.session.emitted;
    var mine := if q[n].key == key then [q[n]] else [];
    assert Of(q[..n + 1], c.site, key) == Of(q[..n], c.site, key) + mine by {
      assert q[n] in q;
      assert q[..n + 1] == q[..n] + [q[n]];
      OfSnoc(q[..n], q[n], c.site, key);
    }
    assert EmittedOf(emitted + [Emission(q[n], false)], key) == EmittedOf(emitted, key) + mine by {
      assert (emitted + [Emission(q[n], false)])[..|emitted|] == emitted;
    }
  }

  lemma OutputDeliver(c: Config, w: World, key: string)
    requires Enabled(c, w, Deliver) && Output(c, w, key)
    ensures Output(c, Apply(c, w, Deliver), key)
  {
    var q, n := w.session.queued, w.session.pulled;
    assert Apply(c, w, Deliver).session.queued[..n] == q[..n];
  }

  lemma OutputStep(c: Config, w: World, s: Step, key: string)
    requires Enabled(c, w, s) && key in c.wanted && DistinctKeys(c)
    requires Output(c, w, key) && Delivering(c, w, key) && ReadIsRecent(c, w, key)
    ensures Output(c, Apply(c, w, s), key)
  {
    match s
    case Snapshot => OutputSnapshot(c, w, key);
    case PullOne => OutputPull(c, w, key);
    case Deliver => OutputDeliver(c, w, key);
    case _ =>
  }

  /** What every state of a run satisfies. */
  ghost predicate Sound(c: Config, w: World, key: string) {
    InOrder(c, w, key) && Delivering(c, w, key) && ReadIsRecent(c, w, key) && Output(c, w, key)
  }

  lemma SoundStep(c: Config, w: World, s: Step, key: string)
    requires Enabled(c, w, s) && Sound(c, w, key) && key in c.wanted && DistinctKeys(c)
    ensures Sound(c, Apply(c, w, s), key)
  {
    assert InOrder(c, Apply(c, w, s), key) by { InOrderStep(c, w, s, key); }
    assert Delivering(c, Apply(c, w, s), key) by { DeliveringStep(c, w, s, key); }
    assert ReadIsRecent(c, Apply(c, w, s), key) by { ReadStep(c, w, s, key); }
    assert Output(c, Apply(c, w, s), key) by { OutputStep(c, w, s, key); }
  }

  lemma {:induction false} Throughout(c: Config, steps: seq<Step>, key: string)
    requires IsRun(c, steps) && key in c.wanted && DistinctKeys(c)
    ensures Sound(c, After(c, steps), key)
  {
    if steps != [] {
      var n := |steps| - 1;
      Throughout(c, steps[..n], key);
      SoundStep(c, After(c, steps[..n]), steps[n], key);
    }
  }

  // ---------------------------------------------------------------------------
  // Convergence
  // ---------------------------------------------------------------------------

  /** The last write of the key is the last one emitted for it. */
  predicate Converged(c: Config, w: World, key: string) {
    var out := EmittedOf(w.session.emitted, key);
    out != [] && out[|out| - 1] == Current(c, w, key)
  }

  /**
   * What decides convergence at rest: something was queued after the snapshot, or nothing was
   * buffered before it, or the last event buffered was sent as newer than the value read, or the
   * value read is the current one and no buffered event was sent as newer.
   */
  predicate LastWriteGetsOut(c: Config, w: World, key: string)
    requires key in w.read
  {
    var read := w.read[key];
    var buffered, queued := Of(w.session.buffered, c.site, key), Of(w.session.queued, c.site, key);
    || queued != []
    || buffered == []
    || buffered[|buffered| - 1].sent > read.at
    || (read == Current(c, w, key) && forall e :: e in buffered ==> e.sent <= read.at)
  }

  lemma {:induction false} LaterMembers(events: seq<Event>, at: int, e: Event)
    ensures e in Later(events, at) <==> e in events && e.sent > at
  {
    if events != [] {
      var n := |events| - 1;
      LaterMembers(events[..n], at, e);
      assert events == events[..n] + [events[n]];
    }
  }

  lemma LaterLast(events: seq<Event>, at: int)
    requires events != []
    ensures var r := Later(events, at);
            if events[|events| - 1].sent > at then r != [] && r[|r| - 1] == events[|events| - 1]
            else events[|events| - 1] !in r
  {
    LaterMembers(events, at, events[|events| - 1]);
  }

  lemma LaterEmptyIff(events: seq<Event>, at: int)
    ensures Later(events, at) == [] <==> forall e :: e in events ==> e.sent <= at
  {
    var r := Later(events, at);
    forall e
      ensures e in r <==> e in events && e.sent > at
    {
      LaterMembers(events, at, e);
    }
    if r != [] {
      assert r[0] in r;
    }
  }

  /** The history is what was missed, then what was buffered, then what was queued. */
  lemma LastOutIff(history: seq<Event>, missed: seq<Event>, buffered: seq<Event>, queued: seq<Event>, i: nat)
    requires Distinct(history) && missed != [] && history == missed + (buffered + queued)
    requires |missed| - 1 <= i < |history|
    ensures var out := [history[i]] + Later(buffered, history[i].at) + queued;
            var current := history[|history| - 1];
            out[|out| - 1] == current <==>
            || queued != [] || buffered == [] || buffered[|buffered| - 1].sent > history[i].at
            || (history[i] == current && forall e :: e in buffered ==> e.sent <= history[i].at)
  {
    var n, at := |history|, history[i].at;
    if queued != [] {
      assert queued[|queued| - 1] == history[n - 1];
    } else if buffered == [] {
      assert i == n - 1;
    } else {
      assert history == missed + buffered;
      assert buffered[|buffered| - 1] == history[n - 1];
      LaterLast(buffered, at);
      LaterEmptyIff(buffered, at);
      var later := Later(buffered, at);
      if later != [] {
        assert later[|later| - 1] in later;
      }
    }
  }

  lemma HistorySplits(c: Config, w: World, key: string)
    requires Quiescent(c, w, key) && Delivering(c, w, key)
    ensures History(c, w, key) ==
            [Unwritten(c.site, key)] + Missed(c, w, key)
            + (Of(w.session.buffered, c.site, key) + Of(w.session.queued, c.site, key))
  {
    var from := w.since.value;
    var since := w.published[from..];
    assert Of(w.published, c.site, key) == Missed(c, w, key) + Of(since, c.site, key) by {
      assert w.published == w.published[..from] + since;
      OfConcat(w.published[..from], since, c.site, key);
    }
    assert w.published[from..from + w.delivered] == since;
  }

  lemma SnapshotIndex(c: Config, w: World, key: string) returns (i: nat)
    requires ReadIsRecent(c, w, key) && w.since.Some? && key in w.read
    ensures w.since.value <= |w.published|
    ensures |Missed(c, w, key)| <= i < |History(c, w, key)| && History(c, w, key)[i] == w.read[key]
  {
    i :| RecentStore(History(c, w, key), |Missed(c, w, key)|, i, w.read[key]);
  }

  lemma OutputAtRest(c: Config, w: World, key: string)
    requires Output(c, w, key) && Quiescent(c, w, key)
    ensures key in w.read
    ensures EmittedOf(w.session.emitted, key) ==
            [w.read[key]] + Later(Of(w.session.buffered, c.site, key), w.read[key].at) + Of(w.session.queued, c.site, key)
  {
    assert w.session.queued[..w.session.pulled] == w.session.queued;
  }

  lemma ConvergedAtRestIff(c: Config, w: World, key: string)
    requires Sound(c, w, key) && Quiescent(c, w, key)
    ensures key in w.read && (Converged(c, w, key) <==> LastWriteGetsOut(c, w, key))
  {
    OutputAtRest(c, w, key);
    HistorySplits(c, w, key);
    var i := SnapshotIndex(c, w, key);
    LastOutIff(History(c, w, key), [Unwritten(c.site, key)] + Missed(c, w, key),
               Of(w.session.buffered, c.site, key), Of(w.session.queued, c.site, key), i);
  }

  /**
   * In every run, once all that was written to a requested key has been published, delivered
   * and drained, the last write emitted is the last write exactly when the comparison of the
   * event times with the time of the value read lets it out.
   */
  lemma ConvergesIff(c: Config, steps: seq<Step>, key: string)
    requires IsRun(c, steps) && key in c.wanted && DistinctKeys(c)
    requires Quiescent(c, After(c, steps), key)
    ensures key in After(c, steps).read
    ensures Converged(c, After(c, steps), key) <==> LastWriteGetsOut(c, After(c, steps), key)
  {
    Throughout(c, steps, key);
    ConvergedAtRestIff(c, After(c, steps), key);
  }

  /**
   * Clocks that agree well enough: stored times increase, sent times do not decrease, and no
   * event is sent as observed before its row was stored. One clock for both is the plain case.
   */
  predicate WellClocked(history: seq<Event>) {
    && (forall i, j :: 0 <= i < j < |history| ==> history[i].at < history[j].at && history[i].sent <= history[j].sent)
    && forall i :: 0 <= i < |history| ==> history[i].at <= history[i].sent
  }

  lemma WellClockedGetsOut(history: seq<Event>, missed: seq<Event>, buffered: seq<Event>, i: nat)
    requires WellClocked(history) && history == missed + buffered && buffered != [] && i < |history|
    ensures || buffered[|buffered| - 1].sent > history[i].at
            || (i == |history| - 1 && forall e :: e in buffered ==> e.sent <= history[i].at)
  {
    var n := |history|;
    assert buffered[|buffered| - 1] == history[n - 1];
    if i == n - 1 {
      forall e | e in buffered
        ensures e.sent <= history[n - 1].sent
      {
        var j :| 0 <= j < |buffered| && buffered[j] == e;
        assert history[|missed| + j] == e;
      }
    }
  }

  /** With such clocks every run converges. */
  lemma Converges(c: Config, steps: seq<Step>, key: string)
    requires IsRun(c, steps) && key in c.wanted && DistinctKeys(c)
    requires Quiescent(c, After(c, steps), key) && WellClocked(History(c, After(c, steps), key))
    ensures Converged(c, After(c, steps), key)
  {
    var w := After(c, steps);
    Throughout(c, steps, key);
    ConvergedAtRestIff(c, w, key);
    HistorySplits(c, w, key);
    var i := SnapshotIndex(c, w, key);
    var missed := [Unwritten(c.site, key)] + Missed(c, w, key);
    var buffered, queued := Of(w.session.buffered, c.site, key), Of(w.session.queued, c.site, key);
    if queued == [] && buffered != [] {
      assert missed + (buffered + queued) == missed + buffered;
      WellClockedGetsOut(History(c, w, key), missed, buffered, i);
    }
  }

  /**
   * When the snapshot goes out, it is followed at once by the buffered events observed after
   * it, each once and in the order they arrived, ahead of everything queued.
   */
  lemma SnapshotOutput(c: Config, steps: seq<Step>, key: string)
    requires IsRun(c, steps) && key in c.wanted && DistinctKeys(c)
    ensures var s := After(c, steps).session;
            var read := After(c, steps).read;
            !s.buffering ==>
              && key in read && s.pulled <= |s.queued|
              && EmittedOf(s.emitted, key) ==
                 [read[key]] + Later(Of(s.buffered, c.site, key), read[key].at)
                 + Of(s.queued[..s.pulled], c.site, key)
  {
    Throughout(c, steps, key);
  }

  // ---------------------------------------------------------------------------
  // The whole output, across keys
  // ---------------------------------------------------------------------------

  /** What is delivered of the site for the keys asked for, in order. */
  function Asked(events: seq<Event>, site: nat, wanted: seq<string>): seq<Event> {
    if events == [] then []
    else
      var last := events[|events| - 1];
      Asked(events[..|events| - 1], site, wanted) + if last.site == site && last.key in wanted then [last] else []
  }

  /** The buffered events sent after the time of the value read for their key, in order. */
  function SentAfterRead(buffered: seq<Event>, read: map<string, Event>): seq<Event>
    requires forall e :: e in buffered ==> e.key in read
  {
    if buffered == [] then []
    else
      var n := |buffered| - 1;
      SentAfterRead(buffered[..n], read) + if buffered[n].sent > read[buffered[n].key].at then [buffered[n]] else []
  }

  /** One value for each key asked for comes first, marked as the snapshot, then the updates, not marked so. */
  predicate SnapshotThenUpdates(c: Config, read: map<string, Event>, emitted: seq<Emission>, updates: seq<Event>) {
    var n := |c.wanted|;
    && |emitted| == n + |updates|
    && (forall i :: 0 <= i < n ==> c.wanted[i] in read)
    && forall i :: 0 <= i < |emitted| ==>
         && (emitted[i].initial <==> i < n)
         && emitted[i].event == if i < n then read[c.wanted[i]] else updates[i - n]
  }

  /** What the whole session holds and has emitted, whatever the keys. */
  ghost predicate WholeOutput(c: Config, w: World) {
    var s := w.session;
    && (w.since.None? ==> s == NEW_SESSION && w.delivered == 0)
    && (w.since.Some? ==>
          && w.since.value + w.delivered <= |w.published|
          && s.buffered + s.queued == Asked(w.published[w.since.value..w.since.value + w.delivered], c.site, c.wanted))
    && s.pulled <= |s.queued|
    && (s.buffering ==> s.emitted == [] && s.queued == [])
    && (!s.buffering ==>
          && (forall e :: e in s.buffered ==> e.key in w.read)
          && SnapshotThenUpdates(c, w.read, s.emitted, SentAfterRead(s.buffered, w.read) + s.queued[..s.pulled]))
  }

  lemma AskedMore(events: seq<Event>, from: nat, to: nat, site: nat, wanted: seq<string>)
    requires from <= to < |events|
    ensures Asked(events[from..to + 1], site, wanted) ==
            Asked(events[from..to], site, wanted)
            + if events[to].site == site && events[to].key in wanted then [events[to]] else []
  {
    assert events[from..to + 1][..to - from] == events[from..to];
  }

  lemma {:induction false} AskedAreWanted(events: seq<Event>, site: nat, wanted: seq<string>, e: Event)
    requires e in Asked(events, site, wanted)
    ensures e.key in wanted
  {
    var n := |events| - 1;
    if e in Asked(events[..n], site, wanted) {
      AskedAreWanted(events[..n], site, wanted, e);
    }
  }

  /** The snapshot values give each key the time of the value read for it. */
  lemma {:induction false} ObservedIsRead(values: seq<Event>, read: map<string, Event>, k: nat, key: string)
    requires k < |values| && values[k].key == key
    requires forall i :: 0 <= i < |values| ==> values[i].key in read && values[i] == read[values[i].key]
    ensures key in read && ObservedAt(values, key) == read[key].at
  {
    var n := |values| - 1;
    if values[n].key != key {
      ObservedIsRead(values[..n], read, k, key);
    }
  }

  lemma {:induction false} NewerIsSentAfterRead(c: Config, buffered: seq<Event>, read: map<string, Event>)
    requires (forall k :: k in c.wanted ==> k in read) && (forall k :: k in read ==> read[k].key == k)
    requires forall e :: e in buffered ==> e.key in c.wanted
    ensures forall e :: e in buffered ==> e.key in read
    ensures Newer(buffered, SnapshotValues(c, read)) == SentAfterRead(buffered, read)
  {
    if buffered != [] {
      var n := |buffered| - 1;
      var key := buffered[n].key;
      NewerIsSentAfterRead(c, buffered[..n], read);
      var k :| 0 <= k < |c.wanted| && c.wanted[k] == key;
      ObservedIsRead(SnapshotValues(c, read), read, k, key);
    }
  }

  lemma {:induction false} EmittedAt(events: seq<Event>, initial: bool, i: nat)
    requires i < |events|
    ensures Emitted(events, initial)[i] == Emission(events[i], initial)
  {
    if i < |events| - 1 {
      EmittedAt(events[..|events| - 1], initial, i);
    }
  }

  lemma SnapshotEmits(c: Config, read: map<string, Event>, updates: seq<Event>)
    requires forall k :: k in c.wanted ==> k in read
    ensures SnapshotThenUpdates(c, read, Emitted(SnapshotValues(c, read), true) + Emitted(updates, false), updates)
  {
    var values := SnapshotValues(c, read);
    var emitted := Emitted(values, true) + Emitted(updates, false);
    forall i | 0 <= i < |emitted|
      ensures emitted[i] == if i < |values| then Emission(values[i], true) else Emission(updates[i - |values|], false)
    {
      if i < |values| {
        EmittedAt(values, true, i);
      } else {
        EmittedAt(updates, false, i - |values|);
      }
    }
  }

  lemma BufferedAreAsked(c: Config, w: World)
    requires WholeOutput(c, w) && w.since.Some?
    ensures forall e :: e in w.session.buffered ==> e.key in c.wanted
  {
    var s := w.session;
    forall e | e in s.buffered
      ensures e.key in c.wanted
    {
      assert e in s.buffered + s.queued;
      AskedAreWanted(w.published[w.since.value..w.since.value + w.delivered], c.site, c.wanted, e);
    }
  }

  lemma SnapshotOfAll(c: Config, s: Session, read: map<string, Event>)
    requires s.emitted == [] && forall e :: e in s.buffered ==> e.key in c.wanted
    requires (forall k :: k in c.wanted ==> k in read) && forall k :: k in read ==> read[k].key == k
    ensures SnapshotThenUpdates(c, read, EndSnapshot(s, SnapshotValues(c, read)).emitted, SentAfterRead(s.buffered, read))
  {
    NewerIsSentAfterRead(c, s.buffered, read);
    SnapshotEmits(c, read, SentAfterRead(s.buffered, read));
    assert [] + Emitted(SnapshotValues(c, read), true) == Emitted(SnapshotValues(c, read), true);
  }

  lemma WholeSnapshot(c: Config, w: World)
    requires Enabled(c, w, Snapshot) && WholeOutput(c, w) && forall k :: k in w.read ==> w.read[k].key == k
    ensures WholeOutput(c, Apply(c, w, Snapshot))
  {
    var s := w.session;
    BufferedAreAsked(c, w);
    SnapshotOfAll(c, s, w.read);
    assert SentAfterRead(s.buffered, w.read) + s.queued[..s.pulled] == SentAfterRead(s.buffered, w.read);
  }

  lemma UpdatesMore(c: Config, read: map<string, Event>, emitted: seq<Emission>, updates: seq<Event>, e: Event)
    requires SnapshotThenUpdates(c, read, emitted, updates)
    ensures SnapshotThenUpdates(c, read, emitted + [Emission(e, false)], updates + [e])
  {
  }

  lemma WholePull(c: Config, w: World)
    requires Enabled(c, w, PullOne) && WholeOutput(c, w)
    ensures WholeOutput(c, Apply(c, w, PullOne))
  {
    var q, n := w.session.queued, w.session.pulled;
    var updates := SentAfterRead(w.session.buffered, w.read);
    UpdatesMore(c, w.read, w.session.emitted, updates + q[..n], q[n]);
    assert updates + q[..n + 1] == (updates + q[..n]) + [q[n]];
  }

  lemma SessionTakes(c: Config, s: Session, e: Event)
    requires s.buffering ==> s.queued == []
    ensures var t := OnEvent(c, s, e);
            t.buffered + t.queued == s.buffered + s.queued + if Wanted(c, e) then [e] else []
  {
    if s.buffering {
      assert s.buffered + s.queued == s.buffered;
    } else {
      assert s.buffered + (s.queued + [e]) == s.buffered + s.queued + [e];
    }
  }

  lemma SessionKeepsOutput(c: Config, s: Session, e: Event)
    requires s.pulled <= |s.queued|
    ensures var t := OnEvent(c, s, e);
            && t.buffering == s.buffering && t.emitted == s.emitted && t.pulled == s.pulled
            && |s.queued| <= |t.queued| && t.queued[..t.pulled] == s.queued[..s.pulled]
            && (!s.buffering ==> t.buffered == s.buffered) && (s.buffering ==> t.queued == s.queued)
  {
  }

  lemma WholeDeliver(c: Config, w: World)
    requires Enabled(c, w, Deliver) && WholeOutput(c, w)
    ensures WholeOutput(c, Apply(c, w, Deliver))
  {
    var from, to := w.since.value, w.since.value + w.delivered;
    AskedMore(w.published, from, to, c.site, c.wanted);
    SessionTakes(c, w.session, w.published[to]);
    SessionKeepsOutput(c, w.session, w.published[to]);
  }

  lemma WholePublish(c: Config, w: World, e: Event)
    requires Enabled(c, w, Publish(e)) && WholeOutput(c, w)
    ensures WholeOutput(c, Apply(c, w, Publish(e)))
  {
    if w.since.Some? {
      var from, to := w.since.value, w.since.value + w.delivered;
      assert (w.published + [e])[from..to] == w.published[from..to];
    }
  }

  lemma WholeStep(c: Config, w: World, s: Step)
    requires Enabled(c, w, s) && WholeOutput(c, w) && forall k :: k in w.read ==> w.read[k].key == k
    ensures WholeOutput(c, Apply(c, w, s)) && forall k :: k in Apply(c, w, s).read ==> Apply(c, w, s).read[k].key == k
  {
    match s
    case Store(e) =>
    case Publish(e) => WholePublish(c, w, e);
    case Subscribe => assert w.published[|w.published|..|w.published|] == [];
    case Deliver => WholeDeliver(c, w);
    case ReadValue(key) => CurrentIsOfKey(c, w, key);
    case Snapshot => WholeSnapshot(c, w);
    case PullOne => WholePull(c, w);
  }

  /**
   * In every state of every run: what arrived is what was delivered of the site and the keys,
   * in order. Once the snapshot is out, it is the first thing emitted, one value for each key
   * and marked as such; everything after it is an update: across keys and in order of arrival,
   * the buffered events sent after the value read for their key, then the queued ones pulled.
   */
  lemma {:induction false} EmittedThroughout(c: Config, steps: seq<Step>)
    requires IsRun(c, steps)
    ensures WholeOutput(c, After(c, steps)) && forall k :: k in After(c, steps).read ==> After(c, steps).read[k].key == k
  {
    if steps != [] {
      var n := |steps| - 1;
      EmittedThroughout(c, steps[..n]);
      WholeStep(c, After(c, steps[..n]), steps[n]);
    }
  }

  // ---------------------------------------------------------------------------
  // Two clocks
  // ---------------------------------------------------------------------------

  lemma Prolong(c: Config, steps: seq<Step>, s: Step, w: World) returns (longer: seq<Step>)
    requires IsRun(c, steps) && After(c, steps) == w && Enabled(c, w, s)
    ensures IsRun(c, longer) && After(c, longer) == Apply(c, w, s)
  {
    longer := steps + [s];
    assert longer[..|steps|] == steps;
  }

  lemma OneEvent(e: Event)
    ensures Of([e], e.site, e.key) == [e] && Emitted([e], true) == [Emission(e, true)]
    ensures EmittedOf([Emission(e, true)], e.key) == [e]
  {
    assert [e][..0] == [] && [Emission(e, true)][..0] == [];
  }

  /** Two writes of the one wanted key: the first is on the row when it is read, the second only arrives as an event. */
  predicate TwoWrites(c: Config, first: Event, second: Event) {
    && first.site == second.site == c.site && first.key == second.key && c.wanted == [first.key]
    && 0 < first.write < second.write
  }

  /** The world in which the first write is stored, published and read, and nothing else has happened. */
  function FirstRead(first: Event): World {
    World([first], [first], Some(1), 0, map[first.key := first], NEW_SESSION)
  }

  lemma FirstIsRead(c: Config, first: Event) returns (steps: seq<Step>)
    requires first.site == c.site && first.write > 0
    ensures IsRun(c, steps) && After(c, steps) == FirstRead(first)
  {
    OneEvent(first);
    steps := Prolong(c, [], Store(first), NEW_WORLD);
    var w := World([first], [], None, 0, map[], NEW_SESSION);
    steps := Prolong(c, steps, Publish(first), w);
    w := w.(published := [first]);
    steps := Prolong(c, steps, Subscribe, w);
    w := w.(since := Some(1));
    assert Current(c, w, first.key) == first;
    steps := Prolong(c, steps, ReadValue(first.key), w);
  }

  lemma SecondMayFollow(c: Config, first: Event, second: Event)
    requires TwoWrites(c, first, second)
    ensures Enabled(c, FirstRead(first).(stored := [first] + [second]), Publish(second))
  {
    OneEvent(first);
    OfSnoc([first], second, c.site, first.key);
  }

  /** Then the second is stored, published and delivered. */
  lemma SecondArrivesBuffered(c: Config, first: Event, second: Event) returns (steps: seq<Step>)
    requires TwoWrites(c, first, second)
    ensures IsRun(c, steps)
    ensures After(c, steps) == World([first] + [second], [first] + [second], Some(1), 1, map[first.key := first],
                                     Session(true, [second], [], 0, []))
  {
    steps := FirstIsRead(c, first);
    var w := FirstRead(first);
    steps := Prolong(c, steps, Store(second), w);
    w := w.(stored := [first] + [second]);
    SecondMayFollow(c, first, second);
    steps := Prolong(c, steps, Publish(second), w);
    w := w.(published := [first] + [second]);
    steps := Prolong(c, steps, Deliver, w);
  }

  /**
   * Why the clocks matter: for any two writes of a key whose second event is sent as observed no
   * later than the first was stored, there is a run at rest in which the second is never emitted.
   * A cycle's own time stamp, sent after the row of a later detection was stored, is such a time.
   */
  lemma EarlierStampDropsLastWrite(c: Config, first: Event, second: Event) returns (steps: seq<Step>)
    requires TwoWrites(c, first, second) && second.sent <= first.at
    ensures IsRun(c, steps) && Quiescent(c, After(c, steps), first.key)
    ensures EmittedOf(After(c, steps).session.emitted, first.key) == [first]
    ensures Current(c, After(c, steps), first.key) == second && !Converged(c, After(c, steps), first.key)
  {
    var before := SecondArrivesBuffered(c, first, second);
    var w := After(c, before);
    var values := SnapshotValues(c, w.read);
    steps := Prolong(c, before, Snapshot, w);
    OneEvent(first);
    assert values == [first];
    assert ObservedAt([first], first.key) == first.at;
    assert Newer([second], values) == [] by {
      assert [second][..0] == [];
    }
    assert After(c, steps).session == Session(false, [second], [], 0, [Emission(first, true)]);
  }
}
