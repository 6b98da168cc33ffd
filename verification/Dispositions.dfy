/**
 * Disposition logs and the running bad-item counters they feed. Every accepted call changes
 * the log table first and then issues a delta for the counter without waiting for it; deltas
 * are applied later, in any order, or fail and are only reported.
 */
module Dispositions {
  import opened Common

  datatype LogRow = LogRow(
    id: nat,
    site: string,
    station: string,
    quantity: int,
    disposition: Option<string>,
    reason: Option<string>,
    createdAt: int,
    deleted: bool)

  datatype Disposition = Disposition(site: string, deleted: bool)

  datatype Reason = Reason(site: string, deleted: bool, dispositions: set<string>)

  /** The tables the calls consult but do not change. */
  datatype Reference = Reference(
    stations: map<string, string>,
    dispositions: map<string, Disposition>,
    reasons: map<string, Reason>,
    productBlobs: set<string>)

  datatype Code =
    | StationNotFound
    | SiteMismatch
    | PairRequired
    | DispositionNotFound
    | ReasonNotFound
    | ReasonNotLinked
    | ProductBlobNotFound
    | LogNotFound
    | MalformedId

  datatype Pair = Pair(disposition: Option<string>, reason: Option<string>)

  /** A field of an update: left out, or set to an id or to null. */
  datatype Change = Keep | SetTo(id: Option<string>)

  predicate Given(id: Option<string>) {
    id.Some? && id.value != ""
  }

  // ---------------------------------------------------------------------------
  // A disposition and its reason come together or not at all
  // ---------------------------------------------------------------------------

  function ValidatePair(ref: Reference, site: string, disposition: Option<string>, reason: Option<string>)
    : Result<Pair, Code>
  {
    if !Given(disposition) && !Given(reason) then Ok(Pair(None, None))
    else if !Given(disposition) || !Given(reason) then Err(PairRequired)
    else
      var d := disposition.value;
      var r := reason.value;
      if d !in ref.dispositions || ref.dispositions[d].deleted then Err(DispositionNotFound)
      else if ref.dispositions[d].site != site then Err(SiteMismatch)
      else if r !in ref.reasons || ref.reasons[r].deleted then Err(ReasonNotFound)
      else if ref.reasons[r].site != site then Err(SiteMismatch)
      else if d !in ref.reasons[r].dispositions then Err(ReasonNotLinked)
      else Ok(Pair(disposition, reason))
  }

  predicate Usable(ref: Reference, site: string, d: string, r: string) {
    && d in ref.dispositions && ref.dispositions[d] == Disposition(site, false)
    && r in ref.reasons && ref.reasons[r].site == site && !ref.reasons[r].deleted
    && d in ref.reasons[r].dispositions
  }

  predicate BothOrNeither(pair: Pair) {
    Given(pair.disposition) == Given(pair.reason) == pair.disposition.Some? == pair.reason.Some?
  }

  /** A pair passes exactly when it is absent, or names a usable disposition linked to the reason. */
  lemma PairAccepted(ref: Reference, site: string, disposition: Option<string>, reason: Option<string>)
    ensures var v := ValidatePair(ref, site, disposition, reason);
            && (v.Ok? <==>
                || (!Given(disposition) && !Given(reason))
                || (Given(disposition) && Given(reason) && Usable(ref, site, disposition.value, reason.value)))
            && (v.Ok? ==> BothOrNeither(v.value) && (v.value.disposition.Some? ==> v.value == Pair(disposition, reason)))
            && (v == Err(PairRequired) <==> Given(disposition) != Given(reason))
  {
    if Given(disposition) && Given(reason) && disposition.value in ref.dispositions {
      assert ref.dispositions[disposition.value] ==
             Disposition(ref.dispositions[disposition.value].site, ref.dispositions[disposition.value].deleted);
    }
  }

  // ---------------------------------------------------------------------------
  // What the counters should say
  // ---------------------------------------------------------------------------

  /** The station and the start of the hour bucket that counts a log. */
  datatype Slot = Slot(station: string, start: int)

  datatype Delta = Delta(slot: Slot, amount: int)

  function SlotOf(row: LogRow, bucketStart: (string, int) -> int): Slot {
    Slot(row.station, bucketStart(row.station, row.createdAt))
  }

  function Weight(row: LogRow, slot: Slot, bucketStart: (string, int) -> int): int {
    if !row.deleted && SlotOf(row, bucketStart) == slot then row.quantity else 0
  }

  /** The quantities of the live logs that belong to a slot. */
  function LiveTotal(logs: seq<LogRow>, slot: Slot, bucketStart: (string, int) -> int): int {
    if logs == [] then 0
    else
      var n := |logs| - 1;
      LiveTotal(logs[..n], slot, bucketStart) + Weight(logs[n], slot, bucketStart)
  }

  /** The quantities of the logs of a station that are not deleted and were made in the hour that starts then. */
  function QuantityIn(logs: seq<LogRow>, station: string, hour: int, bucketStart: (string, int) -> int): int {
    if logs == [] then 0
    else
      QuantityIn(logs[1..], station, hour, bucketStart) +
      if logs[0].station == station && bucketStart(station, logs[0].createdAt) == hour && !logs[0].deleted
      then logs[0].quantity else 0
  }

  lemma {:induction false} QuantityMore(logs: seq<LogRow>, row: LogRow, station: string, hour: int,
                                        bucketStart: (string, int) -> int)
    ensures QuantityIn(logs + [row], station, hour, bucketStart) ==
            QuantityIn(logs, station, hour, bucketStart) +
            if row.station == station && bucketStart(station, row.createdAt) == hour && !row.deleted then row.quantity else 0
  {
    if logs == [] {
      assert ([] + [row])[1..] == [];
    } else {
      QuantityMore(logs[1..], row, station, hour, bucketStart);
      assert (logs + [row])[1..] == logs[1..] + [row];
    }
  }

  lemma {:induction false} LiveTotalIs(logs: seq<LogRow>, station: string, hour: int, bucketStart: (string, int) -> int)
    ensures LiveTotal(logs, Slot(station, hour), bucketStart) == QuantityIn(logs, station, hour, bucketStart)
  {
    if logs != [] {
      var n := |logs| - 1;
      LiveTotalIs(logs[..n], station, hour, bucketStart);
      QuantityMore(logs[..n], logs[n], station, hour, bucketStart);
      assert logs[..n] + [logs[n]] == logs;
    }
  }

  function Issued(deltas: seq<Delta>, slot: Slot): int {
    if deltas == [] then 0
    else
      var n := |deltas| - 1;
      Issued(deltas[..n], slot) + if deltas[n].slot == slot then deltas[n].amount else 0
  }

  function Count(counters: map<Slot, int>, slot: Slot): int {
    if slot in counters then counters[slot] else 0
  }

  /** What was counted, what is still under way and what was lost add up to the live logs. */
  ghost predicate Balanced(logs: seq<LogRow>, pending: seq<Delta>, lost: seq<Delta>, counters: map<Slot, int>,
                           bucketStart: (string, int) -> int)
  {
    forall slot :: Count(counters, slot) + Issued(pending, slot) + Issued(lost, slot) == LiveTotal(logs, slot, bucketStart)
  }

  lemma {:induction false} LiveTotalUpdate(logs: seq<LogRow>, i: nat, row: LogRow, slot: Slot,
                                           bucketStart: (string, int) -> int)
    requires i < |logs|
    ensures LiveTotal(logs[i := row], slot, bucketStart)
         == LiveTotal(logs, slot, bucketStart) - Weight(logs[i], slot, bucketStart) + Weight(row, slot, bucketStart)
  {
    var n := |logs| - 1;
    if i == n {
      assert logs[i := row][..n] == logs[..n];
    } else {
      LiveTotalUpdate(logs[..n], i, row, slot, bucketStart);
      assert logs[i := row][..n] == logs[..n][i := row];
    }
  }

  lemma {:induction false} IssuedWithout(deltas: seq<Delta>, i: nat, slot: Slot)
    requires i < |deltas|
    ensures Issued(deltas[..i] + deltas[i + 1..], slot)
         == Issued(deltas, slot) - if deltas[i].slot == slot then deltas[i].amount else 0
  {
    var n := |deltas| - 1;
    if i == n {
      assert deltas[..i] + deltas[i + 1..] == deltas[..n];
    } else {
      IssuedWithout(deltas[..n], i, slot);
      assert (deltas[..i] + deltas[i + 1..])[..n - 1] == deltas[..n][..i] + deltas[..n][i + 1..];
    }
  }

  lemma IssuedMore(deltas: seq<Delta>, d: Delta, slot: Slot)
    ensures Issued(deltas + [d], slot) == Issued(deltas, slot) + if d.slot == slot then d.amount else 0
  {
    assert (deltas + [d])[..|deltas|] == deltas;
  }

  /** Ids are distinct and used, and every log has both a disposition and a reason or neither. */
  ghost predicate RowsSound(logs: seq<LogRow>, nextId: nat) {
    && (forall k :: 0 <= k < |logs| ==> logs[k].id < nextId && BothOrNeither(Pair(logs[k].disposition, logs[k].reason)))
    && forall i, j :: 0 <= i < j < |logs| ==> logs[i].id != logs[j].id
  }

  lemma EditKeepsRows(logs: seq<LogRow>, i: nat, row: LogRow, nextId: nat)
    requires RowsSound(logs, nextId) && i < |logs| && row.id == logs[i].id
    requires BothOrNeither(Pair(row.disposition, row.reason))
    ensures RowsSound(logs[i := row], nextId)
  {
  }

  /** The delta of a change of quantity, if there is one. */
  function QuantityDelta(before: LogRow, after: LogRow, bucketStart: (string, int) -> int): seq<Delta> {
    if after.quantity == before.quantity then []
    else [Delta(SlotOf(before, bucketStart), after.quantity - before.quantity)]
  }

  /** Editing a live log in place and issuing the difference keeps the books balanced. */
  lemma EditBalances(logs: seq<LogRow>, i: nat, row: LogRow, pending: seq<Delta>, lost: seq<Delta>,
                     counters: map<Slot, int>, bucketStart: (string, int) -> int)
    requires i < |logs| && Balanced(logs, pending, lost, counters, bucketStart)
    requires !logs[i].deleted && !row.deleted && SlotOf(row, bucketStart) == SlotOf(logs[i], bucketStart)
    ensures Balanced(logs[i := row], pending + QuantityDelta(logs[i], row, bucketStart), lost, counters, bucketStart)
  {
    var issued := QuantityDelta(logs[i], row, bucketStart);
    forall slot
      ensures Count(counters, slot) + Issued(pending + issued, slot) + Issued(lost, slot)
           == LiveTotal(logs[i := row], slot, bucketStart)
    {
      LiveTotalUpdate(logs, i, row, slot, bucketStart);
      if issued == [] {
        assert pending + issued == pending;
      } else {
        IssuedMore(pending, issued[0], slot);
      }
    }
  }

  // ---------------------------------------------------------------------------
  // The calls
  // ---------------------------------------------------------------------------

  function CreateOutcome(ref: Reference, site: string, station: string, disposition: Option<string>,
                         reason: Option<string>, productBlob: string): Result<Pair, Code>
  {
    if station !in ref.stations then Err(StationNotFound)
    else if ref.stations[station] != site then Err(SiteMismatch)
    else
      var pair := ValidatePair(ref, site, disposition, reason);
      if pair.Err? then pair
      else if productBlob !in ref.productBlobs then Err(ProductBlobNotFound)
      else pair
  }

  /** When a new log is accepted, and which error it is refused with. */
  lemma CreateAcceptedIff(ref: Reference, site: string, station: string, disposition: Option<string>,
                          reason: Option<string>, productBlob: string)
    ensures var outcome := CreateOutcome(ref, site, station, disposition, reason, productBlob);
            var here := station in ref.stations && ref.stations[station] == site;
            var pair := ValidatePair(ref, site, disposition, reason);
            && (outcome.Ok? <==> here && pair.Ok? && productBlob in ref.productBlobs)
            && (outcome.Ok? ==> outcome == pair)
            && (outcome == Err(StationNotFound) <==> station !in ref.stations)
            && (station in ref.stations && !here ==> outcome == Err(SiteMismatch))
            && (here && pair.Err? ==> outcome == pair)
            && (outcome == Err(ProductBlobNotFound) <==> here && pair.Ok? && productBlob !in ref.productBlobs)
  {
  }

  /** Which error a pair is refused with. */
  lemma PairRefusedWith(ref: Reference, site: string, disposition: Option<string>, reason: Option<string>)
    requires Given(disposition) && Given(reason)
    ensures var v := ValidatePair(ref, site, disposition, reason);
            var d, r := disposition.value, reason.value;
            var known := d in ref.dispositions && !ref.dispositions[d].deleted;
            var usable := known && ref.dispositions[d].site == site;
            var explained := usable && r in ref.reasons && !ref.reasons[r].deleted;
            && (v == Err(DispositionNotFound) <==> !known)
            && (v == Err(ReasonNotFound) <==> usable && !explained)
            && (v == Err(SiteMismatch) <==> (known && !usable) || (explained && ref.reasons[r].site != site))
            && (v == Err(ReasonNotLinked) <==>
                explained && ref.reasons[r].site == site && d !in ref.reasons[r].dispositions)
            && v != Err(PairRequired)
  {
  }

  function Next(change: Change, current: Option<string>): Option<string> {
    if change.SetTo? then change.id else current
  }

  /** The pair a live log ends up with; an empty id passes the pair check but is no id the table accepts. */
  function UpdateOutcome(ref: Reference, row: LogRow, disposition: Change, reason: Change): Result<Pair, Code> {
    var next := Pair(Next(disposition, row.disposition), Next(reason, row.reason));
    var checked := ValidatePair(ref, row.site, next.disposition, next.reason);
    if checked.Err? then checked
    else if disposition == SetTo(Some("")) || reason == SetTo(Some("")) then Err(MalformedId)
    else Ok(next)
  }

  /** The pair an update leaves: what it sets, and what the log had where it sets nothing. */
  predicate Amends(row: LogRow, disposition: Change, reason: Change, pair: Pair) {
    && (disposition.SetTo? ==> pair.disposition == disposition.id) && (disposition.Keep? ==> pair.disposition == row.disposition)
    && (reason.SetTo? ==> pair.reason == reason.id) && (reason.Keep? ==> pair.reason == row.reason)
  }

  /** An update is accepted exactly when the pair it leaves would be, and no id it sets is empty. */
  lemma UpdateAcceptedIff(ref: Reference, row: LogRow, disposition: Change, reason: Change, pair: Pair)
    requires Amends(row, disposition, reason, pair)
    ensures var outcome := UpdateOutcome(ref, row, disposition, reason);
            var checked := ValidatePair(ref, row.site, pair.disposition, pair.reason);
            && (outcome.Ok? <==>
                checked.Ok? && !(disposition.SetTo? && disposition.id == Some("")) && !(reason.SetTo? && reason.id == Some("")))
            && (outcome.Ok? ==> outcome.value == pair)
            && (checked.Err? ==> outcome == checked)
            && (checked.Ok? && outcome.Err? ==> outcome == Err(MalformedId))
  {
  }

  /** The position of the log with this id, if it is not deleted. */
  function Find(logs: seq<LogRow>, id: nat): (r: Option<nat>)
    ensures r.Some? ==> r.value < |logs| && logs[r.value].id == id && !logs[r.value].deleted
    ensures r.None? ==> forall k :: 0 <= k < |logs| && logs[k].id == id ==> logs[k].deleted
  {
    if logs == [] then None
    else if logs[|logs| - 1].id == id && !logs[|logs| - 1].deleted then Some(|logs| - 1)
    else Find(logs[..|logs| - 1], id)
  }

  class DispositionLogs {
    var logs: seq<LogRow>
    var nextId: nat
    var pending: seq<Delta>
    var lost: seq<Delta>
    var counters: map<Slot, int>
    const bucketStart: (string, int) -> int

    ghost predicate Valid()
      reads this
    {
      && RowsSound(logs, nextId)
      && Balanced(logs, pending, lost, counters, bucketStart)
    }

    constructor (bucketStart: (string, int) -> int)
      ensures Valid() && logs == [] && pending == [] && lost == [] && counters == map[]
      ensures this.bucketStart == bucketStart
    {
      logs, nextId, pending, lost, counters := [], 0, [], [], map[];
      this.bucketStart := bucketStart;
    }

    method Create(ref: Reference, site: string, station: string, quantity: Option<int>, disposition: Option<string>,
                  reason: Option<string>, productBlob: string, now: int) returns (r: Result<nat, Code>)
      requires Valid()
      modifies this`logs, this`nextId, this`pending
      ensures Valid()
      ensures var outcome := CreateOutcome(ref, site, station, disposition, reason, productBlob);
              var row := LogRow(old(nextId), site, station, if quantity.Some? then quantity.value else 1,
                                if outcome.Ok? then outcome.value.disposition else None,
                                if outcome.Ok? then outcome.value.reason else None, now, false);
              if outcome.Err? then r == Err(outcome.error) && logs == old(logs) && pending == old(pending)
              else && r == Ok(row.id) && logs == old(logs) + [row]
                   && pending == old(pending) + [Delta(SlotOf(row, bucketStart), row.quantity)]
    {
      if station !in ref.stations {
        return Err(StationNotFound);
      }
      if ref.stations[station] != site {
        return Err(SiteMismatch);
      }
      var pair := ValidatePair(ref, site, disposition, reason);
      if pair.Err? {
        return Err(pair.error);
      }
      if productBlob !in ref.productBlobs {
        return Err(ProductBlobNotFound);
      }
      var amount := if quantity.Some? then quantity.value else 1;
      var row := LogRow(nextId, site, station, amount, pair.value.disposition, pair.value.reason, now, false);
      var delta := Delta(SlotOf(row, bucketStart), amount);
      logs := logs + [row];
      nextId := nextId + 1;
      pending := pending + [delta];
      PairAccepted(ref, site, disposition, reason);
      forall slot
        ensures LiveTotal(logs, slot, bucketStart) == LiveTotal(old(logs), slot, bucketStart) + Weight(row, slot, bucketStart)
        ensures Issued(pending, slot) == Issued(old(pending), slot) + Weight(row, slot, bucketStart)
      {
        assert logs[..|logs| - 1] == old(logs);
        IssuedMore(old(pending), delta, slot);
      }
      r := Ok(row.id);
    }

    method Update(ref: Reference, id: nat, quantity: Option<int>, disposition: Change, reason: Change)
      returns (r: Result<(), Code>)
      requires Valid()
      modifies this`logs, this`pending
      ensures Valid()
      ensures var at := Find(old(logs), id);
              if at.None? then r == Err(LogNotFound) && logs == old(logs) && pending == old(pending)
              else
                var row := old(logs)[at.value];
                var outcome := UpdateOutcome(ref, row, disposition, reason);
                if outcome.Err? then r == Err(outcome.error) && logs == old(logs) && pending == old(pending)
                else
                  var amount := if quantity.Some? then quantity.value else row.quantity;
                  var edited := row.(quantity := amount, disposition := outcome.value.disposition, reason := outcome.value.reason);
                  && r == Ok(())
                  && logs == old(logs)[at.value := edited]
                  && pending == old(pending) + QuantityDelta(row, edited, bucketStart)
    {
      var at := Find(logs, id);
      if at.None? {
        return Err(LogNotFound);
      }
      var current := logs[at.value];
      var checked := ValidatePair(ref, current.site, Next(disposition, current.disposition), Next(reason, current.reason));
      if checked.Err? {
        return Err(checked.error);
      }
      var row := current;
      if quantity.Some? {
        row := row.(quantity := quantity.value);
      }
      if disposition.SetTo? {
        row := row.(disposition := disposition.id);
      }
      if reason.SetTo? {
        row := row.(reason := reason.id);
      }
      if disposition == SetTo(Some("")) || reason == SetTo(Some("")) {
        return Err(MalformedId);
      }
      assert BothOrNeither(Pair(row.disposition, row.reason)) by {
        PairAccepted(ref, current.site, row.disposition, row.reason);
      }
      EditBalances(logs, at.value, row, pending, lost, counters, bucketStart);
      EditKeepsRows(logs, at.value, row, nextId);
      logs := logs[at.value := row];
      if quantity.Some? && quantity.value != current.quantity {
        pending := pending + [Delta(SlotOf(current, bucketStart), quantity.value - current.quantity)];
      }
      assert pending == old(pending) + QuantityDelta(current, row, bucketStart);
      r := Ok(());
    }

    method Remove(id: nat) returns (r: Result<(), Code>)
      requires Valid()
      modifies this`logs, this`pending
      ensures Valid()
      ensures var at := Find(old(logs), id);
              if at.None? then r == Err(LogNotFound) && logs == old(logs) && pending == old(pending)
              else
                var row := old(logs)[at.value];
                && r == Ok(())
                && logs == old(logs)[at.value := row.(deleted := true)]
                && pending == old(pending) + [Delta(SlotOf(row, bucketStart), -row.quantity)]
    {
      var at := Find(logs, id);
      if at.None? {
        return Err(LogNotFound);
      }
      var row := logs[at.value];
      var delta := Delta(SlotOf(row, bucketStart), -row.quantity);
      logs := logs[at.value := row.(deleted := true)];
      pending := pending + [delta];
      forall slot
        ensures LiveTotal(logs, slot, bucketStart) == LiveTotal(old(logs), slot, bucketStart) - Weight(row, slot, bucketStart)
        ensures Issued(pending, slot) == Issued(old(pending), slot) - Weight(row, slot, bucketStart)
      {
        LiveTotalUpdate(old(logs), at.value, row.(deleted := true), slot, bucketStart);
        IssuedMore(old(pending), delta, slot);
      }
      r := Ok(());
    }

    /** One issued delta, in whatever order, reaches its counter. */
    method Apply(i: nat)
      requires Valid() && i < |pending|
      modifies this`pending, this`counters
      ensures Valid()
      ensures pending == old(pending[..i] + pending[i + 1..])
      ensures counters == old(counters[pending[i].slot := Count(counters, pending[i].slot) + pending[i].amount])
    {
      var d := pending[i];
      forall slot {
        IssuedWithout(pending, i, slot);
      }
      pending := pending[..i] + pending[i + 1..];
      counters := counters[d.slot := Count(counters, d.slot) + d.amount];
    }

    /** One issued delta fails; the failure is reported and the delta is gone. */
    method Lose(i: nat)
      requires Valid() && i < |pending|
      modifies this`pending, this`lost
      ensures Valid()
      ensures pending == old(pending[..i] + pending[i + 1..]) && lost == old(lost + [pending[i]])
    {
      var d := pending[i];
      forall slot
        ensures Issued(pending[..i] + pending[i + 1..], slot) + Issued(lost + [d], slot)
             == Issued(pending, slot) + Issued(lost, slot)
      {
        IssuedWithout(pending, i, slot);
        IssuedMore(lost, d, slot);
      }
      pending := pending[..i] + pending[i + 1..];
      lost := lost + [d];
    }

    /**
     * Once nothing is under way, a counter agrees with the live logs of its slot exactly when
     * the deltas lost there cancel out; and a log that carries a disposition carries a reason.
     */
    lemma CountersAgree(slot: Slot)
      requires Valid() && pending == []
      ensures Count(counters, slot) == LiveTotal(logs, slot, bucketStart) - Issued(lost, slot)
      ensures Count(counters, slot) == LiveTotal(logs, slot, bucketStart) <==> Issued(lost, slot) == 0
      ensures lost == [] ==> Count(counters, slot) == LiveTotal(logs, slot, bucketStart)
      ensures forall row :: row in logs ==> BothOrNeither(Pair(row.disposition, row.reason))
    {
      assert Count(counters, slot) + Issued(pending, slot) + Issued(lost, slot) == LiveTotal(logs, slot, bucketStart);
    }
  }

  datatype Step =
    | DoCreate(ref: Reference, site: string, station: string, quantity: Option<int>, disposition: Option<string>,
               reason: Option<string>, productBlob: string, now: int)
    | DoUpdate(ref: Reference, id: nat, amount: Option<int>, newDisposition: Change, newReason: Change)
    | DoRemove(id: nat)
    | DoApply(i: nat)
    | DoLose(at: nat)

  /** None of the first k steps loses a delta. */
  predicate NothingLost(steps: seq<Step>, k: nat)
    requires k <= |steps|
  {
    forall i :: 0 <= i < k ==> !steps[i].DoLose?
  }

  /**
   * Any interleaving of calls, deliveries and failed deliveries, followed by the delivery of the
   * rest in any order: a counter misses exactly what was lost in its slot, and agrees with the
   * live logs everywhere when nothing was.
   */
  method RunAndSettle(steps: seq<Step>, bucketStart: (string, int) -> int, pick: nat -> nat) returns (d: DispositionLogs)
    ensures fresh(d) && d.Valid() && d.pending == [] && d.bucketStart == bucketStart
    ensures forall slot :: Count(d.counters, slot) == LiveTotal(d.logs, slot, bucketStart) - Issued(d.lost, slot)
    ensures NothingLost(steps, |steps|) ==>
              forall station, hour ::
                (if Slot(station, hour) in d.counters then d.counters[Slot(station, hour)] else 0)
                == QuantityIn(d.logs, station, hour, bucketStart)
  {
    d := new DispositionLogs(bucketStart);
    for k := 0 to |steps|
      invariant fresh(d) && d.Valid() && d.bucketStart == bucketStart
      invariant NothingLost(steps, k) ==> d.lost == []
    {
      match steps[k] {
        case DoCreate(ref, site, station, quantity, disposition, reason, productBlob, now) =>
          var r := d.Create(ref, site, station, quantity, disposition, reason, productBlob, now);
        case DoUpdate(ref, id, amount, newDisposition, newReason) =>
          var r := d.Update(ref, id, amount, newDisposition, newReason);
        case DoRemove(id) =>
          var r := d.Remove(id);
        case DoApply(i) =>
          if i < |d.pending| {
            d.Apply(i);
          }
        case DoLose(at) =>
          if at < |d.pending| {
            d.Lose(at);
          }
      }
    }
    ghost var lost := d.lost;
    while d.pending != []
      invariant fresh(d) && d.Valid() && d.lost == lost && d.bucketStart == bucketStart
      decreases |d.pending|
    {
      d.Apply(pick(|d.pending|) % |d.pending|);
    }
    forall slot
      ensures Count(d.counters, slot) == LiveTotal(d.logs, slot, bucketStart) - Issued(d.lost, slot)
      ensures d.lost == [] ==> Count(d.counters, slot) == LiveTotal(d.logs, slot, bucketStart)
    {
      d.CountersAgree(slot);
    }
    forall station, hour
      ensures LiveTotal(d.logs, Slot(station, hour), bucketStart) == QuantityIn(d.logs, station, hour, bucketStart)
    {
      LiveTotalIs(d.logs, station, hour, bucketStart);
    }
  }
}
