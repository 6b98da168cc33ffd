/**
 * Moving archived metric buckets back into the live table so that they can be recomputed
 * after a replay. Both tables are keyed by id and by (entity type, entity, granularity,
 * start).
 */
module MetricBuckets {
  import opened Common

  datatype Key = Key(entityType: nat, entityId: nat, granularity: nat, start: int)

  datatype Bucket = Bucket(id: nat, site: nat, key: Key, durationSeconds: int, kpis: nat)

  /** The replay window of a station, with the entities whose buckets it touches. */
  datatype Scope = Scope(site: nat, entities: seq<nat>, min: int, max: int)

  function Entities(station: nat, site: nat, workcenter: Option<nat>, job: Option<nat>): seq<nat> {
    [station, site]
    + (if workcenter.Some? then [workcenter.value] else [])
    + (if job.Some? then [job.value] else [])
  }

  /** An affected entity's bucket that overlaps the window. */
  predicate Affected(b: Bucket, s: Scope) {
    && b.site == s.site && b.key.entityId in s.entities
    && b.key.start < s.max && b.key.start + b.durationSeconds * 1000 > s.min
  }

  predicate DuringWindow(x: int, min: int, max: int) {
    min <= x < max
  }

  predicate DuringBucket(x: int, b: Bucket) {
    b.key.start <= x < b.key.start + 1000 * b.durationSeconds
  }

  /**
   * The bucket's span of milliseconds and a window share one; a window of no length shares a
   * moment inside the span.
   */
  ghost predicate Meets(b: Bucket, min: int, max: int) {
    if min < max then exists x :: DuringWindow(x, min, max) && DuringBucket(x, b)
    else b.key.start < min < b.key.start + 1000 * b.durationSeconds
  }

  /** The bucket belongs to the station, its site, its work center or its current job. */
  predicate Concerns(b: Bucket, station: nat, site: nat, workcenter: Option<nat>, job: Option<nat>) {
    b.site == site &&
    (b.key.entityId == station || b.key.entityId == site || Some(b.key.entityId) == workcenter || Some(b.key.entityId) == job)
  }

  ghost predicate ToRedo(b: Bucket, station: nat, site: nat, workcenter: Option<nat>, job: Option<nat>, min: int, max: int) {
    Concerns(b, station, site, workcenter, job) && Meets(b, min, max)
  }

  lemma AffectedMeets(b: Bucket, station: nat, site: nat, workcenter: Option<nat>, job: Option<nat>, min: int, max: int)
    requires min <= max && b.durationSeconds > 0
    ensures Affected(b, Scope(site, Entities(station, site, workcenter, job), min, max))
       <==> ToRedo(b, station, site, workcenter, job, min, max)
  {
    var e, ids := b.key.entityId, Entities(station, site, workcenter, job);
    assert e in ids <==> e == station || e == site || Some(e) == workcenter || Some(e) == job by {
      assert ids[0] == station && ids[1] == site;
      assert workcenter.Some? ==> ids[2] == workcenter.value;
      assert job.Some? ==> ids[|ids| - 1] == job.value;
    }
    var x := Max(min, b.key.start);
    assert min < max && b.key.start < max && b.key.start + 1000 * b.durationSeconds > min ==>
             DuringWindow(x, min, max) && DuringBucket(x, b);
  }

  /** Of the archived buckets of some length, exactly those to be redone have left. */
  ghost predicate OnlyRedoneLeft(before: seq<Bucket>, after: seq<Bucket>, station: nat, site: nat, workcenter: Option<nat>,
                                 job: Option<nat>, min: int, max: int)
  {
    forall b :: b in before && b.durationSeconds > 0 ==>
      (b in after <==> !ToRedo(b, station, site, workcenter, job, min, max))
  }

  lemma OnlyAffectedLeft(archive: seq<Bucket>, station: nat, site: nat, workcenter: Option<nat>, job: Option<nat>,
                         min: int, max: int)
    requires min <= max
    ensures OnlyRedoneLeft(archive, Unaffected(archive, Scope(site, Entities(station, site, workcenter, job), min, max)),
                           station, site, workcenter, job, min, max)
  {
    var s := Scope(site, Entities(station, site, workcenter, job), min, max);
    forall b | b in archive && b.durationSeconds > 0
      ensures b in Unaffected(archive, s) <==> !ToRedo(b, station, site, workcenter, job, min, max)
    {
      ToRestoreIs(archive, s, b);
      AffectedMeets(b, station, site, workcenter, job, min, max);
    }
  }

  /** The primary key and the unique constraint of one table. */
  predicate Unique(rows: seq<Bucket>) {
    forall i, j :: 0 <= i < j < |rows| ==> rows[i].id != rows[j].id && rows[i].key != rows[j].key
  }

  predicate HasId(rows: seq<Bucket>, id: nat) {
    exists i :: 0 <= i < |rows| && rows[i].id == id
  }

  predicate HasKey(rows: seq<Bucket>, key: Key) {
    exists i :: 0 <= i < |rows| && rows[i].key == key
  }

  function ToRestore(archive: seq<Bucket>, s: Scope): seq<Bucket> {
    if archive == [] then []
    else
      var n := |archive| - 1;
      ToRestore(archive[..n], s) + if Affected(archive[n], s) then [archive[n]] else []
  }

  function Unaffected(archive: seq<Bucket>, s: Scope): seq<Bucket> {
    if archive == [] then []
    else
      var n := |archive| - 1;
      Unaffected(archive[..n], s) + if Affected(archive[n], s) then [] else [archive[n]]
  }

  /** INSERT ... ON CONFLICT DO NOTHING, row by row. */
  function InsertNew(live: seq<Bucket>, rows: seq<Bucket>): seq<Bucket> {
    if rows == [] then live
    else
      var n := |rows| - 1;
      var before := InsertNew(live, rows[..n]);
      if HasId(before, rows[n].id) || HasKey(before, rows[n].key) then before else before + [rows[n]]
  }

  function WithoutIds(archive: seq<Bucket>, gone: seq<Bucket>): seq<Bucket> {
    if archive == [] then []
    else
      var n := |archive| - 1;
      WithoutIds(archive[..n], gone) + if HasId(gone, archive[n].id) then [] else [archive[n]]
  }

  class BucketTables {
    var live: seq<Bucket>
    var archive: seq<Bucket>

    predicate Valid()
      reads this
    {
      Unique(live) && Unique(archive)
    }

    constructor (live: seq<Bucket>, archive: seq<Bucket>)
      requires Unique(live) && Unique(archive)
      ensures Valid() && this.live == live && this.archive == archive
    {
      this.live, this.archive := live, archive;
    }

    method CreateMany(rows: seq<Bucket>)
      requires Valid()
      modifies this`live
      ensures Valid() && live == InsertNew(old(live), rows)
    {
      for i := 0 to |rows|
        invariant Valid() && live == InsertNew(old(live), rows[..i])
      {
        if !HasId(live, rows[i].id) && !HasKey(live, rows[i].key) {
          live := live + [rows[i]];
        }
        assert rows[..i + 1][..i] == rows[..i];
      }
      assert rows[..|rows|] == rows;
    }

    method DeleteMany(rows: seq<Bucket>)
      requires Valid()
      modifies this`archive
      ensures Valid() && archive == WithoutIds(old(archive), rows)
    {
      var kept := [];
      for i := 0 to |archive|
        invariant kept == WithoutIds(archive[..i], rows)
        invariant forall r :: r in kept ==> r in archive[..i]
        invariant Unique(kept)
      {
        if !HasId(rows, archive[i].id) {
          forall k | 0 <= k < |kept|
            ensures kept[k].id != archive[i].id && kept[k].key != archive[i].key
          {
            assert kept[k] in archive[..i];
          }
          kept := kept + [archive[i]];
        }
        assert archive[..i + 1][..i] == archive[..i];
        assert archive[..i + 1] == archive[..i] + [archive[i]];
      }
      assert archive[..|archive|] == archive;
      archive := kept;
    }

    /** The entities whose buckets a replay touches, looked up one by one. */
    method EntityIds(station: nat, site: nat, workcenter: Option<nat>, job: Option<nat>) returns (ids: seq<nat>)
      ensures ids == Entities(station, site, workcenter, job)
    {
      ids := [station, site];
      if workcenter.Some? {
        ids := ids + [workcenter.value];
      }
      if job.Some? {
        ids := ids + [job.value];
      }
    }

    /**
     * Live rows stay as they are and the archive keeps exactly the unaffected rows; every
     * affected archived row has moved unless its id or key was live already.
     */
    method UnarchiveAffected(station: nat, site: nat, workcenter: Option<nat>, job: Option<nat>, min: int, max: int)
      requires Valid()
      modifies this
      ensures Valid()
      ensures var s := Scope(site, Entities(station, site, workcenter, job), min, max);
              && live == InsertNew(old(live), ToRestore(old(archive), s))
              && archive == Unaffected(old(archive), s)
      ensures min <= max ==> OnlyRedoneLeft(old(archive), archive, station, site, workcenter, job, min, max)
      ensures MovedOver(old(live), live, old(archive), archive)
    {
      var ids := EntityIds(station, site, workcenter, job);
      var s := Scope(site, ids, min, max);
      if min <= max {
        OnlyAffectedLeft(archive, station, site, workcenter, job, min, max);
      }
      AffectedMoveOver(live, archive, s);
      var restore := [];
      for i := 0 to |archive|
        invariant restore == ToRestore(archive[..i], s)
      {
        if Affected(archive[i], s) {
          restore := restore + [archive[i]];
        }
        assert archive[..i + 1][..i] == archive[..i];
      }
      assert archive[..|archive|] == archive;
      UnaffectedIsWithoutIds(archive, s);
      if restore == [] {
        return;
      }
      CreateMany(restore);
      DeleteMany(restore);
    }
  }

  // ---------------------------------------------------------------------------
  // Which rows move
  // ---------------------------------------------------------------------------

  lemma {:induction false} ToRestoreIs(archive: seq<Bucket>, s: Scope, r: Bucket)
    ensures r in ToRestore(archive, s) <==> r in archive && Affected(r, s)
    ensures r in Unaffected(archive, s) <==> r in archive && !Affected(r, s)
  {
    if archive != [] {
      var n := |archive| - 1;
      ToRestoreIs(archive[..n], s, r);
      assert archive == archive[..n] + [archive[n]];
    }
  }

  /** Deleting by id what was restored removes exactly the affected rows. */
  lemma {:induction false} UnaffectedIsWithoutIds(archive: seq<Bucket>, s: Scope)
    requires Unique(archive)
    ensures WithoutIds(archive, ToRestore(archive, s)) == Unaffected(archive, s)
    ensures ToRestore(archive, s) == [] ==> Unaffected(archive, s) == archive
  {
    WithoutIdsOf(archive, archive, s);
    if ToRestore(archive, s) == [] {
      NothingAffected(archive, s);
    }
  }

  lemma {:induction false} WithoutIdsOf(part: seq<Bucket>, archive: seq<Bucket>, s: Scope)
    requires Unique(archive) && part <= archive
    ensures WithoutIds(part, ToRestore(archive, s)) == Unaffected(part, s)
  {
    if part != [] {
      var n := |part| - 1;
      WithoutIdsOf(part[..n], archive, s);
      RestoredIds(archive, s, n);
    }
  }

  lemma RestoredIds(archive: seq<Bucket>, s: Scope, i: nat)
    requires Unique(archive) && i < |archive|
    ensures HasId(ToRestore(archive, s), archive[i].id) <==> Affected(archive[i], s)
  {
    var rows := ToRestore(archive, s);
    ToRestoreIs(archive, s, archive[i]);
    if k :| 0 <= k < |rows| && rows[k].id == archive[i].id {
      ToRestoreIs(archive, s, rows[k]);
      assert rows[k] in rows;
      var j :| 0 <= j < |archive| && archive[j] == rows[k];
    }
    if Affected(archive[i], s) {
      var k :| 0 <= k < |rows| && rows[k] == archive[i];
    }
  }

  lemma {:induction false} NothingAffected(archive: seq<Bucket>, s: Scope)
    requires ToRestore(archive, s) == []
    ensures Unaffected(archive, s) == archive
  {
    if archive != [] {
      NothingAffected(archive[..|archive| - 1], s);
    }
  }

  /** The rows whose id and key are both new to the live table. */
  function Fresh(live: seq<Bucket>, rows: seq<Bucket>): seq<Bucket> {
    if rows == [] then []
    else
      var n := |rows| - 1;
      Fresh(live, rows[..n]) + if HasId(live, rows[n].id) || HasKey(live, rows[n].key) then [] else [rows[n]]
  }

  lemma {:induction false} FreshAre(live: seq<Bucket>, rows: seq<Bucket>, r: Bucket)
    ensures r in Fresh(live, rows) <==> r in rows && !HasId(live, r.id) && !HasKey(live, r.key)
  {
    if rows != [] {
      var n := |rows| - 1;
      FreshAre(live, rows[..n], r);
      assert rows == rows[..n] + [rows[n]];
    }
  }

  lemma HasIdConcat(a: seq<Bucket>, b: seq<Bucket>, id: nat)
    ensures HasId(a + b, id) <==> HasId(a, id) || HasId(b, id)
  {
    if i :| 0 <= i < |a| && a[i].id == id {
      assert (a + b)[i].id == id;
    }
    if i :| 0 <= i < |b| && b[i].id == id {
      assert (a + b)[|a| + i].id == id;
    }
  }

  lemma HasKeyConcat(a: seq<Bucket>, b: seq<Bucket>, key: Key)
    ensures HasKey(a + b, key) <==> HasKey(a, key) || HasKey(b, key)
  {
    if i :| 0 <= i < |a| && a[i].key == key {
      assert (a + b)[i].key == key;
    }
    if i :| 0 <= i < |b| && b[i].key == key {
      assert (a + b)[|a| + i].key == key;
    }
  }

  lemma FreshDiffer(live: seq<Bucket>, rows: seq<Bucket>)
    requires Unique(rows) && rows != []
    ensures var n := |rows| - 1;
            !HasId(Fresh(live, rows[..n]), rows[n].id) && !HasKey(Fresh(live, rows[..n]), rows[n].key)
  {
    var n := |rows| - 1;
    var added := Fresh(live, rows[..n]);
    forall k | 0 <= k < |added|
      ensures added[k].id != rows[n].id && added[k].key != rows[n].key
    {
      FreshAre(live, rows[..n], added[k]);
      var i :| 0 <= i < n && rows[..n][i] == added[k];
    }
  }

  /** A duplicate-free batch inserts exactly its rows that are new to the table. */
  lemma {:induction false} InsertNewIs(live: seq<Bucket>, rows: seq<Bucket>)
    requires Unique(rows)
    ensures InsertNew(live, rows) == live + Fresh(live, rows)
  {
    if rows == [] {
      assert live + [] == live;
    } else {
      var n := |rows| - 1;
      InsertNewIs(live, rows[..n]);
      FreshDiffer(live, rows);
      HasIdConcat(live, Fresh(live, rows[..n]), rows[n].id);
      HasKeyConcat(live, Fresh(live, rows[..n]), rows[n].key);
    }
  }

  // ---------------------------------------------------------------------------
  // Conservation
  // ---------------------------------------------------------------------------

  function LiveAfter(live: seq<Bucket>, archive: seq<Bucket>, s: Scope): seq<Bucket> {
    InsertNew(live, ToRestore(archive, s))
  }

  lemma {:induction false} RestoreUnique(archive: seq<Bucket>, s: Scope)
    requires Unique(archive)
    ensures Unique(ToRestore(archive, s)) && Unique(Unaffected(archive, s))
  {
    if archive != [] {
      var n := |archive| - 1;
      RestoreUnique(archive[..n], s);
      forall r | r in ToRestore(archive[..n], s) || r in Unaffected(archive[..n], s)
        ensures r.id != archive[n].id && r.key != archive[n].key
      {
        ToRestoreIs(archive[..n], s, r);
        var i :| 0 <= i < n && archive[..n][i] == r;
      }
    }
  }

  /**
   * Un-archiving overwrites no live row and moves an affected archived row unless its id or
   * key is already live; afterwards the archive holds its unaffected rows only, so none of an
   * affected entity's buckets there overlaps the window.
   */
  lemma UnarchiveMoves(live: seq<Bucket>, archive: seq<Bucket>, s: Scope, r: Bucket)
    requires Unique(live) && Unique(archive)
    ensures live <= LiveAfter(live, archive, s)
    ensures r in LiveAfter(live, archive, s) <==>
            r in live || (r in archive && Affected(r, s) && !HasId(live, r.id) && !HasKey(live, r.key))
    ensures r in Unaffected(archive, s) <==> r in archive && !Affected(r, s)
  {
    var rows := ToRestore(archive, s);
    RestoreUnique(archive, s);
    InsertNewIs(live, rows);
    FreshAre(live, rows, r);
    ToRestoreIs(archive, s, r);
  }

  /** No live row went or changed, no archived row is new, and what left the archive is live now, or its id or key was. */
  ghost predicate MovedOver(live: seq<Bucket>, live': seq<Bucket>, archive: seq<Bucket>, archive': seq<Bucket>) {
    && live <= live'
    && (forall b :: b in archive' ==> b in archive)
    && forall b :: b in live' <==>
         b in live || (b in archive && b !in archive' && !HasId(live, b.id) && !HasKey(live, b.key))
  }

  lemma AffectedMoveOver(live: seq<Bucket>, archive: seq<Bucket>, s: Scope)
    requires Unique(live) && Unique(archive)
    ensures MovedOver(live, LiveAfter(live, archive, s), archive, Unaffected(archive, s))
  {
    UnarchiveMoves(live, archive, s, Bucket(0, 0, Key(0, 0, 0, 0), 0, 0));
    forall b
      ensures b in Unaffected(archive, s) ==> b in archive
      ensures b in LiveAfter(live, archive, s) <==>
              b in live || (b in archive && b !in Unaffected(archive, s) && !HasId(live, b.id) && !HasKey(live, b.key))
    {
      UnarchiveMoves(live, archive, s, b);
    }
  }

  /** The bucket with this key is in one of the two tables. */
  predicate Stored(live: seq<Bucket>, archive: seq<Bucket>, key: Key) {
    (exists r :: r in live && r.key == key) || (exists r :: r in archive && r.key == key)
  }

  /** An affected archived bucket whose id, but not its key, is taken by a live row. */
  predicate IdClash(live: seq<Bucket>, r: Bucket) {
    HasId(live, r.id) && !HasKey(live, r.key)
  }

  lemma HasKeyMember(rows: seq<Bucket>, key: Key)
    ensures HasKey(rows, key) <==> exists r :: r in rows && r.key == key
  {
    if r :| r in rows && r.key == key {
      var i :| 0 <= i < |rows| && rows[i] == r;
    }
  }

  /** No key appears that was not stored before. */
  lemma NoKeyAppears(live: seq<Bucket>, archive: seq<Bucket>, s: Scope, key: Key)
    requires Unique(live) && Unique(archive)
    ensures Stored(LiveAfter(live, archive, s), Unaffected(archive, s), key) ==> Stored(live, archive, key)
  {
    if r :| (r in LiveAfter(live, archive, s) || r in Unaffected(archive, s)) && r.key == key {
      UnarchiveMoves(live, archive, s, r);
    }
  }

  /** A key is lost exactly when its archived bucket is affected and clashes with a live id. */
  lemma KeyKeptIff(live: seq<Bucket>, archive: seq<Bucket>, s: Scope, r: Bucket)
    requires Unique(live) && Unique(archive) && r in archive
    ensures Stored(LiveAfter(live, archive, s), Unaffected(archive, s), r.key) <==>
            !(Affected(r, s) && IdClash(live, r))
  {
    HasKeyMember(live, r.key);
    UnarchiveMoves(live, archive, s, r);
    if HasKey(live, r.key) {
      var l :| l in live && l.key == r.key;
      UnarchiveMoves(live, archive, s, l);
    } else if o :| (o in LiveAfter(live, archive, s) || o in Unaffected(archive, s)) && o.key == r.key {
      UnarchiveMoves(live, archive, s, o);
      assert o !in live;
      var i :| 0 <= i < |archive| && archive[i] == o;
      var j :| 0 <= j < |archive| && archive[j] == r;
      assert o == r;
    }
  }

  /** Un-archiving conserves the set of stored keys exactly when no affected bucket's id clashes. */
  lemma KeysConservedIff(live: seq<Bucket>, archive: seq<Bucket>, s: Scope)
    requires Unique(live) && Unique(archive)
    ensures (forall key :: Stored(LiveAfter(live, archive, s), Unaffected(archive, s), key) <==> Stored(live, archive, key))
            <==> (forall r :: r in archive && Affected(r, s) ==> !IdClash(live, r))
  {
    if r :| r in archive && Affected(r, s) && IdClash(live, r) {
      KeyKeptIff(live, archive, s, r);
      assert Stored(live, archive, r.key);
    } else {
      forall key
        ensures Stored(LiveAfter(live, archive, s), Unaffected(archive, s), key) <==> Stored(live, archive, key)
      {
        NoKeyAppears(live, archive, s, key);
        if r :| r in archive && r.key == key {
          KeyKeptIff(live, archive, s, r);
        } else if r :| r in live && r.key == key {
          UnarchiveMoves(live, archive, s, r);
        }
      }
    }
  }

  lemma {:induction false} NoneLeft(archive: seq<Bucket>, s: Scope)
    ensures ToRestore(Unaffected(archive, s), s) == []
    ensures Unaffected(Unaffected(archive, s), s) == Unaffected(archive, s)
  {
    var rest := Unaffected(archive, s);
    if ToRestore(rest, s) != [] {
      var r := ToRestore(rest, s)[0];
      ToRestoreIs(rest, s, r);
      ToRestoreIs(archive, s, r);
    }
    NothingAffected(rest, s);
  }

  /** Un-archiving the same scope again changes neither table. */
  lemma UnarchiveTwice(live: seq<Bucket>, archive: seq<Bucket>, s: Scope)
    ensures var live' := LiveAfter(live, archive, s);
            var archive' := Unaffected(archive, s);
            LiveAfter(live', archive', s) == live' && Unaffected(archive', s) == archive'
  {
    NoneLeft(archive, s);
  }

  // ---------------------------------------------------------------------------
  // Ids travel with their keys
  // ---------------------------------------------------------------------------

  /** The two tables, and the key of every id ever drawn. */
  datatype World = World(live: seq<Bucket>, archive: seq<Bucket>, drawn: map<nat, Key>)

  const EMPTY_WORLD := World([], [], map[])

  /**
   * The writes to the two tables, one statement each. Moving a row takes a copy and a drop, and
   * a crash or another writer may come in between; the rows copied were read from a table at
   * some earlier moment.
   */
  datatype Step =
    | Create(row: Bucket)
    | Refresh(at: nat, kpis: nat)
    | CopyOut(read: seq<Bucket>)
    | DropLive(copied: seq<Bucket>)
    | CopyBack(restored: seq<Bucket>)
    | DropArchived(gone: seq<Bucket>)

  /** Every row carries an id that was drawn for its key. */
  predicate Drawn(drawn: map<nat, Key>, rows: seq<Bucket>) {
    forall r :: r in rows ==> r.id in drawn && drawn[r.id] == r.key
  }

  /** A new row draws an unused id; a copied row was once in a table. */
  predicate Enabled(w: World, s: Step) {
    match s
    case Create(row) => row.id !in w.drawn
    case Refresh(at, _) => at < |w.live|
    case CopyOut(read) => Drawn(w.drawn, read)
    case CopyBack(restored) => Drawn(w.drawn, restored)
    case _ => true
  }

  function Apply(w: World, s: Step): World
    requires Enabled(w, s)
  {
    match s
    case Create(row) => w.(live := InsertNew(w.live, [row]), drawn := w.drawn[row.id := row.key])
    case Refresh(at, kpis) => w.(live := w.live[at := w.live[at].(kpis := kpis)])
    case CopyOut(read) => w.(archive := InsertNew(w.archive, read))
    case DropLive(copied) => w.(live := WithoutIds(w.live, copied))
    case CopyBack(restored) => w.(live := InsertNew(w.live, restored))
    case DropArchived(gone) => w.(archive := WithoutIds(w.archive, gone))
  }

  predicate IsRun(steps: seq<Step>)
    decreases |steps|, 0
  {
    steps == [] ||
    var n := |steps| - 1;
    IsRun(steps[..n]) && Enabled(After(steps[..n]), steps[n])
  }

  function After(steps: seq<Step>): World
    requires IsRun(steps)
    decreases |steps|, 1
  {
    if steps == [] then EMPTY_WORLD
    else
      var n := |steps| - 1;
      Apply(After(steps[..n]), steps[n])
  }

  predicate Sound(w: World) {
    Unique(w.live) && Unique(w.archive) && Drawn(w.drawn, w.live) && Drawn(w.drawn, w.archive)
  }

  lemma UniqueMore(rows: seq<Bucket>, r: Bucket)
    requires Unique(rows) && !HasId(rows, r.id) && !HasKey(rows, r.key)
    ensures Unique(rows + [r])
  {
  }

  lemma {:induction false} InsertNewSound(live: seq<Bucket>, rows: seq<Bucket>, drawn: map<nat, Key>)
    requires Unique(live) && Drawn(drawn, live) && Drawn(drawn, rows)
    ensures Unique(InsertNew(live, rows)) && Drawn(drawn, InsertNew(live, rows)) && live <= InsertNew(live, rows)
  {
    if rows != [] {
      var n := |rows| - 1;
      assert rows[n] in rows;
      InsertNewSound(live, rows[..n], drawn);
      var before := InsertNew(live, rows[..n]);
      if !HasId(before, rows[n].id) && !HasKey(before, rows[n].key) {
        UniqueMore(before, rows[n]);
      }
    }
  }

  lemma {:induction false} WithoutIdsIs(rows: seq<Bucket>, gone: seq<Bucket>, r: Bucket)
    ensures r in WithoutIds(rows, gone) <==> r in rows && !HasId(gone, r.id)
  {
    if rows != [] {
      var n := |rows| - 1;
      WithoutIdsIs(rows[..n], gone, r);
      assert rows == rows[..n] + [rows[n]];
    }
  }

  lemma NotAmong(rows: seq<Bucket>, n: nat, r: Bucket)
    requires Unique(rows) && n < |rows| && r in rows[..n]
    ensures r.id != rows[n].id && r.key != rows[n].key
  {
    var i :| 0 <= i < n && rows[..n][i] == r;
  }

  lemma {:induction false} WithoutIdsUnique(rows: seq<Bucket>, gone: seq<Bucket>)
    requires Unique(rows)
    ensures Unique(WithoutIds(rows, gone))
  {
    if rows != [] {
      var n := |rows| - 1;
      var kept := WithoutIds(rows[..n], gone);
      WithoutIdsUnique(rows[..n], gone);
      forall k | 0 <= k < |kept|
        ensures kept[k].id != rows[n].id && kept[k].key != rows[n].key
      {
        WithoutIdsIs(rows[..n], gone, kept[k]);
        NotAmong(rows, n, kept[k]);
      }
    }
  }

  lemma WithoutIdsSound(rows: seq<Bucket>, gone: seq<Bucket>, drawn: map<nat, Key>)
    requires Unique(rows) && Drawn(drawn, rows)
    ensures Unique(WithoutIds(rows, gone)) && Drawn(drawn, WithoutIds(rows, gone))
  {
    WithoutIdsUnique(rows, gone);
    forall r | r in WithoutIds(rows, gone)
      ensures r in rows
    {
      WithoutIdsIs(rows, gone, r);
    }
  }

  lemma CreateSound(w: World, row: Bucket)
    requires Sound(w) && row.id !in w.drawn
    ensures Sound(Apply(w, Create(row)))
  {
    InsertNewSound(w.live, [row], w.drawn[row.id := row.key]);
  }

  lemma RefreshSound(w: World, at: nat, kpis: nat)
    requires Sound(w) && at < |w.live|
    ensures Sound(Apply(w, Refresh(at, kpis)))
  {
    var row := w.live[at].(kpis := kpis);
    assert w.live[at] in w.live;
    forall r | r in w.live[at := row]
      ensures r.id in w.drawn && w.drawn[r.id] == r.key
    {
      assert r == row || r in w.live;
    }
  }

  lemma SoundStep(w: World, s: Step)
    requires Sound(w) && Enabled(w, s)
    ensures Sound(Apply(w, s))
  {
    match s
    case Create(row) => CreateSound(w, row);
    case Refresh(at, kpis) => RefreshSound(w, at, kpis);
    case CopyOut(read) => InsertNewSound(w.archive, read, w.drawn);
    case DropLive(copied) => WithoutIdsSound(w.live, copied, w.drawn);
    case CopyBack(restored) => InsertNewSound(w.live, restored, w.drawn);
    case DropArchived(gone) => WithoutIdsSound(w.archive, gone, w.drawn);
  }

  /** Rows of the two tables with the same id have the same key. */
  predicate IdsAgree(live: seq<Bucket>, archive: seq<Bucket>) {
    forall a, b :: a in live && b in archive && a.id == b.id ==> a.key == b.key
  }

  /** In every run, however its copies and drops interleave, an id carries one key in both tables. */
  lemma {:induction false} IdsAlwaysAgree(steps: seq<Step>)
    requires IsRun(steps)
    ensures Sound(After(steps)) && IdsAgree(After(steps).live, After(steps).archive)
  {
    if steps != [] {
      var n := |steps| - 1;
      IdsAlwaysAgree(steps[..n]);
      SoundStep(After(steps[..n]), steps[n]);
    }
  }

  lemma {:induction false} CopiedKeyStored(dst: seq<Bucket>, rows: seq<Bucket>, drawn: map<nat, Key>, r: Bucket)
    requires Unique(dst) && Drawn(drawn, dst) && Drawn(drawn, rows) && r in rows
    ensures HasKey(InsertNew(dst, rows), r.key)
  {
    var n := |rows| - 1;
    var before := InsertNew(dst, rows[..n]);
    assert rows == rows[..n] + [rows[n]];
    InsertNewSound(dst, rows[..n], drawn);
    if r == rows[n] {
      if i :| 0 <= i < |before| && before[i].id == r.id {
        assert before[i] in before && before[i].key == r.key;
      } else {
        HasKeyConcat(before, [r], r.key);
        assert [r][0].key == r.key;
      }
    } else {
      CopiedKeyStored(dst, rows[..n], drawn, r);
      HasKeyConcat(before, [rows[n]], r.key);
    }
  }

  lemma {:induction false} InsertNewFrom(dst: seq<Bucket>, rows: seq<Bucket>, r: Bucket)
    requires r in InsertNew(dst, rows)
    ensures r in dst || r in rows
  {
    if rows != [] && r != rows[|rows| - 1] {
      InsertNewFrom(dst, rows[..|rows| - 1], r);
    }
  }

  lemma SameRow(src: seq<Bucket>, a: Bucket, b: Bucket)
    requires Unique(src) && a in src && b in src && a.id == b.id
    ensures a == b
  {
    var i :| 0 <= i < |src| && src[i] == a;
    var j :| 0 <= j < |src| && src[j] == b;
  }

  /** Copying rows of one table into the other and dropping them from the first conserves every key. */
  lemma TransferConserves(src: seq<Bucket>, dst: seq<Bucket>, rows: seq<Bucket>, drawn: map<nat, Key>, key: Key)
    requires Unique(src) && Unique(dst) && Drawn(drawn, src) && Drawn(drawn, dst)
    requires forall r :: r in rows ==> r in src
    ensures Stored(InsertNew(dst, rows), WithoutIds(src, rows), key) <==> Stored(dst, src, key)
  {
    InsertNewSound(dst, rows, drawn);
    if r :| r in src && r.key == key {
      WithoutIdsIs(src, rows, r);
      if k :| 0 <= k < |rows| && rows[k].id == r.id {
        SameRow(src, rows[k], r);
        CopiedKeyStored(dst, rows, drawn, r);
        HasKeyMember(InsertNew(dst, rows), key);
      }
    }
    if r :| r in InsertNew(dst, rows) && r.key == key {
      InsertNewFrom(dst, rows, r);
    }
    if r :| r in WithoutIds(src, rows) && r.key == key {
      WithoutIdsIs(src, rows, r);
    }
  }

  /** In every reachable pair of tables, un-archiving conserves the set of stored keys. */
  lemma UnarchiveConserves(steps: seq<Step>, s: Scope, key: Key)
    requires IsRun(steps)
    ensures var w := After(steps);
            Stored(LiveAfter(w.live, w.archive, s), Unaffected(w.archive, s), key) <==> Stored(w.live, w.archive, key)
  {
    var w := After(steps);
    IdsAlwaysAgree(steps);
    UnaffectedIsWithoutIds(w.archive, s);
    forall r | r in ToRestore(w.archive, s)
      ensures r in w.archive
    {
      ToRestoreIs(w.archive, s, r);
    }
    TransferConserves(w.archive, w.live, ToRestore(w.archive, s), w.drawn, key);
  }

  /** And so does archiving any of the live rows. */
  lemma ArchiveConserves(steps: seq<Step>, rows: seq<Bucket>, key: Key)
    requires IsRun(steps) && forall r :: r in rows ==> r in After(steps).live
    ensures var w := After(steps);
            Stored(WithoutIds(w.live, rows), InsertNew(w.archive, rows), key) <==> Stored(w.live, w.archive, key)
  {
    var w := After(steps);
    IdsAlwaysAgree(steps);
    TransferConserves(w.live, w.archive, rows, w.drawn, key);
  }

  // ---------------------------------------------------------------------------
  // Which single statements lose a key
  // ---------------------------------------------------------------------------

  /** A dropped row whose key the other table does not hold. */
  predicate DropsLast(rows: seq<Bucket>, other: seq<Bucket>, gone: seq<Bucket>) {
    exists r :: r in rows && HasId(gone, r.id) && !HasKey(other, r.key)
  }

  predicate Loses(w: World, s: Step) {
    match s
    case DropLive(copied) => DropsLast(w.live, w.archive, copied)
    case DropArchived(gone) => DropsLast(w.archive, w.live, gone)
    case _ => false
  }

  ghost predicate KeysKept(w: World, w': World) {
    forall key :: Stored(w.live, w.archive, key) ==> Stored(w'.live, w'.archive, key)
  }

  lemma KeyIsOwn(rows: seq<Bucket>, a: Bucket, b: Bucket)
    requires Unique(rows) && a in rows && b in rows
    ensures a.key == b.key ==> a == b
  {
    var i :| 0 <= i < |rows| && rows[i] == a;
    var j :| 0 <= j < |rows| && rows[j] == b;
  }

  lemma DropKeepsIff(rows: seq<Bucket>, other: seq<Bucket>, gone: seq<Bucket>)
    requires Unique(rows)
    ensures (forall key :: Stored(rows, other, key) ==> Stored(WithoutIds(rows, gone), other, key)) <==>
            !DropsLast(rows, other, gone)
  {
    if DropsLast(rows, other, gone) {
      var r :| r in rows && HasId(gone, r.id) && !HasKey(other, r.key);
      HasKeyMember(other, r.key);
      forall x | x in WithoutIds(rows, gone)
        ensures x.key != r.key
      {
        WithoutIdsIs(rows, gone, x);
        KeyIsOwn(rows, x, r);
      }
      assert Stored(rows, other, r.key) && !Stored(WithoutIds(rows, gone), other, r.key);
    } else {
      forall key | Stored(rows, other, key)
        ensures Stored(WithoutIds(rows, gone), other, key)
      {
        HasKeyMember(other, key);
        if r :| r in rows && r.key == key {
          WithoutIdsIs(rows, gone, r);
        }
      }
    }
  }

  lemma InsertKeeps(w: World, s: Step)
    requires Sound(w) && Enabled(w, s) && !s.DropLive? && !s.DropArchived?
    ensures KeysKept(w, Apply(w, s))
  {
    var w' := Apply(w, s);
    match s
    case Create(row) => InsertNewSound(w.live, [row], w'.drawn);
    case CopyOut(read) => InsertNewSound(w.archive, read, w.drawn);
    case CopyBack(restored) => InsertNewSound(w.live, restored, w.drawn);
    case Refresh(at, kpis) =>
      forall r | r in w.live
        ensures exists x :: x in w'.live && x.key == r.key
      {
        var i :| 0 <= i < |w.live| && w.live[i] == r;
        assert w'.live[i] in w'.live && w'.live[i].key == r.key;
      }
  }

  /** A statement loses a stored key exactly when it drops a row whose key only that table holds. */
  lemma StepLosesIff(w: World, s: Step)
    requires Sound(w) && Enabled(w, s)
    ensures KeysKept(w, Apply(w, s)) <==> !Loses(w, s)
  {
    match s
    case DropLive(copied) => DropKeepsIff(w.live, w.archive, copied);
    case DropArchived(gone) =>
      DropKeepsIff(w.archive, w.live, gone);
      StoredEitherWay(w.live, w.archive);
      StoredEitherWay(w.live, WithoutIds(w.archive, gone));
    case _ => InsertKeeps(w, s);
  }

  lemma StoredEitherWay(a: seq<Bucket>, b: seq<Bucket>)
    ensures forall key :: Stored(a, b, key) <==> Stored(b, a, key)
  {
  }

  lemma Prolong(steps: seq<Step>, s: Step, w: World)
    requires IsRun(steps) && After(steps) == w && Enabled(w, s)
    ensures IsRun(steps + [s]) && After(steps + [s]) == Apply(w, s)
  {
    assert (steps + [s])[..|steps|] == steps;
  }

  lemma OneRow(row: Bucket)
    ensures InsertNew([], [row]) == [row] && InsertNew([row], [row]) == [row] && WithoutIds([row], [row]) == []
  {
    assert [row][..0] == [];
    assert [row][0].id == row.id;
  }

  /** A bucket is created, archived and copied back, and not yet dropped from the archive. */
  lemma HalfRestored(row: Bucket) returns (steps: seq<Step>)
    ensures IsRun(steps) && After(steps) == World([row], [row], map[row.id := row.key])
  {
    var drawn := map[row.id := row.key];
    OneRow(row);
    Prolong([], Create(row), EMPTY_WORLD);
    steps := [] + [Create(row)];
    Prolong(steps, CopyOut([row]), World([row], [], drawn));
    steps := steps + [CopyOut([row])];
    Prolong(steps, DropLive([row]), World([row], [row], drawn));
    steps := steps + [DropLive([row])];
    Prolong(steps, CopyBack([row]), World([], [row], drawn));
    steps := steps + [CopyBack([row])];
  }

  /**
   * Why the copy and the drop must not be interleaved with archiving: for every bucket, if the
   * archive worker runs between them, its copy skips the row that is still archived, and the
   * two drops leave the bucket in neither table.
   */
  lemma InterleavingLoses(row: Bucket) returns (steps: seq<Step>)
    ensures IsRun(steps) && IsRun(steps + [CopyOut([row])] + [DropLive([row])] + [DropArchived([row])])
    ensures After(steps) == World([row], [row], map[row.id := row.key])
    ensures After(steps + [CopyOut([row])] + [DropLive([row])] + [DropArchived([row])]) == World([], [], map[row.id := row.key])
  {
    var drawn := map[row.id := row.key];
    OneRow(row);
    steps := HalfRestored(row);
    var copied := steps + [CopyOut([row])];
    Prolong(steps, CopyOut([row]), World([row], [row], drawn));
    Prolong(copied, DropLive([row]), World([row], [row], drawn));
    Prolong(copied + [DropLive([row])], DropArchived([row]), World([], [row], drawn));
  }
}
