/**
 * The station state log: rows of UP and DOWN time, and the row operations that cycle
 * completion, downtime detection and replay repair apply to it. Times are milliseconds.
 * Row ids and block ids are drawn from two supplies of unused numbers.
 */
module StateLog {
  import opened Common

  datatype State = UP | DOWN

  datatype Status = StatusUp | StatusSlow | StatusDown

  datatype StateRow = StateRow(
    id: nat,
    start: int,
    end: Option<int>,
    state: State,
    status: Status,
    block: nat,
    jobBlob: Option<nat>,
    deleted: bool)

  datatype Log = Log(rows: seq<StateRow>, nextRow: nat, nextBlock: nat)

  const EMPTY_LOG := Log([], 0, 0)

  predicate IsOpen(r: StateRow) {
    r.end.None? && !r.deleted
  }

  /** The rows that are not soft-deleted, oldest insertion first. */
  function Live(rows: seq<StateRow>): seq<StateRow> {
    if rows == [] then []
    else
      var last := rows[|rows| - 1];
      Live(rows[..|rows| - 1]) + if last.deleted then [] else [last]
  }

  /** What the partial unique index on open live rows guarantees. */
  predicate AtMostOneOpen(rows: seq<StateRow>) {
    forall i, j :: 0 <= i < j < |rows| ==> !(IsOpen(rows[i]) && IsOpen(rows[j]))
  }

  /**
   * The open live row, searched from the newest row backwards. The source orders open rows by
   * start; with at most one open row, which every run keeps, that is the same row
   * (StateLogTheorems.FoundIsTheOpenRow).
   */
  function OpenRow(rows: seq<StateRow>): Option<StateRow> {
    if rows == [] then None
    else if IsOpen(rows[|rows| - 1]) then Some(rows[|rows| - 1])
    else OpenRow(rows[..|rows| - 1])
  }

  /** UPDATE ... SET endTime = ts over the open live rows. */
  function CloseOpen(rows: seq<StateRow>, ts: int): (r: seq<StateRow>) {
    seq(|rows|, i requires 0 <= i < |rows| => if IsOpen(rows[i]) then rows[i].(end := Some(ts)) else rows[i])
  }

  /** UPDATE ... SET endTime = ts over the open live rows other than one. */
  function CloseOthers(rows: seq<StateRow>, id: nat, ts: int): (r: seq<StateRow>) {
    seq(|rows|, i requires 0 <= i < |rows| =>
      if IsOpen(rows[i]) && rows[i].id != id then rows[i].(end := Some(ts)) else rows[i])
  }

  /** The open row with this id becomes DOWN under a new block; any other open row is closed. */
  function MarkDown(rows: seq<StateRow>, id: nat, ts: int, block: nat, jobBlob: Option<nat>): (r: seq<StateRow>) {
    seq(|rows|, i requires 0 <= i < |rows| =>
      if !IsOpen(rows[i]) then rows[i]
      else if rows[i].id != id then rows[i].(end := Some(ts))
      else rows[i].(state := DOWN, status := StatusDown, block := block, jobBlob := jobBlob))
  }

  function MarkSlow(rows: seq<StateRow>, id: nat): (r: seq<StateRow>) {
    seq(|rows|, i requires 0 <= i < |rows| =>
      if IsOpen(rows[i]) && rows[i].id == id then rows[i].(status := StatusSlow) else rows[i])
  }

  /** The rows a replay window [min, max] soft-deletes. */
  predicate Replaced(r: StateRow, min: int, max: int) {
    !r.deleted
    && ((r.start <= max && (r.end.None? || r.end.value >= min)) || r.end.None?)
  }

  function SoftDelete(rows: seq<StateRow>, min: int, max: int): (r: seq<StateRow>) {
    seq(|rows|, i requires 0 <= i < |rows| =>
      if Replaced(rows[i], min, max) then rows[i].(deleted := true) else rows[i])
  }

  /**
   * Close whatever is open at ts and open an UP row there; the block is kept when the
   * closed row was UP and is new otherwise.
   */
  function ToUp(l: Log, ts: int, jobBlob: nat, slow: bool): Log {
    var open := OpenRow(l.rows);
    var keep := open.Some? && open.value.state == UP;
    var block := if keep then open.value.block else l.nextBlock;
    var row := StateRow(l.nextRow, ts, None, UP, if slow then StatusSlow else StatusUp, block, Some(jobBlob), false);
    Log(CloseOpen(l.rows, ts) + [row], l.nextRow + 1, if keep then l.nextBlock else l.nextBlock + 1)
  }

  /** Downtime detection: turn the open UP row into a DOWN row that keeps its start. */
  function ToDown(l: Log, ts: int, jobBlob: Option<nat>): Log {
    var open := OpenRow(l.rows);
    if open.None? then
      Log(l.rows + [StateRow(l.nextRow, ts, None, DOWN, StatusDown, l.nextBlock, jobBlob, false)],
          l.nextRow + 1, l.nextBlock + 1)
    else if open.value.state == DOWN then l
    else Log(MarkDown(l.rows, open.value.id, ts, l.nextBlock, jobBlob), l.nextRow, l.nextBlock + 1)
  }

  /** Slow detection: mark the open UP row SLOW in place. */
  function ToSlow(l: Log, ts: int): Log {
    var open := OpenRow(l.rows);
    if open.None? then
      Log(l.rows + [StateRow(l.nextRow, ts, None, UP, StatusSlow, l.nextBlock, None, false)],
          l.nextRow + 1, l.nextBlock + 1)
    else if open.value.state == DOWN || open.value.status == StatusSlow then l
    else Log(MarkSlow(l.rows, open.value.id), l.nextRow, l.nextBlock)
  }

  /** The two rows a repair of the window [min, max] inserts. */
  function RepairRows(l: Log, min: int, max: int, jobBlob: Option<nat>): (r: seq<StateRow>)
    ensures |r| == 2
  {
    [StateRow(l.nextRow, min, Some(max), UP, StatusUp, l.nextBlock, jobBlob, false),
     StateRow(l.nextRow + 1, max, None, UP, StatusUp, l.nextBlock, jobBlob, false)]
  }

  /** Replay repair: drop every row the window touches, plus the open one, and write UP from min on. */
  function Repair(l: Log, min: int, max: int, jobBlob: Option<nat>): Log {
    Log(SoftDelete(l.rows, min, max) + RepairRows(l, min, max, jobBlob), l.nextRow + 2, l.nextBlock + 1)
  }

  // ---------------------------------------------------------------------------
  // What each operation leaves behind
  // ---------------------------------------------------------------------------

  /** Fresh numbers really are fresh: no row carries an id or a block the log has yet to hand out. */
  predicate Fresh(l: Log) {
    forall r :: r in l.rows ==> r.id < l.nextRow && r.block < l.nextBlock
  }

  predicate OneOpen(l: Log) {
    AtMostOneOpen(l.rows) && Fresh(l)
  }

  predicate OpenAt(rows: seq<StateRow>, i: int) {
    0 <= i < |rows| && IsOpen(rows[i])
  }

  predicate NoneIsOpen(rows: seq<StateRow>) {
    forall i :: 0 <= i < |rows| ==> !OpenAt(rows, i)
  }

  predicate NewBlock(rows: seq<StateRow>, block: nat) {
    forall r :: r in rows ==> r.block != block
  }

  predicate NewId(rows: seq<StateRow>, id: nat) {
    forall r :: r in rows ==> r.id != id
  }

  /** The rows are those of before with one more, which is open and of an id and a block of its own. */
  predicate OneMoreOpen(before: seq<StateRow>, after: seq<StateRow>) {
    && |after| == |before| + 1 && after[..|before|] == before
    && var row := after[|before|];
       IsOpen(row) && NewId(before, row.id) && NewBlock(before, row.block)
  }

  /** Downtime detected at ts: whatever row is open is DOWN, and an open UP row became so from its start on. */
  ghost predicate MarkedDown(before: seq<StateRow>, after: seq<StateRow>, ts: int, jobBlob: Option<nat>) {
    && (NoneIsOpen(before) ==>
          && OneMoreOpen(before, after)
          && var row := after[|before|];
             row.start == ts && row.state == DOWN && row.status == StatusDown && row.jobBlob == jobBlob)
    && (forall i :: OpenAt(before, i) && before[i].state == DOWN ==> after == before)
    && (forall i :: OpenAt(before, i) && before[i].state == UP ==>
          && |after| == |before| && (forall j :: 0 <= j < |before| && j != i ==> after[j] == before[j])
          && IsOpen(after[i]) && after[i].id == before[i].id && after[i].start == before[i].start
          && after[i].state == DOWN && after[i].status == StatusDown
          && NewBlock(before, after[i].block) && after[i].jobBlob == jobBlob)
  }

  /** Slowness detected at ts: an open UP row is SLOW and otherwise as it was; a DOWN row is left alone. */
  ghost predicate MarkedSlow(before: seq<StateRow>, after: seq<StateRow>, ts: int) {
    && (NoneIsOpen(before) ==>
          && OneMoreOpen(before, after)
          && var row := after[|before|];
             row.start == ts && row.state == UP && row.status == StatusSlow && row.jobBlob == None)
    && (forall i :: OpenAt(before, i) && before[i].state == DOWN ==> after == before)
    && (forall i :: OpenAt(before, i) && before[i].state == UP ==>
          && |after| == |before| && (forall j :: 0 <= j < |before| && j != i ==> after[j] == before[j])
          && after[i].status == StatusSlow && before[i] == after[i].(status := before[i].status))
  }

  /** A completion at ts: what was open ends there, and an open UP row starts there, in the block of an UP row it follows. */
  ghost predicate MovedUp(before: seq<StateRow>, after: seq<StateRow>, ts: int, jobBlob: nat, slow: bool) {
    && |after| == |before| + 1
    && (forall i :: 0 <= i < |before| ==>
          if IsOpen(before[i]) then after[i].end == Some(ts) && before[i] == after[i].(end := None) else after[i] == before[i])
    && var row := after[|before|];
       && IsOpen(row) && row.start == ts && row.state == UP && row.jobBlob == Some(jobBlob) && NewId(before, row.id)
       && (slow ==> row.status == StatusSlow) && (!slow ==> row.status == StatusUp)
       && (forall i :: OpenAt(before, i) && before[i].state == UP ==> row.block == before[i].block)
       && ((forall i :: OpenAt(before, i) ==> before[i].state == DOWN) ==> NewBlock(before, row.block))
  }

  /** A repair of [min, max]: open rows and rows that meet the window are deleted, and one new block is UP from min on. */
  ghost predicate Repaired(before: seq<StateRow>, after: seq<StateRow>, min: int, max: int, jobBlob: Option<nat>) {
    && |after| == |before| + 2
    && (forall i :: 0 <= i < |before| ==>
          var r := before[i];
          && after[i].(deleted := r.deleted) == r
          && (after[i].deleted <==> r.deleted || r.end.None? || (r.start <= max && min <= r.end.value)))
    && var window, rest := after[|before|], after[|before| + 1];
       && window.start == min && window.end == Some(max) && rest.start == max && IsOpen(rest) && !window.deleted
       && window.state == rest.state == UP && window.status == rest.status == StatusUp
       && window.jobBlob == rest.jobBlob == jobBlob
       && window.block == rest.block && NewBlock(before, rest.block)
       && window.id != rest.id && NewId(before, window.id) && NewId(before, rest.id)
  }

  lemma FoundIs(rows: seq<StateRow>, i: int)
    requires AtMostOneOpen(rows) && OpenAt(rows, i)
    ensures OpenRow(rows) == Some(rows[i])
  {
    OpenRowUnique(rows, rows[i]);
  }

  lemma NoneFound(rows: seq<StateRow>)
    ensures OpenRow(rows) == None <==> NoneIsOpen(rows)
  {
    OpenRowSpec(rows);
    if OpenRow(rows).Some? {
      var i :| 0 <= i < |rows| && rows[i] == OpenRow(rows).value;
      assert OpenAt(rows, i);
    }
  }

  lemma DownMarks(l: Log, ts: int, jobBlob: Option<nat>)
    requires OneOpen(l)
    ensures MarkedDown(l.rows, ToDown(l, ts, jobBlob).rows, ts, jobBlob)
  {
    NoneFound(l.rows);
    forall i | OpenAt(l.rows, i)
      ensures OpenRow(l.rows) == Some(l.rows[i])
    {
      FoundIs(l.rows, i);
    }
  }

  lemma SlowMarks(l: Log, ts: int)
    requires OneOpen(l)
    ensures MarkedSlow(l.rows, ToSlow(l, ts).rows, ts)
  {
    NoneFound(l.rows);
    forall i | OpenAt(l.rows, i)
      ensures OpenRow(l.rows) == Some(l.rows[i])
    {
      FoundIs(l.rows, i);
    }
  }

  lemma UpMoves(l: Log, ts: int, jobBlob: nat, slow: bool)
    requires OneOpen(l)
    ensures MovedUp(l.rows, ToUp(l, ts, jobBlob, slow).rows, ts, jobBlob, slow)
  {
    NoneFound(l.rows);
    OpenRowSpec(l.rows);
    forall i | OpenAt(l.rows, i)
      ensures OpenRow(l.rows) == Some(l.rows[i])
    {
      FoundIs(l.rows, i);
    }
    if OpenRow(l.rows).Some? {
      var k :| 0 <= k < |l.rows| && l.rows[k] == OpenRow(l.rows).value;
      assert OpenAt(l.rows, k);
    }
  }

  lemma RepairMarks(l: Log, min: int, max: int, jobBlob: Option<nat>)
    requires Fresh(l)
    ensures Repaired(l.rows, Repair(l, min, max, jobBlob).rows, min, max, jobBlob)
  {
    var after := Repair(l, min, max, jobBlob).rows;
    assert after[|l.rows|] == RepairRows(l, min, max, jobBlob)[0];
    assert after[|l.rows| + 1] == RepairRows(l, min, max, jobBlob)[1];
  }

  // ---------------------------------------------------------------------------
  // Live rows under the row operations
  // ---------------------------------------------------------------------------

  lemma {:induction false} LiveConcat(a: seq<StateRow>, b: seq<StateRow>)
    ensures Live(a + b) == Live(a) + Live(b)
  {
    if b == [] {
      assert a + b == a;
    } else {
      assert (a + b)[..|a + b| - 1] == a + b[..|b| - 1];
      LiveConcat(a, b[..|b| - 1]);
    }
  }

  lemma {:induction false} LiveCloseOpen(rows: seq<StateRow>, ts: int)
    ensures Live(CloseOpen(rows, ts)) == CloseOpen(Live(rows), ts)
  {
    if rows != [] {
      var n := |rows| - 1;
      LiveCloseOpen(rows[..n], ts);
      assert CloseOpen(rows, ts)[..n] == CloseOpen(rows[..n], ts);
    }
  }

  lemma {:induction false} LiveMarkDown(rows: seq<StateRow>, id: nat, ts: int, block: nat, jobBlob: Option<nat>)
    ensures Live(MarkDown(rows, id, ts, block, jobBlob)) == MarkDown(Live(rows), id, ts, block, jobBlob)
  {
    if rows != [] {
      var n := |rows| - 1;
      LiveMarkDown(rows[..n], id, ts, block, jobBlob);
      assert MarkDown(rows, id, ts, block, jobBlob)[..n] == MarkDown(rows[..n], id, ts, block, jobBlob);
    }
  }

  lemma {:induction false} LiveMarkSlow(rows: seq<StateRow>, id: nat)
    ensures Live(MarkSlow(rows, id)) == MarkSlow(Live(rows), id)
  {
    if rows != [] {
      var n := |rows| - 1;
      LiveMarkSlow(rows[..n], id);
      assert MarkSlow(rows, id)[..n] == MarkSlow(rows[..n], id);
    }
  }

  lemma {:induction false} OpenRowSpec(rows: seq<StateRow>)
    ensures OpenRow(rows).Some? ==> OpenRow(rows).value in rows && IsOpen(OpenRow(rows).value)
    ensures OpenRow(rows).None? ==> forall r :: r in rows ==> !IsOpen(r)
  {
    if rows != [] {
      var n := |rows| - 1;
      OpenRowSpec(rows[..n]);
      assert rows == rows[..n] + [rows[n]];
    }
  }

  /** With at most one open row, it is the one found, whatever the search order. */
  lemma OpenRowUnique(rows: seq<StateRow>, r: StateRow)
    requires AtMostOneOpen(rows) && r in rows && IsOpen(r)
    ensures OpenRow(rows) == Some(r)
  {
    OpenRowSpec(rows);
    var i :| 0 <= i < |rows| && rows[i] == r;
    var j :| 0 <= j < |rows| && rows[j] == OpenRow(rows).value;
  }

  lemma {:induction false} OpenRowLive(rows: seq<StateRow>)
    ensures OpenRow(rows) == OpenRow(Live(rows))
  {
    if rows != [] {
      var n := |rows| - 1;
      OpenRowLive(rows[..n]);
      if rows[n].deleted {
        assert Live(rows) == Live(rows[..n]);
      } else {
        assert Live(rows)[..|Live(rows)| - 1] == Live(rows[..n]);
      }
    }
  }
}
