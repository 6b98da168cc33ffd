/**
 * The hand-written asynchronous queue between the event pump and the stream: values wait for
 * readers or readers wait for values. A call of Shift returns a promise, numbered by call.
 */
module AsyncQueue {
  import opened Common

  datatype Op<T> = Push(value: T) | Shift | Close

  /**
   * What a sequence of calls amounts to: the values pushed before the first close, the number
   * of Shift calls, and whether the queue was closed.
   */
  datatype Channel<T> = Channel(pushed: seq<T>, shifts: nat, closed: bool)

  function Then<T>(c: Channel<T>, op: Op<T>): Channel<T> {
    match op
    case Push(v) => if c.closed then c else c.(pushed := c.pushed + [v])
    case Shift => c.(shifts := c.shifts + 1)
    case Close => c.(closed := true)
  }

  function Observe<T>(ops: seq<Op<T>>): Channel<T> {
    if ops == [] then Channel([], 0, false)
    else Then(Observe(ops[..|ops| - 1]), ops[|ops| - 1])
  }

  /** The values of the pushes up to the first close. */
  function PushedBeforeClose<T>(ops: seq<Op<T>>): seq<T> {
    if ops == [] || ops[0].Close? then []
    else (if ops[0].Push? then [ops[0].value] else []) + PushedBeforeClose(ops[1..])
  }

  function ShiftCalls<T>(ops: seq<Op<T>>): nat {
    if ops == [] then 0 else (if ops[0].Shift? then 1 else 0) + ShiftCalls(ops[1..])
  }

  /** The channel of a sequence of calls carries exactly that. */
  lemma {:induction false} ObserveIs<T>(ops: seq<Op<T>>)
    ensures Observe(ops) == Channel(PushedBeforeClose(ops), ShiftCalls(ops), Closes(ops))
  {
    if ops != [] {
      var n := |ops| - 1;
      ObserveIs(ops[..n]);
      ShiftsMore(ops[..n], ops[n]);
      PushesMore(ops[..n], ops[n]);
      assert ops[..n] + [ops[n]] == ops;
    }
  }

  predicate Closes<T>(ops: seq<Op<T>>) {
    exists i :: 0 <= i < |ops| && ops[i].Close?
  }

  lemma ClosesFirst<T>(ops: seq<Op<T>>)
    requires ops != []
    ensures Closes(ops) <==> ops[0].Close? || Closes(ops[1..])
  {
    assert ops == [ops[0]] + ops[1..];
  }

  lemma {:induction false} ShiftsMore<T>(ops: seq<Op<T>>, op: Op<T>)
    ensures ShiftCalls(ops + [op]) == ShiftCalls(ops) + if op.Shift? then 1 else 0
  {
    if ops == [] {
      assert ([] + [op])[1..] == [];
    } else {
      ShiftsMore(ops[1..], op);
      assert (ops + [op])[1..] == ops[1..] + [op];
    }
  }

  lemma {:induction false} PushesMore<T>(ops: seq<Op<T>>, op: Op<T>)
    ensures PushedBeforeClose(ops + [op]) == PushedBeforeClose(ops) + if op.Push? && !Closes(ops) then [op.value] else []
  {
    if ops == [] {
      assert PushedBeforeClose([] + [op]) == if op.Push? then [op.value] else [] by {
        assert ([] + [op])[1..] == [];
      }
    } else {
      var longer := ops + [op];
      PushesMore(ops[1..], op);
      ClosesFirst(ops);
      assert longer[0] == ops[0] && longer[1..] == ops[1..] + [op];
    }
  }

  datatype Promise<T> = Pending | Resolved(value: Option<T>)

  /** The k-th promise: the k-th value pushed, null once closed without one, else still pending. */
  function PromiseOf<T>(c: Channel<T>, k: nat): Promise<T> {
    if k < |c.pushed| then Resolved(Some(c.pushed[k]))
    else if c.closed then Resolved(None)
    else Pending
  }

  function Range(lo: nat, hi: nat): (r: seq<nat>)
    requires lo <= hi
    ensures |r| == hi - lo && forall i :: 0 <= i < |r| ==> r[i] == lo + i
  {
    seq(hi - lo, i requires 0 <= i => lo + i)
  }

  class Queue<T> {
    var items: seq<T>
    /** Waiting readers, by promise number. */
    var waiters: seq<nat>
    var closed: bool
    var promises: seq<Promise<T>>
    /** The calls made so far, as a channel. */
    ghost var channel: Channel<T>

    ghost predicate Valid()
      reads this
    {
      var c := channel;
      && closed == c.closed
      && |promises| == c.shifts
      && (forall k :: 0 <= k < c.shifts ==> promises[k] == PromiseOf(c, k))
      && items == (if c.shifts <= |c.pushed| then c.pushed[c.shifts..] else [])
      && waiters == (if !c.closed && |c.pushed| < c.shifts then Range(|c.pushed|, c.shifts) else [])
    }

    constructor ()
      ensures Valid() && channel == Channel([], 0, false)
    {
      items, waiters, closed, promises := [], [], false, [];
      channel := Channel([], 0, false);
    }

    method Push(value: T)
      requires Valid()
      modifies this
      ensures Valid() && channel == Then(old(channel), Op.Push(value))
    {
      channel := Then(channel, Op.Push(value));
      if closed {
        return;
      }
      if waiters != [] {
        var waiter := waiters[0];
        waiters := waiters[1..];
        promises := promises[waiter := Resolved(Some(value))];
        return;
      }
      items := items + [value];
    }

    method Shift() returns (promise: nat)
      requires Valid()
      modifies this
      ensures Valid() && channel == Then(old(channel), Op.Shift)
      ensures promise == old(channel).shifts
    {
      channel := Then(channel, Op.Shift);
      promise := |promises|;
      if items != [] {
        promises := promises + [Resolved(Some(items[0]))];
        items := items[1..];
      } else if closed {
        promises := promises + [Resolved(None)];
      } else {
        promises := promises + [Pending];
        waiters := waiters + [promise];
      }
    }

    method Close()
      requires Valid()
      modifies this
      ensures Valid() && channel == Then(old(channel), Op.Close)
    {
      channel := Then(channel, Op.Close);
      if closed {
        return;
      }
      closed := true;
      var woken := waiters;
      waiters := [];
      for i := 0 to |woken|
        invariant closed && waiters == [] && items == old(items) && channel == Then(old(channel), Op.Close)
        invariant |promises| == channel.shifts
        invariant forall k :: 0 <= k < channel.shifts ==>
                    promises[k] == if k < |channel.pushed| + i then PromiseOf(channel, k) else Pending
      {
        promises := promises[woken[i] := Resolved(None)];
      }
    }
  }

  /** Any sequence of calls leaves the queue in the state its channel prescribes. */
  method Run<T>(ops: seq<Op<T>>) returns (q: Queue<T>)
    ensures fresh(q) && q.Valid() && q.channel == Observe(ops)
    ensures Handed(q.promises) + q.items == PushedBeforeClose(ops) && |q.promises| == ShiftCalls(ops)
    ensures q.closed <==> Closes(ops)
  {
    q := new Queue();
    for i := 0 to |ops|
      invariant fresh(q) && q.Valid() && q.channel == Observe(ops[..i])
    {
      assert ops[..i + 1][..i] == ops[..i];
      match ops[i] {
        case Push(v) => q.Push(v);
        case Shift => var promise := q.Shift();
        case Close => q.Close();
      }
    }
    assert ops[..|ops|] == ops;
    ObserveIs(ops);
    FirstInFirstOut(q);
  }

  // ---------------------------------------------------------------------------
  // The channel is first in, first out
  // ---------------------------------------------------------------------------

  /** The values the promises were resolved to, in order of the calls that made them. */
  function Handed<T>(promises: seq<Promise<T>>): seq<T> {
    if promises == [] then []
    else
      var p := promises[|promises| - 1];
      Handed(promises[..|promises| - 1]) + if p.Resolved? && p.value.Some? then [p.value.value] else []
  }

  lemma {:induction false} HandedIsPrefix<T>(c: Channel<T>, promises: seq<Promise<T>>)
    requires forall k :: 0 <= k < |promises| ==> promises[k] == PromiseOf(c, k)
    ensures Handed(promises) == if |promises| <= |c.pushed| then c.pushed[..|promises|] else c.pushed
  {
    var n := |promises|;
    if n > 0 {
      HandedIsPrefix(c, promises[..n - 1]);
      if n <= |c.pushed| {
        assert c.pushed[..n] == c.pushed[..n - 1] + [c.pushed[n - 1]];
      }
    }
  }

  /**
   * After any calls: what was handed out plus what is stored is what was pushed before close,
   * in order; stored values and waiting readers never coexist; once closed nobody waits, and
   * every reader without a value got null.
   */
  lemma FirstInFirstOut<T>(q: Queue<T>)
    requires q.Valid()
    ensures Handed(q.promises) + q.items == q.channel.pushed
    ensures q.items == [] || q.waiters == []
    ensures q.closed ==> q.waiters == [] && forall k :: 0 <= k < |q.promises| ==>
                           (q.promises[k] == Resolved(None) <==> k >= |q.channel.pushed|) && q.promises[k].Resolved?
    ensures forall k :: 0 <= k < |q.promises| && q.promises[k].Pending? ==> k in q.waiters
  {
    HandedIsPrefix(q.channel, q.promises);
    forall k | 0 <= k < |q.promises| && q.promises[k].Pending?
      ensures k in q.waiters
    {
      assert q.waiters[k - |q.channel.pushed|] == k;
    }
  }

  /** Close settles what the channel carries: later calls only ask for what is already there. */
  lemma {:induction false} ClosedSettles<T>(ops: seq<Op<T>>, later: seq<Op<T>>, k: nat)
    requires Observe(ops).closed
    ensures Observe(ops + later).closed && Observe(ops + later).pushed == Observe(ops).pushed
    ensures PromiseOf(Observe(ops + later), k) ==
            Resolved(if k < |Observe(ops).pushed| then Some(Observe(ops).pushed[k]) else None)
  {
    if later == [] {
      assert ops + later == ops;
    } else {
      assert (ops + later)[..|ops + later| - 1] == ops + later[..|later| - 1];
      ClosedSettles(ops, later[..|later| - 1], k);
    }
  }
}
