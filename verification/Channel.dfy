/**
 The bounded coroutine channel.

 `Chan` is the abstract channel: a queue with a capacity and the two flags.  Its step
 functions are the critical sections of the channel's operations.  The class
 `CoroBoundedChannel` is the ring buffer that implements them.  An awaited condition is a
 guarded re-check: an attempt whose guard is false changes nothing and reports `Blocked`.
 */
module Channel {

  datatype Chan<T> = Chan(capacity: nat, buf: seq<T>, closed: bool, poisoned: bool) {
    ghost predicate Valid() { |buf| <= capacity }

    // the guards on which Push and Pop wait
    predicate PushGuard() { closed || poisoned || |buf| < capacity }
    predicate PopGuard() { poisoned || closed || |buf| > 0 }
  }

  datatype PushResult = PushBlocked | Rejected | Accepted
  datatype PopResult<+T> = PopBlocked | Nothing | Got(value: T)

  function Empty<T>(capacity: nat): Chan<T> { Chan(capacity, [], false, false) }

  function PushStep<T>(c: Chan<T>, v: T): (Chan<T>, PushResult) {
    if !c.PushGuard() then (c, PushBlocked)
    else if c.closed || c.poisoned then (c, Rejected)
    else (c.(buf := c.buf + [v]), Accepted)
  }

  function TryPushStep<T>(c: Chan<T>, v: T): (Chan<T>, PushResult) {
    if c.closed || c.poisoned || |c.buf| >= c.capacity then (c, Rejected)
    else (c.(buf := c.buf + [v]), Accepted)
  }

  function TryPopStep<T>(c: Chan<T>): (Chan<T>, PopResult<T>) {
    if c.poisoned || |c.buf| == 0 then (c, Nothing)
    else (c.(buf := c.buf[1..]), Got(c.buf[0]))
  }

  function PopStep<T>(c: Chan<T>): (Chan<T>, PopResult<T>) {
    if !c.PopGuard() then (c, PopBlocked) else TryPopStep(c)
  }

  function TryPopOnTrueStep<T>(c: Chan<T>, pred: T -> bool): (Chan<T>, PopResult<T>) {
    if c.poisoned || |c.buf| == 0 || !pred(c.buf[0]) then (c, Nothing) else TryPopStep(c)
  }

  // ---------------------------------------------------------------- the ring buffer

  /** Slot of the `i`-th buffered element when reading starts at `r`. */
  function Slot(r: nat, i: nat, capacity: nat): nat
    requires r < capacity && i <= capacity
  {
    (r + i) % capacity
  }

  lemma SlotWraps(r: nat, i: nat, capacity: nat)
    requires r < capacity && i <= capacity
    ensures Slot(r, i, capacity) == if r + i < capacity then r + i else r + i - capacity
  {
    if r + i >= capacity {
      ModShift(r + i - capacity, capacity);
    }
  }

  /** Advancing the start by one slot moves every element one place forward. */
  lemma SlotShifts(r: nat, i: nat, capacity: nat)
    requires r < capacity && i < capacity
    ensures Slot(r, 1, capacity) < capacity && Slot(Slot(r, 1, capacity), i, capacity) == Slot(r, i + 1, capacity)
  {
    SlotWraps(r, 1, capacity);
    SlotWraps(r, i + 1, capacity);
    SlotWraps(Slot(r, 1, capacity), i, capacity);
  }

  lemma ModShift(k: nat, m: nat)
    requires k < m
    ensures (k + m) % m == k
  {
    var q := (k + m) / m;
    assert k + m == q * m + (k + m) % m;
    assert q >= 2 ==> q * m >= 2 * m;
    assert q <= 0 ==> q * m <= 0;
  }

  class CoroBoundedChannel<T(0)> {
    const capacity: nat
    const buffer: array<T>
    var readIndex: nat
    var writeIndex: nat
    var size: nat
    var closed: bool
    var poisoned: bool
    // every value a push ever stored, and every value a pop ever delivered
    ghost var accepted: seq<T>
    ghost var delivered: seq<T>

    ghost predicate Valid()
      reads this, buffer
    {
      && buffer.Length == capacity
      && size <= capacity
      && (capacity > 0 ==> readIndex < capacity && writeIndex == Slot(readIndex, size, capacity))
      && (capacity == 0 ==> readIndex == writeIndex == 0)
      && accepted == delivered + Contents()
    }

    ghost function Contents(): (s: seq<T>)
      requires buffer.Length == capacity && size <= capacity && (capacity > 0 ==> readIndex < capacity)
      reads this, buffer
      ensures |s| == size
    {
      seq(size, i requires 0 <= i < size reads this, buffer
                  requires buffer.Length == capacity && size <= capacity && readIndex < capacity
          => buffer[Slot(readIndex, i, capacity)])
    }

    ghost function Abs(): Chan<T>
      requires Valid()
      reads this, buffer
    {
      Chan(capacity, Contents(), closed, poisoned)
    }

    constructor (capacity: nat)
      ensures Valid() && fresh(buffer) && this.capacity == capacity
      ensures Abs() == Empty(capacity) && accepted == delivered == []
    {
      this.capacity := capacity;
      buffer := new T[capacity];
      readIndex, writeIndex, size := 0, 0, 0;
      closed, poisoned := false, false;
      accepted, delivered := [], [];
    }

    method PerformWrite(value: T)
      requires Valid() && size < capacity
      modifies this`writeIndex, this`size, this`accepted, buffer
      ensures Valid() && Contents() == old(Contents()) + [value]
      ensures accepted == old(accepted) + [value]
    {
      ghost var before := Contents();
      ghost var r := readIndex;
      forall i | 0 <= i <= size
        ensures Slot(r, i, capacity) == if r + i < capacity then r + i else r + i - capacity
      {
        SlotWraps(r, i, capacity);
      }
      SlotWraps(r, size + 1, capacity);
      SlotWraps(writeIndex, 1, capacity);
      buffer[writeIndex] := value;
      writeIndex := (writeIndex + 1) % capacity;
      size := size + 1;
      accepted := accepted + [value];
      assert Contents() == before + [value];
    }

    method PerformRead() returns (result: T)
      requires Valid() && size > 0
      modifies this`readIndex, this`size, this`delivered
      ensures Valid() && [result] + Contents() == old(Contents())
      ensures delivered == old(delivered) + [result]
    {
      ghost var before := Contents();
      ghost var r, n := readIndex, size;
      SlotWraps(r, 0, capacity);
      result := buffer[readIndex];
      assert result == before[0];
      readIndex := (readIndex + 1) % capacity;
      size := size - 1;
      forall i | 0 <= i < n ensures Slot(readIndex, i, capacity) == Slot(r, i + 1, capacity) {
        SlotShifts(r, i, capacity);
      }
      delivered := delivered + [result];
      assert Contents() == before[1..];
    }

    /** One attempt of Push under the lock. */
    method Push(value: T) returns (r: PushResult)
      requires Valid()
      modifies this, buffer
      ensures Valid() && (Abs(), r) == PushStep(old(Abs()), value)
      ensures r.Rejected? <==> old(closed) || old(poisoned)
      ensures r.PushBlocked? <==> !old(closed) && !old(poisoned) && |old(Contents())| == capacity
      ensures Contents() == old(Contents()) + if r.Accepted? then [value] else []
      ensures closed == old(closed) && poisoned == old(poisoned)
      ensures accepted == old(accepted) + (if r.Accepted? then [value] else []) && delivered == old(delivered)
    {
      if !(closed || poisoned || size < capacity) {
        return PushBlocked;
      }
      if closed || poisoned {
        return Rejected;
      }
      PerformWrite(value);
      r := Accepted;
    }

    method TryPush(value: T) returns (r: PushResult)
      requires Valid()
      modifies this, buffer
      ensures Valid() && (Abs(), r) == TryPushStep(old(Abs()), value)
      ensures !r.PushBlocked? && (r.Rejected? <==> old(closed) || old(poisoned) || |old(Contents())| == capacity)
      ensures Contents() == old(Contents()) + if r.Accepted? then [value] else []
      ensures closed == old(closed) && poisoned == old(poisoned)
      ensures accepted == old(accepted) + (if r.Accepted? then [value] else []) && delivered == old(delivered)
    {
      if closed || poisoned || size >= capacity {
        return Rejected;
      }
      PerformWrite(value);
      r := Accepted;
    }

    /** One attempt of Pop under the lock. */
    method Pop() returns (r: PopResult<T>)
      requires Valid()
      modifies this
      ensures Valid() && (Abs(), r) == PopStep(old(Abs()))
      ensures r.PopBlocked? <==> !old(poisoned) && !old(closed) && old(Contents()) == []
      ensures r.Nothing? <==> old(poisoned) || (old(closed) && old(Contents()) == [])
      ensures old(Contents()) == (if r.Got? then [r.value] else []) + Contents()
      ensures closed == old(closed) && poisoned == old(poisoned)
      ensures delivered == old(delivered) + (if r.Got? then [r.value] else []) && accepted == old(accepted)
    {
      if !(poisoned || closed || size > 0) {
        return PopBlocked;
      }
      if poisoned {
        return Nothing;
      }
      if size == 0 {
        return Nothing;
      }
      var v := PerformRead();
      r := Got(v);
    }

    method TryPop() returns (r: PopResult<T>)
      requires Valid()
      modifies this
      ensures Valid() && (Abs(), r) == TryPopStep(old(Abs()))
      ensures !r.PopBlocked? && (r.Nothing? <==> old(poisoned) || old(Contents()) == [])
      ensures old(Contents()) == (if r.Got? then [r.value] else []) + Contents()
      ensures closed == old(closed) && poisoned == old(poisoned)
      ensures delivered == old(delivered) + (if r.Got? then [r.value] else []) && accepted == old(accepted)
    {
      if poisoned {
        return Nothing;
      }
      if size == 0 {
        return Nothing;
      }
      var v := PerformRead();
      r := Got(v);
    }

    method TryPopOnTrue(pred: T -> bool) returns (r: PopResult<T>)
      requires Valid()
      modifies this
      ensures Valid() && (Abs(), r) == TryPopOnTrueStep(old(Abs()), pred)
      ensures !r.PopBlocked? && (r.Got? <==> !old(poisoned) && old(Contents()) != [] && pred(old(Contents())[0]))
      ensures old(Contents()) == (if r.Got? then [r.value] else []) + Contents()
      ensures closed == old(closed) && poisoned == old(poisoned)
      ensures delivered == old(delivered) + (if r.Got? then [r.value] else []) && accepted == old(accepted)
    {
      if poisoned || size == 0 {
        return Nothing;
      }
      assert Slot(readIndex, 0, capacity) == readIndex by { SlotWraps(readIndex, 0, capacity); }
      if !pred(buffer[readIndex]) {
        return Nothing;
      }
      var v := PerformRead();
      r := Got(v);
    }

    method CloseChannel()
      requires Valid()
      modifies this`closed
      ensures Valid() && Abs() == old(Abs()).(closed := true) && closed && Contents() == old(Contents())
    {
      closed := true;
    }

    method PoisenChannel()
      requires Valid()
      modifies this`poisoned
      ensures Valid() && Abs() == old(Abs()).(poisoned := true) && poisoned && Contents() == old(Contents())
    {
      poisoned := true;
    }
  }

  // ---------------------------------------------------------------- any interleaving of operations

  /** An operation some thread asks of the channel. */
  datatype Op<!T> =
    | DoPush(value: T)
    | DoTryPush(value: T)
    | DoPop
    | DoTryPop
    | DoTryPopOnTrue(pred: T -> bool)
    | DoClose
    | DoPoison

  /** What one critical section did: the new channel, what it took in and gave out, whether the
      thread has to wait and try again, and whether the thread notifies the others afterwards. */
  datatype Effect<T> = Effect(chan: Chan<T>, taken: seq<T>, given: seq<T>, blocked: bool, notifies: bool)

  function OfPush<T>(value: T, p: (Chan<T>, PushResult)): Effect<T> {
    Effect(p.0, if p.1.Accepted? then [value] else [], [], p.1.PushBlocked?, !p.1.PushBlocked?)
  }

  function OfPop<T>(p: (Chan<T>, PopResult<T>)): Effect<T> {
    Effect(p.0, [], if p.1.Got? then [p.1.value] else [], p.1.PopBlocked?, !p.1.PopBlocked?)
  }

  function Perform<T>(c: Chan<T>, op: Op<T>): Effect<T> {
    match op
    case DoPush(v) => OfPush(v, PushStep(c, v))
    case DoTryPush(v) => OfPush(v, TryPushStep(c, v))
    case DoPop => OfPop(PopStep(c))
    case DoTryPop => OfPop(TryPopStep(c))
    case DoTryPopOnTrue(pred) =>
      // the one path that returns without a notification: the predicate refuses the front value
      var refused := !c.poisoned && |c.buf| > 0 && !pred(c.buf[0]);
      OfPop(TryPopOnTrueStep(c, pred)).(notifies := !refused)
    case DoClose => Effect(c.(closed := true), [], [], false, true)
    case DoPoison => Effect(c.(poisoned := true), [], [], false, true)
  }

  /** The critical sections of all threads, in the order in which they took the lock. */
  function Run<T>(c: Chan<T>, ops: seq<Op<T>>): Effect<T>
    decreases |ops|
  {
    if ops == [] then Effect(c, [], [], false, false)
    else
      var first := Perform(c, ops[0]);
      var rest := Run(first.chan, ops[1..]);
      Effect(rest.chan, first.taken + rest.taken, first.given + rest.given, first.blocked || rest.blocked,
             first.notifies || rest.notifies)
  }

  /** Nothing is lost, duplicated or reordered, and the buffer never exceeds its capacity. */
  lemma {:induction false} RunIsFifo<T>(c: Chan<T>, ops: seq<Op<T>>)
    requires c.Valid()
    ensures var e := Run(c, ops);
            e.chan.Valid() && e.chan.capacity == c.capacity && c.buf + e.taken == e.given + e.chan.buf
    decreases |ops|
  {
    if ops != [] {
      var first := Perform(c, ops[0]);
      PerformIsFifo(c, ops[0]);
      RunIsFifo(first.chan, ops[1..]);
      var rest := Run(first.chan, ops[1..]);
      ChainTransfers(c.buf, first.taken, first.given, first.chan.buf, rest.taken, rest.given, rest.chan.buf);
    } else {
      assert c.buf + [] == [] + c.buf;
    }
  }

  lemma ChainTransfers<T>(b0: seq<T>, t1: seq<T>, g1: seq<T>, b1: seq<T>, t2: seq<T>, g2: seq<T>, b2: seq<T>)
    requires b0 + t1 == g1 + b1 && b1 + t2 == g2 + b2
    ensures b0 + (t1 + t2) == (g1 + g2) + b2
  {
    assert b0 + (t1 + t2) == (b0 + t1) + t2;
    assert (g1 + b1) + t2 == g1 + (b1 + t2);
    assert g1 + (g2 + b2) == (g1 + g2) + b2;
  }

  lemma PerformIsFifo<T>(c: Chan<T>, op: Op<T>)
    requires c.Valid()
    ensures var e := Perform(c, op);
            e.chan.Valid() && e.chan.capacity == c.capacity && c.buf + e.taken == e.given + e.chan.buf
  {
    if |c.buf| > 0 {
      assert c.buf == [c.buf[0]] + c.buf[1..];
    }
    assert c.buf + [] == c.buf;
    assert [] + c.buf == c.buf;
  }

  /** From the empty channel: what was accepted is what was delivered followed by what is buffered. */
  lemma RunFromEmpty<T>(capacity: nat, ops: seq<Op<T>>)
    ensures var e := Run(Empty<T>(capacity), ops);
            e.taken == e.given + e.chan.buf && |e.chan.buf| <= capacity
  {
    RunIsFifo(Empty<T>(capacity), ops);
    var e := Run(Empty<T>(capacity), ops);
    assert [] + e.taken == e.taken;
  }

  /** A closed channel takes nothing in any more, whatever is asked of it. */
  lemma {:induction false} ClosedTakesNothing<T>(c: Chan<T>, ops: seq<Op<T>>)
    requires c.closed || c.poisoned
    ensures Run(c, ops).taken == [] && !Run(c, ops).blocked
    decreases |ops|
  {
    if ops != [] {
      ClosedTakesNothing(Perform(c, ops[0]).chan, ops[1..]);
    }
  }

  /** A poisoned channel gives nothing out any more either. */
  lemma {:induction false} PoisonedGivesNothing<T>(c: Chan<T>, ops: seq<Op<T>>)
    requires c.poisoned
    ensures Run(c, ops).given == [] && Run(c, ops).taken == [] && Run(c, ops).chan.buf == c.buf
    decreases |ops|
  {
    if ops != [] {
      PoisonedGivesNothing(Perform(c, ops[0]).chan, ops[1..]);
    }
  }

  /** Closing still drains: as many pops as there are buffered values deliver exactly those. */
  lemma {:induction false} ClosedDrains<T>(c: Chan<T>)
    requires c.closed && !c.poisoned
    ensures var e := Run(c, seq(|c.buf|, _ => DoPop));
            e.given == c.buf && e.chan == c.(buf := [])
    decreases |c.buf|
  {
    var pops := seq(|c.buf|, _ => DoPop);
    if c.buf != [] {
      var next := c.(buf := c.buf[1..]);
      assert Perform(c, pops[0]).chan == next;
      assert pops[1..] == seq(|next.buf|, _ => DoPop);
      ClosedDrains(next);
      assert c.buf == [c.buf[0]] + next.buf;
    }
  }

  // ---------------------------------------------------------------- sleeping and notification

  /** Where a thread is inside a channel operation. */
  datatype Pc<!T> =
    | Outside
    | Trying(op: Op<T>)   // about to take the lock and check its guard
    | Asleep(op: Op<T>)   // its guard was false; waits on the condition variable
    | MustNotify          // left the critical section, has not called notify_all yet

  datatype System<!T> = System(chan: Chan<T>, threads: map<nat, Pc<T>>)

  function Wake<T>(pc: Pc<T>): Pc<T> {
    if pc.Asleep? then Trying(pc.op) else pc
  }

  /** One atomic step of thread `t`. */
  ghost predicate ThreadStep<T(!new)>(s: System<T>, t: nat, s': System<T>) {
    && t in s.threads
    && match s.threads[t] {
      case Outside =>
        exists op: Op<T> :: s' == s.(threads := s.threads[t := Trying(op)])
      case Trying(op) =>
        var e := Perform(s.chan, op);
        var pc := if e.blocked then Asleep(op) else if e.notifies then MustNotify else Outside;
        s' == System(e.chan, s.threads[t := pc])
      case Asleep(_) => false
      case MustNotify =>
        s' == s.(threads := (map u | u in s.threads :: Wake(s.threads[u]))[t := Outside])
    }
  }

  ghost predicate SystemStep<T(!new)>(s: System<T>, s': System<T>) {
    exists t :: ThreadStep(s, t, s')
  }

  ghost predicate Initial<T(!new)>(s: System<T>) {
    forall t <- s.threads :: s.threads[t].Outside?
  }

  ghost predicate Behavior<T(!new)>(states: seq<System<T>>) {
    && |states| > 0
    && Initial(states[0])
    && forall i {:trigger states[i]} :: 0 < i < |states| ==> SystemStep(states[i - 1], states[i])
  }

  /** A sleeper that could go on always coexists with a thread that is yet to notify. */
  ghost predicate NoLostWakeup<T(!new)>(s: System<T>) {
    forall t <- s.threads ::
      s.threads[t].Asleep? && !Perform(s.chan, s.threads[t].op).blocked
      ==> exists u <- s.threads :: s.threads[u].MustNotify?
  }

  lemma StepKeepsNoLostWakeup<T(!new)>(s: System<T>, t: nat, s': System<T>)
    requires NoLostWakeup(s) && ThreadStep(s, t, s')
    ensures NoLostWakeup(s')
  {
    match s.threads[t]
    case Outside =>
      forall v <- s'.threads | s'.threads[v].Asleep? && !Perform(s'.chan, s'.threads[v].op).blocked
        ensures exists u <- s'.threads :: s'.threads[u].MustNotify?
      {
        var u :| u in s.threads && s.threads[u].MustNotify?;
        assert s'.threads[u].MustNotify?;
      }
    case Trying(op) =>
      var e := Perform(s.chan, op);
      if !e.blocked && e.notifies {
        assert s'.threads[t].MustNotify?;
      } else {
        assert s'.chan == s.chan;
        forall v <- s'.threads | s'.threads[v].Asleep? && !Perform(s'.chan, s'.threads[v].op).blocked
          ensures exists u <- s'.threads :: s'.threads[u].MustNotify?
        {
          assert v != t;
          var u :| u in s.threads && s.threads[u].MustNotify?;
          assert s'.threads[u].MustNotify?;
        }
      }
    case MustNotify =>
      forall v <- s'.threads ensures !s'.threads[v].Asleep? {}
  }

  /** In every state of every interleaving of any number of threads. */
  lemma {:induction false} NeverLosesWakeup<T(!new)>(states: seq<System<T>>, i: nat)
    requires Behavior(states) && i < |states|
    ensures NoLostWakeup(states[i])
  {
    if i > 0 {
      NeverLosesWakeup(states, i - 1);
      var t :| ThreadStep(states[i - 1], t, states[i]);
      StepKeepsNoLostWakeup(states[i - 1], t, states[i]);
    }
  }
}
