/**
 The virtual-time barrier `Timer`: participants announce timestamps with MoveForward, and the timer
 lets them return in one global order.

 `TimerState` holds the fields guarded by the lock, the step functions are the critical sections,
 class `Timer` implements them, and `System` interleaves any number of participants.
 */
module Timer {

  const SIZE_MAX: nat := 0xFFFF_FFFF_FFFF_FFFF

  datatype TimerState = TimerState(amount: nat, curMax: nat, reached: nat, heap: multiset<nat>)

  // ---------------------------------------------------------------- the priority queue

  ghost predicate IsTop(heap: multiset<nat>, m: nat) {
    m in heap && forall x <- heap :: m <= x
  }

  lemma {:induction false} TopExists(heap: multiset<nat>)
    requires |heap| > 0
    ensures exists m :: IsTop(heap, m)
  {
    var x :| x in heap;
    var rest := heap - multiset{x};
    if |rest| > 0 {
      TopExists(rest);
      var m :| IsTop(rest, m);
      assert forall y :: y in heap ==> y == x || y in rest;
      assert IsTop(heap, if x < m then x else m);
    } else {
      assert forall y :: y in heap ==> y == x || y in rest;
      assert IsTop(heap, x);
    }
  }

  ghost function Top(heap: multiset<nat>): (m: nat)
    requires |heap| > 0
    ensures IsTop(heap, m)
  {
    TopExists(heap);
    var m :| IsTop(heap, m);
    m
  }

  // ---------------------------------------------------------------- the critical sections

  /** First section of MoveForward: false means that the call returns at once. */
  function EnterStep(t: TimerState, ts: nat): (TimerState, bool) {
    if ts <= t.curMax then (t, false)
    else (t.(reached := t.reached + 1, heap := t.heap + multiset{ts}), true)
  }

  /** The condition a parked call waits for. */
  ghost predicate LeaveGuard(t: TimerState, ts: nat) {
    (t.reached >= t.amount && IsTop(t.heap, ts)) || t.curMax >= ts
  }

  /** Second section of MoveForward, once the condition holds. */
  ghost function LeaveStep(t: TimerState, ts: nat): TimerState
    requires |t.heap| > 0 && t.reached > 0
  {
    TimerState(t.amount, if ts > t.curMax then ts else t.curMax, t.reached - 1, t.heap - multiset{Top(t.heap)})
  }

  function DoneStep(t: TimerState): TimerState {
    t.(amount := if t.amount == 0 then SIZE_MAX else t.amount - 1)
  }

  class Timer {
    var amountWaiters: nat
    var curMaximum: nat
    var waitersThatReachedMaximum: nat
    var waiters: multiset<nat>

    ghost function Abs(): TimerState
      reads this
    {
      TimerState(amountWaiters, curMaximum, waitersThatReachedMaximum, waiters)
    }

    constructor (amountWaiters: nat)
      ensures Abs() == TimerState(amountWaiters, 0, 0, multiset{})
    {
      this.amountWaiters := amountWaiters;
      curMaximum, waitersThatReachedMaximum := 0, 0;
      waiters := multiset{};
    }

    method Done()
      modifies this
      ensures Abs() == DoneStep(old(Abs()))
      ensures amountWaiters == if old(amountWaiters) == 0 then 0xFFFF_FFFF_FFFF_FFFF else old(amountWaiters) - 1
      ensures curMaximum == old(curMaximum) && waiters == old(waiters)
    {
      amountWaiters := if amountWaiters == 0 then SIZE_MAX else amountWaiters - 1;
    }

    method Enter(timestamp: nat) returns (parks: bool)
      modifies this
      ensures (Abs(), parks) == EnterStep(old(Abs()), timestamp)
      ensures parks == (timestamp > old(curMaximum)) && curMaximum == old(curMaximum)
      ensures waiters == if parks then old(waiters) + multiset{timestamp} else old(waiters)
    {
      if timestamp <= curMaximum {
        return false;
      }
      waitersThatReachedMaximum := waitersThatReachedMaximum + 1;
      waiters := waiters + multiset{timestamp};
      parks := true;
    }

    /** One check of the awaited condition; a parked call made `waiters` non-empty before it. */
    method TryLeave(timestamp: nat) returns (leaves: bool)
      requires |waiters| > 0 && waitersThatReachedMaximum > 0
      modifies this
      ensures leaves == LeaveGuard(old(Abs()), timestamp)
      ensures Abs() == if leaves then LeaveStep(old(Abs()), timestamp) else old(Abs())
      // a call leaves that is overtaken, or that is the smallest when all have arrived
      ensures leaves <==>
        || timestamp <= old(curMaximum)
        || (old(waitersThatReachedMaximum) >= old(amountWaiters) && timestamp in old(waiters)
            && forall x :: x in old(waiters) ==> timestamp <= x)
      ensures leaves ==> exists m :: m in old(waiters) && (forall x :: x in old(waiters) ==> m <= x)
                                     && waiters == old(waiters) - multiset{m}
      ensures curMaximum == if leaves && timestamp > old(curMaximum) then timestamp else old(curMaximum)
    {
      TopExists(waiters);
      var top :| top in waiters && forall x <- waiters :: top <= x;
      assert top == Top(waiters);
      if !((waitersThatReachedMaximum >= amountWaiters && top == timestamp) || curMaximum >= timestamp) {
        return false;
      }
      if timestamp > curMaximum {
        curMaximum := timestamp;
      }
      waitersThatReachedMaximum := waitersThatReachedMaximum - 1;
      waiters := waiters - multiset{top};
      leaves := true;
    }
  }

  // ---------------------------------------------------------------- the protocol

  /** Where a participant is; `Entering`, `Leaving` and `Ending` still owe a `notify_all`. */
  datatype Phase =
    | Idle
    | Entering(ts: nat)
    | Trying(ts: nat)
    | Asleep(ts: nat)
    | Leaving(ts: nat)
    | Ending
    | Gone
  {
    predicate Parked() { Entering? || Trying? || Asleep? }
    predicate Active() { !Ending? && !Gone? }
    predicate MustNotify() { Entering? || Leaving? || Ending? }
  }

  /** `last[p]` is the last timestamp participant `p` passed; `returned` logs every completed call. */
  datatype System = System(timer: TimerState, phases: seq<Phase>, last: seq<nat>, returned: seq<nat>)

  function Wake(phase: Phase): Phase {
    if phase.Asleep? then Trying(phase.ts) else phase
  }

  function WakeAll(phases: seq<Phase>): (r: seq<Phase>)
    ensures |r| == |phases| && forall i :: 0 <= i < |r| ==> r[i] == Wake(phases[i])
  {
    seq(|phases|, i requires 0 <= i < |phases| => Wake(phases[i]))
  }

  /** Participant `p` calls MoveForward with its next timestamp. */
  ghost predicate Call(s: System, p: nat, ts: nat, s': System)
    requires p < |s.phases| == |s.last|
  {
    && s.phases[p].Idle? && ts >= s.last[p]
    && var (t, parks) := EnterStep(s.timer, ts);
       s' == if parks
             then System(t, s.phases[p := Entering(ts)], s.last[p := ts], s.returned)
             else System(t, s.phases, s.last[p := ts], s.returned + [ts])
  }

  ghost predicate Finish(s: System, p: nat, s': System)
    requires p < |s.phases| == |s.last|
  {
    s.phases[p].Idle? && s' == s.(timer := DoneStep(s.timer), phases := s.phases[p := Ending])
  }

  /** A step inside MoveForward or Done that needs nothing from the participant's code. */
  ghost predicate Internal(s: System, p: nat, s': System)
    requires p < |s.phases| == |s.last|
  {
    match s.phases[p]
    case Entering(ts) => s' == s.(phases := WakeAll(s.phases)[p := Trying(ts)])
    case Trying(ts) =>
      && |s.timer.heap| > 0 && s.timer.reached > 0
      && s' == if LeaveGuard(s.timer, ts)
               then s.(timer := LeaveStep(s.timer, ts), phases := s.phases[p := Leaving(ts)])
               else s.(phases := s.phases[p := Asleep(ts)])
    case Leaving(ts) => s' == s.(phases := WakeAll(s.phases)[p := Idle], returned := s.returned + [ts])
    case Ending => s' == s.(phases := WakeAll(s.phases)[p := Gone])
    case _ => false
  }

  ghost predicate ParticipantStep(s: System, p: nat, s': System) {
    && p < |s.phases| == |s.last|
    && (Internal(s, p, s') || Finish(s, p, s') || exists ts :: Call(s, p, ts, s'))
  }

  ghost predicate Steps(s: System, s': System) {
    exists p: nat :: ParticipantStep(s, p, s')
  }

  function Start(n: nat): System {
    System(TimerState(n, 0, 0, multiset{}), seq(n, _ => Idle), seq(n, _ => 0), [])
  }

  ghost predicate Behavior(n: nat, states: seq<System>) {
    && |states| > 0 && states[0] == Start(n)
    && forall i {:trigger states[i]} :: 0 < i < |states| ==> Steps(states[i - 1], states[i])
  }

  // ---------------------------------------------------------------- the invariant

  function ParkedTimestamps(phases: seq<Phase>): multiset<nat> {
    if phases == [] then multiset{}
    else ParkedTimestamps(phases[1..]) + Own(phases[0])
  }

  function ActiveCount(phases: seq<Phase>): nat {
    if phases == [] then 0 else ActiveCount(phases[1..]) + if phases[0].Active() then 1 else 0
  }

  ghost predicate PhaseOk(t: TimerState, phase: Phase, last: nat) {
    // a parked call waits at or after the maximum; any other active participant stands exactly at it
    && (phase.Parked() ==> phase.ts == last >= t.curMax)
    && (phase.Active() && !phase.Parked() ==> last == t.curMax)
    && (phase.Leaving? ==> phase.ts == last)
  }

  ghost predicate Sorted(xs: seq<nat>) {
    forall i, j :: 0 <= i < j < |xs| ==> xs[i] <= xs[j]
  }

  /** A sleeper whose condition holds coexists with a participant that is yet to notify. */
  ghost predicate NoLostWakeup(s: System) {
    forall i :: 0 <= i < |s.phases| && s.phases[i].Asleep? && LeaveGuard(s.timer, s.phases[i].ts)
      ==> exists u :: 0 <= u < |s.phases| && s.phases[u].MustNotify()
  }

  ghost predicate Counts(t: TimerState, phases: seq<Phase>) {
    && t.heap == ParkedTimestamps(phases)
    && t.reached == |t.heap|
    && t.amount == ActiveCount(phases)
  }

  ghost predicate Inv(s: System) {
    && |s.phases| == |s.last|
    && Counts(s.timer, s.phases)
    && (forall i :: 0 <= i < |s.phases| ==> PhaseOk(s.timer, s.phases[i], s.last[i]))
    && NoLostWakeup(s)
    && Sorted(s.returned)
    && (forall x <- s.returned :: x <= s.timer.curMax)
  }

  lemma {:induction false} StartCounts(n: nat)
    ensures ActiveCount(seq(n, _ => Idle)) == n && ParkedTimestamps(seq(n, _ => Idle)) == multiset{}
  {
    if n > 0 {
      StartCounts(n - 1);
      assert seq(n, _ => Idle)[1..] == seq(n - 1, _ => Idle);
    }
  }

  lemma StartInv(n: nat)
    ensures Inv(Start(n))
  {
    StartCounts(n);
  }

  lemma {:induction false} UpdateActive(phases: seq<Phase>, i: nat, phase: Phase)
    requires i < |phases|
    ensures ActiveCount(phases[i := phase])
         == ActiveCount(phases) - (if phases[i].Active() then 1 else 0) + (if phase.Active() then 1 else 0)
  {
    if i == 0 {
      assert phases[0 := phase][1..] == phases[1..];
    } else {
      assert phases[i := phase][1..] == phases[1..][i - 1 := phase];
      UpdateActive(phases[1..], i - 1, phase);
    }
  }

  function Own(phase: Phase): multiset<nat> {
    if phase.Parked() then multiset{phase.ts} else multiset{}
  }

  lemma {:induction false} OwnIsParked(phases: seq<Phase>, i: nat)
    requires i < |phases|
    ensures Own(phases[i]) <= ParkedTimestamps(phases)
  {
    var rest := ParkedTimestamps(phases[1..]);
    if i > 0 {
      assert phases[1..][i - 1] == phases[i];
      OwnIsParked(phases[1..], i - 1);
      StillIncluded(Own(phases[i]), rest, Own(phases[0]));
    } else {
      StillIncluded(Own(phases[0]), Own(phases[0]), rest);
      assert Own(phases[0]) + rest == rest + Own(phases[0]);
    }
  }

  lemma StillIncluded(a: multiset<nat>, b: multiset<nat>, c: multiset<nat>)
    requires a <= b
    ensures a <= b + c
  {
  }

  lemma {:induction false} UpdateParked(phases: seq<Phase>, i: nat, phase: Phase)
    requires i < |phases|
    ensures ParkedTimestamps(phases[i := phase]) + Own(phases[i]) == ParkedTimestamps(phases) + Own(phase)
  {
    var phases' := phases[i := phase];
    var rest, rest' := ParkedTimestamps(phases[1..]), ParkedTimestamps(phases'[1..]);
    if i == 0 {
      assert rest' == rest by { assert phases'[1..] == phases[1..]; }
      AddToBoth(rest, Own(phase), rest, Own(phase), Own(phases[0]));
      Commute(rest, Own(phase), Own(phases[0]));
    } else {
      assert phases[1..][i - 1] == phases[i];
      assert rest' + Own(phases[i]) == rest + Own(phase) by {
        assert phases'[1..] == phases[1..][i - 1 := phase];
        UpdateParked(phases[1..], i - 1, phase);
      }
      AddToBoth(rest', Own(phases[i]), rest, Own(phase), Own(phases[0]));
    }
  }

  lemma Commute(a: multiset<nat>, b: multiset<nat>, c: multiset<nat>)
    ensures a + b + c == a + c + b
  {
  }

  lemma AddToBoth(a: multiset<nat>, b: multiset<nat>, c: multiset<nat>, d: multiset<nat>, h: multiset<nat>)
    requires a + b == c + d
    ensures a + h + b == c + h + d
  {
    assert a + h + b == (a + b) + h;
    assert c + h + d == (c + d) + h;
  }

  lemma MoveAcross(a: multiset<nat>, b: multiset<nat>, c: multiset<nat>, d: multiset<nat>)
    requires a + b == c + d && b <= c
    ensures a == c - b + d
  {
    assert c == (c - b) + b;
    assert a + b == (c - b + d) + b;
    forall x ensures a[x] == (c - b + d)[x] {
      assert (a + b)[x] == a[x] + b[x];
      assert ((c - b + d) + b)[x] == (c - b + d)[x] + b[x];
    }
  }

  lemma UpdateCounts(phases: seq<Phase>, i: nat, phase: Phase)
    requires i < |phases|
    ensures ActiveCount(phases[i := phase])
         == ActiveCount(phases) - (if phases[i].Active() then 1 else 0) + (if phase.Active() then 1 else 0)
    ensures phases[i].Parked() ==> phases[i].ts in ParkedTimestamps(phases)
    ensures ParkedTimestamps(phases[i := phase]) == ParkedTimestamps(phases) - Own(phases[i]) + Own(phase)
  {
    UpdateActive(phases, i, phase);
    UpdateParked(phases, i, phase);
    OwnIsParked(phases, i);
    MoveAcross(ParkedTimestamps(phases[i := phase]), Own(phases[i]), ParkedTimestamps(phases), Own(phase));
    assert phases[i].Parked() ==> phases[i].ts in Own(phases[i]);
  }

  lemma {:induction false} WakeCounts(phases: seq<Phase>)
    ensures ActiveCount(WakeAll(phases)) == ActiveCount(phases)
    ensures ParkedTimestamps(WakeAll(phases)) == ParkedTimestamps(phases)
  {
    if phases != [] {
      assert WakeAll(phases)[1..] == WakeAll(phases[1..]);
      WakeCounts(phases[1..]);
    }
  }

  lemma {:induction false} TimestampsAreParked(phases: seq<Phase>, x: nat)
    requires x in ParkedTimestamps(phases)
    ensures exists i :: 0 <= i < |phases| && phases[i].Parked() && phases[i].ts == x
  {
    if phases[0].Parked() && phases[0].ts == x {
    } else {
      TimestampsAreParked(phases[1..], x);
      var i :| 0 <= i < |phases[1..]| && phases[1..][i].Parked() && phases[1..][i].ts == x;
      assert phases[i + 1] == phases[1..][i];
    }
  }

  ghost predicate AllParked(phases: seq<Phase>) {
    forall i :: 0 <= i < |phases| && phases[i].Active() ==> phases[i].Parked()
  }

  /** Everybody active is parked at `ts` or later. */
  ghost predicate ParkedFrom(phases: seq<Phase>, ts: nat) {
    forall i :: 0 <= i < |phases| && phases[i].Active() ==> phases[i].Parked() && phases[i].ts >= ts
  }

  lemma AllParkedFront(phases: seq<Phase>)
    requires phases != []
    ensures AllParked(phases) <==> AllParked(phases[1..]) && (phases[0].Active() ==> phases[0].Parked())
  {
    var rest := phases[1..];
    assert forall i :: 0 <= i < |rest| ==> rest[i] == phases[i + 1];
    assert forall i :: 0 < i < |phases| ==> phases[i] == rest[i - 1];
  }

  /** Everybody active is parked exactly when the counter has caught up. */
  lemma {:induction false} AllParkedIffReached(phases: seq<Phase>)
    ensures |ParkedTimestamps(phases)| <= ActiveCount(phases)
    ensures |ParkedTimestamps(phases)| == ActiveCount(phases) <==> AllParked(phases)
  {
    if phases != [] {
      AllParkedIffReached(phases[1..]);
      AllParkedFront(phases);
    }
  }

  lemma HeapAtLeastMax(s: System)
    requires Inv(s)
    ensures forall x <- s.timer.heap :: x >= s.timer.curMax
  {
    forall x <- s.timer.heap ensures x >= s.timer.curMax {
      TimestampsAreParked(s.phases, x);
    }
  }

  /** Whoever leaves pops its own timestamp, and the maximum becomes exactly that timestamp. */
  lemma LeaverPopsItsOwn(s: System, p: nat)
    requires Inv(s) && p < |s.phases| && s.phases[p].Parked() && LeaveGuard(s.timer, s.phases[p].ts)
    ensures |s.timer.heap| > 0 && Top(s.timer.heap) == s.phases[p].ts
    ensures LeaveStep(s.timer, s.phases[p].ts).curMax == s.phases[p].ts
  {
    HeapAtLeastMax(s);
    ParkedIsInHeap(s, p);
  }

  /** The maximum advances to `t` only when every active participant is parked at `t` or later. */
  lemma AdvanceNeedsEverybody(s: System, p: nat)
    requires Inv(s) && p < |s.phases| && s.phases[p].Parked() && LeaveGuard(s.timer, s.phases[p].ts)
    requires |s.timer.heap| > 0 && LeaveStep(s.timer, s.phases[p].ts).curMax > s.timer.curMax
    ensures ParkedFrom(s.phases, LeaveStep(s.timer, s.phases[p].ts).curMax)
  {
    LeaverPopsItsOwn(s, p);
    AllParkedIffReached(s.phases);
    forall i | 0 <= i < |s.phases| && s.phases[i].Active() ensures s.phases[i].Parked() && s.phases[i].ts in s.timer.heap
    {
      ParkedIsInHeap(s, i);
    }
  }

  /** A parked participant's timestamp is in the heap. */
  lemma ParkedIsInHeap(s: System, p: nat)
    requires Counts(s.timer, s.phases) && p < |s.phases| && s.phases[p].Parked()
    ensures s.phases[p].ts in s.timer.heap && |s.timer.heap| > 0
  {
    UpdateCounts(s.phases, p, Idle);
  }

  lemma SameCounts(t: TimerState, phases: seq<Phase>, p: nat, phase: Phase)
    requires Counts(t, phases) && p < |phases|
    requires phases[p].Active() == phase.Active() && Own(phases[p]) == Own(phase)
    ensures Counts(t, phases[p := phase])
  {
    UpdateActive(phases, p, phase);
    UpdateParked(phases, p, phase);
    OwnIsParked(phases, p);
    MoveAcross(ParkedTimestamps(phases[p := phase]), Own(phases[p]), ParkedTimestamps(phases), Own(phase));
    assert t.heap - Own(phase) + Own(phase) == t.heap;
  }

  lemma NotifyCounts(s: System, p: nat, s': System)
    requires Inv(s) && p < |s.phases| && s.phases[p].MustNotify() && Internal(s, p, s')
    ensures Counts(s'.timer, s'.phases)
  {
    WakeCounts(s.phases);
    SameCounts(s.timer, WakeAll(s.phases), p, s'.phases[p]);
  }

  lemma LogAppend(log: seq<nat>, m: nat)
    requires Sorted(log) && forall x <- log :: x <= m
    ensures Sorted(log + [m]) && forall x <- log + [m] :: x <= m
  {
    assert forall i :: 0 <= i < |log| ==> log[i] in log;
  }

  lemma NotifyKeepsInv(s: System, p: nat, s': System)
    requires Inv(s) && p < |s.phases| && s.phases[p].MustNotify() && Internal(s, p, s')
    ensures Inv(s')
  {
    NotifyCounts(s, p, s');
    forall i | 0 <= i < |s'.phases|
      ensures PhaseOk(s'.timer, s'.phases[i], s'.last[i]) && !s'.phases[i].Asleep?
    {
      assert PhaseOk(s.timer, s.phases[i], s.last[i]);
    }
    LogAppend(s.returned, s.timer.curMax);
  }

  lemma TakeOut(a: multiset<nat>, rest: multiset<nat>, x: nat)
    requires rest + multiset{x} == a
    ensures rest == a - multiset{x} && |rest| == |a| - 1
  {
    MoveAcross(rest, multiset{x}, a, multiset{});
  }

  lemma LeavingUnparks(phases: seq<Phase>, p: nat, own: multiset<nat>)
    requires p < |phases| && phases[p].Parked() && own == multiset{phases[p].ts}
    ensures ParkedTimestamps(phases[p := Leaving(phases[p].ts)]) + own == ParkedTimestamps(phases)
  {
    UpdateParked(phases, p, Leaving(phases[p].ts));
    assert Own(phases[p]) == own && Own(Leaving(phases[p].ts)) == multiset{};
  }

  lemma LeaveCounts(t: TimerState, phases: seq<Phase>, p: nat)
    requires Counts(t, phases) && p < |phases| && phases[p].Parked() && |t.heap| > 0 && t.reached > 0
    requires Top(t.heap) == phases[p].ts
    ensures Counts(LeaveStep(t, phases[p].ts), phases[p := Leaving(phases[p].ts)])
  {
    var ts := phases[p].ts;
    var after := phases[p := Leaving(ts)];
    assert ActiveCount(after) == ActiveCount(phases) by { UpdateActive(phases, p, Leaving(ts)); }
    assert ParkedTimestamps(after) == t.heap - multiset{ts} && |ParkedTimestamps(after)| == |t.heap| - 1 by {
      LeavingUnparks(phases, p, multiset{ts});
      TakeOut(t.heap, ParkedTimestamps(after), ts);
    }
  }

  lemma LeaveKeepsInv(s: System, p: nat, s': System)
    requires Inv(s) && p < |s.phases| && s.phases[p].Trying? && LeaveGuard(s.timer, s.phases[p].ts)
    requires Internal(s, p, s')
    ensures Inv(s')
  {
    LeaverPopsItsOwn(s, p);
    LeaveCounts(s.timer, s.phases, p);
    assert s'.phases[p].MustNotify();
    if s'.timer.curMax > s.timer.curMax {
      AdvanceNeedsEverybody(s, p);
    }
    forall i | 0 <= i < |s'.phases| ensures PhaseOk(s'.timer, s'.phases[i], s'.last[i]) {
      assert PhaseOk(s.timer, s.phases[i], s.last[i]);
    }
  }

  lemma SleepKeepsInv(s: System, p: nat, s': System)
    requires Inv(s) && p < |s.phases| && s.phases[p].Trying? && !LeaveGuard(s.timer, s.phases[p].ts)
    requires Internal(s, p, s')
    ensures Inv(s')
  {
    SameCounts(s.timer, s.phases, p, s'.phases[p]);
    forall i | 0 <= i < |s'.phases| ensures PhaseOk(s'.timer, s'.phases[i], s'.last[i]) {
      assert PhaseOk(s.timer, s.phases[i], s.last[i]);
    }
    forall i | 0 <= i < |s'.phases| && s'.phases[i].Asleep? && LeaveGuard(s'.timer, s'.phases[i].ts)
      ensures exists u :: 0 <= u < |s'.phases| && s'.phases[u].MustNotify()
    {
      assert i != p;
      var u :| 0 <= u < |s.phases| && s.phases[u].MustNotify();
      assert s'.phases[u].MustNotify();
    }
  }

  lemma FinishCounts(t: TimerState, phases: seq<Phase>, p: nat)
    requires Counts(t, phases) && p < |phases| && phases[p].Idle?
    ensures Counts(DoneStep(t), phases[p := Ending])
  {
    UpdateActive(phases, p, Ending);
    var after := ParkedTimestamps(phases[p := Ending]);
    assert after + multiset{} == t.heap + multiset{} by { UpdateParked(phases, p, Ending); }
    assert after + multiset{} == after && t.heap + multiset{} == t.heap;
  }

  lemma FinishKeepsInv(s: System, p: nat, s': System)
    requires Inv(s) && p < |s.phases| && Finish(s, p, s')
    ensures Inv(s')
  {
    FinishCounts(s.timer, s.phases, p);
    assert s'.phases[p].MustNotify();
    forall i | 0 <= i < |s'.phases| ensures PhaseOk(s'.timer, s'.phases[i], s'.last[i]) {
      assert PhaseOk(s.timer, s.phases[i], s.last[i]);
    }
  }

  lemma EnterCounts(t: TimerState, phases: seq<Phase>, p: nat, ts: nat)
    requires Counts(t, phases) && p < |phases| && phases[p].Idle? && ts > t.curMax
    ensures Counts(EnterStep(t, ts).0, phases[p := Entering(ts)])
  {
    UpdateActive(phases, p, Entering(ts));
    UpdateParked(phases, p, Entering(ts));
    assert Own(Entering(ts)) == multiset{ts} && Own(phases[p]) == multiset{};
  }

  lemma CallKeepsInv(s: System, p: nat, ts: nat, s': System)
    requires Inv(s) && p < |s.phases| && Call(s, p, ts, s')
    ensures Inv(s')
  {
    assert PhaseOk(s.timer, s.phases[p], s.last[p]);
    LogAppend(s.returned, s.timer.curMax);
    if ts > s.timer.curMax {
      EnterCounts(s.timer, s.phases, p, ts);
      assert s'.phases[p].MustNotify();
    }
    forall i | 0 <= i < |s'.phases| ensures PhaseOk(s'.timer, s'.phases[i], s'.last[i]) {
      assert PhaseOk(s.timer, s.phases[i], s.last[i]);
    }
  }

  lemma StepKeepsInv(s: System, s': System)
    requires Inv(s) && Steps(s, s')
    ensures Inv(s') && s.returned <= s'.returned && s.timer.curMax <= s'.timer.curMax
  {
    var p: nat :| ParticipantStep(s, p, s');
    if Internal(s, p, s') {
      if s.phases[p].MustNotify() {
        NotifyKeepsInv(s, p, s');
      } else if LeaveGuard(s.timer, s.phases[p].ts) {
        LeaveKeepsInv(s, p, s');
      } else {
        SleepKeepsInv(s, p, s');
      }
    } else if Finish(s, p, s') {
      FinishKeepsInv(s, p, s');
    } else {
      var ts :| Call(s, p, ts, s');
      CallKeepsInv(s, p, ts, s');
    }
  }

  // ---------------------------------------------------------------- results over whole runs

  lemma {:induction false} EveryReachableState(n: nat, states: seq<System>, i: nat)
    requires Behavior(n, states) && i < |states|
    ensures Inv(states[i])
  {
    if i == 0 {
      StartInv(n);
    } else {
      EveryReachableState(n, states, i - 1);
      StepKeepsInv(states[i - 1], states[i]);
    }
  }

  /** The timestamps that MoveForward returns, over all participants and in order of return, never decrease. */
  lemma GlobalMerge(n: nat, states: seq<System>, i: nat)
    requires Behavior(n, states) && i < |states|
    ensures Sorted(states[i].returned)
  {
    EveryReachableState(n, states, i);
  }

  /** In every run: when the maximum advances, every active participant is parked at it or later. */
  lemma MaximumAdvancesTogether(n: nat, states: seq<System>, i: nat)
    requires Behavior(n, states) && 0 < i < |states| && states[i].timer.curMax > states[i - 1].timer.curMax
    ensures ParkedFrom(states[i - 1].phases, states[i].timer.curMax)
  {
    EveryReachableState(n, states, i - 1);
    var s, s' := states[i - 1], states[i];
    assert Steps(s, s');
    var p: nat :| ParticipantStep(s, p, s');
    assert Internal(s, p, s');
    AdvanceNeedsEverybody(s, p);
  }

  /** When all active participants are parked, the condition of one of them holds. */
  lemma SomebodyMayLeave(s: System)
    requires Inv(s)
    requires AllParked(s.phases)
    requires exists i :: 0 <= i < |s.phases| && s.phases[i].Active()
    ensures exists i :: 0 <= i < |s.phases| && s.phases[i].Parked() && LeaveGuard(s.timer, s.phases[i].ts)
  {
    AllParkedIffReached(s.phases);
    var i :| 0 <= i < |s.phases| && s.phases[i].Active();
    ParkedIsInHeap(s, i);
    TimestampsAreParked(s.phases, Top(s.timer.heap));
  }

  /** Inside MoveForward and Done only a sleeper cannot move on its own. */
  lemma MayMove(s: System, p: nat) returns (s': System)
    requires Inv(s) && p < |s.phases| && !s.phases[p].Idle? && !s.phases[p].Asleep? && !s.phases[p].Gone?
    ensures Internal(s, p, s')
  {
    match s.phases[p]
    case Entering(ts) => s' := s.(phases := WakeAll(s.phases)[p := Trying(ts)]);
    case Leaving(ts) => s' := s.(phases := WakeAll(s.phases)[p := Idle], returned := s.returned + [ts]);
    case Ending => s' := s.(phases := WakeAll(s.phases)[p := Gone]);
    case Trying(ts) =>
      ParkedIsInHeap(s, p);
      s' := if LeaveGuard(s.timer, ts)
            then s.(timer := LeaveStep(s.timer, ts), phases := s.phases[p := Leaving(ts)])
            else s.(phases := s.phases[p := Asleep(ts)]);
  }

  /** If no participant can move on its own, then nobody is parked or some active one is idle. */
  lemma NeverStuck(s: System)
    requires Inv(s)
    requires forall p: nat, s' {:trigger Internal(s, p, s')} :: p < |s.phases| ==> !Internal(s, p, s')
    requires exists i :: 0 <= i < |s.phases| && s.phases[i].Active()
    ensures exists i :: 0 <= i < |s.phases| && s.phases[i].Idle?
  {
    forall p: nat | p < |s.phases| ensures s.phases[p].Idle? || s.phases[p].Asleep? || s.phases[p].Gone? {
      if !s.phases[p].Idle? && !s.phases[p].Asleep? && !s.phases[p].Gone? {
        var s' := MayMove(s, p);
        assert false;
      }
    }
    if forall i :: 0 <= i < |s.phases| ==> !s.phases[i].Idle? {
      SomebodyMayLeave(s);
    }
  }

  /** A parked call at or below the maximum leaves at its next check. */
  lemma OvertakenLeaves(s: System, p: nat, s': System)
    requires Inv(s) && p < |s.phases| && s.phases[p].Trying? && s.phases[p].ts <= s.timer.curMax && Internal(s, p, s')
    ensures s'.phases[p] == Leaving(s.phases[p].ts) && s'.timer.curMax == s.timer.curMax
  {
  }

  /** The log grows by the timestamp of every call that returns, at once or after it was parked, and by nothing else. */
  lemma CallsAreLogged(s: System, p: nat, s': System)
    requires ParticipantStep(s, p, s')
    ensures s.phases[p].Leaving? ==> s'.returned == s.returned + [s.phases[p].ts]
    ensures s.phases[p].Idle? && s'.phases[p].Idle? ==> s'.returned == s.returned + [s'.last[p]] && s'.last[p] <= s.timer.curMax
    ensures !s.phases[p].Leaving? && !(s.phases[p].Idle? && s'.phases[p].Idle?) ==> s'.returned == s.returned
    ensures |s'.last| == |s.last| && forall q :: 0 <= q < |s.last| ==>
      s'.last[q] == s.last[q] || (q == p && s.phases[p].Idle? && s'.last[q] > s.last[q])
  {
  }
}
