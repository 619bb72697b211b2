/**
 The coroutine pipeline: a producer, `n` handlers and a consumer, joined by `n + 1` bounded
 channels and watched by the driver that awaits the tasks in order.

 Task 0 is the producer, tasks 1..n are the handlers and task `n + 1` is the consumer; task `j`
 reads channel `j - 1` and writes channel `j`.  A step of a task is one critical section of a
 channel, one call of user code, or one `notify_all`.  A task whose guard is false sleeps on the
 channel's condition variable and moves again only after a notification.
 */
module Pipeline {
  import opened Channel

  /** A handler with private memory: its new memory, whether it passes on, the rewritten value. */
  type HandlerFn<!S, !T> = (S, T) -> (S, bool, T)

  datatype TaskPc<+T> =
    | Fetching                                   // the producer is about to call produce
    | Popping(asleep: bool)
    | Handling(value: T)                         // handel or consume runs on the value
    | Pushing(value: T, asleep: bool)
    | Closing
    | Notifying(chan: nat, next: TaskPc<T>)      // left the critical section, notify_all is due
    | Finished
    | Failed                                     // the throw after a refused push

  datatype DriverPc = Awaiting(index: nat) | ClosingAfter(index: nat) | NotifyingAfter(index: nat) | DriverDone

  datatype State<S, T> = State(
    input: seq<T>,             // what the producer has yet to produce
    chans: seq<Chan<T>>,
    tasks: seq<TaskPc<T>>,
    memory: seq<S>,            // memory[i] belongs to handler task i + 1
    output: seq<T>,            // what the consumer has consumed
    driver: DriverPc)

  // ---------------------------------------------------------------- the steps

  function WakePusher<T>(pc: TaskPc<T>): TaskPc<T> {
    if pc.Pushing? then Pushing(pc.value, false) else pc
  }

  function WakePopper<T>(pc: TaskPc<T>): TaskPc<T> {
    if pc.Popping? then Popping(false) else pc
  }

  /** notify_all on channel `k` reaches its two users: the writer `k` and the reader `k + 1`. */
  function NotifyAll<T>(tasks: seq<TaskPc<T>>, k: nat): (r: seq<TaskPc<T>>)
    requires k + 1 < |tasks|
    ensures |r| == |tasks|
    ensures forall i :: 0 <= i < |tasks| ==>
      r[i] == if i == k then WakePusher(tasks[i]) else if i == k + 1 then WakePopper(tasks[i]) else tasks[i]
  {
    tasks[k := WakePusher(tasks[k])][k + 1 := WakePopper(tasks[k + 1])]
  }

  predicate Shape<S, T>(hs: seq<HandlerFn<S, T>>, s: State<S, T>) {
    |s.chans| == |hs| + 1 && |s.tasks| == |hs| + 2 && |s.memory| == |hs|
  }

  /** Which program points the code of task `j` has. */
  predicate PcOfTask<T>(n: nat, j: nat, pc: TaskPc<T>) {
    match pc
    case Fetching => j == 0
    case Popping(_) => 1 <= j <= n + 1
    case Handling(_) => 1 <= j <= n + 1
    case Pushing(_, _) => j <= n
    case Closing => j <= n
    case Notifying(k, next) =>
      && (k == j || k + 1 == j) && k <= n
      && !next.Notifying? && !next.Pushing? && (next.Popping? ==> !next.asleep)
      && PcOfTask(n, j, next)
    case Finished => true
    case Failed => true
  }

  predicate WellFormed<S, T>(hs: seq<HandlerFn<S, T>>, s: State<S, T>) {
    && Shape(hs, s)
    && (forall j :: 0 <= j < |s.tasks| ==> PcOfTask(|hs|, j, s.tasks[j]))
    && match s.driver {
      case Awaiting(i) => i <= |hs| + 1
      case ClosingAfter(i) => i <= |hs|
      case NotifyingAfter(i) => i <= |hs|
      case DriverDone => true
    }
  }

  predicate TaskCanStep<T>(pc: TaskPc<T>) {
    match pc
    case Popping(asleep) => !asleep
    case Pushing(_, asleep) => !asleep
    case Finished => false
    case Failed => false
    case _ => true
  }

  function TaskStep<S, T>(hs: seq<HandlerFn<S, T>>, s: State<S, T>, j: nat): State<S, T>
    requires WellFormed(hs, s) && j < |s.tasks| && TaskCanStep(s.tasks[j])
  {
    var n := |hs|;
    match s.tasks[j]
    case Fetching =>
      if s.input == [] then s.(tasks := s.tasks[j := Closing])
      else s.(input := s.input[1..], tasks := s.tasks[j := Pushing(s.input[0], false)])
    case Popping(_) =>
      var (c, r) := PopStep(s.chans[j - 1]);
      (match r
       case PopBlocked => s.(tasks := s.tasks[j := Popping(true)])
       case Nothing =>
         s.(chans := s.chans[j - 1 := c],
            tasks := s.tasks[j := Notifying(j - 1, if j == n + 1 then Finished else Closing)])
       case Got(v) =>
         s.(chans := s.chans[j - 1 := c], tasks := s.tasks[j := Notifying(j - 1, Handling(v))]))
    case Handling(v) =>
      if j == n + 1 then
        s.(output := s.output + [v], tasks := s.tasks[j := Popping(false)])
      else
        var (m, passOn, w) := hs[j - 1](s.memory[j - 1], v);
        s.(memory := s.memory[j - 1 := m],
           tasks := s.tasks[j := if passOn then Pushing(w, false) else Popping(false)])
    case Pushing(v, _) =>
      var (c, r) := PushStep(s.chans[j], v);
      (match r
       case PushBlocked => s.(tasks := s.tasks[j := Pushing(v, true)])
       case Rejected => s.(chans := s.chans[j := c], tasks := s.tasks[j := Notifying(j, Failed)])
       case Accepted =>
         s.(chans := s.chans[j := c],
            tasks := s.tasks[j := Notifying(j, if j == 0 then Fetching else Popping(false))]))
    case Closing =>
      s.(chans := s.chans[j := s.chans[j].(closed := true)], tasks := s.tasks[j := Notifying(j, Finished)])
    case Notifying(k, next) =>
      s.(tasks := NotifyAll(s.tasks[j := next], k))
  }

  predicate DriverCanStep<S, T>(hs: seq<HandlerFn<S, T>>, s: State<S, T>)
    requires WellFormed(hs, s)
  {
    match s.driver
    case Awaiting(i) => s.tasks[i].Finished?
    case DriverDone => false
    case _ => true
  }

  function DriverStep<S, T>(hs: seq<HandlerFn<S, T>>, s: State<S, T>): State<S, T>
    requires WellFormed(hs, s) && DriverCanStep(hs, s)
  {
    match s.driver
    case Awaiting(i) =>
      s.(driver := if i == |hs| + 1 then DriverDone else ClosingAfter(i))
    case ClosingAfter(i) =>
      s.(chans := s.chans[i := s.chans[i].(closed := true)], driver := NotifyingAfter(i))
    case NotifyingAfter(i) =>
      s.(tasks := NotifyAll(s.tasks, i), driver := Awaiting(i + 1))
  }

  function InitialTask<T>(j: nat): TaskPc<T> {
    if j == 0 then Fetching else Popping(false)
  }

  function Start<S, T>(hs: seq<HandlerFn<S, T>>, memory: seq<S>, input: seq<T>, capacity: nat): State<S, T>
  {
    State(input, seq(|hs| + 1, _ => Empty(capacity)), seq(|hs| + 2, j requires j >= 0 => InitialTask(j)), memory, [],
          Awaiting(0))
  }

  ghost predicate Steps<S, T>(hs: seq<HandlerFn<S, T>>, s: State<S, T>, s': State<S, T>) {
    && WellFormed(hs, s)
    && ((exists j: nat :: j < |s.tasks| && TaskCanStep(s.tasks[j]) && s' == TaskStep(hs, s, j))
        || (DriverCanStep(hs, s) && s' == DriverStep(hs, s)))
  }

  ghost predicate Stuck<S, T>(hs: seq<HandlerFn<S, T>>, s: State<S, T>) {
    && WellFormed(hs, s)
    && !DriverCanStep(hs, s)
    && forall j :: 0 <= j < |s.tasks| ==> !TaskCanStep(s.tasks[j])
  }

  ghost predicate AllFinished<S, T>(s: State<S, T>) {
    s.driver.DriverDone? && forall j :: 0 <= j < |s.tasks| ==> s.tasks[j].Finished?
  }

  // ---------------------------------------------------------------- the invariant

  /** The task has closed its output channel. */
  predicate PastClose<T>(pc: TaskPc<T>) {
    pc.Finished? || (pc.Notifying? && pc.next.Finished?)
  }

  /** The task has seen the end of its input. */
  predicate AtEnd<T>(pc: TaskPc<T>) {
    pc.Closing? || (pc.Notifying? && pc.next.Closing?) || PastClose(pc)
  }

  predicate FailedOrFailing<T>(pc: TaskPc<T>) {
    pc.Failed? || (pc.Notifying? && pc.next.Failed?)
  }

  ghost predicate ChannelOk<S, T>(hs: seq<HandlerFn<S, T>>, s: State<S, T>, k: nat)
    requires Shape(hs, s) && k < |s.chans|
  {
    var c := s.chans[k];
    && c.Valid() && c.capacity >= 1 && !c.poisoned
    // only the writer closes, and when it does so it has nothing left to push
    && (c.closed <==> PastClose(s.tasks[k]))
    // the reader leaves its loop only when the channel is closed and drained
    && (AtEnd(s.tasks[k + 1]) ==> c.closed && c.buf == [])
    // no lost wake-up: a sleeper whose guard holds is about to be notified by the other side
    && (s.tasks[k].Pushing? && s.tasks[k].asleep && c.PushGuard()
        ==> s.tasks[k + 1].Notifying? && s.tasks[k + 1].chan == k)
    && (s.tasks[k + 1].Popping? && s.tasks[k + 1].asleep && c.PopGuard()
        ==> s.tasks[k].Notifying? && s.tasks[k].chan == k)
  }

  ghost predicate DriverOk<S, T>(hs: seq<HandlerFn<S, T>>, s: State<S, T>)
    requires WellFormed(hs, s)
  {
    match s.driver
    case Awaiting(i) => forall j :: 0 <= j < i ==> s.tasks[j].Finished?
    case ClosingAfter(i) => forall j :: 0 <= j <= i ==> s.tasks[j].Finished?
    case NotifyingAfter(i) => forall j :: 0 <= j <= i ==> s.tasks[j].Finished?
    case DriverDone => forall j :: 0 <= j < |s.tasks| ==> s.tasks[j].Finished?
  }

  ghost predicate Inv<S, T>(hs: seq<HandlerFn<S, T>>, s: State<S, T>) {
    && WellFormed(hs, s)
    && (forall j :: 0 <= j < |s.tasks| ==> !FailedOrFailing(s.tasks[j]))
    && (AtEnd(s.tasks[0]) ==> s.input == [])
    && (forall k :: 0 <= k < |s.chans| ==> ChannelOk(hs, s, k))
    && DriverOk(hs, s)
  }

  lemma StartInv<S, T>(hs: seq<HandlerFn<S, T>>, memory: seq<S>, input: seq<T>, capacity: nat)
    requires |memory| == |hs| && capacity >= 1
    ensures Inv(hs, Start(hs, memory, input, capacity))
  {
  }

  /** The conditions around channel `k` survive a step that changes neither it nor its users. */
  lemma ChannelUntouched<S, T>(hs: seq<HandlerFn<S, T>>, s: State<S, T>, s': State<S, T>, k: nat)
    requires Shape(hs, s) && Shape(hs, s') && k < |s.chans| && ChannelOk(hs, s, k)
    requires s'.chans[k] == s.chans[k] && s'.tasks[k] == s.tasks[k] && s'.tasks[k + 1] == s.tasks[k + 1]
    ensures ChannelOk(hs, s', k)
  {
  }

  lemma TaskStepKeepsInv<S, T>(hs: seq<HandlerFn<S, T>>, s: State<S, T>, j: nat)
    requires Inv(hs, s) && j < |s.tasks| && TaskCanStep(s.tasks[j])
    ensures Inv(hs, TaskStep(hs, s, j))
  {
    match s.tasks[j]
    case Fetching => LocalStepKeepsInv(hs, s, j);
    case Handling(_) => LocalStepKeepsInv(hs, s, j);
    case Popping(_) => PopKeepsInv(hs, s, j);
    case Pushing(_, _) => WriterStepKeepsInv(hs, s, j);
    case Closing => WriterStepKeepsInv(hs, s, j);
    case Notifying(_, _) => NotificationKeepsInv(hs, s, j);
  }

  lemma OtherChannelsOk<S, T>(hs: seq<HandlerFn<S, T>>, s: State<S, T>, s': State<S, T>, j: nat)
    requires Inv(hs, s) && Shape(hs, s') && j < |s.tasks|
    requires forall i :: 0 <= i < |s.tasks| && i != j ==> s'.tasks[i] == s.tasks[i]
    requires forall k :: 0 <= k < |s.chans| && k != j && k != j - 1 ==> s'.chans[k] == s.chans[k]
    ensures forall k :: 0 <= k < |s.chans| && k != j && k != j - 1 ==> ChannelOk(hs, s', k)
  {
    forall k | 0 <= k < |s.chans| && k != j && k != j - 1 ensures ChannelOk(hs, s', k) {
      ChannelUntouched(hs, s, s', k);
    }
  }

  /** What a step of task `j` other than a notification has to show: only its own two channels matter. */
  lemma OneTaskMoved<S, T>(hs: seq<HandlerFn<S, T>>, s: State<S, T>, s': State<S, T>, j: nat)
    requires Inv(hs, s) && Shape(hs, s') && j < |s.tasks| && s'.driver == s.driver && !s.tasks[j].Finished?
    requires forall i :: 0 <= i < |s.tasks| && i != j ==> s'.tasks[i] == s.tasks[i]
    requires forall k :: 0 <= k < |s.chans| && k != j && k != j - 1 ==> s'.chans[k] == s.chans[k]
    requires PcOfTask(|hs|, j, s'.tasks[j]) && !FailedOrFailing(s'.tasks[j])
    requires if j == 0 then AtEnd(s'.tasks[0]) ==> s'.input == [] else s'.input == s.input && ChannelOk(hs, s', j - 1)
    requires j <= |hs| ==> ChannelOk(hs, s', j)
    ensures Inv(hs, s')
  {
    OtherChannelsOk(hs, s, s', j);
  }

  /** Producing a value or running user code touches no channel. */
  lemma LocalStepKeepsInv<S, T>(hs: seq<HandlerFn<S, T>>, s: State<S, T>, j: nat)
    requires Inv(hs, s) && j < |s.tasks| && (s.tasks[j].Fetching? || s.tasks[j].Handling?)
    ensures Inv(hs, TaskStep(hs, s, j))
  {
    assert PcOfTask(|hs|, j, s.tasks[j]);
    assert j > 0 ==> ChannelOk(hs, s, j - 1);
    assert j <= |hs| ==> ChannelOk(hs, s, j);
    OneTaskMoved(hs, s, TaskStep(hs, s, j), j);
  }

  lemma PopKeepsInv<S, T>(hs: seq<HandlerFn<S, T>>, s: State<S, T>, j: nat)
    requires Inv(hs, s) && j < |s.tasks| && s.tasks[j] == Popping(false)
    ensures Inv(hs, TaskStep(hs, s, j))
  {
    assert PcOfTask(|hs|, j, s.tasks[j]);
    assert ChannelOk(hs, s, j - 1);
    assert j <= |hs| ==> ChannelOk(hs, s, j);
    OneTaskMoved(hs, s, TaskStep(hs, s, j), j);
  }

  lemma WriterStepKeepsInv<S, T>(hs: seq<HandlerFn<S, T>>, s: State<S, T>, j: nat)
    requires Inv(hs, s) && j < |s.tasks|
    requires s.tasks[j].Closing? || (s.tasks[j].Pushing? && !s.tasks[j].asleep)
    ensures Inv(hs, TaskStep(hs, s, j))
  {
    assert PcOfTask(|hs|, j, s.tasks[j]) && !FailedOrFailing(s.tasks[j]);
    assert ChannelOk(hs, s, j);
    assert j > 0 ==> ChannelOk(hs, s, j - 1);
    OneTaskMoved(hs, s, TaskStep(hs, s, j), j);
  }

  lemma NotificationKeepsChannel<S, T>(hs: seq<HandlerFn<S, T>>, s: State<S, T>, j: nat, k: nat)
    requires Inv(hs, s) && j < |s.tasks| && s.tasks[j].Notifying? && k < |s.chans|
    ensures Shape(hs, TaskStep(hs, s, j)) && ChannelOk(hs, TaskStep(hs, s, j), k)
  {
    assert ChannelOk(hs, s, k);
    assert PcOfTask(|hs|, j, s.tasks[j]);
  }

  lemma NotificationKeepsInv<S, T>(hs: seq<HandlerFn<S, T>>, s: State<S, T>, j: nat)
    requires Inv(hs, s) && j < |s.tasks| && s.tasks[j].Notifying?
    ensures Inv(hs, TaskStep(hs, s, j))
  {
    var s' := TaskStep(hs, s, j);
    assert PcOfTask(|hs|, j, s.tasks[j]);
    forall k | 0 <= k < |s'.chans| ensures ChannelOk(hs, s', k) {
      NotificationKeepsChannel(hs, s, j, k);
    }
  }

  lemma DriverStepKeepsInv<S, T>(hs: seq<HandlerFn<S, T>>, s: State<S, T>)
    requires Inv(hs, s) && DriverCanStep(hs, s)
    ensures Inv(hs, DriverStep(hs, s))
  {
    var s' := DriverStep(hs, s);
    forall k | 0 <= k < |s'.chans| ensures ChannelOk(hs, s', k) {
      assert ChannelOk(hs, s, k);
    }
  }

  // ---------------------------------------------------------------- deadlock freedom

  /** In a stuck state every task before the consumer sleeps on a full channel or has finished. */
  lemma {:induction false} StuckFromTheRight<S, T>(hs: seq<HandlerFn<S, T>>, s: State<S, T>, j: nat)
    requires Inv(hs, s) && Stuck(hs, s) && j < |s.tasks|
    ensures s.tasks[j].Finished? || s.tasks[j].Popping?
    decreases |s.tasks| - j
  {
    assert PcOfTask(|hs|, j, s.tasks[j]) && !TaskCanStep(s.tasks[j]) && !FailedOrFailing(s.tasks[j]);
    if s.tasks[j].Pushing? {
      // the channel is full, so its reader can neither sleep on it nor have finished
      assert ChannelOk(hs, s, j) && !TaskCanStep(s.tasks[j + 1]);
      StuckFromTheRight(hs, s, j + 1);
    }
  }

  lemma {:induction false} StuckFromTheLeft<S, T>(hs: seq<HandlerFn<S, T>>, s: State<S, T>, j: nat)
    requires Inv(hs, s) && Stuck(hs, s) && j < |s.tasks|
    ensures s.tasks[j].Finished?
  {
    assert PcOfTask(|hs|, j, s.tasks[j]) && !TaskCanStep(s.tasks[j]);
    StuckFromTheRight(hs, s, j);
    if j > 0 {
      StuckFromTheLeft(hs, s, j - 1);
      assert ChannelOk(hs, s, j - 1);
    }
  }

  /** No deadlock: a state in which nobody can move is one in which everybody has finished. */
  lemma StuckMeansFinished<S, T>(hs: seq<HandlerFn<S, T>>, s: State<S, T>)
    requires Inv(hs, s) && Stuck(hs, s)
    ensures AllFinished(s)
  {
    forall j | 0 <= j < |s.tasks| ensures s.tasks[j].Finished? {
      StuckFromTheLeft(hs, s, j);
    }
  }
}
