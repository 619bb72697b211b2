/**
 What the pipeline computes, and that it always finishes: conservation of the values in flight,
 an explicit bound on the length of every run, and the results over whole runs.
 */
module PipelineFlow {
  import opened Channel
  import opened Pipeline
  import opened Composition

  // ---------------------------------------------------------------- values in flight

  /** The value a task has finished with and is about to push. */
  function Held<T>(pc: TaskPc<T>): seq<T> {
    match pc
    case Pushing(v, _) => [v]
    case Notifying(_, next) => Held(next)
    case _ => []
  }

  /** The value a task has popped and not yet handled. */
  function ToHandle<T>(pc: TaskPc<T>): seq<T> {
    match pc
    case Handling(v) => [v]
    case Notifying(_, next) => ToHandle(next)
    case _ => []
  }

  /** What the consumer will still see if `xs` arrives behind the values in channel `k`. */
  function Flow<S, T>(hs: seq<HandlerFn<S, T>>, s: State<S, T>, k: nat, xs: seq<T>): seq<T>
    requires Shape(hs, s) && k <= |hs|
    decreases |hs| - k
  {
    var arriving := ToHandle(s.tasks[k + 1]) + s.chans[k].buf + xs;
    if k == |hs| then arriving
    else Flow(hs, s, k + 1, Held(s.tasks[k + 1]) + Apply(hs[k], s.memory[k], arriving).0)
  }

  /** The consumed values, then everything in flight and still to come, through its remaining handlers. */
  function Total<S, T>(hs: seq<HandlerFn<S, T>>, s: State<S, T>): seq<T>
    requires Shape(hs, s)
  {
    s.output + Flow(hs, s, 0, Held(s.tasks[0]) + s.input)
  }

  /** Stage `k`, that is channel `k` and its reader, holds the same values in both states. */
  ghost predicate SameStage<S, T>(hs: seq<HandlerFn<S, T>>, s: State<S, T>, s': State<S, T>, k: nat)
    requires Shape(hs, s) && Shape(hs, s') && k <= |hs|
  {
    && s.chans[k].buf == s'.chans[k].buf
    && ToHandle(s.tasks[k + 1]) == ToHandle(s'.tasks[k + 1])
    && Held(s.tasks[k + 1]) == Held(s'.tasks[k + 1])
    && (k < |hs| ==> s.memory[k] == s'.memory[k])
  }

  lemma {:induction false} FlowOfSameStages<S, T>(
      hs: seq<HandlerFn<S, T>>, s: State<S, T>, s': State<S, T>, k: nat, xs: seq<T>)
    requires Shape(hs, s) && Shape(hs, s') && k <= |hs|
    requires forall i :: k <= i <= |hs| ==> SameStage(hs, s, s', i)
    ensures Flow(hs, s, k, xs) == Flow(hs, s', k, xs)
    decreases |hs| - k
  {
    assert SameStage(hs, s, s', k);
    if k < |hs| {
      var arriving := ToHandle(s.tasks[k + 1]) + s.chans[k].buf + xs;
      FlowOfSameStages(hs, s, s', k + 1, Held(s.tasks[k + 1]) + Apply(hs[k], s.memory[k], arriving).0);
    }
  }

  /** A change at stage `m` that leaves the flow there as it was leaves the flow upstream as it was. */
  lemma {:induction false} FlowUpstream<S, T>(
      hs: seq<HandlerFn<S, T>>, s: State<S, T>, s': State<S, T>, k: nat, m: nat, xs: seq<T>)
    requires Shape(hs, s) && Shape(hs, s') && k <= m <= |hs|
    requires forall i :: k <= i < m ==> SameStage(hs, s, s', i)
    requires forall ys :: Flow(hs, s, m, ys) == Flow(hs, s', m, ys)
    ensures Flow(hs, s, k, xs) == Flow(hs, s', k, xs)
    decreases m - k
  {
    if k < m {
      assert SameStage(hs, s, s', k);
      var arriving := ToHandle(s.tasks[k + 1]) + s.chans[k].buf + xs;
      FlowUpstream(hs, s, s', k + 1, m, Held(s.tasks[k + 1]) + Apply(hs[k], s.memory[k], arriving).0);
    }
  }

  /** Popping moves the front of the channel into the hand of its reader. */
  lemma PopFlow<S, T>(hs: seq<HandlerFn<S, T>>, s: State<S, T>, j: nat, xs: seq<T>)
    requires WellFormed(hs, s) && 0 < j <= |hs| && s.tasks[j] == Popping(false)
    ensures Flow(hs, TaskStep(hs, s, j), j - 1, xs) == Flow(hs, s, j - 1, xs)
  {
    var s', m := TaskStep(hs, s, j), j - 1;
    var buf, buf' := s.chans[m].buf, s'.chans[m].buf;
    assert ToHandle(s.tasks[j]) + buf + xs == buf + xs;
    match PopStep(s.chans[m]).1 {
      case Got(v) =>
        assert s'.tasks[j] == Notifying(m, Handling(v)) && buf == [v] + buf';
        assert ToHandle(s'.tasks[j]) == [v] && Held(s'.tasks[j]) == [];
      case Nothing =>
        assert s'.tasks[j] == Notifying(m, Closing);
        assert ToHandle(s'.tasks[j]) == [] && Held(s'.tasks[j]) == [];
      case PopBlocked =>
    }
    assert ToHandle(s'.tasks[j]) + buf' + xs == buf + xs;
    FlowOfSameStages(hs, s, s', j, Held(s.tasks[j]) + Apply(hs[m], s.memory[m], buf + xs).0);
  }

  /** Handling consumes the popped value and leaves its rewriting, if any, in the task's hand. */
  lemma HandleFlow<S, T>(hs: seq<HandlerFn<S, T>>, s: State<S, T>, j: nat, xs: seq<T>)
    requires WellFormed(hs, s) && 0 < j <= |hs| && s.tasks[j].Handling?
    ensures Flow(hs, TaskStep(hs, s, j), j - 1, xs) == Flow(hs, s, j - 1, xs)
  {
    var s', m, v := TaskStep(hs, s, j), j - 1, s.tasks[j].value;
    var rest := s.chans[m].buf + xs;
    assert [v] + s.chans[m].buf + xs == [v] + rest;
    assert [] + s.chans[m].buf + xs == rest;
    assert ([v] + rest)[1..] == rest;
    var ys := Apply(hs[m], s.memory[m], [v] + rest).0;
    assert [] + ys == ys == Held(s'.tasks[j]) + Apply(hs[m], s'.memory[m], rest).0;
    FlowOfSameStages(hs, s, s', j, ys);
  }

  lemma StageStepKeepsTotal<S, T>(hs: seq<HandlerFn<S, T>>, s: State<S, T>, j: nat)
    requires Inv(hs, s) && 0 < j <= |hs| && TaskCanStep(s.tasks[j]) && (s.tasks[j].Popping? || s.tasks[j].Handling?)
    ensures Total(hs, TaskStep(hs, s, j)) == Total(hs, s)
  {
    var s', m := TaskStep(hs, s, j), j - 1;
    forall xs ensures Flow(hs, s, m, xs) == Flow(hs, s', m, xs) {
      if s.tasks[j].Popping? { PopFlow(hs, s, j, xs); } else { HandleFlow(hs, s, j, xs); }
    }
    FlowUpstream(hs, s, s', 0, m, Held(s.tasks[0]) + s.input);
  }

  /** A pushed value moves from the hand of task `j` to the end of channel `j`. */
  lemma PushFlow<S, T>(hs: seq<HandlerFn<S, T>>, s: State<S, T>, s': State<S, T>, j: nat, v: T, ys: seq<T>)
    requires Shape(hs, s) && Shape(hs, s') && j <= |hs|
    requires s'.chans[j].buf == s.chans[j].buf + [v]
    requires ToHandle(s'.tasks[j + 1]) == ToHandle(s.tasks[j + 1]) && Held(s'.tasks[j + 1]) == Held(s.tasks[j + 1])
    requires s'.memory == s.memory
    requires forall i :: j < i <= |hs| ==> SameStage(hs, s, s', i)
    ensures Flow(hs, s, j, [v] + ys) == Flow(hs, s', j, ys)
  {
    var arriving := ToHandle(s.tasks[j + 1]) + s.chans[j].buf + ([v] + ys);
    assert arriving == ToHandle(s'.tasks[j + 1]) + s'.chans[j].buf + ys;
    if j < |hs| {
      FlowOfSameStages(hs, s, s', j + 1, Held(s.tasks[j + 1]) + Apply(hs[j], s.memory[j], arriving).0);
    }
  }

  lemma HandlerPushFlow<S, T>(hs: seq<HandlerFn<S, T>>, s: State<S, T>, s': State<S, T>, j: nat, v: T, xs: seq<T>)
    requires Shape(hs, s) && Shape(hs, s') && 0 < j <= |hs|
    requires Held(s.tasks[j]) == [v] && Held(s'.tasks[j]) == [] && s'.memory == s.memory
    requires ToHandle(s'.tasks[j]) == ToHandle(s.tasks[j]) && s'.chans[j - 1] == s.chans[j - 1]
    requires s'.chans[j].buf == s.chans[j].buf + [v] && s'.tasks[j + 1] == s.tasks[j + 1]
    requires forall i :: j < i <= |hs| ==> SameStage(hs, s, s', i)
    ensures Flow(hs, s', j - 1, xs) == Flow(hs, s, j - 1, xs)
  {
    var m := j - 1;
    var ys := Apply(hs[m], s.memory[m], ToHandle(s.tasks[j]) + s.chans[m].buf + xs).0;
    PushFlow(hs, s, s', j, v, ys);
    assert [] + ys == ys;
  }

  lemma PushKeepsTotal<S, T>(hs: seq<HandlerFn<S, T>>, s: State<S, T>, j: nat)
    requires Inv(hs, s) && j <= |hs| && s.tasks[j].Pushing? && TaskCanStep(s.tasks[j])
    ensures Total(hs, TaskStep(hs, s, j)) == Total(hs, s)
  {
    var s' := TaskStep(hs, s, j);
    var xs := Held(s.tasks[0]) + s.input;
    assert ChannelOk(hs, s, j);
    if !PushStep(s.chans[j], s.tasks[j].value).1.Accepted? {
      FlowOfSameStages(hs, s, s', 0, xs);
    } else if j == 0 {
      PushFlow(hs, s, s', 0, s.tasks[0].value, s.input);
      assert Held(s'.tasks[0]) + s.input == s.input;
    } else {
      var m := j - 1;
      forall ys ensures Flow(hs, s, m, ys) == Flow(hs, s', m, ys) {
        HandlerPushFlow(hs, s, s', j, s.tasks[j].value, ys);
      }
      FlowUpstream(hs, s, s', 0, m, xs);
    }
  }

  lemma {:induction false} FlowBehindConsumed<S, T>(
      hs: seq<HandlerFn<S, T>>, s: State<S, T>, s': State<S, T>, k: nat, xs: seq<T>, v: T)
    requires Shape(hs, s) && Shape(hs, s') && k <= |hs|
    requires forall i :: k <= i < |hs| ==> SameStage(hs, s, s', i)
    requires s'.chans[|hs|].buf == s.chans[|hs|].buf
    requires ToHandle(s.tasks[|hs| + 1]) == [v] && ToHandle(s'.tasks[|hs| + 1]) == []
    ensures Flow(hs, s, k, xs) == [v] + Flow(hs, s', k, xs)
    decreases |hs| - k
  {
    if k < |hs| {
      assert SameStage(hs, s, s', k);
      var arriving := ToHandle(s.tasks[k + 1]) + s.chans[k].buf + xs;
      FlowBehindConsumed(hs, s, s', k + 1, Held(s.tasks[k + 1]) + Apply(hs[k], s.memory[k], arriving).0, v);
    } else {
      assert [v] + s.chans[k].buf + xs == [v] + ([] + s.chans[k].buf + xs);
    }
  }

  lemma ConsumerHandles<S, T>(hs: seq<HandlerFn<S, T>>, s: State<S, T>)
    requires Inv(hs, s) && s.tasks[|hs| + 1].Handling?
    ensures Total(hs, TaskStep(hs, s, |hs| + 1)) == Total(hs, s)
  {
    var s', v := TaskStep(hs, s, |hs| + 1), s.tasks[|hs| + 1].value;
    var xs := Held(s.tasks[0]) + s.input;
    FlowBehindConsumed(hs, s, s', 0, xs, v);
    assert (s.output + [v]) + Flow(hs, s', 0, xs) == s.output + ([v] + Flow(hs, s', 0, xs));
  }

  /** A popped value stays in front of the last stage. */
  lemma ConsumerPopFlow<S, T>(hs: seq<HandlerFn<S, T>>, s: State<S, T>, xs: seq<T>)
    requires Inv(hs, s) && s.tasks[|hs| + 1] == Popping(false)
    ensures Flow(hs, s, |hs|, xs) == Flow(hs, TaskStep(hs, s, |hs| + 1), |hs|, xs)
  {
    var n, s' := |hs|, TaskStep(hs, s, |hs| + 1);
    assert ToHandle(s.tasks[n + 1]) + s.chans[n].buf == ToHandle(s'.tasks[n + 1]) + s'.chans[n].buf;
  }

  lemma ConsumerPops<S, T>(hs: seq<HandlerFn<S, T>>, s: State<S, T>)
    requires Inv(hs, s) && s.tasks[|hs| + 1] == Popping(false)
    ensures Total(hs, TaskStep(hs, s, |hs| + 1)) == Total(hs, s)
  {
    var n, s' := |hs|, TaskStep(hs, s, |hs| + 1);
    forall ys ensures Flow(hs, s, n, ys) == Flow(hs, s', n, ys) {
      ConsumerPopFlow(hs, s, ys);
    }
    FlowUpstream(hs, s, s', 0, n, Held(s.tasks[0]) + s.input);
  }

  lemma TaskStepKeepsTotal<S, T>(hs: seq<HandlerFn<S, T>>, s: State<S, T>, j: nat)
    requires Inv(hs, s) && j < |s.tasks| && TaskCanStep(s.tasks[j])
    ensures Shape(hs, TaskStep(hs, s, j)) && Total(hs, TaskStep(hs, s, j)) == Total(hs, s)
  {
    var s' := TaskStep(hs, s, j);
    assert PcOfTask(|hs|, j, s.tasks[j]);
    match s.tasks[j]
    case Pushing(_, _) => PushKeepsTotal(hs, s, j);
    case Popping(_) => if j == |hs| + 1 { ConsumerPops(hs, s); } else { StageStepKeepsTotal(hs, s, j); }
    case Handling(_) => if j == |hs| + 1 { ConsumerHandles(hs, s); } else { StageStepKeepsTotal(hs, s, j); }
    case Fetching =>
      assert Held(s.tasks[0]) + s.input == Held(s'.tasks[0]) + s'.input;
      FlowOfSameStages(hs, s, s', 0, Held(s.tasks[0]) + s.input);
    case Closing =>
      assert Held(s'.tasks[j]) == [] == Held(s.tasks[j]) && ToHandle(s'.tasks[j]) == [] == ToHandle(s.tasks[j]);
      FlowOfSameStages(hs, s, s', 0, Held(s.tasks[0]) + s.input);
    case Notifying(_, _) =>
      NotificationMovesNothing(hs, s, j);
      FlowOfSameStages(hs, s, s', 0, Held(s.tasks[0]) + s.input);
  }

  lemma NotificationMovesNothing<S, T>(hs: seq<HandlerFn<S, T>>, s: State<S, T>, j: nat)
    requires Inv(hs, s) && j < |s.tasks| && s.tasks[j].Notifying?
    ensures Shape(hs, TaskStep(hs, s, j))
    ensures forall i :: 0 <= i <= |hs| ==> SameStage(hs, s, TaskStep(hs, s, j), i)
    ensures Held(TaskStep(hs, s, j).tasks[0]) == Held(s.tasks[0])
  {
    var s' := TaskStep(hs, s, j);
    assert PcOfTask(|hs|, j, s.tasks[j]);
    forall i | 0 <= i < |s.tasks|
      ensures Held(s'.tasks[i]) == Held(s.tasks[i]) && ToHandle(s'.tasks[i]) == ToHandle(s.tasks[i])
    {
      var pc := s.tasks[i];
      assert Held(WakePusher(pc)) == Held(pc) == Held(WakePopper(pc));
    }
  }

  lemma DriverStepKeepsTotal<S, T>(hs: seq<HandlerFn<S, T>>, s: State<S, T>)
    requires Inv(hs, s) && DriverCanStep(hs, s)
    ensures Total(hs, DriverStep(hs, s)) == Total(hs, s)
  {
    FlowOfSameStages(hs, s, DriverStep(hs, s), 0, Held(s.tasks[0]) + s.input);
  }

  lemma {:induction false} StartFlow<S, T>(
      hs: seq<HandlerFn<S, T>>, memory: seq<S>, input: seq<T>, capacity: nat, k: nat, xs: seq<T>)
    requires |memory| == |hs| && k <= |hs|
    ensures Flow(hs, Start(hs, memory, input, capacity), k, xs) == Compose(hs, memory, k, xs)
    decreases |hs| - k
  {
    var s := Start(hs, memory, input, capacity);
    assert ToHandle(s.tasks[k + 1]) + s.chans[k].buf + xs == xs;
    if k < |hs| {
      var ys := Apply(hs[k], memory[k], xs).0;
      assert Held(s.tasks[k + 1]) + ys == ys;
      StartFlow(hs, memory, input, capacity, k + 1, ys);
    }
  }

  lemma StartTotal<S, T>(hs: seq<HandlerFn<S, T>>, memory: seq<S>, input: seq<T>, capacity: nat)
    requires |memory| == |hs|
    ensures Total(hs, Start(hs, memory, input, capacity)) == Compose(hs, memory, 0, input)
  {
    var s := Start(hs, memory, input, capacity);
    assert Held(s.tasks[0]) + s.input == input;
    StartFlow(hs, memory, input, capacity, 0, input);
  }

  lemma {:induction false} FinishedFlow<S, T>(hs: seq<HandlerFn<S, T>>, s: State<S, T>, k: nat)
    requires Inv(hs, s) && AllFinished(s) && k <= |hs|
    ensures Flow(hs, s, k, []) == []
    decreases |hs| - k
  {
    assert ChannelOk(hs, s, k);
    if k < |hs| {
      FinishedFlow(hs, s, k + 1);
    }
  }

  // ---------------------------------------------------------------- termination measure

  /** Work that a value in channel `k` still causes. */
  function ItemWork(n: nat, k: nat): nat
    requires k <= n
  {
    10 * (3 * (n - k) + 2)
  }

  function TaskWork<T>(n: nat, j: nat, pc: TaskPc<T>): nat
    requires PcOfTask(n, j, pc)
  {
    match pc
    case Fetching => 20
    case Popping(asleep) => 20 + (if asleep then 0 else 1)
    case Handling(_) => 10 + ItemWork(n, j - 1)
    case Pushing(_, asleep) => 30 + ItemWork(n, j) + (if asleep then 0 else 1)
    case Closing => 10
    case Notifying(_, next) => 3 + TaskWork(n, j, next)
    case Finished => 0
    case Failed => 0
  }

  function DriverWork(n: nat, d: DriverPc): int {
    match d
    case Awaiting(i) => 10 * (n + 2 - i)
    case ClosingAfter(i) => 10 * (n + 2 - i) - 2
    case NotifyingAfter(i) => 10 * (n + 2 - i) - 4
    case DriverDone => 0
  }

  function ChansWork<T>(n: nat, chans: seq<Chan<T>>, k: nat): nat
    requires |chans| == n + 1 && k <= n + 1
    decreases n + 1 - k
  {
    if k == n + 1 then 0 else |chans[k].buf| * ItemWork(n, k) + ChansWork(n, chans, k + 1)
  }

  function TasksWork<T>(n: nat, tasks: seq<TaskPc<T>>, k: nat): nat
    requires |tasks| == n + 2 && k <= n + 2
    requires forall j :: 0 <= j < |tasks| ==> PcOfTask(n, j, tasks[j])
    decreases n + 2 - k
  {
    if k == n + 2 then 0 else TaskWork(n, k, tasks[k]) + TasksWork(n, tasks, k + 1)
  }

  /** An upper bound on the number of steps still possible. */
  function Work<S, T>(hs: seq<HandlerFn<S, T>>, s: State<S, T>): int
    requires WellFormed(hs, s)
  {
    var n := |hs|;
    |s.input| * (ItemWork(n, 0) + 20) + ChansWork(n, s.chans, 0) + TasksWork(n, s.tasks, 0) + DriverWork(n, s.driver)
  }

  lemma {:induction false} ChansWorkUpdate<T>(n: nat, chans: seq<Chan<T>>, i: nat, c: Chan<T>, k: nat)
    requires |chans| == n + 1 && i <= n && k <= n + 1
    ensures ChansWork(n, chans[i := c], k)
         == ChansWork(n, chans, k) + if k <= i then (|c.buf| - |chans[i].buf|) * ItemWork(n, i) else 0
    decreases n + 1 - k
  {
    if k <= n {
      ChansWorkUpdate(n, chans, i, c, k + 1);
      if k == i {
        var w := ItemWork(n, i);
        assert (|c.buf| - |chans[i].buf|) * w == |c.buf| * w - |chans[i].buf| * w;
      }
    }
  }

  lemma {:induction false} TasksWorkUpdate<T>(n: nat, tasks: seq<TaskPc<T>>, i: nat, pc: TaskPc<T>, k: nat)
    requires |tasks| == n + 2 && i < n + 2 && k <= n + 2
    requires forall j :: 0 <= j < |tasks| ==> PcOfTask(n, j, tasks[j])
    requires PcOfTask(n, i, pc)
    ensures TasksWork(n, tasks[i := pc], k)
         == TasksWork(n, tasks, k) + if k <= i then TaskWork(n, i, pc) - TaskWork(n, i, tasks[i]) else 0
    decreases n + 2 - k
  {
    if k < n + 2 {
      TasksWorkUpdate(n, tasks, i, pc, k + 1);
    }
  }

  /** A notification re-arms at most two sleepers. */
  lemma NotifyAllWork<T>(n: nat, tasks: seq<TaskPc<T>>, k: nat)
    requires |tasks| == n + 2 && k <= n
    requires forall j :: 0 <= j < |tasks| ==> PcOfTask(n, j, tasks[j])
    ensures forall j :: 0 <= j < |tasks| ==> PcOfTask(n, j, NotifyAll(tasks, k)[j])
    ensures TasksWork(n, NotifyAll(tasks, k), 0) <= TasksWork(n, tasks, 0) + 2
  {
    var one := tasks[k := WakePusher(tasks[k])];
    TasksWorkUpdate(n, tasks, k, WakePusher(tasks[k]), 0);
    TasksWorkUpdate(n, one, k + 1, WakePopper(tasks[k + 1]), 0);
  }

  lemma DriverStepWork<S, T>(hs: seq<HandlerFn<S, T>>, s: State<S, T>)
    requires Inv(hs, s) && DriverCanStep(hs, s)
    ensures Inv(hs, DriverStep(hs, s)) && Work(hs, DriverStep(hs, s)) < Work(hs, s)
  {
    DriverStepKeepsInv(hs, s);
    match s.driver
    case Awaiting(_) =>
    case DriverDone =>
    case ClosingAfter(i) =>
      ChansWorkUpdate(|hs|, s.chans, i, s.chans[i].(closed := true), 0);
    case NotifyingAfter(i) =>
      NotifyAllWork(|hs|, s.tasks, i);
  }

  lemma NotifyStepWork<S, T>(hs: seq<HandlerFn<S, T>>, s: State<S, T>, j: nat)
    requires WellFormed(hs, s) && j < |s.tasks| && s.tasks[j].Notifying?
    requires WellFormed(hs, TaskStep(hs, s, j))
    ensures Work(hs, TaskStep(hs, s, j)) < Work(hs, s)
  {
    assert PcOfTask(|hs|, j, s.tasks[j]);
    var next := s.tasks[j].next;
    TasksWorkUpdate(|hs|, s.tasks, j, next, 0);
    NotifyAllWork(|hs|, s.tasks[j := next], s.tasks[j].chan);
  }

  /** The work of one more, one less or as many values. */
  function Times(d: int, w: nat): int { if d > 0 then w else if d < 0 then 0 - w else 0 }

  lemma ChansWorkShift<T>(n: nat, chans: seq<Chan<T>>, m: nat, c: Chan<T>, d: int)
    requires |chans| == n + 1 && m <= n && |c.buf| == |chans[m].buf| + d && -1 <= d <= 1
    ensures ChansWork(n, chans[m := c], 0) == ChansWork(n, chans, 0) + Times(d, ItemWork(n, m))
  {
    ChansWorkUpdate(n, chans, m, c, 0);
    var w := ItemWork(n, m);
    assert |c.buf| - |chans[m].buf| == d;
    assert d * w == Times(d, w);
  }

  /** A step that moves task `j` and adds `d` values to channel `m`. */
  lemma ChannelStepWork<S, T>(hs: seq<HandlerFn<S, T>>, s: State<S, T>, s': State<S, T>, j: nat, m: nat, d: int)
    requires WellFormed(hs, s) && WellFormed(hs, s') && j < |s.tasks| && m <= |hs|
    requires s' == s.(chans := s.chans[m := s'.chans[m]], tasks := s.tasks[j := s'.tasks[j]])
    requires |s'.chans[m].buf| == |s.chans[m].buf| + d && -1 <= d <= 1
    ensures PcOfTask(|hs|, j, s.tasks[j]) && PcOfTask(|hs|, j, s'.tasks[j])
    ensures Work(hs, s') == Work(hs, s) + TaskWork(|hs|, j, s'.tasks[j]) - TaskWork(|hs|, j, s.tasks[j])
                            + Times(d, ItemWork(|hs|, m))
  {
    TasksWorkUpdate(|hs|, s.tasks, j, s'.tasks[j], 0);
    ChansWorkShift(|hs|, s.chans, m, s'.chans[m], d);
  }

  lemma PopStepWork<S, T>(hs: seq<HandlerFn<S, T>>, s: State<S, T>, j: nat)
    requires WellFormed(hs, s) && j < |s.tasks| && s.tasks[j] == Popping(false)
    requires WellFormed(hs, TaskStep(hs, s, j))
    ensures Work(hs, TaskStep(hs, s, j)) < Work(hs, s)
  {
    assert PcOfTask(|hs|, j, s.tasks[j]);
    var m: nat := j - 1;
    ChannelStepWork(hs, s, TaskStep(hs, s, j), j, m, if PopStep(s.chans[m]).1.Got? then -1 else 0);
  }

  lemma PushStepWork<S, T>(hs: seq<HandlerFn<S, T>>, s: State<S, T>, j: nat)
    requires WellFormed(hs, s) && j < |s.tasks| && s.tasks[j].Pushing? && !s.tasks[j].asleep
    requires WellFormed(hs, TaskStep(hs, s, j))
    ensures Work(hs, TaskStep(hs, s, j)) < Work(hs, s)
  {
    assert PcOfTask(|hs|, j, s.tasks[j]);
    var accepted := PushStep(s.chans[j], s.tasks[j].value).1.Accepted?;
    ChannelStepWork(hs, s, TaskStep(hs, s, j), j, j, if accepted then 1 else 0);
  }

  lemma CloseStepWork<S, T>(hs: seq<HandlerFn<S, T>>, s: State<S, T>, j: nat)
    requires WellFormed(hs, s) && j < |s.tasks| && s.tasks[j].Closing?
    requires WellFormed(hs, TaskStep(hs, s, j))
    ensures Work(hs, TaskStep(hs, s, j)) < Work(hs, s)
  {
    assert PcOfTask(|hs|, j, s.tasks[j]);
    ChannelStepWork(hs, s, TaskStep(hs, s, j), j, j, 0);
  }

  lemma LocalStepWork<S, T>(hs: seq<HandlerFn<S, T>>, s: State<S, T>, j: nat)
    requires WellFormed(hs, s) && j < |s.tasks| && (s.tasks[j].Fetching? || s.tasks[j].Handling?)
    requires WellFormed(hs, TaskStep(hs, s, j))
    ensures Work(hs, TaskStep(hs, s, j)) < Work(hs, s)
  {
    var n, s' := |hs|, TaskStep(hs, s, j);
    assert PcOfTask(n, j, s.tasks[j]) && PcOfTask(n, j, s'.tasks[j]);
    TasksWorkUpdate(n, s.tasks, j, s'.tasks[j], 0);
    var w := ItemWork(n, 0) + 20;
    assert (|s.input| - 1) * w == |s.input| * w - w;
  }

  lemma TaskStepWork<S, T>(hs: seq<HandlerFn<S, T>>, s: State<S, T>, j: nat)
    requires Inv(hs, s) && j < |s.tasks| && TaskCanStep(s.tasks[j])
    ensures Inv(hs, TaskStep(hs, s, j)) && Work(hs, TaskStep(hs, s, j)) < Work(hs, s)
  {
    TaskStepKeepsInv(hs, s, j);
    match s.tasks[j]
    case Fetching => LocalStepWork(hs, s, j);
    case Handling(_) => LocalStepWork(hs, s, j);
    case Popping(_) => PopStepWork(hs, s, j);
    case Pushing(_, _) => PushStepWork(hs, s, j);
    case Closing => CloseStepWork(hs, s, j);
    case Notifying(_, _) => NotifyStepWork(hs, s, j);
  }

  /** How many steps a run of `n` handlers on `items` values can take at most. */
  function StepBound(n: nat, items: nat): nat {
    items * (30 * n + 40) + 31 * n + 61
  }

  lemma {:induction false} StartChansWork<T>(n: nat, chans: seq<Chan<T>>, k: nat)
    requires |chans| == n + 1 && k <= n + 1 && forall i :: 0 <= i < |chans| ==> chans[i].buf == []
    ensures ChansWork(n, chans, k) == 0
    decreases n + 1 - k
  {
    if k <= n {
      StartChansWork(n, chans, k + 1);
    }
  }

  lemma {:induction false} StartTasksWork<T>(n: nat, tasks: seq<TaskPc<T>>, k: nat)
    requires |tasks| == n + 2 && 0 < k <= n + 2
    requires forall j :: 0 <= j < |tasks| ==> PcOfTask(n, j, tasks[j]) && tasks[j] == InitialTask(j)
    ensures TasksWork(n, tasks, k) == 21 * (n + 2 - k)
    decreases n + 2 - k
  {
    if k < n + 2 {
      StartTasksWork(n, tasks, k + 1);
    }
  }

  lemma StartWork<S, T>(hs: seq<HandlerFn<S, T>>, memory: seq<S>, input: seq<T>, capacity: nat)
    requires |memory| == |hs| && WellFormed(hs, Start(hs, memory, input, capacity))
    ensures Work(hs, Start(hs, memory, input, capacity)) == StepBound(|hs|, |input|)
  {
    var s := Start(hs, memory, input, capacity);
    StartChansWork(|hs|, s.chans, 0);
    StartTasksWork(|hs|, s.tasks, 1);
  }

  lemma WorkIsNatural<S, T>(hs: seq<HandlerFn<S, T>>, s: State<S, T>)
    requires WellFormed(hs, s)
    ensures Work(hs, s) >= 0
  {
    assert DriverWork(|hs|, s.driver) >= 0;
    assert |s.input| * (ItemWork(|hs|, 0) + 20) >= 0;
  }

  // ---------------------------------------------------------------- whole runs

  /** A run: any interleaving of the tasks and the driver, from the start, of any length. */
  ghost predicate Behavior<S, T>(hs: seq<HandlerFn<S, T>>, memory: seq<S>, input: seq<T>, capacity: nat,
                                 states: seq<State<S, T>>) {
    && |states| > 0
    && states[0] == Start(hs, memory, input, capacity)
    && forall i {:trigger states[i]} :: 0 < i < |states| ==> Steps(hs, states[i - 1], states[i])
  }

  lemma StepFacts<S, T>(hs: seq<HandlerFn<S, T>>, s: State<S, T>, s': State<S, T>)
    requires Inv(hs, s) && Steps(hs, s, s')
    ensures Inv(hs, s') && Total(hs, s') == Total(hs, s) && Work(hs, s') < Work(hs, s)
  {
    if DriverCanStep(hs, s) && s' == DriverStep(hs, s) {
      DriverStepWork(hs, s);
      DriverStepKeepsTotal(hs, s);
    } else {
      var j: nat :| j < |s.tasks| && TaskCanStep(s.tasks[j]) && s' == TaskStep(hs, s, j);
      TaskStepWork(hs, s, j);
      TaskStepKeepsTotal(hs, s, j);
    }
  }

  /**
   In every reachable state of every interleaving: no push was refused, what has been consumed plus
   what is in flight is the handler composition of the input, and the steps taken fit the bound.
   */
  lemma {:induction false} EveryReachableState<S, T>(hs: seq<HandlerFn<S, T>>, memory: seq<S>, input: seq<T>,
                                                     capacity: nat, states: seq<State<S, T>>, i: nat)
    requires |memory| == |hs| && capacity >= 1
    requires Behavior(hs, memory, input, capacity, states) && i < |states|
    ensures Inv(hs, states[i])
    ensures forall j :: 0 <= j < |states[i].tasks| ==> !FailedOrFailing(states[i].tasks[j])
    ensures states[i].output + Flow(hs, states[i], 0, Held(states[i].tasks[0]) + states[i].input)
         == Compose(hs, memory, 0, input)
    ensures i + Work(hs, states[i]) <= StepBound(|hs|, |input|)
  {
    if i == 0 {
      StartInv(hs, memory, input, capacity);
      StartTotal(hs, memory, input, capacity);
      StartWork(hs, memory, input, capacity);
    } else {
      EveryReachableState(hs, memory, input, capacity, states, i - 1);
      StepFacts(hs, states[i - 1], states[i]);
    }
  }

  /** Every run is finite. */
  lemma RunsAreBounded<S, T>(hs: seq<HandlerFn<S, T>>, memory: seq<S>, input: seq<T>, capacity: nat,
                             states: seq<State<S, T>>)
    requires |memory| == |hs| && capacity >= 1 && Behavior(hs, memory, input, capacity, states)
    ensures |states| <= 1 + StepBound(|hs|, |input|)
  {
    EveryReachableState(hs, memory, input, capacity, states, |states| - 1);
    WorkIsNatural(hs, states[|states| - 1]);
  }

  /** A run that cannot be continued has finished every task, and its consumer saw the composition. */
  lemma MaximalRunsDeliver<S, T>(hs: seq<HandlerFn<S, T>>, memory: seq<S>, input: seq<T>, capacity: nat,
                                 states: seq<State<S, T>>)
    requires |memory| == |hs| && capacity >= 1 && Behavior(hs, memory, input, capacity, states)
    requires Stuck(hs, states[|states| - 1])
    ensures AllFinished(states[|states| - 1])
    ensures states[|states| - 1].output == Compose(hs, memory, 0, input)
  {
    var s := states[|states| - 1];
    EveryReachableState(hs, memory, input, capacity, states, |states| - 1);
    StuckMeansFinished(hs, s);
    FinishedFlow(hs, s, 0);
    assert Held(s.tasks[0]) + s.input == [];
    assert s.output + [] == s.output;
  }

  /**
   What a maximal run delivers, without the recursive specification: `streams[k]` is what handler `k` gets
   and `streams[k + 1]` what it passes on; `memories[k]` are its memories before every value, and `taken[k]`
   the numbers of the values it passes on, which are exactly those that it says so of.
   */
  lemma MaximalRunsInPlainTerms<S, T>(hs: seq<HandlerFn<S, T>>, memory: seq<S>, input: seq<T>, capacity: nat,
                                      states: seq<State<S, T>>)
      returns (streams: seq<seq<T>>, memories: seq<seq<S>>, taken: seq<seq<nat>>)
    requires |memory| == |hs| && capacity >= 1 && Behavior(hs, memory, input, capacity, states)
    requires Stuck(hs, states[|states| - 1])
    ensures |streams| == |hs| + 1 && streams[0] == input && streams[|hs|] == states[|states| - 1].output
    ensures |memories| == |taken| == |hs|
    ensures forall k :: 0 <= k < |hs| ==> |memories[k]| == |streams[k]| + 1 && memories[k][0] == memory[k]
    ensures forall k, i :: 0 <= k < |hs| && 0 <= i < |streams[k]| ==>
              memories[k][i + 1] == hs[k](memories[k][i], streams[k][i]).0
    ensures forall k :: 0 <= k < |hs| ==> |taken[k]| == |streams[k + 1]|
    ensures forall k, i, j :: 0 <= k < |hs| && 0 <= i < j < |taken[k]| ==> taken[k][i] < taken[k][j]
    ensures forall k, j :: 0 <= k < |hs| && 0 <= j < |taken[k]| ==> taken[k][j] < |streams[k]|
    ensures forall k, i :: 0 <= k < |hs| && 0 <= i < |streams[k]| ==>
              (i in taken[k] <==> hs[k](memories[k][i], streams[k][i]).1)
    ensures forall k, j :: 0 <= k < |hs| && 0 <= j < |streams[k + 1]| ==>
              streams[k + 1][j] == hs[k](memories[k][taken[k][j]], streams[k][taken[k][j]]).2
  {
    MaximalRunsDeliver(hs, memory, input, capacity, states);
    streams, memories, taken := ComposeIsStages(hs, memory, 0, input);
    InPlainTerms(hs, memory, input, states[|states| - 1].output, streams, memories, taken);
  }

  lemma InPlainTerms<S, T>(hs: seq<HandlerFn<S, T>>, memory: seq<S>, input: seq<T>, output: seq<T>,
                           streams: seq<seq<T>>, memories: seq<seq<S>>, taken: seq<seq<nat>>)
    requires |memory| == |hs| && Stages(hs, memory, 0, input, output, streams, memories, taken)
    ensures forall k :: 0 <= k < |hs| ==> |memories[k]| == |streams[k]| + 1 && memories[k][0] == memory[k]
    ensures forall k, i :: 0 <= k < |hs| && 0 <= i < |streams[k]| ==>
              memories[k][i + 1] == hs[k](memories[k][i], streams[k][i]).0
    ensures forall k :: 0 <= k < |hs| ==> |taken[k]| == |streams[k + 1]|
    ensures forall k, i, j :: 0 <= k < |hs| && 0 <= i < j < |taken[k]| ==> taken[k][i] < taken[k][j]
    ensures forall k, j :: 0 <= k < |hs| && 0 <= j < |taken[k]| ==> taken[k][j] < |streams[k]|
    ensures forall k, i :: 0 <= k < |hs| && 0 <= i < |streams[k]| ==>
              (i in taken[k] <==> hs[k](memories[k][i], streams[k][i]).1)
    ensures forall k, j :: 0 <= k < |hs| && 0 <= j < |streams[k + 1]| ==>
              streams[k + 1][j] == hs[k](memories[k][taken[k][j]], streams[k][taken[k][j]]).2
  {
    forall k | 0 <= k < |hs|
      ensures |memories[k]| == |streams[k]| + 1 && memories[k][0] == memory[k]
      ensures Remembers(hs[k], streams[k], memories[k]) && Passes(hs[k], streams[k], memories[k], taken[k])
      ensures Rewrites(hs[k], streams[k], memories[k], taken[k], streams[k + 1])
    {
      assert memory[0 + k] == memory[k] && Stage(hs[0 + k], streams[k], streams[k + 1], memories[k], taken[k]);
    }
    forall k, i | 0 <= k < |hs| && 0 <= i < |streams[k]|
      ensures memories[k][i + 1] == hs[k](memories[k][i], streams[k][i]).0
    {
      assert Remembers(hs[k], streams[k], memories[k]);
    }
  }

  /** Without handlers the consumer sees what was produced. */
  lemma NoHandler<S, T>(input: seq<T>, capacity: nat, states: seq<State<S, T>>)
    requires capacity >= 1 && Behavior([], [], input, capacity, states) && Stuck([], states[|states| - 1])
    ensures states[|states| - 1].output == input
  {
    MaximalRunsDeliver([], [], input, capacity, states);
  }

  /** A handler that passes everything on, rewritten with `f`, delivers `f` of every value in order. */
  lemma OneRewriter<S, T>(h: HandlerFn<S, T>, f: T -> T, m: S, input: seq<T>, capacity: nat, states: seq<State<S, T>>)
    requires forall m', x :: h(m', x).1 && h(m', x).2 == f(x)
    requires capacity >= 1 && Behavior([h], [m], input, capacity, states) && Stuck([h], states[|states| - 1])
    ensures var output := states[|states| - 1].output;
            |output| == |input| && forall i :: 0 <= i < |input| ==> output[i] == f(input[i])
  {
    var streams, memories, taken := MaximalRunsInPlainTerms([h], [m], input, capacity, states);
    assert forall i :: 0 <= i < |input| ==> i in taken[0];
    EverythingTaken(taken[0], |input|);
  }

  /** Increasing numbers below `n` that leave out none. */
  lemma EverythingTaken(taken: seq<nat>, n: nat)
    requires (forall i, j :: 0 <= i < j < |taken| ==> taken[i] < taken[j])
    requires (forall j :: 0 <= j < |taken| ==> taken[j] < n) && forall i :: 0 <= i < n ==> i in taken
    ensures |taken| == n && forall j :: 0 <= j < n ==> taken[j] == j
  {
    for k := 0 to n
      invariant k <= |taken| && forall j :: 0 <= j < k ==> taken[j] == j
    {
      assert k in taken;
      var q :| 0 <= q < |taken| && taken[q] == k;
      AtLeast(taken, q);
    }
    if |taken| > n {
      AtLeast(taken, n);
      assert false;
    }
  }

  lemma {:induction false} AtLeast(taken: seq<nat>, j: nat)
    requires (forall i, k :: 0 <= i < k < |taken| ==> taken[i] < taken[k]) && j < |taken|
    ensures taken[j] >= j
  {
    if j > 0 {
      AtLeast(taken, j - 1);
    }
  }

  /** A pure filter delivers exactly the accepted values, unchanged and in order. */
  lemma OneFilter<S, T>(h: HandlerFn<S, T>, p: T -> bool, m: S, input: seq<T>, capacity: nat, states: seq<State<S, T>>)
      returns (taken: seq<nat>)
    requires forall m', x :: h(m', x).1 == p(x) && h(m', x).2 == x
    requires capacity >= 1 && Behavior([h], [m], input, capacity, states) && Stuck([h], states[|states| - 1])
    ensures var output := states[|states| - 1].output;
            |taken| == |output| && forall j :: 0 <= j < |output| ==> taken[j] < |input| && output[j] == input[taken[j]]
    ensures forall i, j :: 0 <= i < j < |taken| ==> taken[i] < taken[j]
    ensures forall i :: 0 <= i < |input| ==> (i in taken <==> p(input[i]))
  {
    var streams, memories, numbers := MaximalRunsInPlainTerms([h], [m], input, capacity, states);
    taken := numbers[0];
  }

  /** Runs the pipeline under an arbitrary scheduler until nobody can move. */
  method RunPipelineImpl<S, T>(hs: seq<HandlerFn<S, T>>, memory: seq<S>, input: seq<T>, capacity: nat)
      returns (output: seq<T>, ghost streams: seq<seq<T>>, ghost memories: seq<seq<S>>, ghost taken: seq<seq<nat>>)
    requires |memory| == |hs| && capacity >= 1
    ensures output == Compose(hs, memory, 0, input)
    ensures |streams| == |hs| + 1 && streams[0] == input && streams[|hs|] == output
    ensures |memories| == |taken| == |hs|
    ensures forall k :: 0 <= k < |hs| ==> |memories[k]| == |streams[k]| + 1 && memories[k][0] == memory[k]
    ensures forall k, i :: 0 <= k < |hs| && 0 <= i < |streams[k]| ==>
              memories[k][i + 1] == hs[k](memories[k][i], streams[k][i]).0
    ensures forall k :: 0 <= k < |hs| ==> |taken[k]| == |streams[k + 1]|
    ensures forall k, i, j :: 0 <= k < |hs| && 0 <= i < j < |taken[k]| ==> taken[k][i] < taken[k][j]
    ensures forall k, j :: 0 <= k < |hs| && 0 <= j < |taken[k]| ==> taken[k][j] < |streams[k]|
    ensures forall k, i :: 0 <= k < |hs| && 0 <= i < |streams[k]| ==>
              (i in taken[k] <==> hs[k](memories[k][i], streams[k][i]).1)
    ensures forall k, j :: 0 <= k < |hs| && 0 <= j < |streams[k + 1]| ==>
              streams[k + 1][j] == hs[k](memories[k][taken[k][j]], streams[k][taken[k][j]]).2
  {
    var s := Start(hs, memory, input, capacity);
    StartInv(hs, memory, input, capacity);
    StartTotal(hs, memory, input, capacity);
    while DriverCanStep(hs, s) || exists j: nat :: j < |s.tasks| && TaskCanStep(s.tasks[j])
      invariant Inv(hs, s) && Total(hs, s) == Compose(hs, memory, 0, input)
      decreases Work(hs, s)
    {
      WorkIsNatural(hs, s);
      var before := s;
      if {
        case DriverCanStep(hs, s) => s := DriverStep(hs, s);
        case exists j: nat :: j < |s.tasks| && TaskCanStep(s.tasks[j]) =>
          var j: nat :| j < |s.tasks| && TaskCanStep(s.tasks[j]);
          s := TaskStep(hs, s, j);
      }
      StepFacts(hs, before, s);
      WorkIsNatural(hs, s);
    }
    StuckMeansFinished(hs, s);
    FinishedFlow(hs, s, 0);
    output := s.output;
    assert Held(s.tasks[0]) + s.input == [];
    assert s.output + [] == s.output;
    streams, memories, taken := ComposeIsStages(hs, memory, 0, input);
    InPlainTerms(hs, memory, input, output, streams, memories, taken);
  }
}
