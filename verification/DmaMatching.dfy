/**
 How DMA events find their spans: the NIC spanner's list of pending spans seen as one queue per
 parser, request id and address.
 */
module DmaMatching {
  import opened Wrappers

  datatype DmaKind = Issue | Execution | CompletionWrite | CompletionRead

  datatype Key = Key(parserIdent: nat, id: nat, addr: nat)

  datatype DmaEvent = DmaEvent(kind: DmaKind, key: Key, timestamp: nat)

  predicate IsCompletion(e: DmaEvent) { e.kind == CompletionWrite || e.kind == CompletionRead }

  /** The events of a span that was started by an issue. */
  datatype Dma = Dma(issue: DmaEvent, execution: Option<DmaEvent>, completion: Option<DmaEvent>) {
    function Key(): Key { issue.key }
  }

  /** When AddToSpan takes an event. */
  predicate Accepts(s: Dma, e: DmaEvent) {
    && e.key == s.Key() && s.completion.None?
    && if e.kind == Execution then s.execution.None? else IsCompletion(e) && s.execution.Some?
  }

  function Added(s: Dma, e: DmaEvent): Dma {
    if e.kind == Execution then s.(execution := Some(e)) else s.(completion := Some(e))
  }

  /** The first span that takes the event. */
  function FirstAccepting(all: seq<Dma>, e: DmaEvent, i: nat): (k: nat)
    requires i <= |all|
    ensures i <= k <= |all|
    decreases |all| - i
  {
    if i == |all| || Accepts(all[i], e) then i else FirstAccepting(all, e, i + 1)
  }

  lemma {:induction false} FirstFacts(all: seq<Dma>, e: DmaEvent, i: nat)
    requires i <= |all|
    ensures var k := FirstAccepting(all, e, i);
            (k < |all| ==> Accepts(all[k], e)) && forall j :: i <= j < k ==> !Accepts(all[j], e)
    decreases |all| - i
  {
    if i < |all| && !Accepts(all[i], e) {
      FirstFacts(all, e, i + 1);
    }
  }

  lemma FirstUnique(all: seq<Dma>, e: DmaEvent, k: nat)
    requires k <= |all| && (forall j :: 0 <= j < k ==> !Accepts(all[j], e)) && (k < |all| ==> Accepts(all[k], e))
    ensures FirstAccepting(all, e, 0) == k
  {
    FirstFacts(all, e, 0);
  }

  /** All spans ever started, in that order, after one more event. */
  function Handled(all: seq<Dma>, e: DmaEvent): seq<Dma> {
    var k := FirstAccepting(all, e, 0);
    if k < |all| then all[k := Added(all[k], e)]
    else if e.kind == Issue then all + [Dma(e, None, None)]
    else all
  }

  // ---------------------------------------------------------------- one queue per key

  function Issues(all: seq<Dma>, key: Key): seq<DmaEvent> {
    if all == [] then []
    else
      var s := all[|all| - 1];
      Issues(all[..|all| - 1], key) + if s.Key() == key then [s.issue] else []
  }

  function Executions(all: seq<Dma>, key: Key): seq<DmaEvent> {
    if all == [] then []
    else
      var s := all[|all| - 1];
      Executions(all[..|all| - 1], key) + if s.Key() == key && s.execution.Some? then [s.execution.value] else []
  }

  function Completions(all: seq<Dma>, key: Key): seq<DmaEvent> {
    if all == [] then []
    else
      var s := all[|all| - 1];
      Completions(all[..|all| - 1], key) + if s.Key() == key && s.completion.Some? then [s.completion.value] else []
  }

  /** Among the spans of a key, those with an execution come first, and among those the completed ones. */
  predicate Ordered(all: seq<Dma>) {
    && (forall i :: 0 <= i < |all| && all[i].completion.Some? ==> all[i].execution.Some?)
    && (forall i, j :: 0 <= i < j < |all| && all[i].Key() == all[j].Key() && all[j].execution.Some? ==>
          all[i].execution.Some?)
    && (forall i, j :: 0 <= i < j < |all| && all[i].Key() == all[j].Key() && all[j].completion.Some? ==>
          all[i].completion.Some?)
  }

  /** How many earlier spans have the same key. */
  function Rank(all: seq<Dma>, i: nat): nat
    requires i < |all|
  {
    |Issues(all[..i], all[i].Key())|
  }

  lemma OrderedPrefix(all: seq<Dma>, n: nat)
    requires Ordered(all) && n <= |all|
    ensures Ordered(all[..n])
  {
  }

  /** With `n` spans of a key executed, they are the first `n`. */
  lemma {:induction false} Counts(all: seq<Dma>, key: Key)
    requires Ordered(all)
    ensures |Completions(all, key)| <= |Executions(all, key)| <= |Issues(all, key)|
    ensures |Executions(all, key)| == |Issues(all, key)| <==>
            forall i :: 0 <= i < |all| && all[i].Key() == key ==> all[i].execution.Some?
    ensures |Completions(all, key)| == |Executions(all, key)| <==>
            forall i :: 0 <= i < |all| && all[i].Key() == key && all[i].execution.Some? ==> all[i].completion.Some?
  {
    if all != [] {
      OrderedPrefix(all, |all| - 1);
      Counts(all[..|all| - 1], key);
      var front, s := all[..|all| - 1], all[|all| - 1];
      assert forall i :: 0 <= i < |front| ==> front[i] == all[i];
    }
  }

  // ---------------------------------------------------------------- the specification

  datatype Queue = Queue(issues: seq<DmaEvent>, executions: seq<DmaEvent>, completions: seq<DmaEvent>)

  function QueueOf(all: seq<Dma>, key: Key): Queue {
    Queue(Issues(all, key), Executions(all, key), Completions(all, key))
  }

  /** Events without a partner are dropped. */
  function Served(q: Queue, e: DmaEvent): Queue {
    match e.kind
    case Issue => q.(issues := q.issues + [e])
    case Execution => if |q.executions| < |q.issues| then q.(executions := q.executions + [e]) else q
    case _ => if |q.completions| < |q.executions| then q.(completions := q.completions + [e]) else q
  }

  // ---------------------------------------------------------------- refinement

  lemma {:induction false} SetExecution(all: seq<Dma>, i: nat, e: DmaEvent, key: Key)
    requires i < |all| && all[i].execution.None?
    requires forall j :: i < j < |all| && all[j].Key() == all[i].Key() ==> all[j].execution.None?
    ensures var more := all[i := all[i].(execution := Some(e))];
            && Issues(more, key) == Issues(all, key) && Completions(more, key) == Completions(all, key)
            && Executions(more, key) == if key == all[i].Key() then Executions(all, key) + [e] else Executions(all, key)
  {
    var front, more := all[..|all| - 1], all[i := all[i].(execution := Some(e))];
    if i < |all| - 1 {
      SetExecution(front, i, e, key);
      assert more[..|all| - 1] == front[i := front[i].(execution := Some(e))];
    } else {
      assert more[..|all| - 1] == front;
    }
  }

  lemma {:induction false} SetCompletion(all: seq<Dma>, i: nat, e: DmaEvent, key: Key)
    requires i < |all| && all[i].completion.None?
    requires forall j :: i < j < |all| && all[j].Key() == all[i].Key() ==> all[j].completion.None?
    ensures var more := all[i := all[i].(completion := Some(e))];
            && Issues(more, key) == Issues(all, key) && Executions(more, key) == Executions(all, key)
            && Completions(more, key) == if key == all[i].Key() then Completions(all, key) + [e] else Completions(all, key)
  {
    var front, more := all[..|all| - 1], all[i := all[i].(completion := Some(e))];
    if i < |all| - 1 {
      SetCompletion(front, i, e, key);
      assert more[..|all| - 1] == front[i := front[i].(completion := Some(e))];
    } else {
      assert more[..|all| - 1] == front;
    }
  }

  lemma IssueServed(all: seq<Dma>, e: DmaEvent, key: Key)
    requires e.kind == Issue
    ensures Handled(all, e) == all + [Dma(e, None, None)]
    ensures QueueOf(Handled(all, e), key) == if key == e.key then Served(QueueOf(all, key), e) else QueueOf(all, key)
  {
    FirstFacts(all, e, 0);
    var more := all + [Dma(e, None, None)];
    assert more[..|all|] == all;
  }

  lemma ExecutionServed(all: seq<Dma>, e: DmaEvent, key: Key)
    requires Ordered(all) && e.kind == Execution
    ensures QueueOf(Handled(all, e), key) == if key == e.key then Served(QueueOf(all, key), e) else QueueOf(all, key)
  {
    FirstFacts(all, e, 0);
    Counts(all, e.key);
    var k := FirstAccepting(all, e, 0);
    if k < |all| {
      SetExecution(all, k, e, key);
    } else {
      forall i | 0 <= i < |all| && all[i].Key() == e.key ensures all[i].execution.Some? {
        assert !Accepts(all[i], e);
      }
    }
  }

  lemma CompletionServed(all: seq<Dma>, e: DmaEvent, key: Key)
    requires Ordered(all) && IsCompletion(e)
    ensures QueueOf(Handled(all, e), key) == if key == e.key then Served(QueueOf(all, key), e) else QueueOf(all, key)
  {
    FirstFacts(all, e, 0);
    Counts(all, e.key);
    var k := FirstAccepting(all, e, 0);
    if k < |all| {
      SetCompletion(all, k, e, key);
    } else {
      forall i | 0 <= i < |all| && all[i].Key() == e.key && all[i].execution.Some? ensures all[i].completion.Some? {
        assert !Accepts(all[i], e);
      }
    }
  }

  lemma StaysOrdered(all: seq<Dma>, e: DmaEvent)
    requires Ordered(all)
    ensures Ordered(Handled(all, e))
  {
    FirstFacts(all, e, 0);
    var k, more := FirstAccepting(all, e, 0), Handled(all, e);
    if k < |all| {
      forall j | 0 <= j < k && all[j].Key() == all[k].Key()
        ensures all[j].execution.Some? && (IsCompletion(e) ==> all[j].completion.Some?) {
        assert !Accepts(all[j], e);
      }
    }
  }

  /** The list of pending spans, searched from the front, is one queue per key. */
  lemma HandledServesQueue(all: seq<Dma>, e: DmaEvent, key: Key)
    requires Ordered(all)
    ensures Ordered(Handled(all, e))
    ensures QueueOf(Handled(all, e), key) == if key == e.key then Served(QueueOf(all, key), e) else QueueOf(all, key)
  {
    StaysOrdered(all, e);
    if e.kind == Issue {
      IssueServed(all, e, key);
    } else if e.kind == Execution {
      ExecutionServed(all, e, key);
    } else {
      CompletionServed(all, e, key);
    }
  }

  function AllHandled(events: seq<DmaEvent>): seq<Dma> {
    if events == [] then [] else Handled(AllHandled(events[..|events| - 1]), events[|events| - 1])
  }

  /** What the queue of one key does with a whole stream. */
  function AllServed(events: seq<DmaEvent>, key: Key): Queue {
    if events == [] then Queue([], [], [])
    else
      var q, e := AllServed(events[..|events| - 1], key), events[|events| - 1];
      if e.key == key then Served(q, e) else q
  }

  lemma {:induction false} EveryStream(events: seq<DmaEvent>, key: Key)
    ensures Ordered(AllHandled(events)) && QueueOf(AllHandled(events), key) == AllServed(events, key)
  {
    if events != [] {
      EveryStream(events[..|events| - 1], key);
      HandledServesQueue(AllHandled(events[..|events| - 1]), events[|events| - 1], key);
    }
  }

  /** The span with `Rank` k of its key holds the k-th issue, execution and completion of the key. */
  lemma {:induction false} RankJoins(all: seq<Dma>, i: nat)
    requires Ordered(all) && i < |all|
    ensures var q, k := QueueOf(all, all[i].Key()), Rank(all, i);
            && k < |q.issues| && q.issues[k] == all[i].issue
            && (all[i].execution.Some? <==> k < |q.executions|)
            && (all[i].execution.Some? ==> q.executions[k] == all[i].execution.value)
            && (all[i].completion.Some? <==> k < |q.completions|)
            && (all[i].completion.Some? ==> q.completions[k] == all[i].completion.value)
  {
    var front, key := all[..|all| - 1], all[i].Key();
    OrderedPrefix(all, |all| - 1);
    Counts(front, key);
    if i < |front| {
      RankJoins(front, i);
      assert all[..i] == front[..i];
    } else {
      assert all[..i] == front;
      LastJoins(all);
    }
  }

  lemma LastJoins(all: seq<Dma>)
    requires Ordered(all) && all != []
    ensures var front, s := all[..|all| - 1], all[|all| - 1]; var q := QueueOf(front, s.Key());
            && (s.execution.Some? ==> |q.executions| == |q.issues|)
            && (s.completion.Some? ==> |q.completions| == |q.executions|)
  {
    var front, s := all[..|all| - 1], all[|all| - 1];
    OrderedPrefix(all, |all| - 1);
    Counts(front, s.Key());
  }

  /** Span `i` is the `k`-th of its key, and holds the `k`-th issue, execution and completion that the
      queue of the key accepted. */
  predicate JoinsItsRank(events: seq<DmaEvent>, all: seq<Dma>, i: nat)
    requires i < |all|
  {
    var s, k := all[i], Rank(all, i);
    var q := AllServed(events, s.Key());
    && k < |q.issues| && q.issues[k] == s.issue
    && (s.execution == if k < |q.executions| then Some(q.executions[k]) else None)
    && (s.completion == if k < |q.completions| then Some(q.completions[k]) else None)
  }

  /** For any stream: the k-th accepted execution and completion of a key join its k-th issue. */
  lemma KthJoinsKth(events: seq<DmaEvent>, i: nat)
    requires i < |AllHandled(events)|
    ensures JoinsItsRank(events, AllHandled(events), i)
  {
    EveryStream(events, AllHandled(events)[i].Key());
    RankJoins(AllHandled(events), i);
  }
}
