/**
 The NIC spanner's handling of DMA events, on the tracer and on the queue of contexts for the host.
 */
module NicSpanner {
  import opened Wrappers
  import opened Spans
  import opened Contexts
  import opened DmaMatching
  import Tr = Tracer

  class NicDmaSpan {
    var events: seq<DmaEvent>
    var isPending: bool
    var dmaIssue: Option<DmaEvent>
    var nicDmaExecution: Option<DmaEvent>
    var nicDmaCompletion: Option<DmaEvent>
    var isRead: bool
    /** The same span as the tracer knows it. */
    var base: EventSpan?

    ghost predicate Valid()
      reads this
    {
      && (dmaIssue.None? ==> events == [] && nicDmaExecution.None?)
      && (dmaIssue.Some? ==> events != [] && events[0] == dmaIssue.value && dmaIssue.value.kind == Issue)
      && (nicDmaCompletion.Some? ==> nicDmaExecution.Some? && isRead == (nicDmaCompletion.value.kind == CompletionRead))
      && isPending == nicDmaCompletion.None?
    }

    ghost function State(): Dma
      requires Valid() && dmaIssue.Some?
      reads this
    {
      Dma(dmaIssue.value, nicDmaExecution, nicDmaCompletion)
    }

    constructor ()
      ensures Valid() && dmaIssue.None? && isPending && base == null
    {
      events, isPending, isRead, base := [], true, true, null;
      dmaIssue, nicDmaExecution, nicDmaCompletion := None, None, None;
    }

    method IsPotentialAdd(e: DmaEvent) returns (ok: bool)
      ensures ok == (isPending && (events == [] || events[0].key.parserIdent == e.key.parserIdent))
    {
      if !isPending {
        return false;
      }
      ok := events == [] || events[0].key.parserIdent == e.key.parserIdent;
    }

    /** A completion overwrites `isRead` before its id and address are compared. */
    method AddToSpan(e: DmaEvent) returns (ok: bool)
      requires Valid()
      modifies this
      ensures Valid()
      ensures old(dmaIssue).None? ==> ok == (e.kind == Issue) && dmaIssue == (if ok then Some(e) else None)
                                      && nicDmaExecution.None? && isPending
      ensures old(dmaIssue).Some? ==> dmaIssue == old(dmaIssue) && ok == Accepts(old(State()), e)
                                      && State() == if ok then Added(old(State()), e) else old(State())
      ensures old(dmaIssue).Some? ==>
        (ok <==>
           && e.key == old(dmaIssue).value.key && old(nicDmaCompletion).None?
           && if e.kind == Execution then old(nicDmaExecution).None?
              else (e.kind == CompletionWrite || e.kind == CompletionRead) && old(nicDmaExecution).Some?)
      ensures ok && e.kind == Execution ==> nicDmaExecution == Some(e)
      ensures ok && old(dmaIssue).Some? && e.kind != Execution ==> nicDmaCompletion == Some(e) && !isPending
      ensures events == (if ok then old(events) + [e] else old(events)) && base == old(base)
    {
      var potential := IsPotentialAdd(e);
      if !potential {
        return false;
      }
      match e.kind {
      case Issue =>
        if dmaIssue.Some? {
          return false;
        }
        dmaIssue := Some(e);
      case Execution =>
        if dmaIssue.None? || nicDmaExecution.Some? {
          return false;
        }
        if dmaIssue.value.key.id != e.key.id || dmaIssue.value.key.addr != e.key.addr {
          return false;
        }
        nicDmaExecution := Some(e);
      case _ =>
        if dmaIssue.None? || nicDmaExecution.None? || nicDmaCompletion.Some? {
          return false;
        }
        isRead := e.kind == CompletionRead;
        if dmaIssue.value.key.id != e.key.id || dmaIssue.value.key.addr != e.key.addr {
          return false;
        }
        nicDmaCompletion := Some(e);
        isPending := false;
      }
      events := events + [e];
      ok := true;
    }
  }

  // ---------------------------------------------------------------- the list of pending spans

  /** The incomplete spans with what the tracer knows them as, in the order in which they were started. */
  function Incomplete(states: seq<Dma>, spans: seq<EventSpan>): (r: seq<(Dma, EventSpan)>)
    requires |states| == |spans|
  {
    if states == [] then []
    else
      var n := |states| - 1;
      Incomplete(states[..n], spans[..n]) + IfOpen(states[n], spans[n])
  }

  function IfOpen(s: Dma, base: EventSpan): seq<(Dma, EventSpan)> { if s.completion.None? then [(s, base)] else [] }

  /** Where the `i`-th incomplete span is among all spans. */
  function Position(states: seq<Dma>, spans: seq<EventSpan>, i: nat): nat
    requires |states| == |spans| && i < |Incomplete(states, spans)|
  {
    var n := |states| - 1;
    if i < |Incomplete(states[..n], spans[..n])| then Position(states[..n], spans[..n], i) else n
  }

  lemma {:induction false} PositionFacts(states: seq<Dma>, spans: seq<EventSpan>, i: nat)
    requires |states| == |spans| && i < |Incomplete(states, spans)|
    ensures var k := Position(states, spans, i);
            k < |states| && Incomplete(states, spans)[i] == (states[k], spans[k]) && states[k].completion.None?
  {
    var n := |states| - 1;
    if i < |Incomplete(states[..n], spans[..n])| {
      PositionFacts(states[..n], spans[..n], i);
    }
  }

  /** A list after its `i`-th entry changed or, if `gone`, left. */
  function After<T>(r: seq<T>, i: nat, t: T, gone: bool): seq<T>
    requires i < |r|
  {
    if gone then r[..i] + r[i + 1..] else r[i := t]
  }

  lemma AfterAt<T>(r: seq<T>, i: nat, t: T, gone: bool)
    requires i < |r|
    ensures |After(r, i, t, gone)| == if gone then |r| - 1 else |r|
    ensures forall j :: 0 <= j < |After(r, i, t, gone)| ==>
              After(r, i, t, gone)[j] == if j < i then r[j] else if gone then r[j + 1] else if j == i then t else r[j]
  {
  }

  predicate Distinct(list: seq<NicDmaSpan>) { forall i, j :: 0 <= i < j < |list| ==> list[i] != list[j] }

  lemma AfterDistinct(list: seq<NicDmaSpan>, i: nat, gone: bool)
    requires i < |list| && Distinct(list)
    ensures Distinct(After(list, i, list[i], gone))
  {
  }

  lemma AfterInFront<T>(r: seq<T>, more: seq<T>, i: nat, t: T, gone: bool)
    requires i < |r|
    ensures After(r + more, i, t, gone) == After(r, i, t, gone) + more
  {
  }

  lemma AfterLast<T>(r: seq<T>, last: T, t: T, gone: bool)
    ensures After(r + [last], |r|, t, gone) == r + if gone then [] else [t]
  {
  }

  /** The `i`-th incomplete span after a change: it stays in its place or, once complete, leaves. */
  lemma {:induction false} ChangeOne(states: seq<Dma>, spans: seq<EventSpan>, i: nat, s: Dma)
    requires |states| == |spans| && i < |Incomplete(states, spans)|
    ensures Position(states, spans, i) < |states|
    ensures var r := Incomplete(states, spans);
            Incomplete(states[Position(states, spans, i) := s], spans) == After(r, i, (s, r[i].1), s.completion.Some?)
  {
    PositionFacts(states, spans, i);
    var n, k := |states| - 1, Position(states, spans, i);
    var front, more := Incomplete(states[..n], spans[..n]), states[k := s];
    if i < |front| {
      ChangeOne(states[..n], spans[..n], i, s);
      assert more[..n] == states[..n][k := s];
      AfterInFront(front, IfOpen(states[n], spans[n]), i, (s, front[i].1), s.completion.Some?);
    } else {
      assert more[..n] == states[..n];
      AfterLast(front, (states[n], spans[n]), (s, spans[n]), s.completion.Some?);
    }
  }

  lemma StartOne(states: seq<Dma>, spans: seq<EventSpan>, s: Dma, base: EventSpan)
    requires |states| == |spans| && s.completion.None?
    ensures Incomplete(states + [s], spans + [base]) == Incomplete(states, spans) + IfOpen(s, base)
  {
    assert (states + [s])[..|states|] == states && (spans + [base])[..|states|] == spans;
  }

  /** If no earlier pending span takes the event, no earlier span does. */
  lemma {:induction false} OthersRefuse(states: seq<Dma>, spans: seq<EventSpan>, e: DmaEvent, i: nat)
    requires |states| == |spans| && i <= |Incomplete(states, spans)|
    requires forall j :: 0 <= j < i ==> !Accepts(Incomplete(states, spans)[j].0, e)
    ensures var k := if i < |Incomplete(states, spans)| then Position(states, spans, i) else |states|;
            k <= |states| && forall j :: 0 <= j < k ==> !Accepts(states[j], e)
  {
    if states != [] {
      var front := states[..|states| - 1];
      var r := Incomplete(front, spans[..|states| - 1]);
      var n := if i <= |r| then i else |r|;
      assert forall j :: 0 <= j < n ==> Incomplete(states, spans)[j] == r[j];
      OthersRefuse(front, spans[..|states| - 1], e, n);
      assert forall j :: 0 <= j < |front| ==> front[j] == states[j];
      if i > |r| {
        assert !Accepts(Incomplete(states, spans)[|r|].0, e);
      }
    }
  }

  method NewDmaSpan(e: DmaEvent) returns (span: NicDmaSpan, added: bool)
    requires e.kind == Issue
    ensures added && fresh(span) && span.Valid() && span.dmaIssue.Some? && span.State() == Dma(e, None, None)
  {
    span := new NicDmaSpan();
    added := span.AddToSpan(e);
  }

  // ---------------------------------------------------------------- what the tracer and the host get to know

  /** A context that was pushed to the host for the span with the number. */
  datatype Announced = Announced(number: nat, context: Context)

  /** Each span is pushed once, when its execution is accepted. */
  ghost predicate PushedOnce(pushed: seq<Announced>, states: seq<Dma>) {
    && (forall i, j :: 0 <= i < j < |pushed| ==> pushed[i].number != pushed[j].number)
    && (forall i :: 0 <= i < |pushed| ==> pushed[i].number < |states| && states[pushed[i].number].execution.Some?)
    && (forall k :: 0 <= k < |states| && states[k].execution.Some? ==> IsPushed(pushed, k))
  }

  predicate IsPushed(pushed: seq<Announced>, k: nat) { exists i :: 0 <= i < |pushed| && pushed[i].number == k }

  /** A context names the span that it was pushed for as the parent. */
  predicate NamesItsSpan(pushed: seq<Announced>, spans: seq<EventSpan>) {
    forall i :: 0 <= i < |pushed| ==>
      && pushed[i].number < |spans| && pushed[i].context.parentId == spans[pushed[i].number].id
      && pushed[i].context.parentStartTs == spans[pushed[i].number].startingTs
  }

  lemma OnePushMore(pushed: seq<Announced>, states: seq<Dma>, k: nat, e: DmaEvent, context: Context)
    requires PushedOnce(pushed, states) && k < |states| && Accepts(states[k], e)
    ensures PushedOnce(if e.kind == Execution then pushed + [Announced(k, context)] else pushed, states[k := Added(states[k], e)])
  {
    var more := if e.kind == Execution then pushed + [Announced(k, context)] else pushed;
    var after := states[k := Added(states[k], e)];
    assert more != pushed ==> more[|pushed|].number == k;
    forall i | 0 <= i < |after| && after[i].execution.Some? ensures IsPushed(more, i) {
      if i != k || e.kind != Execution {
        var q :| 0 <= q < |pushed| && pushed[q].number == i;
        assert more[q].number == i;
      }
    }
  }

  lemma NoPushMore(pushed: seq<Announced>, states: seq<Dma>, e: DmaEvent)
    requires PushedOnce(pushed, states)
    ensures PushedOnce(pushed, states + [Dma(e, None, None)])
  {
  }

  /** The spans have different ids, and exactly the complete ones are finished. */
  predicate DoneMatches(spans: seq<EventSpan>, done: map<nat, nat>, states: seq<Dma>) {
    && |spans| == |states|
    && (forall k :: 0 <= k < |spans| ==> (spans[k].id in done <==> states[k].completion.Some?))
    && (forall j, k :: 0 <= j < k < |spans| ==> spans[j].id != spans[k].id)
  }

  lemma OneMoreDone(spans: seq<EventSpan>, done: map<nat, nat>, states: seq<Dma>, k: nat, e: DmaEvent, parent: nat)
    requires DoneMatches(spans, done, states) && k < |states| && Accepts(states[k], e)
    ensures spans[k].id !in done
    ensures DoneMatches(spans, if IsCompletion(e) then done[spans[k].id := parent] else done, states[k := Added(states[k], e)])
  {
  }

  lemma OneMoreSpan(spans: seq<EventSpan>, done: map<nat, nat>, states: seq<Dma>, base: EventSpan, e: DmaEvent)
    requires DoneMatches(spans, done, states) && base.id !in done
    requires forall k :: 0 <= k < |spans| ==> spans[k].id != base.id
    ensures DoneMatches(spans + [base], done, states + [Dma(e, None, None)])
  {
  }

  /** What the spanner has to do with: the finished and the started spans of the tracer, the queue to the
      host, the numbers of the spans that were pushed into it, and the spanner's own spans. */
  datatype World = World(done: map<nat, nat>, started: set<EventSpan>, items: seq<Context>, pushed: seq<Announced>,
                         spans: seq<EventSpan>)

  /** After span `k` took the event: a completion finishes it below its parent, an execution is announced
      to the host. */
  function Taken(w: World, k: nat, e: DmaEvent, parent: nat, context: Context): World
    requires k < |w.spans|
  {
    if IsCompletion(e) then w.(done := w.done[w.spans[k].id := parent])
    else w.(items := w.items + [context], pushed := w.pushed + [Announced(k, context)])
  }

  function Grown(w: World, base: EventSpan): World { w.(started := w.started + {base}, spans := w.spans + [base]) }

  /** What the tracer and the host know of the spans with these events. */
  ghost predicate Known(w: World, states: seq<Dma>) {
    && PushedOnce(w.pushed, states) && NamesItsSpan(w.pushed, w.spans) && DoneMatches(w.spans, w.done, states)
    && forall k :: 0 <= k < |w.spans| ==> w.spans[k] in w.started
  }

  lemma NotDoneYet(w: World, states: seq<Dma>, k: nat, e: DmaEvent)
    requires Known(w, states) && k < |states| && Accepts(states[k], e)
    ensures k < |w.spans| && w.spans[k].id !in w.done && w.spans[k] in w.started && e.kind != Issue
  {
  }

  lemma TakenIsKnown(w: World, states: seq<Dma>, k: nat, e: DmaEvent, parent: nat, context: Context)
    requires Known(w, states) && k < |states| && Accepts(states[k], e)
    requires context.parentId == w.spans[k].id && context.parentStartTs == w.spans[k].startingTs
    ensures Known(Taken(w, k, e, parent, context), states[k := Added(states[k], e)])
  {
    OnePushMore(w.pushed, states, k, e, context);
    OneMoreDone(w.spans, w.done, states, k, e, parent);
  }

  /** Only an execution is announced. */
  lemma TakenInPlainTerms(w: World, now: World, states: seq<Dma>, k: nat, e: DmaEvent, parent: nat, context: Context)
    requires k < |w.spans| && k == FirstAccepting(states, e, 0) < |states| && now == Taken(w, k, e, parent, context)
    ensures if e.kind == Execution then now.items == w.items + [context] && now.pushed == w.pushed + [Announced(k, context)]
            else now.items == w.items && now.pushed == w.pushed
  {
    FirstFacts(states, e, 0);
  }

  /** What was announced since is what was appended to the queue. */
  predicate Sent(w: World, now: World) {
    && w.pushed <= now.pushed && w.items <= now.items
    && |now.items| - |w.items| == |now.pushed| - |w.pushed|
    && forall i :: |w.items| <= i < |now.items| ==> now.items[i] == now.pushed[|w.pushed| + i - |w.items|].context
  }

  lemma NothingPushed(w: World)
    requires Known(w, [])
    ensures w.pushed == []
  {
    assert w.pushed != [] ==> w.pushed[0].number < |w.spans|;
  }

  lemma SentThenSent(w: World, mid: World, now: World)
    requires Sent(w, mid) && Sent(mid, now)
    ensures Sent(w, now)
  {
    forall i | |w.items| <= i < |now.items| ensures now.items[i] == now.pushed[|w.pushed| + i - |w.items|].context {
      if i < |mid.items| {
        assert mid.items[i] == mid.pushed[|w.pushed| + i - |w.items|].context;
      }
    }
  }

  ghost predicate IsNew(base: EventSpan, w: World) {
    base.id !in w.done && forall s :: s in w.started ==> s.id != base.id
  }

  lemma GrownIsKnown(w: World, states: seq<Dma>, base: EventSpan, e: DmaEvent)
    requires Known(w, states) && IsNew(base, w)
    ensures Known(Grown(w, base), states + [Dma(e, None, None)])
  {
    NoPushMore(w.pushed, states, e);
    OneMoreSpan(w.spans, w.done, states, base, e);
  }

  /** The context that a span passes on. */
  ghost function PassOn(span: EventSpan): Context
    reads span, span.context
  {
    Context(span.context.traceId, span.id, span.startingTs)
  }

  ghost predicate Shows(span: NicDmaSpan, s: (Dma, EventSpan))
    reads span
  {
    span.Valid() && span.dmaIssue.Some? && span.State() == s.0 && span.base == s.1
  }

  ghost predicate AllShow(list: seq<NicDmaSpan>, r: seq<(Dma, EventSpan)>)
    reads list
  {
    |list| == |r| && forall i :: 0 <= i < |list| ==> Shows(list[i], r[i])
  }

  /** If the `i`-th of the spans shows `s`, it may also leave the list. */
  lemma AllShowAfter(list: seq<NicDmaSpan>, r: seq<(Dma, EventSpan)>, i: nat, s: (Dma, EventSpan), gone: bool)
    requires i < |r| && AllShow(list, r[i := s])
    ensures AllShow(After(list, i, list[i], gone), After(r, i, s, gone))
  {
    AfterAt(list, i, list[i], gone);
    AfterAt(r, i, s, gone);
  }

  class NicSpanner {
    const tracer: Tr.Tracer
    const toHostQueue: ContextQueue
    var pendingNicDmaSpans: seq<NicDmaSpan>
    /** The last MMIO write that was seen. */
    var lastCausing: EventSpan?
    /** All spans in the order they were started: their events, and the spans as the tracer knows them. */
    ghost var states: seq<Dma>
    ghost var spans: seq<EventSpan>
    /** What was pushed to the host, in order. */
    ghost var pushed: seq<Announced>

    constructor (tracer: Tr.Tracer, queue: ContextQueue, lastCausing: EventSpan?)
      ensures this.tracer == tracer && toHostQueue == queue && this.lastCausing == lastCausing
      ensures pendingNicDmaSpans == [] && PendingOk() && Known(Now(), states) && states == []
    {
      this.tracer, toHostQueue, this.lastCausing := tracer, queue, lastCausing;
      pendingNicDmaSpans, states, spans, pushed := [], [], [], [];
    }

    ghost function Now(): World
      reads this`spans, this`pushed, tracer`done, tracer`started, toHostQueue`items
    {
      World(tracer.done, tracer.started, toHostQueue.items, pushed, spans)
    }

    /** The pending spans are different objects, and they are the incomplete ones. */
    ghost predicate PendingOk()
      reads this`pendingNicDmaSpans, this`states, this`spans, pendingNicDmaSpans
    {
      && |spans| == |states| && Distinct(pendingNicDmaSpans)
      && AllShow(pendingNicDmaSpans, Incomplete(states, spans))
    }

    /** The `i`-th pending span changed; once complete it leaves the list. */
    method Settle(i: nat, complete: bool, ghost s: Dma)
      requires |spans| == |states| && i < |Incomplete(states, spans)| && Distinct(pendingNicDmaSpans)
      requires AllShow(pendingNicDmaSpans, Incomplete(states, spans)[i := (s, Incomplete(states, spans)[i].1)])
      requires complete == s.completion.Some? && Position(states, spans, i) < |states|
      modifies this`pendingNicDmaSpans, this`states
      ensures PendingOk() && states == old(states)[old(Position(states, spans, i)) := s]
      ensures pendingNicDmaSpans == After(old(pendingNicDmaSpans), i, old(pendingNicDmaSpans)[i], complete)
    {
      ghost var r := Incomplete(states, spans);
      ChangeOne(states, spans, i, s);
      AfterDistinct(pendingNicDmaSpans, i, complete);
      AllShowAfter(pendingNicDmaSpans, r, i, (s, r[i].1), complete);
      assert !complete ==> pendingNicDmaSpans[i := pendingNicDmaSpans[i]] == pendingNicDmaSpans;
      if complete {
        pendingNicDmaSpans := pendingNicDmaSpans[..i] + pendingNicDmaSpans[i + 1..];
      }
      states := states[Position(states, spans, i) := s];
    }

    /** One turn of the loop below: the `i`-th pending span. */
    method Turn(e: DmaEvent, i: nat) returns (added: bool)
      requires PendingOk() && i < |pendingNicDmaSpans| && Position(states, spans, i) < |states|
      requires Incomplete(states, spans)[i].0 == states[Position(states, spans, i)]
      modifies this`pendingNicDmaSpans, this`states, pendingNicDmaSpans[i]
      ensures PendingOk() && added == Accepts(old(Incomplete(states, spans)[i].0), e)
      ensures states == if added then old(states)[old(Position(states, spans, i)) := Added(old(Incomplete(states, spans)[i].0), e)]
                        else old(states)
      ensures !added ==> pendingNicDmaSpans == old(pendingNicDmaSpans)
      ensures added ==> Shows(old(pendingNicDmaSpans)[i],
                              (Added(old(Incomplete(states, spans)[i].0), e), old(Incomplete(states, spans)[i].1)))
      ensures forall p :: p in pendingNicDmaSpans ==> p in old(pendingNicDmaSpans)
    {
      var span := pendingNicDmaSpans[i];
      assert Shows(span, Incomplete(states, spans)[i]);
      added := span.AddToSpan(e);
      ghost var r := Incomplete(states, spans);
      assert AllShow(pendingNicDmaSpans, r[i := (span.State(), r[i].1)]);
      if added {
        Settle(i, !span.isPending, span.State());
      }
    }

    /** Offers the event to the pending spans in turn, up to the first that takes it. */
    method IterateAddErase(e: DmaEvent) returns (found: Option<NicDmaSpan>)
      requires PendingOk()
      modifies this`pendingNicDmaSpans, this`states, pendingNicDmaSpans
      ensures PendingOk()
      ensures var k := FirstAccepting(old(states), e, 0);
              && (found.Some? <==> k < |old(states)|)
              && states == (if k < |old(states)| then old(states)[k := Added(old(states)[k], e)] else old(states))
              && (found.Some? ==> Shows(found.value, (states[k], spans[k])))
      ensures forall p :: p in pendingNicDmaSpans ==> p in old(pendingNicDmaSpans)
    {
      ghost var before := states;
      var i := 0;
      while i < |pendingNicDmaSpans|
        invariant PendingOk() && i <= |pendingNicDmaSpans| && states == before
        invariant pendingNicDmaSpans == old(pendingNicDmaSpans)
        invariant forall j :: 0 <= j < i ==> !Accepts(Incomplete(before, spans)[j].0, e)
      {
        var pendingSpan := pendingNicDmaSpans[i];
        OthersRefuse(before, spans, e, i);
        PositionFacts(before, spans, i);
        var added := Turn(e, i);
        if added {
          FirstUnique(before, e, Position(before, spans, i));
          return Some(pendingSpan);
        }
        i := i + 1;
      }
      OthersRefuse(before, spans, e, i);
      FirstUnique(before, e, |before|);
      found := None;
    }

    // -------------------------------------------------------------- the tracer and the queue

    /** Announces span `k` to the host. */
    method PushToHost(span: EventSpan, ghost k: nat) returns (o: Outcome)
      requires tracer.Valid() && span in tracer.started && AllValid(toHostQueue.items)
      modifies this`pushed, toHostQueue`items
      ensures o == if toHostQueue.closed then Fail else Pass
      ensures tracer.Valid() && AllValid(toHostQueue.items)
      ensures o == Pass ==>
        Now() == old(Now()).(items := old(toHostQueue.items) + [PassOn(span)],
                             pushed := old(pushed) + [Announced(k, PassOn(span))])
    {
      tracer.SpanFacts(span);
      tracer.SpansAreOld();
      o := PushPropagateContext(toHostQueue, span);
      pushed := pushed + [Announced(k, PassOn(span))];
    }

    method FinishSpan(span: EventSpan) returns (o: Outcome)
      requires tracer.Valid() && span in tracer.started && span.id !in tracer.done
      modifies tracer, tracer.exporter
      ensures o == Pass && tracer.Valid() && tracer.OnlyNew()
      ensures Now() == old(Now()).(done := old(tracer.done)[span.id := span.Parent()])
    {
      o := tracer.MarkSpanAsDone(span);
    }

    /** What follows an event that span `k` took; throws if the queue to the host is closed. */
    method Report(complete: bool, span: EventSpan, e: DmaEvent, ghost k: nat) returns (o: Outcome)
      requires tracer.Valid() && AllValid(toHostQueue.items) && span in tracer.started && span.id !in tracer.done
      requires k < |spans| && span == spans[k] && complete == IsCompletion(e) && e.kind != Issue
      modifies this`pushed, toHostQueue`items, tracer, tracer.exporter
      ensures o == if e.kind == Execution && toHostQueue.closed then Fail else Pass
      ensures o == Pass ==> tracer.Valid() && AllValid(toHostQueue.items) && tracer.OnlyNew()
      ensures o == Pass ==> Now() == Taken(old(Now()), k, e, span.Parent(), PassOn(span))
    {
      o := Pass;
      if complete {
        o := FinishSpan(span);
      } else if e.kind == Execution {
        o := PushToHost(span, k);
      }
    }

    /** A new span below the last causing one. */
    twostate predicate Opened(new base: EventSpan, e: DmaEvent)
      reads this`lastCausing, base, base.context
    {
      && fresh(base) && fresh(base.context) && base.startingTs == e.timestamp
      && lastCausing != null && base.Parent() == lastCausing.id
    }

    /** The tracer's part of a new span. */
    method OpenBase(e: DmaEvent, added: bool) returns (base: EventSpan)
      requires tracer.Valid() && lastCausing != null && lastCausing in tracer.started && added
      modifies tracer`nextSpanId, tracer`started, tracer`run, tracer.traces.Values
      ensures tracer.Valid() && tracer.started == old(tracer.started) + {base} && Opened(base, e)
      ensures base.id !in tracer.done && forall s :: s in old(tracer.started) ==> s.id != base.id
    {
      var o;
      o, base := tracer.StartSpanByParent(lastCausing, e.timestamp, added);
      tracer.SpanFacts(base);
    }

    /** A span with its issue as first event, and what the tracer knows it as. */
    method OpenBoth(e: DmaEvent) returns (span: NicDmaSpan, base: EventSpan)
      requires tracer.Valid() && lastCausing != null && lastCausing in tracer.started && e.kind == Issue
      modifies tracer`nextSpanId, tracer`started, tracer`run, tracer.traces.Values
      ensures fresh(span) && span.Valid() && span.dmaIssue.Some? && span.State() == Dma(e, None, None)
      ensures tracer.Valid() && tracer.started == old(tracer.started) + {base} && Opened(base, e)
      ensures base.id !in tracer.done && forall s :: s in old(tracer.started) ==> s.id != base.id
    {
      var added;
      span, added := NewDmaSpan(e);
      base := OpenBase(e, added);
    }

    method OpenSpan(e: DmaEvent) returns (span: NicDmaSpan, base: EventSpan)
      requires tracer.Valid() && lastCausing != null && lastCausing in tracer.started && e.kind == Issue
      modifies tracer`nextSpanId, tracer`started, tracer`run, tracer.traces.Values
      ensures fresh(span) && Shows(span, (Dma(e, None, None), base))
      ensures tracer.Valid() && tracer.started == old(tracer.started) + {base} && Opened(base, e)
      ensures base.id !in tracer.done && forall s :: s in old(tracer.started) ==> s.id != base.id
    {
      span, base := OpenBoth(e);
      span.base := base;
    }

    /** The new span joins the pending ones. */
    method Enlist(span: NicDmaSpan, base: EventSpan, e: DmaEvent)
      requires tracer.Valid() && PendingOk() && Shows(span, (Dma(e, None, None), base)) && span !in pendingNicDmaSpans
      modifies this`pendingNicDmaSpans, this`states, this`spans
      ensures tracer.Valid() && PendingOk() && pendingNicDmaSpans == old(pendingNicDmaSpans) + [span]
      ensures states == old(states) + [Dma(e, None, None)] && Now() == old(Now()).(spans := old(spans) + [base])
    {
      StartOne(states, spans, Dma(e, None, None), base);
      pendingNicDmaSpans := pendingNicDmaSpans + [span];
      states, spans := states + [Dma(e, None, None)], spans + [base];
    }

    /** The pending spans are not concerned yet. */
    method OpenNext(e: DmaEvent) returns (span: NicDmaSpan, base: EventSpan)
      requires tracer.Valid() && lastCausing != null && lastCausing in tracer.started && e.kind == Issue && PendingOk()
      modifies tracer`nextSpanId, tracer`started, tracer`run, tracer.traces.Values
      ensures fresh(span) && Shows(span, (Dma(e, None, None), base)) && PendingOk()
      ensures tracer.Valid() && Now() == old(Now()).(started := old(tracer.started) + {base}) && Opened(base, e)
      ensures base.id !in tracer.done && forall s :: s in old(tracer.started) ==> s.id != base.id
    {
      span, base := OpenSpan(e);
    }

    method OpenDma(e: DmaEvent) returns (span: NicDmaSpan, base: EventSpan)
      requires tracer.Valid() && lastCausing != null && lastCausing in tracer.started && e.kind == Issue && PendingOk()
      modifies this`pendingNicDmaSpans, this`states, this`spans,
               tracer`nextSpanId, tracer`started, tracer`run, tracer.traces.Values
      ensures tracer.Valid() && Now() == Grown(old(Now()), base) && Opened(base, e)
      ensures base.id !in tracer.done && forall s :: s in old(tracer.started) ==> s.id != base.id
      ensures PendingOk() && states == old(states) + [Dma(e, None, None)]
      ensures fresh(span) && pendingNicDmaSpans == old(pendingNicDmaSpans) + [span]
    {
      span, base := OpenNext(e);
      Enlist(span, base, e);
    }

    // -------------------------------------------------------------- the handler

    /** The events taken by the pending spans do not concern the tracer. */
    method Offer(e: DmaEvent) returns (found: Option<NicDmaSpan>)
      requires tracer.Valid() && PendingOk()
      modifies this`pendingNicDmaSpans, this`states, pendingNicDmaSpans
      ensures tracer.Valid() && PendingOk() && Now() == old(Now())
      ensures var k := FirstAccepting(old(states), e, 0);
              && (found.Some? <==> k < |old(states)|)
              && states == (if k < |old(states)| then old(states)[k := Added(old(states)[k], e)] else old(states))
              && (found.Some? ==> Shows(found.value, (states[k], spans[k])))
      ensures forall p :: p in pendingNicDmaSpans ==> p in old(pendingNicDmaSpans)
    {
      found := IterateAddErase(e);
    }

    /** The branch of HandelDma for an event that span `k` took. */
    method HandelTaken(taker: NicDmaSpan, e: DmaEvent, ghost k: nat, ghost before: seq<Dma>) returns (o: Outcome)
      requires tracer.Valid() && AllValid(toHostQueue.items) && Known(Now(), before) && PendingOk()
      requires k < |before| && Accepts(before[k], e) && states == before[k := Added(before[k], e)]
      requires Shows(taker, (states[k], spans[k]))
      modifies this`pushed, toHostQueue`items, tracer, tracer.exporter
      ensures o == if e.kind == Execution && toHostQueue.closed then Fail else Pass
      ensures o == Pass ==> tracer.Valid() && AllValid(toHostQueue.items) && tracer.OnlyNew() && PendingOk()
      ensures o == Pass ==> Now() == Taken(old(Now()), k, e, spans[k].Parent(), PassOn(spans[k]))
    {
      NotDoneYet(Now(), before, k, e);
      o := Report(!taker.isPending, taker.base, e, k);
    }

    /** The branch of HandelDma for an event that no span took. */
    method HandelUntaken(e: DmaEvent) returns (o: Outcome)
      requires tracer.Valid() && PendingOk() && (lastCausing != null ==> lastCausing in tracer.started)
      modifies this`pendingNicDmaSpans, this`states, this`spans,
               tracer`nextSpanId, tracer`started, tracer`run, tracer.traces.Values
      ensures o == if e.kind == Issue && lastCausing == null then Fail else Pass
      ensures o == Pass ==> tracer.Valid() && PendingOk() && tracer.OnlyNew()
      ensures o == Pass ==> states == if e.kind == Issue then old(states) + [Dma(e, None, None)] else old(states)
      ensures o == Pass ==> if e.kind == Issue then spans != [] && IsNewest(spans[|spans| - 1], old(Now()), e)
                            else Now() == old(Now())
      ensures forall p :: p in pendingNicDmaSpans ==> p in old(pendingNicDmaSpans) || fresh(p)
    {
      o := Pass;
      if e.kind == Issue {
        if lastCausing == null {
          return Fail;
        }
        var span, base := OpenDma(e);
      }
    }

    /** The newest span is a new one below the last causing span. */
    twostate predicate IsNewest(new base: EventSpan, w: World, e: DmaEvent)
      reads this`lastCausing, this`spans, this`pushed, tracer`done, tracer`started, toHostQueue`items, base, base.context
    {
      Now() == Grown(w, base) && Opened(base, e) && IsNew(base, w)
    }

    /** What HandelDma did, from the events `before` and the world `w`. */
    twostate predicate Effect(e: DmaEvent, before: seq<Dma>, w: World)
      reads this, tracer`done, tracer`started, toHostQueue`items, spans, set s | s in spans :: s.context
    {
      var k := FirstAccepting(before, e, 0);
      if k < |before| then
        k < |w.spans| && k < |spans| && Now() == Taken(w, k, e, spans[k].Parent(), PassOn(spans[k]))
      else if e.kind == Issue then spans != [] && IsNewest(spans[|spans| - 1], w, e)
      else Now() == w
    }

    /** HandelDma after the event was offered to the pending spans. */
    method Proceed(taker: Option<NicDmaSpan>, e: DmaEvent, ghost k: nat, ghost before: seq<Dma>, ghost w: World)
        returns (o: Outcome)
      requires tracer.Valid() && AllValid(toHostQueue.items) && PendingOk()
      requires w == Now() && Known(w, before) && (lastCausing != null ==> lastCausing in tracer.started)
      requires k == FirstAccepting(before, e, 0) && (taker.Some? <==> k < |before|)
      requires if k < |before| then Accepts(before[k], e) && states == before[k := Added(before[k], e)] else states == before
      requires taker.Some? ==> Shows(taker.value, (states[k], spans[k]))
      modifies this`pendingNicDmaSpans, this`states, this`spans, this`pushed, toHostQueue`items,
               tracer, tracer.exporter, tracer.traces.Values
      ensures o == if taker.Some? then if e.kind == Execution && toHostQueue.closed then Fail else Pass
                   else if e.kind == Issue && lastCausing == null then Fail else Pass
      ensures o == Pass ==> tracer.Valid() && AllValid(toHostQueue.items) && PendingOk() && tracer.OnlyNew()
      ensures o == Pass ==> states == Handled(before, e) && Effect(e, before, w)
      ensures o == Pass ==> forall p :: p in pendingNicDmaSpans ==> p in old(pendingNicDmaSpans) || fresh(p)
    {
      if taker.Some? {
        o := HandelTaken(taker.value, e, k, before);
      } else {
        o := HandelUntaken(e);
      }
    }

    /** HandelDma, but for what the tracer and the host know afterwards. */
    method Serve(e: DmaEvent) returns (o: Outcome, ok: bool)
      requires tracer.Valid() && AllValid(toHostQueue.items) && PendingOk() && Known(Now(), states)
      requires lastCausing != null ==> lastCausing in tracer.started
      modifies this`pendingNicDmaSpans, this`states, this`spans, this`pushed, toHostQueue`items,
               (set p | p in pendingNicDmaSpans), tracer, tracer.exporter, tracer.traces.Values
      ensures var taken := FirstAccepting(old(states), e, 0) < |old(states)|;
              && o == (if taken then if e.kind == Execution && toHostQueue.closed then Fail else Pass
                       else if e.kind == Issue && lastCausing == null then Fail else Pass)
              && ok == (o == Pass && (e.kind == Issue || taken))
      ensures o == Pass ==> tracer.Valid() && AllValid(toHostQueue.items) && PendingOk() && tracer.OnlyNew()
      ensures o == Pass ==> states == Handled(old(states), e) && Effect(e, old(states), old(Now()))
      ensures o == Pass ==> forall p :: p in pendingNicDmaSpans ==> p in old(pendingNicDmaSpans) || fresh(p)
    {
      ghost var before, w, k := states, Now(), FirstAccepting(states, e, 0);
      FirstFacts(before, e, 0);
      var pendingDma := Offer(e);
      o := Proceed(pendingDma, e, k, before, w);
      ok := o == Pass && (pendingDma.Some? || e.kind == Issue);
    }

    /** HandelDma, in terms of the world. */
    method ServeAndKnow(e: DmaEvent) returns (o: Outcome, ok: bool)
      requires tracer.Valid() && AllValid(toHostQueue.items) && PendingOk() && Known(Now(), states)
      requires lastCausing != null ==> lastCausing in tracer.started
      modifies this`pendingNicDmaSpans, this`states, this`spans, this`pushed, toHostQueue`items,
               (set p | p in pendingNicDmaSpans), tracer, tracer.exporter, tracer.traces.Values
      ensures var taken := FirstAccepting(old(states), e, 0) < |old(states)|;
              && o == (if taken then if e.kind == Execution && toHostQueue.closed then Fail else Pass
                       else if e.kind == Issue && lastCausing == null then Fail else Pass)
              && ok == (o == Pass && (e.kind == Issue || taken))
      ensures o == Pass ==> tracer.Valid() && AllValid(toHostQueue.items) && PendingOk() && tracer.OnlyNew()
      ensures o == Pass ==> states == Handled(old(states), e) && Effect(e, old(states), old(Now())) && Known(Now(), states)
      ensures o == Pass ==> Sent(old(Now()), Now())
      ensures o == Pass ==> forall p :: p in pendingNicDmaSpans ==> p in old(pendingNicDmaSpans) || fresh(p)
    {
      ghost var before, w := states, Now();
      o, ok := Serve(e);
      if o == Pass {
        StillKnown(before, e, w, Now());
      }
    }

    method HandelDma(e: DmaEvent) returns (o: Outcome, ok: bool)
      requires tracer.Valid() && AllValid(toHostQueue.items) && PendingOk() && Known(Now(), states)
      requires lastCausing != null ==> lastCausing in tracer.started
      modifies this`pendingNicDmaSpans, this`states, this`spans, this`pushed, toHostQueue`items,
               (set p | p in pendingNicDmaSpans), tracer, tracer.exporter, tracer.traces.Values
      ensures var taken := FirstAccepting(old(states), e, 0) < |old(states)|;
              && o == (if taken then if e.kind == Execution && toHostQueue.closed then Fail else Pass
                       else if e.kind == Issue && lastCausing == null then Fail else Pass)
              && ok == (o == Pass && (e.kind == Issue || taken))
      ensures o == Pass ==> tracer.Valid() && AllValid(toHostQueue.items) && PendingOk() && tracer.OnlyNew()
      ensures o == Pass ==> states == Handled(old(states), e) && Effect(e, old(states), old(Now())) && Known(Now(), states)
      ensures o == Pass ==> Sent(old(Now()), Now())
      ensures o == Pass ==> forall p :: p in pendingNicDmaSpans ==> p in old(pendingNicDmaSpans) || fresh(p)
      // an execution that span `k` took is announced to the host with the trace, the id and the start of the span
      ensures o == Pass && (e.kind != Execution || FirstAccepting(old(states), e, 0) == |old(states)|) ==>
        toHostQueue.items == old(toHostQueue.items) && pushed == old(pushed)
      ensures o == Pass && e.kind == Execution && FirstAccepting(old(states), e, 0) < |old(states)| ==>
        var k := FirstAccepting(old(states), e, 0);
        && k < |spans| && |pushed| == |old(pushed)| + 1 && pushed[..|old(pushed)|] == old(pushed)
        && pushed[|old(pushed)|].number == k
        && toHostQueue.items == old(toHostQueue.items) + [pushed[|old(pushed)|].context]
        && pushed[|old(pushed)|].context.traceId == spans[k].context.traceId
        && pushed[|old(pushed)|].context.parentId == spans[k].id
        && pushed[|old(pushed)|].context.parentStartTs == spans[k].startingTs
    {
      ghost var before, w, k := states, Now(), FirstAccepting(states, e, 0);
      o, ok := ServeAndKnow(e);
      if o == Pass {
        if k < |before| {
          TakenInPlainTerms(w, Now(), before, k, e, spans[k].Parent(), PassOn(spans[k]));
        }
      }
    }

    /** The stream from its `k`-th event on, up to the first exception. */
    method HandelFrom(events: seq<DmaEvent>, k: nat) returns (o: Outcome)
      requires k <= |events| && states == AllHandled(events[..k])
      requires tracer.Valid() && AllValid(toHostQueue.items) && PendingOk() && Known(Now(), states)
      requires lastCausing != null ==> lastCausing in tracer.started
      modifies this`pendingNicDmaSpans, this`states, this`spans, this`pushed, toHostQueue`items,
               (set p | p in pendingNicDmaSpans), tracer, tracer.exporter, tracer.traces.Values
      ensures o == Pass ==> tracer.Valid() && PendingOk() && Known(Now(), states) && states == AllHandled(events)
      ensures o == Pass ==> Sent(old(Now()), Now())
      ensures lastCausing != null && !toHostQueue.closed ==> o == Pass
      decreases |events| - k
    {
      if k == |events| {
        assert events[..k] == events;
        return Pass;
      }
      assert events[..k + 1][..k] == events[..k];
      ghost var w := Now();
      var ok;
      o, ok := HandelDma(events[k]);
      if o == Pass {
        ghost var mid := Now();
        o := HandelFrom(events, k + 1);
        if o == Pass {
          SentThenSent(w, mid, Now());
        }
      }
    }

    /** A whole stream on a new spanner: the k-th accepted execution and completion of a key join its k-th
        issue; exactly the complete spans are finished, and each executed one was pushed once. */
    method HandelAll(events: seq<DmaEvent>) returns (o: Outcome)
      requires states == [] && tracer.Valid() && AllValid(toHostQueue.items) && PendingOk() && Known(Now(), states)
      requires lastCausing != null ==> lastCausing in tracer.started
      modifies this`pendingNicDmaSpans, this`states, this`spans, this`pushed, toHostQueue`items,
               (set p | p in pendingNicDmaSpans), tracer, tracer.exporter, tracer.traces.Values
      ensures lastCausing != null && !toHostQueue.closed ==> o == Pass
      ensures o == Pass ==> tracer.Valid() && PendingOk() && Known(Now(), states) && states == AllHandled(events)
      ensures o == Pass ==> forall i :: 0 <= i < |states| ==> JoinsItsRank(events, states, i)
      // the host gets one context for every announced span, in order, that names the span as the parent
      ensures o == Pass ==>
        && |toHostQueue.items| == |old(toHostQueue.items)| + |pushed|
        && toHostQueue.items[..|old(toHostQueue.items)|] == old(toHostQueue.items)
        && forall i :: 0 <= i < |pushed| ==>
             && pushed[i].number < |spans| && toHostQueue.items[|old(toHostQueue.items)| + i] == pushed[i].context
             && pushed[i].context.parentId == spans[pushed[i].number].id
             && pushed[i].context.parentStartTs == spans[pushed[i].number].startingTs
    {
      NothingPushed(Now());
      o := HandelFrom(events, 0);
      forall i | 0 <= i < |AllHandled(events)| ensures JoinsItsRank(events, AllHandled(events), i) {
        KthJoinsKth(events, i);
      }
    }
  }

  /** What a handled event may make of the world. */
  ghost predicate Possible(before: seq<Dma>, e: DmaEvent, w: World, now: World) {
    var k := FirstAccepting(before, e, 0);
    if k < |before| then
      && k < |w.spans|
      && exists parent, context: Context {:trigger Taken(w, k, e, parent, context)} ::
           && now == Taken(w, k, e, parent, context)
           && context.parentId == w.spans[k].id && context.parentStartTs == w.spans[k].startingTs
    else if e.kind == Issue then
      && now.spans != [] && now == Grown(w, now.spans[|now.spans| - 1]) && IsNew(now.spans[|now.spans| - 1], w)
    else now == w
  }

  /** The tracer and the host know the right things again. */
  lemma StillKnown(before: seq<Dma>, e: DmaEvent, w: World, now: World)
    requires Known(w, before) && Possible(before, e, w, now)
    ensures Known(now, Handled(before, e)) && Sent(w, now)
  {
    FirstFacts(before, e, 0);
    var k := FirstAccepting(before, e, 0);
    if k < |before| {
      var parent, context: Context :| now == Taken(w, k, e, parent, context)
        && context.parentId == w.spans[k].id && context.parentStartTs == w.spans[k].startingTs;
      TakenIsKnown(w, before, k, e, parent, context);
    } else if e.kind == Issue {
      GrownIsKnown(w, before, now.spans[|now.spans| - 1], e);
    }
  }
}
