/**
 The host spanner: call events become spans, and a span that receives takes its parents from the
 contexts that the NIC side passes on.
 */
module HostSpanner {
  import opened Wrappers
  import opened Spans
  import opened CallSegments
  import opened Contexts
  import opened TraceBook
  import Tr = Tracer

  /** The context arrived before the receiving system call started. */
  function DidArriveBefore(syscallStart: nat): Context -> bool { (c: Context) => syscallStart > c.parentStartTs }

  /** A copy that knows its original. */
  method CopyOf(tracer: Tr.Tracer, span: EventSpan) returns (copy: EventSpan)
    requires tracer.Valid()
    modifies tracer`nextSpanId, tracer`run
    ensures tracer.Valid() && fresh(copy) && tracer.Unregistered(copy)
    ensures copy.startingTs == span.startingTs && copy.original == span
  {
    copy := tracer.CloneSpan(span);
    copy.SetOriginal(span);
  }

  /** A copy of the span, registered below the context. */
  method RegisterCopy(tracer: Tr.Tracer, span: EventSpan, context: Context) returns (o: Outcome, copy: EventSpan)
    requires tracer.Valid() && span in tracer.started && context.Valid() && context.parentStartTs <= span.startingTs
    modifies tracer`nextSpanId, tracer`started, tracer`run, tracer.traces.Values
    ensures o == Pass && tracer.Valid() && fresh(copy) && fresh(copy.context)
    ensures tracer.started == old(tracer.started) + {copy} && copy.id !in tracer.done && copy.id != span.id
    ensures copy.Parent() == context.parentId && copy.context.traceId == context.traceId
    ensures copy.original == span && copy.startingTs == span.startingTs
    ensures forall t :: t in tracer.traces ==>
      tracer.traces[t].spans == if t == context.traceId then old(tracer.traces[t].spans)[copy.id := copy]
                                else old(tracer.traces[t].spans)
  {
    copy := CopyOf(tracer, span);
    o := tracer.StartSpanSetParentContext(copy, context);
  }

  /** Traces may go. */
  predicate Fewer(before: map<nat, Members>, held: map<nat, Members>) {
    forall t :: t in held ==> t in before && held[t] == before[t]
  }

  /** MarkSpanAsDone for a span that is not finished yet. */
  method FinishOnce(tracer: Tr.Tracer, span: EventSpan) returns (o: Outcome)
    requires tracer.Valid() && span in tracer.started && span.id !in tracer.done
    modifies tracer, tracer.exporter
    ensures o == Pass && tracer.Valid() && tracer.started == old(tracer.started)
    ensures tracer.done == old(tracer.done)[span.id := span.Parent()]
    ensures tracer.traces.Values <= old(tracer.traces.Values) && Fewer(old(tracer.Held()), tracer.Held())
    ensures forall t :: t in tracer.traces ==> t in old(tracer.traces) && tracer.traces[t] == old(tracer.traces)[t]
  {
    tracer.ExportedAreDone();
    o := tracer.MarkSpanAsDone(span);
  }

  /** The copy belongs to the trace of its context, not to that of the span, and is finished at once. */
  method FinishCopy(tracer: Tr.Tracer, span: EventSpan, context: Context) returns (o: Outcome, copy: EventSpan)
    requires tracer.Valid() && span in tracer.started && context.Valid() && context.parentStartTs <= span.startingTs
    modifies tracer, tracer.exporter, tracer.traces.Values
    ensures o == Pass && tracer.Valid() && fresh(copy) && fresh(copy.context)
    ensures tracer.started == old(tracer.started) + {copy} && tracer.traces.Values <= old(tracer.traces.Values)
    ensures copy.id !in old(tracer.done) && tracer.done == old(tracer.done)[copy.id := context.parentId]
    ensures copy.Parent() == context.parentId && copy.context.traceId == context.traceId
    ensures copy.id != span.id && copy.original == span && copy.startingTs == span.startingTs
    ensures forall t :: t in tracer.traces ==>
      && t in old(tracer.traces)
      && tracer.traces[t].spans == if t == context.traceId then old(tracer.traces[t].spans)[copy.id := copy]
                                   else old(tracer.traces[t].spans)
  {
    o, copy := RegisterCopy(tracer, span, context);
    o := FinishOnce(tracer, copy);
  }

  /** Copies have ids of their own. */
  predicate NewIds(copies: seq<EventSpan>, done: map<nat, nat>, original: nat) {
    && (forall i :: 0 <= i < |copies| ==> copies[i].id !in done && copies[i].id != original)
    && (forall i, j :: 0 <= i < j < |copies| ==> copies[i].id != copies[j].id)
  }

  /** Of the finished spans `now`, copy `i` is below the `i`-th context, and the others are those in `done` and `also`. */
  predicate CopiesDone(done: map<nat, nat>, now: map<nat, nat>, copies: seq<EventSpan>, items: seq<Context>, also: set<nat>)
    requires |copies| <= |items|
  {
    && (forall x :: x in done ==> x in now && now[x] == done[x])
    && (forall i :: 0 <= i < |copies| ==> copies[i].id in now && now[copies[i].id] == items[i].parentId)
    && (forall x :: x in now ==> x in done || x in also || exists i :: 0 <= i < |copies| && copies[i].id == x)
  }

  /** What a span that starts at `start` finds: the contexts in the queue and the finished spans. */
  datatype Scene = Scene(items: seq<Context>, done: map<nat, nat>, start: nat, original: nat)

  /** What a fan-out has done once the copies are made: contexts are taken in order. */
  predicate FannedOut(scene: Scene, rest: seq<Context>, now: map<nat, nat>, copies: seq<EventSpan>, also: set<nat>) {
    match scene
    case Scene(items, done, start, original) =>
      && |copies| <= |items| && rest == items[|copies|..]
      && (forall i :: 0 <= i < |copies| ==> items[i].parentStartTs < start)
      && NewIds(copies, done, original) && CopiesDone(done, now, copies, items, also)
  }

  lemma FanOutOne(scene: Scene, rest: seq<Context>, now: map<nat, nat>, copies: seq<EventSpan>, copy: EventSpan)
    requires FannedOut(scene, rest, now, copies, {}) && rest != []
    requires rest[0].parentStartTs < scene.start && copy.id !in now && copy.id != scene.original
    ensures FannedOut(scene, rest[1..], now[copy.id := rest[0].parentId], copies + [copy], {})
    ensures |copies| < |scene.items| && rest[0] == scene.items[|copies|]
    ensures forall i :: 0 <= i < |copies| ==> copies[i].id != copy.id
  {
    var more := copies + [copy];
    assert more[|copies|].id == copy.id;
    forall x | x in now && x !in scene.done ensures exists i :: 0 <= i < |more| && more[i].id == x {
      var i :| 0 <= i < |copies| && copies[i].id == x;
      assert more[i].id == x;
    }
  }

  lemma OriginalDone(scene: Scene, rest: seq<Context>, now: map<nat, nat>, copies: seq<EventSpan>, parent: nat)
    requires FannedOut(scene, rest, now, copies, {}) && scene.original !in scene.done
    ensures scene.original !in now
    ensures FannedOut(scene, rest, now[scene.original := parent], copies, {scene.original})
  {
  }

  // ---------------------------------------------------------------- where the copies are

  predicate InTrace(held: map<nat, Members>, s: EventSpan, t: nat) {
    t in held ==> s.id in held[t] && held[t][s.id] == s
  }

  /** The copy belongs to the trace of its context, and is in it if that trace exists. */
  ghost predicate PlacedAt(held: map<nat, Members>, copy: EventSpan, item: Context, original: EventSpan)
    reads copy, copy.context
  {
    && copy.original == original && copy.startingTs == original.startingTs
    && copy.context.traceId == item.traceId && InTrace(held, copy, item.traceId)
  }

  /** All copies are in their traces, and the original in its own. */
  ghost predicate Placed(held: map<nat, Members>, copies: seq<EventSpan>, items: seq<Context>, original: EventSpan)
    reads original, original.context, set c | c in copies, set c | c in copies :: c.context
  {
    && InTrace(held, original, original.context.traceId)
    && |copies| <= |items| && forall i :: 0 <= i < |copies| ==> PlacedAt(held, copies[i], items[i], original)
  }

  /** The copy joined its trace, and traces may have gone. */
  predicate Joins(before: map<nat, Members>, held: map<nat, Members>, copy: EventSpan, t: nat) {
    forall u :: u in held ==> u in before && held[u] == if u == t then before[u][copy.id := copy] else before[u]
  }

  /** A copy with another id stays where it is. */
  lemma StaysInTrace(before: map<nat, Members>, held: map<nat, Members>, copy: EventSpan, t: nat, s: EventSpan, u: nat)
    requires Joins(before, held, copy, t) && s.id != copy.id && InTrace(before, s, u)
    ensures InTrace(held, s, u)
  {
  }

  lemma OneMorePlaced(before: map<nat, Members>, held: map<nat, Members>, copies: seq<EventSpan>, items: seq<Context>,
                      original: EventSpan, copy: EventSpan)
    requires |copies| < |items| && Placed(before, copies, items, original)
    requires Joins(before, held, copy, items[|copies|].traceId)
    requires copy.id != original.id && forall i :: 0 <= i < |copies| ==> copies[i].id != copy.id
    requires copy.original == original && copy.startingTs == original.startingTs
    requires copy.context.traceId == items[|copies|].traceId
    ensures Placed(held, copies + [copy], items, original)
  {
    StaysInTrace(before, held, copy, items[|copies|].traceId, original, original.context.traceId);
    forall i | 0 <= i < |copies| ensures PlacedAt(held, copies[i], items[i], original) {
      assert PlacedAt(before, copies[i], items[i], original);
      StaysInTrace(before, held, copy, items[|copies|].traceId, copies[i], items[i].traceId);
    }
  }

  /** The same with fewer traces. */
  lemma PlacedStays(before: map<nat, Members>, held: map<nat, Members>, copies: seq<EventSpan>, items: seq<Context>,
                    original: EventSpan)
    requires Placed(before, copies, items, original)
    requires Fewer(before, held)
    ensures Placed(held, copies, items, original)
  {
    forall i | 0 <= i < |copies| ensures PlacedAt(held, copies[i], items[i], original) {
      assert PlacedAt(before, copies[i], items[i], original);
    }
  }

  // ---------------------------------------------------------------- the fan-out

  /** What a turn with a copy adds. */
  lemma OneMoreTurn(scene: Scene, rest: seq<Context>, now: map<nat, nat>, before: map<nat, Members>, held: map<nat, Members>,
                    copies: seq<EventSpan>, copy: EventSpan, span: EventSpan)
    requires FannedOut(scene, rest, now, copies, {}) && Placed(before, copies, scene.items, span)
    requires scene.original == span.id && rest != [] && rest[0].parentStartTs < scene.start
    requires copy.id !in now && copy.id != span.id && copy.original == span && copy.startingTs == span.startingTs
    requires copy.context.traceId == rest[0].traceId && Joins(before, held, copy, rest[0].traceId)
    ensures FannedOut(scene, rest[1..], now[copy.id := rest[0].parentId], copies + [copy], {})
    ensures Placed(held, copies + [copy], scene.items, span)
  {
    FanOutOne(scene, rest, now, copies, copy);
    OneMorePlaced(before, held, copies, scene.items, span, copy);
  }

  /** One turn of the loop below: the next early context, and its copy. */
  method NextCopy(tracer: Tr.Tracer, queue: ContextQueue, span: EventSpan) returns (o: Outcome, copy: EventSpan?)
    requires tracer.Valid() && span in tracer.started && AllValid(queue.items)
    modifies tracer, tracer.exporter, tracer.traces.Values, queue
    ensures o == Pass && tracer.Valid() && tracer.OnlyNew() && AllValid(queue.items)
    ensures var items := old(queue.items);
            if items == [] || items[0].parentStartTs >= span.startingTs then
              copy == null && queue.items == items && tracer.done == old(tracer.done) && tracer.Held() == old(tracer.Held())
            else
              && copy != null && queue.items == items[1..] && copy.id !in old(tracer.done) && copy.id != span.id
              && tracer.done == old(tracer.done)[copy.id := items[0].parentId]
              && copy.original == span && copy.startingTs == span.startingTs && copy.context.traceId == items[0].traceId
              && fresh(copy) && fresh(copy.context)
              && Joins(old(tracer.Held()), tracer.Held(), copy, items[0].traceId)
  {
    o, copy := Pass, null;
    var context := queue.TryPopOnTrue(DidArriveBefore(span.startingTs));
    if context.Some? {
      o, copy := FinishCopy(tracer, span, context.value);
    }
  }

  /** The turn as a step of the fan-out; false if it was the last one. */
  method FanOutTurn(tracer: Tr.Tracer, queue: ContextQueue, span: EventSpan, ghost scene: Scene,
                    ghost before: seq<EventSpan>) returns (more: bool, ghost copies: seq<EventSpan>)
    requires tracer.Valid() && span in tracer.started && AllValid(queue.items)
    requires scene.start == span.startingTs && scene.original == span.id
    requires FannedOut(scene, queue.items, tracer.done, before, {})
    requires Placed(tracer.Held(), before, scene.items, span)
    modifies tracer, tracer.exporter, tracer.traces.Values, queue
    ensures tracer.Valid() && tracer.OnlyNew() && AllValid(queue.items)
    ensures FannedOut(scene, queue.items, tracer.done, copies, {})
    ensures Placed(tracer.Held(), copies, scene.items, span)
    ensures if more then |queue.items| < old(|queue.items|)
            else queue.items == [] || queue.items[0].parentStartTs >= span.startingTs
  {
    ghost var rest, now, held := queue.items, tracer.done, tracer.Held();
    var o, copy := NextCopy(tracer, queue, span);
    if copy == null {
      return false, before;
    }
    OneMoreTurn(scene, rest, now, held, tracer.Held(), before, copy, span);
    more, copies := true, before + [copy];
  }

  /** The loop of FinishPendingSpan: one copy per early context. */
  method FanOut(tracer: Tr.Tracer, queue: ContextQueue, span: EventSpan) returns (ghost copies: seq<EventSpan>)
    requires tracer.Valid() && span in tracer.started && AllValid(queue.items)
    requires InTrace(tracer.Held(), span, span.context.traceId)
    modifies tracer, tracer.exporter, tracer.traces.Values, queue
    ensures tracer.Valid() && tracer.OnlyNew() && AllValid(queue.items)
    ensures FannedOut(Scene(old(queue.items), old(tracer.done), span.startingTs, span.id), queue.items, tracer.done, copies, {})
    ensures queue.items == [] || queue.items[0].parentStartTs >= span.startingTs
    ensures Placed(tracer.Held(), copies, old(queue.items), span)
  {
    copies := [];
    var more := true;
    ghost var scene := Scene(queue.items, tracer.done, span.startingTs, span.id);
    while more
      invariant tracer.Valid() && tracer.OnlyNew() && AllValid(queue.items)
      invariant FannedOut(scene, queue.items, tracer.done, copies, {})
      invariant Placed(tracer.Held(), copies, scene.items, span)
      invariant !more ==> queue.items == [] || queue.items[0].parentStartTs >= span.startingTs
      decreases more, |queue.items|
    {
      more, copies := FanOutTurn(tracer, queue, span, scene, copies);
    }
  }

  /** A span and a copy of it for every early context are finished, in the order of the contexts. */
  predicate AllFinished(scene: Scene, rest: seq<Context>, now: map<nat, nat>, copies: seq<EventSpan>, parent: nat) {
    match scene
    case Scene(_, _, start, original) =>
      && FannedOut(scene, rest, now, copies, {original})
      && (rest == [] || rest[0].parentStartTs >= start) && original in now && now[original] == parent
  }

  /** The copies first, then the span itself. */
  method FinishAll(tracer: Tr.Tracer, queue: ContextQueue, span: EventSpan) returns (o: Outcome, ghost copies: seq<EventSpan>)
    requires tracer.Valid() && span in tracer.started && span.id !in tracer.done && AllValid(queue.items)
    requires InTrace(tracer.Held(), span, span.context.traceId)
    modifies tracer, tracer.exporter, tracer.traces.Values, queue
    ensures o == Pass && tracer.Valid() && tracer.OnlyNew() && AllValid(queue.items)
    ensures AllFinished(Scene(old(queue.items), old(tracer.done), span.startingTs, span.id), queue.items, tracer.done, copies,
                        old(span.Parent()))
    ensures Placed(tracer.Held(), copies, old(queue.items), span)
  {
    ghost var scene := Scene(queue.items, tracer.done, span.startingTs, span.id);
    copies := FanOut(tracer, queue, span);
    ghost var held := tracer.Held();
    OriginalDone(scene, queue.items, tracer.done, copies, span.Parent());
    o := FinishOnce(tracer, span);
    PlacedStays(held, tracer.Held(), copies, scene.items, span);
  }

  /** AddParentLazily for the pending span. */
  method GiveParent(tracer: Tr.Tracer, span: EventSpan, context: Context) returns (o: Outcome)
    requires tracer.Valid() && span in tracer.started && !span.context.hasParent && span.id !in tracer.done && context.Valid()
    modifies (set s | s in tracer.started :: s.context), tracer.traces.Values, tracer`traces, tracer`run
    ensures o == if context.traceId == old(span.context.traceId) then Fail else Pass
    ensures o == Pass ==> tracer.Valid() && tracer.OnlyNew() && span.Parent() == context.parentId
    ensures o == Pass ==> span.context.traceId == context.traceId && InTrace(tracer.Held(), span, context.traceId)
  {
    o := tracer.AddParentLazily(span, context);
  }

  /** The branch of FinishPendingSpan for a span that received, after the first context. */
  method FinishReceiver(tracer: Tr.Tracer, queue: ContextQueue, span: EventSpan, context: Context)
      returns (o: Outcome, ghost copies: seq<EventSpan>)
    requires tracer.Valid() && span in tracer.started && !span.context.hasParent && span.id !in tracer.done
    requires context.Valid() && AllValid(queue.items)
    modifies tracer, tracer.exporter, tracer.traces.Values, (set s | s in tracer.started :: s.context), queue
    ensures o == if context.traceId == old(span.context.traceId) then Fail else Pass
    ensures o == Pass ==> tracer.Valid() && tracer.OnlyNew() && AllValid(queue.items)
    ensures o == Pass ==>
      AllFinished(Scene(old(queue.items), old(tracer.done), span.startingTs, span.id), queue.items, tracer.done, copies,
                  context.parentId)
    ensures o == Pass ==> span.context.traceId == context.traceId
    ensures o == Pass ==> Placed(tracer.Held(), copies, old(queue.items), span)
  {
    copies := [];
    o := GiveParent(tracer, span, context);
    if o == Pass {
      o, copies := FinishAll(tracer, queue, span);
    }
  }

  /** What finishing a pending span did: a receiving span takes the first context, and its copies the further early ones.
      A span that saw no kernel receive is finished as a root. */
  predicate FinishedAs(receives: bool, items: seq<Context>, rest: seq<Context>, start: nat, done: map<nat, nat>,
                       now: map<nat, nat>, copies: seq<EventSpan>, original: nat) {
    if receives then
      items != [] && AllFinished(Scene(items[1..], done, start, original), rest, now, copies, items[0].parentId)
    else now == done[original := 0] && rest == items && copies == []
  }

  /** What a receiving span did, in plain terms: it takes the first context, and the further ones that are early, ... */
  lemma TakenInPlainTerms(items: seq<Context>, rest: seq<Context>, start: nat, done: map<nat, nat>, now: map<nat, nat>,
                          copies: seq<EventSpan>, original: nat)
    requires FinishedAs(true, items, rest, start, done, now, copies, original)
    ensures 1 + |copies| <= |items| && rest == items[1 + |copies|..]
    ensures forall i :: 1 <= i < 1 + |copies| ==> items[i].parentStartTs < start
    ensures 1 + |copies| < |items| ==> items[1 + |copies|].parentStartTs >= start
  {
    forall i | 1 <= i < 1 + |copies| ensures items[i].parentStartTs < start {
      assert items[1..][i - 1] == items[i];
    }
  }

  /** ... and the finished spans are the old ones, the span and the copies, each below its context. */
  lemma DoneInPlainTerms(items: seq<Context>, rest: seq<Context>, start: nat, done: map<nat, nat>, now: map<nat, nat>,
                         copies: seq<EventSpan>, original: nat)
    requires FinishedAs(true, items, rest, start, done, now, copies, original)
    ensures 1 + |copies| <= |items|
    ensures forall x :: x in done ==> x in now && now[x] == done[x]
    ensures original in now && now[original] == items[0].parentId
    ensures forall i :: 0 <= i < |copies| ==>
              && copies[i].id !in done && copies[i].id != original
              && copies[i].id in now && now[copies[i].id] == items[1 + i].parentId
    ensures forall i, j :: 0 <= i < j < |copies| ==> copies[i].id != copies[j].id
    ensures forall x :: x in now ==> x in done || x == original || exists i :: 0 <= i < |copies| && copies[i].id == x
  {
    forall i | 0 <= i < |copies| ensures copies[i].id in now && now[copies[i].id] == items[1 + i].parentId {
      assert items[1..][i] == items[1 + i];
    }
  }

  /** FinishPendingSpan for a span that received. */
  method PopAndFinish(tracer: Tr.Tracer, queue: ContextQueue, span: EventSpan) returns (o: Outcome, ghost copies: seq<EventSpan>)
    requires tracer.Valid() && span in tracer.started && !span.context.hasParent && span.id !in tracer.done
    requires AllValid(queue.items)
    modifies tracer, tracer.exporter, tracer.traces.Values, (set s | s in tracer.started :: s.context), queue
    ensures var items := old(queue.items);
            o == if items == [] || items[0].traceId == old(span.context.traceId) then Fail else Pass
    ensures o == Pass ==> tracer.Valid() && tracer.OnlyNew() && AllValid(queue.items)
    ensures o == Pass ==> FinishedAs(true, old(queue.items), queue.items, span.startingTs, old(tracer.done), tracer.done,
                                     copies, span.id)
    ensures o == Pass ==>
      && span.context.traceId == old(queue.items)[0].traceId && 1 + |copies| <= |old(queue.items)|
      && forall i :: 0 <= i < |copies| ==> PlacedAt(tracer.Held(), copies[i], old(queue.items)[1 + i], span)
  {
    copies := [];
    var context := queue.Pop();
    if context.None? {
      return Fail, copies;
    }
    o, copies := FinishReceiver(tracer, queue, span, context.value);
  }

  /** The event is the next syscall entry: it completes the pending span with the events `last`. */
  predicate Completes(last: seq<CallEvent>, e: CallEvent)
    requires last != []
  {
    IsEntry(e) && last[0].parserIdent == e.parserIdent && Entries(last) > 0
  }

  lemma FirstCompletes(e: CallEvent)
    ensures Completes([e], e) <==> IsEntry(e)
  {
    OneEvent(e);
  }

  /** A call span with its first event, which it never refuses. */
  method NewCallSpan(e: CallEvent) returns (callSpan: HostCallSpan, wasAdded: bool)
    ensures wasAdded && fresh(callSpan) && callSpan.Valid() && callSpan.isPending && !callSpan.isFragmented
    ensures callSpan.events == [e] && callSpan.kernelReceive == (e.kind == KernelRx)
  {
    OneMoreEvent([], e);
    assert [] + [e] == [e];
    callSpan := new HostCallSpan(false);
    wasAdded := callSpan.AddToSpan(e);
  }

  /** The same span as the tracer knows it. */
  method OpenSpan(tracer: Tr.Tracer, e: CallEvent) returns (o: Outcome, callSpan: HostCallSpan, span: EventSpan)
    requires tracer.Valid()
    modifies tracer`traces, tracer`nextSpanId, tracer`nextTraceId, tracer`started, tracer`run
    ensures o == Pass && tracer.Valid() && tracer.OnlyNew()
    ensures fresh(callSpan) && callSpan.Valid() && callSpan.isPending && !callSpan.isFragmented
    ensures callSpan.events == [e] && callSpan.kernelReceive == (e.kind == KernelRx)
    ensures span in tracer.started && fresh(span) && fresh(span.context) && span.startingTs == e.timestamp
    ensures !span.context.hasParent && span.id !in tracer.done
  {
    var wasAdded;
    callSpan, wasAdded := NewCallSpan(e);
    o, span := tracer.StartSpan(e.timestamp, wasAdded);
  }

  class HostSpanner {
    const tracer: Tr.Tracer
    const fromNicReceivesQueue: ContextQueue
    var pendingHostCallSpan: HostCallSpan?
    /** The pending span as the tracer knows it. */
    var pendingSpan: EventSpan?
    var lastTraceStartingSpan: EventSpan?
    /** The last event was a call that writes to the PCI configuration. */
    var pciWriteBefore: bool
    /** The events of the spans created so far. */
    ghost var segments: Segments

    constructor (tracer: Tr.Tracer, queue: ContextQueue)
      ensures this.tracer == tracer && fromNicReceivesQueue == queue
      ensures pendingHostCallSpan == null && pendingSpan == null && segments == [] && !pciWriteBefore
      ensures lastTraceStartingSpan == null
    {
      this.tracer, fromNicReceivesQueue := tracer, queue;
      pendingHostCallSpan, pendingSpan, segments := null, null, [];
      lastTraceStartingSpan, pciWriteBefore := null, false;
    }

    /** The pending span is an unfinished root. */
    ghost predicate Pending()
      reads this, pendingSpan, tracer
      reads if pendingSpan == null then {} else {pendingSpan.context}
    {
      && (pendingHostCallSpan == null <==> pendingSpan == null) && lastTraceStartingSpan == pendingSpan
      && (pendingSpan != null ==>
            && pendingSpan in tracer.started && pendingSpan.id !in tracer.done && !pendingSpan.context.hasParent)
    }

    /** The events of the pending span are the last segment. */
    ghost predicate CallOk()
      reads this, pendingHostCallSpan
    {
      && (pendingHostCallSpan == null <==> segments == [])
      && (pendingHostCallSpan != null ==>
            && pendingHostCallSpan.Valid() && pendingHostCallSpan.isPending && !pendingHostCallSpan.isFragmented
            && pendingHostCallSpan.events != [] && pendingHostCallSpan.events == segments[|segments| - 1])
    }

    ghost predicate PendingOk()
      reads this, pendingHostCallSpan, pendingSpan, tracer
      reads if pendingSpan == null then {} else {pendingSpan.context}
    {
      Pending() && CallOk()
    }

    /** Finishes the pending span, if there is one.  A span that saw a kernel receive takes a context
        from the queue as its parent, and one copy of it goes below every further context that arrived
        before the system call started. */
    method FinishPendingSpan() returns (o: Outcome, ghost copies: seq<EventSpan>)
      requires tracer.Valid() && AllValid(fromNicReceivesQueue.items) && Pending()
      modifies tracer, tracer.exporter, tracer.traces.Values, (set s | s in tracer.started :: s.context),
               fromNicReceivesQueue
      ensures o == if old(FinishThrows()) then Fail else Pass
      ensures o == Pass ==> tracer.Valid() && tracer.OnlyNew() && AllValid(fromNicReceivesQueue.items)
      ensures pendingSpan == null ==>
        && NothingFinished(old(fromNicReceivesQueue.items), old(tracer.done))
        && tracer.traces == old(tracer.traces) && tracer.started == old(tracer.started)
      ensures o == Pass && pendingSpan != null ==>
        FinishedAs(pendingHostCallSpan.kernelReceive, old(fromNicReceivesQueue.items), fromNicReceivesQueue.items,
                   pendingSpan.startingTs, old(tracer.done), tracer.done, copies, pendingSpan.id)
      // the same in plain terms: without a kernel receive
      ensures o == Pass && pendingSpan != null && !pendingHostCallSpan.kernelReceive ==>
        && fromNicReceivesQueue.items == old(fromNicReceivesQueue.items) && copies == []
        && tracer.done == old(tracer.done)[pendingSpan.id := 0]
      // with one: which contexts are taken, ...
      ensures o == Pass && pendingSpan != null && pendingHostCallSpan.kernelReceive ==>
        var items := old(fromNicReceivesQueue.items);
        && 1 + |copies| <= |items| && fromNicReceivesQueue.items == items[1 + |copies|..]
        && (forall i :: 1 <= i < 1 + |copies| ==> items[i].parentStartTs < pendingSpan.startingTs)
        && (1 + |copies| < |items| ==> items[1 + |copies|].parentStartTs >= pendingSpan.startingTs)
      // ... which spans are finished, below which parents, ...
      ensures o == Pass && pendingSpan != null && pendingHostCallSpan.kernelReceive ==>
        var items := old(fromNicReceivesQueue.items);
        && (forall x :: x in old(tracer.done) ==> x in tracer.done && tracer.done[x] == old(tracer.done)[x])
        && pendingSpan.id in tracer.done && tracer.done[pendingSpan.id] == items[0].parentId
        && (forall i :: 0 <= i < |copies| ==>
              && copies[i].id !in old(tracer.done) && copies[i].id != pendingSpan.id
              && copies[i].id in tracer.done && tracer.done[copies[i].id] == items[1 + i].parentId)
        && (forall i, j :: 0 <= i < j < |copies| ==> copies[i].id != copies[j].id)
        && (forall x :: x in tracer.done ==>
              x in old(tracer.done) || x == pendingSpan.id || exists i :: 0 <= i < |copies| && copies[i].id == x)
      // ... and which traces they belong to
      ensures o == Pass && pendingSpan != null && pendingHostCallSpan.kernelReceive ==>
        var items := old(fromNicReceivesQueue.items);
        && pendingSpan.context.traceId == items[0].traceId
        && (forall i :: 0 <= i < |copies| ==>
              copies[i].context.traceId == items[1 + i].traceId && copies[i].original == pendingSpan)
        && (forall i :: 0 <= i < |copies| && items[1 + i].traceId in tracer.traces ==>
              var members := tracer.traces[items[1 + i].traceId].spans;
              copies[i].id in members && members[copies[i].id] == copies[i])
    {
      o, copies := Pass, [];
      if pendingHostCallSpan == null {
        return;
      }
      if pendingHostCallSpan.kernelReceive {
        ghost var items, done := fromNicReceivesQueue.items, tracer.done;
        o, copies := PopAndFinish(tracer, fromNicReceivesQueue, pendingSpan);
        if o == Pass {
          TakenInPlainTerms(items, fromNicReceivesQueue.items, pendingSpan.startingTs, done, tracer.done, copies,
                            pendingSpan.id);
          DoneInPlainTerms(items, fromNicReceivesQueue.items, pendingSpan.startingTs, done, tracer.done, copies,
                           pendingSpan.id);
        }
      } else {
        o := tracer.MarkSpanAsDone(pendingSpan);
      }
    }

    /** The new span becomes the pending one. */
    method SetPending(callSpan: HostCallSpan, span: EventSpan)
      requires callSpan.Valid() && callSpan.isPending && !callSpan.isFragmented && callSpan.events != []
      requires span in tracer.started && span.id !in tracer.done && !span.context.hasParent
      modifies this
      ensures PendingOk() && pendingHostCallSpan == callSpan && pendingSpan == span && !pciWriteBefore
      ensures segments == old(segments) + [callSpan.events]
    {
      pendingHostCallSpan, pendingSpan, segments := callSpan, span, segments + [callSpan.events];
      lastTraceStartingSpan, pciWriteBefore := span, false;
    }

    /** Starts a trace with a new call span that has the event. */
    method StartCallSpan(e: CallEvent) returns (o: Outcome)
      requires tracer.Valid()
      modifies this, tracer`traces, tracer`nextSpanId, tracer`nextTraceId, tracer`started, tracer`run
      ensures o == Pass && tracer.Valid() && tracer.OnlyNew() && PendingOk() && segments == old(segments) + [[e]]
      ensures pendingHostCallSpan != null && fresh(pendingHostCallSpan) && fresh(pendingSpan.context)
      ensures pendingSpan.startingTs == e.timestamp && pendingHostCallSpan.kernelReceive == (e.kind == KernelRx)
      ensures !pciWriteBefore
    {
      var callSpan, span;
      o, callSpan, span := OpenSpan(tracer, e);
      SetPending(callSpan, span);
    }

    /** FinishPendingSpan throws: a receiving span finds no context, or one of its own trace. */
    ghost predicate FinishThrows()
      reads this, pendingHostCallSpan, pendingSpan, fromNicReceivesQueue
      reads if pendingSpan == null then {} else {pendingSpan.context}
    {
      var items := fromNicReceivesQueue.items;
      && pendingHostCallSpan != null && pendingSpan != null && pendingHostCallSpan.kernelReceive
      && (items == [] || items[0].traceId == pendingSpan.context.traceId)
    }

    ghost predicate NothingFinished(items: seq<Context>, done: map<nat, nat>)
      reads tracer`done, fromNicReceivesQueue
    {
      tracer.done == done && fromNicReceivesQueue.items == items
    }

    method CreateTraceStartingSpan(e: CallEvent) returns (o: Outcome, ghost copies: seq<EventSpan>)
      requires tracer.Valid() && AllValid(fromNicReceivesQueue.items) && Pending()
      modifies this, fromNicReceivesQueue,
               tracer, tracer.exporter, tracer.traces.Values, (set s | s in tracer.started :: s.context)
      ensures o == if old(FinishThrows()) then Fail else Pass
      ensures o == Fail ==> segments == old(segments)
      ensures o == Pass ==> tracer.Valid() && tracer.OnlyNew() && AllValid(fromNicReceivesQueue.items) && PendingOk()
      ensures o == Pass ==> segments == old(segments) + [[e]] && fresh(pendingHostCallSpan) && fresh(pendingSpan.context)
      ensures o == Pass ==> pendingSpan.startingTs == e.timestamp && pendingHostCallSpan.kernelReceive == (e.kind == KernelRx)
      ensures o == Pass ==> !pciWriteBefore
      ensures o == Pass && old(pendingSpan) != null ==>
        FinishedAs(old(pendingHostCallSpan.kernelReceive), old(fromNicReceivesQueue.items), fromNicReceivesQueue.items,
                   old(pendingSpan).startingTs, old(tracer.done), tracer.done, copies, old(pendingSpan).id)
      ensures old(pendingSpan) == null ==> NothingFinished(old(fromNicReceivesQueue.items), old(tracer.done))
    {
      o, copies := FinishPendingSpan();
      if o == Pass {
        o := StartCallSpan(e);
      }
    }

    /** What an event for the pending span with the events `last` does. */
    twostate predicate Next(e: CallEvent, last: seq<CallEvent>, o: Outcome, new copies: seq<EventSpan>)
      requires last != [] && old(pendingSpan) != null
      reads this, tracer, fromNicReceivesQueue
    {
      if !Completes(last, e) then
        && o == Pass && NothingFinished(old(fromNicReceivesQueue.items), old(tracer.done))
        && pciWriteBefore == if last[0].parserIdent == e.parserIdent then e.isPciWrite else old(pciWriteBefore)
      else
        && o == (if old(FinishThrows()) then Fail else Pass) && (o == Fail ==> SeenIn(last).kernelRx)
        && (o == Pass ==>
              && !pciWriteBefore
              && FinishedAs(SeenIn(last).kernelRx, old(fromNicReceivesQueue.items), fromNicReceivesQueue.items,
                            old(pendingSpan).startingTs, old(tracer.done), tracer.done, copies, old(pendingSpan).id))
    }

    /** Offers the event to the pending span. */
    method AddCall(e: CallEvent) returns (added: bool)
      requires CallOk() && pendingHostCallSpan != null
      modifies this`segments, this`pciWriteBefore, pendingHostCallSpan
      ensures pendingHostCallSpan.isPending == !Completes(old(segments)[|old(segments)| - 1], e)
      ensures added == (old(segments)[|old(segments)| - 1][0].parserIdent == e.parserIdent && pendingHostCallSpan.isPending)
      ensures pciWriteBefore == if added then e.isPciWrite else old(pciWriteBefore)
      ensures pendingHostCallSpan.isPending ==> CallOk() && segments == Cut(old(segments), e)
      ensures !pendingHostCallSpan.isPending ==>
        && segments == old(segments) && segments + [[e]] == Cut(old(segments), e)
        && pendingHostCallSpan.kernelReceive == old(pendingHostCallSpan.kernelReceive) == SeenIn(segments[|segments| - 1]).kernelRx
    {
      added := pendingHostCallSpan.AddToSpan(e);
      if added {
        pciWriteBefore := e.isPciWrite;
        segments := segments[|segments| - 1 := pendingHostCallSpan.events];
      }
    }

    /** An event for the span that is pending. */
    method HandelNext(e: CallEvent) returns (o: Outcome, ok: bool, ghost copies: seq<EventSpan>)
      requires tracer.Valid() && AllValid(fromNicReceivesQueue.items) && PendingOk() && pendingHostCallSpan != null
      modifies this, pendingHostCallSpan, fromNicReceivesQueue,
               tracer, tracer.exporter, tracer.traces.Values, (set s | s in tracer.started :: s.context)
      ensures Next(e, old(segments)[|old(segments)| - 1], o, copies)
      ensures ok == (o == Pass && old(segments)[|old(segments)| - 1][0].parserIdent == e.parserIdent)
      ensures o == Pass ==> tracer.Valid() && tracer.OnlyNew() && AllValid(fromNicReceivesQueue.items) && PendingOk()
      ensures segments == if o == Pass then Cut(old(segments), e) else old(segments)
      ensures o == Pass ==> pendingHostCallSpan == old(pendingHostCallSpan) || fresh(pendingHostCallSpan)
    {
      o, ok, copies := Pass, true, [];
      var added := AddCall(e);
      if !added {
        if pendingHostCallSpan.isPending {
          return Pass, false, [];
        }
        o, copies := CreateTraceStartingSpan(e);
        ok := o == Pass;
      }
    }

    /** The span of the very first event. */
    method CreateFirst(e: CallEvent) returns (o: Outcome)
      requires tracer.Valid() && AllValid(fromNicReceivesQueue.items) && PendingOk() && pendingHostCallSpan == null
      modifies this, fromNicReceivesQueue,
               tracer, tracer.exporter, tracer.traces.Values, (set s | s in tracer.started :: s.context)
      ensures o == Pass && tracer.Valid() && tracer.OnlyNew() && AllValid(fromNicReceivesQueue.items) && PendingOk()
      ensures segments == [[e]] && pendingHostCallSpan != null && fresh(pendingHostCallSpan) && !pciWriteBefore
      ensures pendingHostCallSpan.kernelReceive == (e.kind == KernelRx)
    {
      ghost var copies;
      o, copies := CreateTraceStartingSpan(e);
      assert [] + [[e]] == [[e]];
    }

    /** The very first event creates a span, and is then handled like any other. */
    method HandelFirst(e: CallEvent) returns (o: Outcome, ok: bool)
      requires tracer.Valid() && AllValid(fromNicReceivesQueue.items) && PendingOk() && pendingHostCallSpan == null
      modifies this, fromNicReceivesQueue,
               tracer, tracer.exporter, tracer.traces.Values, (set s | s in tracer.started :: s.context)
      ensures o == Pass && ok && tracer.Valid() && tracer.OnlyNew()
      ensures AllValid(fromNicReceivesQueue.items) && PendingOk() && segments == Cut([], e)
      ensures pendingHostCallSpan != null && fresh(pendingHostCallSpan) && pciWriteBefore == (e.isPciWrite && !IsEntry(e))
    {
      o := CreateFirst(e);
      FirstCompletes(e);
      ghost var copies;
      o, ok, copies := HandelNext(e);
      assert segments == Cut([], e) by { FirstIsOfferedAgain(e); }
    }

    method HandelCall(e: CallEvent) returns (o: Outcome, ok: bool, ghost copies: seq<EventSpan>)
      requires tracer.Valid() && AllValid(fromNicReceivesQueue.items) && PendingOk()
      modifies this, fromNicReceivesQueue,
               tracer, tracer.exporter, tracer.traces.Values, (set s | s in tracer.started :: s.context)
      modifies if pendingHostCallSpan == null then {} else {pendingHostCallSpan}
      ensures old(segments) == [] ==> o == Pass && ok && pciWriteBefore == (e.isPciWrite && !IsEntry(e))
      ensures old(segments) != [] ==>
        var last := old(segments)[|old(segments)| - 1];
        Next(e, last, o, copies) && ok == (o == Pass && last[0].parserIdent == e.parserIdent)
      ensures o == Pass ==> tracer.Valid() && tracer.OnlyNew() && AllValid(fromNicReceivesQueue.items) && PendingOk()
      ensures segments == if o == Pass then Cut(old(segments), e) else old(segments)
      ensures o == Pass ==>
        pendingHostCallSpan != null && (pendingHostCallSpan == old(pendingHostCallSpan) || fresh(pendingHostCallSpan))
    {
      copies := [];
      if pendingHostCallSpan == null {
        o, ok := HandelFirst(e);
      } else {
        o, ok, copies := HandelNext(e);
      }
    }

    /** The `k`-th event of the stream. */
    method HandelKth(events: seq<CallEvent>, k: nat) returns (o: Outcome)
      requires k < |events| && segments == CutAll(events[..k])
      requires tracer.Valid() && AllValid(fromNicReceivesQueue.items) && PendingOk()
      modifies this, fromNicReceivesQueue,
               tracer, tracer.exporter, tracer.traces.Values, (set s | s in tracer.started :: s.context)
      modifies if pendingHostCallSpan == null then {} else {pendingHostCallSpan}
      ensures o == Fail ==> Throws(segments, events, k)
      ensures o == Pass ==> tracer.Valid() && tracer.OnlyNew() && AllValid(fromNicReceivesQueue.items) && PendingOk()
      ensures o == Pass ==> segments == CutAll(events[..k + 1])
      ensures o == Pass ==>
        pendingHostCallSpan != null && (pendingHostCallSpan == old(pendingHostCallSpan) || fresh(pendingHostCallSpan))
    {
      ghost var copies;
      var ok;
      o, ok, copies := HandelCall(events[k]);
      assert events[..k + 1][..k] == events[..k];
    }

    /** The stream from its `k`-th event on. */
    method HandelFrom(events: seq<CallEvent>, k: nat) returns (o: Outcome)
      requires k <= |events| && segments == CutAll(events[..k])
      requires tracer.Valid() && AllValid(fromNicReceivesQueue.items) && PendingOk()
      modifies this, fromNicReceivesQueue,
               tracer, tracer.exporter, tracer.traces.Values, (set s | s in tracer.started :: s.context)
      modifies if pendingHostCallSpan == null then {} else {pendingHostCallSpan}
      ensures o == Pass ==> tracer.Valid() && PendingOk() && segments == CutAll(events)
      ensures o == Fail ==> exists i :: k <= i < |events| && Throws(segments, events, i)
      decreases |events| - k
    {
      if k == |events| {
        assert events[..k] == events;
        return Pass;
      }
      o := HandelKth(events, k);
      if o == Pass {
        o := HandelFrom(events, k + 1);
      }
    }

    /** The event stream up to the first exception. */
    method HandelAll(events: seq<CallEvent>) returns (o: Outcome)
      requires tracer.Valid() && AllValid(fromNicReceivesQueue.items) && PendingOk() && segments == []
      modifies this, fromNicReceivesQueue,
               tracer, tracer.exporter, tracer.traces.Values, (set s | s in tracer.started :: s.context)
      ensures o == Pass ==> tracer.Valid() && PendingOk() && segments == CutAll(events)
      ensures o == Pass && events != [] ==>
        && Concat(segments) == [events[0]] + Of(events, events[0].parserIdent)
        && WellCut(segments, events[0].parserIdent)
      // cut at the syscall entries: no span has two, and every span but the first starts with one
      ensures o == Pass ==>
        && (forall i :: 0 <= i < |segments| ==> segments[i] != [])
        && (forall i :: 1 <= i < |segments| ==> segments[i][0].kind == SyscallEntry)
        && (forall i, j, k :: 0 <= i < |segments| && 0 <= j < k < |segments[i]| ==>
              segments[i][j].kind != SyscallEntry || segments[i][k].kind != SyscallEntry)
      ensures o == Fail ==> exists i :: 0 <= i < |events| && Throws(segments, events, i)
    {
      o := HandelFrom(events, 0);
      if events != [] {
        CallSegmentation(events);
      }
    }
  }

  /** Handling throws only at a syscall entry that completes a span with a kernel receive. */
  ghost predicate Throws(segments: Segments, events: seq<CallEvent>, k: nat)
    requires k < |events|
  {
    && segments == CutAll(events[..k]) && segments != [] && segments[|segments| - 1] != []
    && Completes(segments[|segments| - 1], events[k]) && SeenIn(segments[|segments| - 1]).kernelRx
  }

  // ---------------------------------------------------------------- from the NIC to the host

  /** The NIC side announces the spans one after the other. */
  method AnnounceAll(tracer: Tr.Tracer, queue: ContextQueue, causes: seq<EventSpan>) returns (o: Outcome)
    requires tracer.Valid() && !queue.closed && queue.items == []
    requires forall i :: 0 <= i < |causes| ==> causes[i] in tracer.started
    modifies queue`items
    ensures o == Pass && tracer.Valid() && AllValid(queue.items) && |queue.items| == |causes|
    ensures forall i :: 0 <= i < |causes| ==>
      && queue.items[i].traceId == causes[i].context.traceId
      && queue.items[i].parentId == causes[i].id && queue.items[i].parentStartTs == causes[i].startingTs
  {
    o := Pass;
    for k := 0 to |causes|
      invariant o == Pass && tracer.Valid() && AllValid(queue.items) && |queue.items| == k
      invariant forall i :: 0 <= i < k ==>
        && queue.items[i].traceId == causes[i].context.traceId
        && queue.items[i].parentId == causes[i].id && queue.items[i].parentStartTs == causes[i].startingTs
    {
      tracer.SpanFacts(causes[k]);
      tracer.SpansAreOld();
      ghost var before := queue.items;
      o := PushPropagateContext(queue, causes[k]);
      assert forall i :: 0 <= i < k ==> queue.items[i] == before[i];
    }
  }

  /** The spans that were announced become the parents of the receiving span and of its copies: the first of the span,
      the following ones of the copies, as long as they started before the span; and no receiver is exported before
      the span that caused it. */
  method AnnounceAndFinish(host: HostSpanner, causes: seq<EventSpan>) returns (o: Outcome, ghost copies: seq<EventSpan>)
    requires host.tracer.Valid() && host.Pending() && host.pendingHostCallSpan != null
    requires host.pendingHostCallSpan.kernelReceive
    requires host.fromNicReceivesQueue.items == [] && !host.fromNicReceivesQueue.closed
    requires forall i :: 0 <= i < |causes| ==> causes[i] in host.tracer.started
    modifies host.tracer, host.tracer.exporter, host.tracer.traces.Values, (set s | s in host.tracer.started :: s.context),
             host.fromNicReceivesQueue
    ensures o == if causes == [] || old(causes[0].context.traceId) == old(host.pendingSpan.context.traceId) then Fail else Pass
    ensures o == Pass ==> host.tracer.Valid() && 1 + |copies| <= |causes|
    ensures o == Pass ==> forall i :: 1 <= i < 1 + |copies| ==> causes[i].startingTs < host.pendingSpan.startingTs
    ensures o == Pass && 1 + |copies| < |causes| ==> causes[1 + |copies|].startingTs >= host.pendingSpan.startingTs
    ensures o == Pass ==>
      && host.pendingSpan.id in host.tracer.done && host.tracer.done[host.pendingSpan.id] == causes[0].id
      && host.pendingSpan.context.traceId == old(causes[0].context.traceId)
    ensures o == Pass ==> forall i :: 0 <= i < |copies| ==>
      && copies[i].id in host.tracer.done && host.tracer.done[copies[i].id] == causes[1 + i].id
      && copies[i].context.traceId == old(causes[1 + i].context.traceId)
    ensures o == Pass && host.pendingSpan.id in host.tracer.exportedSpans ==> causes[0].id in host.tracer.exportedSpans
    ensures o == Pass ==> forall i :: 0 <= i < |copies| && copies[i].id in host.tracer.exportedSpans ==>
      causes[1 + i].id in host.tracer.exportedSpans
  {
    o := AnnounceAll(host.tracer, host.fromNicReceivesQueue, causes);
    o, copies := host.FinishPendingSpan();
    if o == Pass {
      if host.pendingSpan.id in host.tracer.exportedSpans {
        host.tracer.ParentExported(host.pendingSpan.id);
      }
      forall i | 0 <= i < |copies| && copies[i].id in host.tracer.exportedSpans
        ensures causes[1 + i].id in host.tracer.exportedSpans
      {
        host.tracer.ParentExported(copies[i].id);
      }
    }
  }
}
