/**
 The tracer: it exports a span only after its parent, and it keeps the traces.
 */
module Tracer {
  import opened Wrappers
  import opened Spans
  import opened Grounded
  import opened Scheduler
  import opened TraceBook

  class Tracer {
    var traces: map<nat, Trace>
    var exportedSpans: set<nat>
    var waitingList: Waiting
    const exporter: Exporter
    // the id counters of the trace environment
    var nextSpanId: nat
    var nextTraceId: nat
    /** All spans started so far. */
    ghost var started: set<EventSpan>
    /** What was done to the traces so far. */
    ghost var run: Run
    /** Every finished span with the parent it had then, 0 for none. */
    ghost var done: map<nat, nat>
    /** The order in which the spans were finished. */
    ghost var order: Order

    constructor (exporter: Exporter)
      requires exporter.contextMap == {} && exporter.spanMap == {} && exporter.log == []
      ensures this.exporter == exporter && Valid() && started == {} && done == map[] && traces == map[]
    {
      this.exporter := exporter;
      traces, exportedSpans, waitingList, done, order, started := map[], {}, map[], map[], Order(map[], 0), {};
      nextSpanId, nextTraceId, run := 1, 1, Begin;
    }

    // -------------------------------------------------------------- the invariant

    ghost function Links(): map<EventSpan, Link>
      reads this`started, started, set s | s in started :: s.context
    {
      map s | s in started :: Link(s.context.traceId, s.Parent())
    }

    ghost function Held(): map<nat, Members>
      reads this`traces, traces.Values
    {
      map t | t in traces :: traces[t].spans
    }

    /** The traces and contexts as they are, as a value. */
    ghost function Now(): Ledger
      reads this`done, this`traces, this`started, this`nextSpanId, this`nextTraceId
      reads traces.Values, started, set s | s in started :: s.context
    {
      Ledger(Book(done, Links(), Held()), nextSpanId, nextTraceId)
    }

    /** No two spans share a context and no two entries a trace. */
    ghost predicate Shaped()
      reads this`traces, this`started, traces.Values, started, set s | s in started :: s.context
    {
      && (forall t :: t in traces ==> traces[t].ident == t)
      && (forall s :: s in started ==> s.context.Valid())
      && (forall s, r :: s in started && r in started && s != r ==> s.context != r.context)
    }

    ghost predicate Valid()
      reads this, exporter, traces.Values, started, set s | s in started :: s.context
    {
      Scheduled({}, {}) && Waits(started) && Shaped() && Recorded()
    }

    ghost predicate Recorded()
      reads this, traces.Values, started, set s | s in started :: s.context
    {
      Legal(run) && Last(run) == Now()
    }

    ghost function Snap(): Snapshot
      reads this`done, this`order, this`exportedSpans, this`waitingList, exporter
    {
      Snapshot(done, order, exportedSpans, waitingList, exporter.log)
    }

    /** The exporter knows exactly the exported spans. */
    ghost predicate Scheduled(due: set<nat>, busy: set<nat>)
      reads this`done, this`order, this`exportedSpans, this`waitingList, exporter
    {
      State(Snap(), due, busy) && exporter.contextMap == exportedSpans && exporter.spanMap == {}
    }

    /** The parent of a finished span is still the one recorded. */
    ghost predicate Linked(spans: set<EventSpan>)
      reads this`done, spans, set s | s in spans :: s.context
    {
      forall s :: s in spans ==> s.context.Valid() && (s.id in done ==> done[s.id] == s.Parent())
    }

    ghost predicate Waits(spans: set<EventSpan>)
      reads this`waitingList
    {
      forall p, i :: p in waitingList && 0 <= i < |waitingList[p]| ==> waitingList[p][i] in spans
    }

    /** Between operations the tracer and the exporter agree, and what they agree on depends only on
        which spans are finished. */
    lemma TracerAndExporterAgree()
      requires Valid()
      ensures exporter.contextMap == exportedSpans == Elements(exporter.log) == Exportable(done)
      ensures exporter.spanMap == {} && ParentFirst(done, exporter.log)
      ensures forall p :: p in waitingList ==> p !in exportedSpans
      ensures forall x :: x in done && x !in exportedSpans ==> WaitsFor(waitingList, done[x], x)
    {
      assert Sound(Snap(), {}, {});
      ExportsAreGrounded(Snap());
    }

    /** All objects the tracer got since are new: what a client may modify again after an operation. */
    twostate predicate OnlyNew()
      reads this`traces, this`started, started
    {
      && (forall t :: t in traces.Values ==> t in old(traces.Values) || fresh(t))
      && old(started) <= started && (forall s :: s in started && s !in old(started) ==> fresh(s.context))
    }

    // -------------------------------------------------------------- exporting

    method InsertExportedSpan(spanId: nat) returns (o: Outcome)
      modifies this`exportedSpans
      ensures o == if spanId != 0 && spanId !in old(exportedSpans) then Pass else Fail
      ensures exportedSpans == if o == Pass then old(exportedSpans) + {spanId} else old(exportedSpans)
    {
      if spanId == 0 || spanId in exportedSpans {
        return Fail;
      }
      exportedSpans := exportedSpans + {spanId};
      o := Pass;
    }

    method WasParentExported(child: EventSpan) returns (was: bool)
      requires child.context.Valid()
      ensures was == (child.Parent() == 0 || child.Parent() in exportedSpans)
    {
      was := !child.context.hasParent || child.context.parentId in exportedSpans;
    }

    method MarkSpanAsWaitingForParent(span: EventSpan)
      requires span.context.Valid()
      modifies this`waitingList
      ensures if span.Parent() == 0 then waitingList == old(waitingList)
              else if span.Parent() in old(waitingList) then
                waitingList == old(waitingList)[span.Parent() := old(waitingList)[span.Parent()] + [span]]
              else waitingList == old(waitingList)[span.Parent() := [span]]
    {
      if !span.context.hasParent {
        return;
      }
      var parentId := span.context.parentId;
      if parentId in waitingList {
        waitingList := waitingList[parentId := waitingList[parentId] + [span]];
      } else {
        waitingList := waitingList[parentId := [span]];
      }
    }

    /** MarkSpanAsExported and ExportSpan; throws if the span was exported before. */
    method ExportNow(span: EventSpan) returns (o: Outcome)
      requires exporter.contextMap == exportedSpans && exporter.spanMap == {} && span.id != 0
      requires span.context.Valid() && (span.Parent() == 0 || span.Parent() in exportedSpans)
      modifies this`exportedSpans, exporter
      ensures o == if span.id in old(exportedSpans) then Fail else Pass
      ensures Snap() == if o == Pass then Exported(old(Snap()), span.id) else old(Snap())
      ensures exporter.contextMap == exportedSpans && exporter.spanMap == {}
    {
      o := InsertExportedSpan(span.id);
      if o == Pass {
        o := exporter.ExportSpan(span);
      }
    }

    /** Inside the loop over the waiters of `p`: the first `k` and what hangs below them is exported. */
    ghost predicate Progress(waiters: seq<EventSpan>, k: nat, p: nat, e0: set<nat>, w0: Waiting)
      requires k <= |waiters|
      reads this
    {
      && Below(done, e0, exportedSpans, p) && waitingList == Without(w0, e0, exportedSpans)
      && (forall i :: 0 <= i < k ==> waiters[i].id in exportedSpans)
      && (forall i :: k <= i < |waiters| ==> waiters[i].id !in exportedSpans)
    }

    /** A waiter of `p` and everything below it. */
    method ExportWaiter(waiter: EventSpan, ghost p: nat, ghost inner: set<nat>, ghost spans: set<EventSpan>)
        returns (o: Outcome)
      requires Scheduled(inner, inner) && inner <= exportedSpans && p in inner && p != 0 && Linked(spans) && Waits(spans)
      requires waiter in spans && waiter.id in done && done[waiter.id] == p && Next(Snap(), waiter.id, inner)
      modifies this`exportedSpans, this`waitingList, exporter
      ensures o == Pass && Scheduled(inner, inner) && Waits(spans) && old(exporter.log) <= exporter.log
      ensures Below(done, old(exportedSpans) + {waiter.id}, exportedSpans, waiter.id)
      ensures waitingList == Without(old(waitingList), old(exportedSpans), exportedSpans)
      decreases done.Keys - exportedSpans, 0
    {
      ExportOne(Snap(), inner, waiter.id);
      if waiter.context.parentId == 0 || waiter.context.parentId !in exportedSpans {
        return Fail;
      }
      ghost var e1 := exportedSpans;
      o := ExportNow(waiter);
      assert e1 + {waiter.id} - {waiter.id} == e1;
      o := ExportWaitingForParentVec(waiter, inner, spans);
    }

    /** One turn of the loop below. */
    method ExportTurn(waiters: seq<EventSpan>, k: nat, ghost p: nat, ghost inner: set<nat>,
                      ghost spans: set<EventSpan>, ghost e0: set<nat>, ghost w0: Waiting) returns (o: Outcome)
      requires Scheduled(inner, inner) && inner <= e0 && p in inner && Linked(spans) && Waits(spans)
      requires k < |waiters| && Progress(waiters, k, p, e0, w0) && waiters[k] in spans
      requires forall i :: 0 <= i < |waiters| ==> waiters[i].id in done && done[waiters[i].id] == p
      requires forall i, j :: 0 <= i < j < |waiters| ==> waiters[i].id != waiters[j].id
      requires p in waitingList && waitingList[p] == waiters
      modifies this`exportedSpans, this`waitingList, exporter
      ensures o == Pass && Scheduled(inner, inner) && Waits(spans) && Progress(waiters, k + 1, p, e0, w0)
      ensures old(exporter.log) <= exporter.log
      decreases done.Keys - exportedSpans, 1
    {
      ghost var e1 := exportedSpans;
      WaiterIsNext(Snap(), inner, p, k);
      o := ExportWaiter(waiters[k], p, inner, spans);
      Descend(done, w0, e0, e1, exportedSpans, p, waiters[k].id);
      SiblingsStay(done, waiters, e1, exportedSpans, p, k);
    }

    /** The loop over the waiters of `p`. */
    method ExportList(waiters: seq<EventSpan>, ghost p: nat, ghost inner: set<nat>, ghost spans: set<EventSpan>)
        returns (o: Outcome)
      requires Scheduled(inner, inner) && inner <= exportedSpans && p in inner && Linked(spans) && Waits(spans)
      requires p in waitingList && waitingList[p] == waiters && Progress(waiters, 0, p, exportedSpans, waitingList)
      modifies this`exportedSpans, this`waitingList, exporter
      ensures o == Pass && Scheduled(inner, inner) && Waits(spans)
      ensures Progress(waiters, |waiters|, p, old(exportedSpans), old(waitingList)) && old(exporter.log) <= exporter.log
      decreases done.Keys - exportedSpans, 2
    {
      ghost var e0, w0 := exportedSpans, waitingList;
      WaiterFacts(Snap(), inner, inner, p);
      o := Pass;
      for k := 0 to |waiters|
        invariant o == Pass && Scheduled(inner, inner) && Waits(spans) && Progress(waiters, k, p, e0, w0)
        invariant old(exporter.log) <= exporter.log
      {
        o := ExportTurn(waiters, k, p, inner, spans, e0, w0);
      }
    }

    /** The end of the cascade below `parentId`: its list is worked off. */
    method EraseList(parentId: nat, ghost waiters: seq<EventSpan>, ghost active: set<nat>, ghost spans: set<EventSpan>,
                     ghost e0: set<nat>, ghost w0: Waiting)
      requires parentId !in active && parentId in e0 && parentId in w0 && w0[parentId] == waiters
      requires Scheduled(active + {parentId}, active + {parentId}) && Waits(spans)
      requires Progress(waiters, |waiters|, parentId, e0, w0)
      modifies this`waitingList
      ensures Scheduled(active, active) && Waits(spans) && waitingList == Without(w0, e0 - {parentId}, exportedSpans)
    {
      ListDone(Snap(), active, parentId);
      KeyErased(done, w0, e0, exportedSpans, parentId);
      waitingList := map q | q in waitingList && q != parentId :: waitingList[q];
    }

    method ExportWaitingForParentVec(parent: EventSpan, ghost active: set<nat>, ghost spans: set<EventSpan>)
        returns (o: Outcome)
      requires parent.id in exportedSpans && parent.id !in active && active <= exportedSpans
      requires Scheduled(active + {parent.id}, active) && Linked(spans) && Waits(spans)
      modifies this`exportedSpans, this`waitingList, exporter
      ensures o == Pass && Scheduled(active, active) && Waits(spans) && old(exporter.log) <= exporter.log
      ensures Below(done, old(exportedSpans), exportedSpans, parent.id)
      ensures waitingList == Without(old(waitingList), old(exportedSpans) - {parent.id}, exportedSpans)
      decreases done.Keys - exportedSpans, 3
    {
      var parentId := parent.id;
      if parentId !in waitingList {
        NothingWaits(Snap(), active, parentId);
        return Pass;
      }
      var waiters := waitingList[parentId];
      ghost var e0, w0 := exportedSpans, waitingList;
      StartList(Snap(), active, parentId);
      o := ExportList(waiters, parentId, active + {parentId}, spans);
      EraseList(parentId, waiters, active, spans, e0, w0);
    }

    // -------------------------------------------------------------- traces

    /** Books an operation that led to the ledger `l`. */
    ghost method Record(op: Op, l: Ledger)
      requires Now() == l && Legal(Step(run, op, l))
      modifies this`run
      ensures Recorded() && Goes(old(run), op, run)
    {
      run := Step(run, op, l);
    }

    method SafeToDeleteTrace(traceId: nat) returns (safe: bool)
      ensures safe == (traceId in traces && traces[traceId].spans.Keys <= exportedSpans)
    {
      safe := traceId in traces && forall i :: i in traces[traceId].spans ==> i in exportedSpans;
    }

    method RemoveTrace(traceId: nat) returns (o: Outcome)
      modifies this`traces
      ensures o == if traceId in old(traces) then Pass else Fail
      ensures traces == old(traces) - {traceId}
    {
      if traceId !in traces {
        return Fail;
      }
      traces := traces - {traceId};
      o := Pass;
    }

    method AddSpanToTraceIfTraceExists(traceId: nat, span: EventSpan) returns (o: Outcome)
      requires forall t :: t in traces ==> traces[t].ident == t
      modifies set t | t in traces && t == traceId :: traces[t]
      ensures o == if traceId in old(Held()) && span.id in old(Held())[traceId] then Fail else Pass
      ensures Held() == if o == Pass then Joined(old(Held()), traceId, span) else old(Held())
      ensures o == Pass ==> forall t :: t in traces ==>
        traces[t].spans == if t == traceId then old(traces[t].spans)[span.id := span] else old(traces[t].spans)
    {
      if traceId !in traces {
        return Pass;
      }
      o := traces[traceId].AddSpan(span);
    }

    /** What the run so far says about a started span. */
    lemma SpanFacts(span: EventSpan)
      requires Shaped() && Recorded() && span in started
      ensures 0 < span.id < nextSpanId && span in Links()
      ensures Links()[span] == Link(span.context.traceId, span.Parent())
      ensures forall s :: s in started && s.id == span.id ==> s == span
    {
      EveryRunOk(run);
      assert span in Links();
      forall s | s in started && s.id == span.id ensures s == span {
        assert s in Links();
      }
    }

    lemma DoneStayLinked()
      requires Shaped() && Recorded()
      ensures Linked(started)
    {
      EveryRunOk(run);
      forall s | s in started && s.id in done ensures done[s.id] == s.Parent() {
        assert s in Links();
      }
    }

    /** The span is finished and exported; what waits for it is due. */
    method StartExport(span: EventSpan) returns (o: Outcome)
      requires Scheduled({}, {}) && span.id != 0 && span.context.Valid()
      requires span.Parent() == 0 || span.Parent() in exportedSpans
      requires span.id in done ==> span.id in exportedSpans
      modifies this`exportedSpans, this`done, this`order, exporter
      ensures o == if span.id in old(done) then Fail else Pass
      ensures o == Fail ==> Scheduled({}, {}) && Snap() == old(Snap())
      ensures o == Pass ==> Scheduled({} + {span.id}, {}) && exportedSpans == old(exportedSpans) + {span.id}
      ensures o == Pass ==> done == old(done)[span.id := span.Parent()] && order == old(order).Then(span.id)
      ensures o == Pass ==> exporter.log == old(exporter.log) + [span.id]
    {
      ghost var s, p := Snap(), span.Parent();
      if span.id !in done {
        FinishReady(s, span.id, p);
      } else {
        ExportedAreDone();
      }
      o := ExportNow(span);
      if o == Pass {
        done, order := done[span.id := p], order.Then(span.id);
        assert Snap() == Exported(WithDone(s, span.id, p), span.id);
        assert {} + {span.id} == {span.id};
      }
    }

    lemma StillLinked(before: map<nat, nat>, span: EventSpan)
      requires done == before[span.id := span.Parent()]
      requires forall s :: s in started ==> s.context.Valid() && (s.id in before ==> before[s.id] == s.Parent())
      requires forall s :: s in started && s.id == span.id ==> s == span
      ensures Linked(started)
    {
    }

    /** Everything below an exported span. */
    method Cascade(span: EventSpan) returns (o: Outcome)
      requires span.id in exportedSpans && Scheduled({} + {span.id}, {}) && Linked(started) && Waits(started)
      modifies this`exportedSpans, this`waitingList, exporter
      ensures o == Pass && Scheduled({}, {}) && Waits(started)
      ensures span.id in exportedSpans && old(exporter.log) <= exporter.log
    {
      o := ExportWaitingForParentVec(span, {}, started);
    }

    method FinishNow(span: EventSpan) returns (o: Outcome)
      requires Scheduled({}, {}) && Waits(started) && Linked(started)
      requires span in started && span.id != 0
      requires forall s :: s in started && s.id == span.id ==> s == span
      requires span.Parent() == 0 || span.Parent() in exportedSpans
      requires span.id in done ==> span.id in exportedSpans
      modifies this`exportedSpans, this`waitingList, this`done, this`order, exporter
      ensures o == if span.id in old(done) then Fail else Pass
      ensures Scheduled({}, {}) && Waits(started)
      ensures o == Fail ==> Snap() == old(Snap())
      ensures o == Pass ==> done == old(done)[span.id := old(span.Parent())] && span.id in exportedSpans
      ensures o == Pass ==> order == old(order).Then(span.id)
      ensures o == Pass ==> old(exporter.log) + [span.id] <= exporter.log
    {
      ghost var before := done;
      o := StartExport(span);
      if o == Pass {
        StillLinked(before, span);
        o := Cascade(span);
      }
    }

    method Park(span: EventSpan)
      requires span.context.Valid() && span.Parent() != 0
      modifies this`waitingList
      ensures waitingList == Parked(old(waitingList), span.Parent(), span)
      ensures span in started && old(Waits(started)) ==> Waits(started)
    {
      MarkSpanAsWaitingForParent(span);
    }

    /** A span that is finished already is parked once more. */
    method FinishLater(span: EventSpan)
      requires Scheduled({}, {}) && Waits(started)
      requires span in started && span.id != 0 && span.context.Valid()
      requires span.Parent() != 0 && span.Parent() !in exportedSpans
      modifies this`waitingList, this`done, this`order
      ensures waitingList == Parked(old(waitingList), span.Parent(), span)
      ensures span.id !in old(done) ==>
        && Scheduled({}, {}) && Waits(started) && done == old(done)[span.id := span.Parent()]
        && order == old(order).Then(span.id) && span.id !in exportedSpans
      ensures span.id in old(done) ==> done == old(done) && order == old(order)
    {
      ghost var s, p := Snap(), span.Parent();
      Park(span);
      if span.id !in done {
        done, order := done[span.id := p], order.Then(span.id);
        FinishParked(s, span, p);
        ParkedIsLater(s, span, p);
        assert Snap() == WithDone(s, span.id, p).(w := Parked(s.w, p, span));
      }
    }

    lemma ExportedAreDone()
      requires Scheduled({}, {})
      ensures exportedSpans == Exportable(done) && exportedSpans <= done.Keys
    {
      ExportsAreGrounded(Snap());
    }

    /** The removal at the end of MarkSpanAsDone. */
    method RemoveIfSafe(traceId: nat) returns (o: Outcome)
      requires Shaped() && Recorded() && exportedSpans <= done.Keys
      modifies this`traces, this`run
      ensures o == Pass && Shaped() && Recorded()
      ensures traces == if traceId in old(traces) && old(traces)[traceId].spans.Keys <= exportedSpans
                        then old(traces) - {traceId} else old(traces)
    {
      o := Pass;
      var safe := SafeToDeleteTrace(traceId);
      if safe {
        ghost var l := Now();
        assert l.book.traces[traceId] == traces[traceId].spans;
        o := RemoveTrace(traceId);
        assert Held() == l.book.traces - {traceId};
        Record(Op.Remove(traceId), l.(book := Removed(l.book, traceId)));
      }
    }

    method CleanUp(traceId: nat) returns (o: Outcome)
      requires Valid()
      modifies this`traces, this`run
      ensures o == Pass && Valid()
      ensures traces == if traceId in old(traces) && old(traces)[traceId].spans.Keys <= exportedSpans
                        then old(traces) - {traceId} else old(traces)
    {
      ExportedAreDone();
      o := RemoveIfSafe(traceId);
    }

    /** A finished span is exported exactly if its parent is, or it has none. */
    lemma DoneAndReady(span: EventSpan)
      requires Scheduled({}, {}) && span.id in done && done[span.id] == span.Parent()
      ensures span.id in exportedSpans <==> span.Parent() == 0 || span.Parent() in exportedSpans
    {
      assert Sound(Snap(), {}, {});
      ExportsAreGrounded(Snap());
      if span.id in exportedSpans && span.Parent() != 0 {
        ParentIsGrounded(done, span.id);
      }
    }

    /** After the first MarkSpanAsDone of the span. */
    ghost predicate FirstTime(span: EventSpan, before: Snapshot)
      reads this`done, this`order, this`exportedSpans, exporter, span, span.context
    {
      && done == before.d[span.id := span.Parent()] && order == before.order.Then(span.id)
      && exportedSpans == Exportable(done) && exportedSpans <= done.Keys
      && before.log + (if span.id in exportedSpans then [span.id] else []) <= exporter.log
    }

    /** After a second MarkSpanAsDone of the span: it throws if the span is exported, and parks the span
        once more if not. */
    ghost predicate Again(span: EventSpan, before: Snapshot)
      reads this`done, this`order, this`exportedSpans, this`waitingList, exporter, span, span.context
    {
      Snap() == if span.id in before.exported then before else before.(w := Parked(before.w, span.Parent(), span))
    }

    /** What a MarkSpanAsDone does to the spans. */
    ghost predicate Went(span: EventSpan, before: Snapshot, o: Outcome, was: bool)
      reads this`done, this`order, this`exportedSpans, this`waitingList, this`started, exporter, span, span.context
    {
      match before
      case Snapshot(d, _, exported, _, _) =>
        && o == (if span.id in exported then Fail else Pass) && was == (span.id in exportedSpans)
        && if span.id in d then Again(span, before) else Scheduled({}, {}) && Waits(started) && FirstTime(span, before)
    }

    /** Everything in MarkSpanAsDone but the traces. */
    method Finish(span: EventSpan) returns (o: Outcome, was: bool)
      requires Scheduled({}, {}) && Waits(started) && Linked(started)
      requires span in started && span.id != 0
      requires forall s :: s in started && s.id == span.id ==> s == span
      modifies this`exportedSpans, this`waitingList, this`done, this`order, exporter
      ensures Went(span, old(Snap()), o, was)
    {
      ExportedAreDone();
      if span.id in done {
        DoneAndReady(span);
      }
      was := WasParentExported(span);
      if was {
        o := FinishNow(span);
      } else {
        FinishLater(span);
        o := Pass;
      }
      if span.id !in old(done) {
        ExportedAreDone();
      }
    }

    lemma BeforeFinish(span: EventSpan)
      requires Shaped() && Recorded() && span in started
      ensures Linked(started) && span.id != 0 && forall s :: s in started && s.id == span.id ==> s == span
      ensures span.id !in done ==>
        Legal(Step(run, Op.Finish(span),
                   Ledger(Book(done[span.id := span.Parent()], Links(), Held()), nextSpanId, nextTraceId)))
    {
      SpanFacts(span);
      DoneStayLinked();
    }

    /** The contexts and traces, and whether they are as they should be. */
    ghost function Kept(): (map<EventSpan, Link>, map<nat, Members>, bool)
      reads this`traces, this`started, traces.Values, started, set s | s in started :: s.context
    {
      (Links(), Held(), Shaped())
    }

    /** Exporting touches no trace and no context. */
    method FinishKeeping(span: EventSpan) returns (o: Outcome, was: bool)
      requires Scheduled({}, {}) && Waits(started) && Linked(started)
      requires span in started && span.id != 0
      requires forall s :: s in started && s.id == span.id ==> s == span
      modifies this`exportedSpans, this`waitingList, this`done, this`order, exporter
      ensures Went(span, old(Snap()), o, was)
      ensures Kept() == old(Kept())
    {
      o, was := Finish(span);
    }

    /** MarkSpanAsDone before it looks at the trace. */
    method FinishRecorded(span: EventSpan) returns (o: Outcome, was: bool)
      requires Valid() && span in started
      modifies this`exportedSpans, this`waitingList, this`done, this`order, this`run, exporter
      ensures Went(span, old(Snap()), o, was) && if span.id in old(done) then run == old(run) else Shaped() && Recorded()
    {
      BeforeFinish(span);
      ghost var l := Ledger(Book(done[span.id := span.Parent()], Links(), Held()), nextSpanId, nextTraceId);
      o, was := FinishKeeping(span);
      if span.id !in old(done) {
        Record(Op.Finish(span), l);
      }
    }

    /** A second MarkSpanAsDone of a span that still waits finds its list. */
    lemma DoneIsListed(span: EventSpan)
      requires Valid() && span in started && span.id in done && span.id !in exportedSpans
      ensures span.Parent() in waitingList
    {
      assert Sound(Snap(), {}, {});
      DoneStayLinked();
    }

    /** MarkSpanAsDone before it looks at the trace. */
    method FinishSpan(span: EventSpan) returns (o: Outcome, was: bool)
      requires Valid() && span in started
      modifies this`exportedSpans, this`waitingList, this`done, this`order, this`run, exporter
      ensures o == (if span.id in old(exportedSpans) then Fail else Pass) && was == (span.id in exportedSpans)
      ensures span.id !in old(done) ==>
        && Valid() && done == old(done)[span.id := span.Parent()] && exportedSpans == Exportable(done)
        && order.rank == old(order.rank)[span.id := old(order.next)] && order.next == old(order.next) + 1
        && old(exporter.log) + (if span.id in exportedSpans then [span.id] else []) <= exporter.log
      ensures span.id in old(done) ==>
        && done == old(done) && order == old(order) && exportedSpans == old(exportedSpans)
        && exporter.log == old(exporter.log) && run == old(run)
      ensures span.id in old(done) && span.id in old(exportedSpans) ==> waitingList == old(waitingList)
      ensures span.id in old(done) && span.id !in old(exportedSpans) ==>
        && span.Parent() in old(waitingList)
        && waitingList == old(waitingList)[span.Parent() := old(waitingList)[span.Parent()] + [span]]
    {
      if span.id in done && span.id !in exportedSpans {
        DoneIsListed(span);
      }
      o, was := FinishRecorded(span);
    }

    /** The trace of the span goes if the span and all others in it are exported. */
    method MarkSpanAsDone(span: EventSpan) returns (o: Outcome)
      requires Valid() && span in started
      modifies this`exportedSpans, this`waitingList, this`done, this`order, this`traces, this`run, exporter
      ensures o == if span.id in old(done) && span.id in old(exportedSpans) then Fail else Pass
      // the first time
      ensures span.id !in old(done) ==>
        && Valid() && done == old(done)[span.id := span.Parent()] && exportedSpans == Exportable(done)
        && order.rank == old(order.rank)[span.id := old(order.next)] && order.next == old(order.next) + 1
        && old(exporter.log) + (if span.id in exportedSpans then [span.id] else []) <= exporter.log
      ensures span.id !in old(done) ==>
        traces == if span.id in exportedSpans && span.context.traceId in old(traces)
                     && old(traces)[span.context.traceId].spans.Keys <= exportedSpans
                  then old(traces) - {span.context.traceId} else old(traces)
      // once more: a span that still waits is parked a second time
      ensures span.id in old(done) ==>
        && done == old(done) && order == old(order) && exportedSpans == old(exportedSpans)
        && exporter.log == old(exporter.log) && traces == old(traces) && run == old(run)
      ensures span.id in old(done) && span.id in old(exportedSpans) ==> waitingList == old(waitingList)
      ensures span.id in old(done) && span.id !in old(exportedSpans) ==>
        && span.Parent() in old(waitingList)
        && waitingList == old(waitingList)[span.Parent() := old(waitingList)[span.Parent()] + [span]]
    {
      ExportedAreDone();
      var was;
      o, was := FinishSpan(span);
      if was && o == Pass {
        o := CleanUp(span.context.traceId);
      }
    }

    /** An exported span has no parent or an exported one. */
    lemma ParentExported(x: nat)
      requires Valid() && x in exportedSpans
      ensures x in done && (done[x] == 0 || done[x] in exportedSpans)
    {
      ExportsAreGrounded(Snap());
      if done[x] != 0 {
        ParentIsGrounded(done, x);
      }
    }

    /** Of two spans with the same parent, the one finished first is exported first. */
    lemma SiblingsKeepOrder(x: nat, y: nat)
      requires Valid() && x in done && y in done && done[x] == done[y] && x in order.rank && y in order.rank
      requires order.rank[x] < order.rank[y]
      ensures y in exporter.log ==> x in exporter.log
      ensures forall i, j ::
        0 <= i < |exporter.log| && 0 <= j < |exporter.log| && exporter.log[i] == x && exporter.log[j] == y ==> i < j
    {
      FirstFinishedFirst(Snap(), x, y);
    }

    // -------------------------------------------------------------- starting spans

    /** The span's id was drawn, but the span is not registered with a trace yet. */
    ghost predicate Unregistered(span: EventSpan)
      reads this`started, this`done, this`nextSpanId
    {
      span !in started && 0 < span.id < nextSpanId && span.id !in done && forall r :: r in started ==> r.id != span.id
    }

    lemma SpansAreOld()
      requires Shaped() && Recorded()
      ensures 0 < nextSpanId && (forall r :: r in started ==> r.id < nextSpanId) && nextSpanId !in done
      ensures forall r :: r in started ==> r.context.traceId != 0
      ensures forall t :: t in traces ==> t < nextTraceId
    {
      EveryRunOk(run);
      forall r | r in started ensures r.id < nextSpanId && r.context.traceId != 0 {
        assert r in Links();
      }
      forall t | t in traces ensures t < nextTraceId {
        assert t in Held();
      }
    }

    /** The span constructors draw the next id; a copy shares the context of its original. */
    method NewSpan(startingTs: nat, context: TraceContext) returns (span: EventSpan)
      requires Shaped() && Recorded()
      modifies this`nextSpanId, this`run
      ensures Shaped() && Recorded() && fresh(span) && Goes(old(run), Op.Draw, run)
      ensures Unregistered(span) && span.startingTs == startingTs && span.context == context
    {
      SpansAreOld();
      span := new EventSpan(nextSpanId, startingTs, context);
      ghost var l := Now().(nextSpan := nextSpanId + 1);
      assert Legal(Step(run, Op.Draw, l));
      nextSpanId := nextSpanId + 1;
      Record(Op.Draw, l);
    }

    lemma BeforeStart(span: EventSpan)
      requires Shaped() && Recorded() && Unregistered(span)
      ensures Legal(Step(run, Op.Start(span),
                             Ledger(Started(Now().book, span, nextTraceId), nextSpanId, nextTraceId + 1)))
      ensures nextTraceId !in traces
    {
      SpansAreOld();
    }

    method InsertTrace(newTrace: Trace) returns (o: Outcome)
      modifies this`traces
      ensures o == if newTrace.ident in old(traces) then Fail else Pass
      ensures traces == if o == Pass then old(traces)[newTrace.ident := newTrace] else old(traces)
    {
      if newTrace.ident in traces {
        return Fail;
      }
      traces := traces[newTrace.ident := newTrace];
      o := Pass;
    }

    /** The span becomes one of the started ones; its trace is in place. */
    ghost method Enroll(span: EventSpan, op: Op, l: Ledger)
      requires Shaped() && span !in started && span.context.Valid()
      requires forall r :: r in started ==> r.context != span.context
      requires l == Ledger(Book(done, Links()[span := Link(span.context.traceId, span.Parent())], Held()),
                           nextSpanId, nextTraceId)
      requires Legal(Step(run, op, l))
      modifies this`started, this`run
      ensures Shaped() && Recorded() && started == old(started) + {span} && Goes(old(run), op, run)
    {
      started, run := started + {span}, Step(run, op, l);
      assert Links() == l.book.links;
    }

    method PlaceTrace(span: EventSpan, traceId: nat) returns (o: Outcome)
      requires Shaped() && traceId !in traces && traceId == nextTraceId
      modifies this`traces, this`nextTraceId
      ensures o == Pass && Shaped() && nextTraceId == old(nextTraceId) + 1
      ensures Held() == old(Held())[traceId := Only(span)]
      ensures forall t :: t in traces.Values ==> t in old(traces.Values) || fresh(t)
      ensures traceId in traces && traces - {traceId} == old(traces) && traces[traceId].spans == map[span.id := span]
    {
      var newTrace := new Trace(traceId, span);
      o := InsertTrace(newTrace);
      nextTraceId := nextTraceId + 1;
    }

    method StartTrace(span: EventSpan, traceId: nat) returns (o: Outcome)
      requires Shaped() && Recorded() && Unregistered(span) && traceId == nextTraceId
      requires span.context.Valid() && !span.context.hasParent && span.context.traceId == traceId
      requires forall r :: r in started ==> r.context != span.context
      modifies this`traces, this`nextTraceId, this`started, this`run
      ensures o == Pass && Shaped() && Recorded()
      ensures started == old(started) + {span} && Goes(old(run), Op.Start(span), run)
      ensures forall t :: t in traces.Values ==> t in old(traces.Values) || fresh(t)
      ensures traceId !in old(traces) && traceId in traces && traces - {traceId} == old(traces)
      ensures traces[traceId].spans == map[span.id := span]
    {
      BeforeStart(span);
      ghost var b := Now().book;
      o := PlaceTrace(span, traceId);
      Enroll(span, Op.Start(span), Ledger(Started(b, span, traceId), nextSpanId, nextTraceId));
    }

    /** `takesFirst` is whether the new span accepts its first event; if not, this throws. */
    method StartSpanInternal(startingTs: nat, takesFirst: bool) returns (o: Outcome, span: EventSpan)
      requires Shaped() && Recorded()
      modifies this`traces, this`nextSpanId, this`nextTraceId, this`started, this`run
      ensures o == (if takesFirst then Pass else Fail) && Shaped() && Recorded()
      ensures OnlyNew() && run.Step? && Goes(old(run), Op.Draw, run.before)
      ensures o == Fail ==> traces == old(traces) && started == old(started) && Goes(run.before, Op.DrawTrace, run)
      ensures o == Pass ==> fresh(span) && span.startingTs == startingTs && fresh(span.context)
      ensures o == Pass ==> !span.context.hasParent && span.id !in done
      ensures o == Pass ==> started == old(started) + {span} && Goes(run.before, Op.Start(span), run)
      ensures o == Pass ==> span.context.traceId == old(nextTraceId) && span.context.traceId !in old(traces)
      ensures o == Pass ==> span.context.traceId in traces && traces - {span.context.traceId} == old(traces)
      ensures o == Pass ==> traces[span.context.traceId].spans == map[span.id := span]
    {
      var traceId := nextTraceId;
      var traceContext := new TraceContext(traceId);
      span := NewSpan(startingTs, traceContext);
      if !takesFirst {
        SkipTrace();
        return Fail, span;
      }
      o := StartTrace(span, traceId);
    }

    /** The trace id that was drawn remains unused. */
    method SkipTrace()
      requires Shaped() && Recorded()
      modifies this`nextTraceId, this`run
      ensures Shaped() && Recorded() && Goes(old(run), Op.DrawTrace, run)
    {
      ghost var l := Now().(nextTrace := nextTraceId + 1);
      assert Legal(Step(run, Op.DrawTrace, l));
      nextTraceId := nextTraceId + 1;
      Record(Op.DrawTrace, l);
    }

    /** Starts a trace with its first span. */
    method StartSpan(startingTs: nat, takesFirst: bool) returns (o: Outcome, span: EventSpan)
      requires Valid()
      modifies this`traces, this`nextSpanId, this`nextTraceId, this`started, this`run
      ensures o == (if takesFirst then Pass else Fail) && Valid()
      ensures OnlyNew() && run.Step? && Goes(old(run), Op.Draw, run.before)
      ensures o == Fail ==> traces == old(traces) && started == old(started) && Goes(run.before, Op.DrawTrace, run)
      ensures o == Pass ==> fresh(span) && span.startingTs == startingTs && fresh(span.context)
      ensures o == Pass ==> !span.context.hasParent && span.id !in done
      ensures o == Pass ==> started == old(started) + {span} && Goes(run.before, Op.Start(span), run)
      ensures o == Pass ==> span.context.traceId == old(nextTraceId) && span.context.traceId !in old(traces)
      ensures o == Pass ==> span.context.traceId in traces && traces - {span.context.traceId} == old(traces)
      ensures o == Pass ==> traces[span.context.traceId].spans == map[span.id := span]
    {
      o, span := StartSpanInternal(startingTs, takesFirst);
    }

    lemma BeforeStartBelow(span: EventSpan, link: Link)
      requires Shaped() && Recorded() && Unregistered(span) && link.parent != 0 && link.trace != 0
      ensures Legal(Step(run, Op.StartBelow(span, link), Now().(book := StartedBelow(Now().book, span, link))))
      ensures link.trace in traces ==> span.id !in traces[link.trace].spans
    {
      EveryRunOk(run);
      var l := Now();
      StartedBelowOk(l.book, span, link, l.nextSpan, l.nextTrace);
    }

    /** The end of StartSpanByParentInternal and of StartSpanSetParentContext. */
    method JoinTrace(span: EventSpan) returns (o: Outcome)
      requires Shaped() && Recorded() && Unregistered(span)
      requires span.context.Valid() && span.context.hasParent && span.context.traceId != 0
      requires forall r :: r in started ==> r.context != span.context
      modifies traces.Values, this`started, this`run
      ensures o == Pass && Shaped() && Recorded() && started == old(started) + {span}
      ensures Goes(old(run), Op.StartBelow(span, Link(span.context.traceId, span.context.parentId)), run)
      ensures forall t :: t in traces ==>
        traces[t].spans == if t == span.context.traceId then old(traces[t].spans)[span.id := span] else old(traces[t].spans)
    {
      ghost var link := Link(span.context.traceId, span.Parent());
      BeforeStartBelow(span, link);
      ghost var b := Now().book;
      o := AddSpanToTraceIfTraceExists(span.context.traceId, span);
      Enroll(span, Op.StartBelow(span, link), Ledger(StartedBelow(b, span, link), nextSpanId, nextTraceId));
    }

    method StartSpanByParentInternal(context: Context, startingTs: nat, takesFirst: bool)
        returns (o: Outcome, span: EventSpan)
      requires Shaped() && Recorded() && context.Valid()
      modifies traces.Values, this`nextSpanId, this`started, this`run
      ensures o == (if takesFirst then Pass else Fail) && Shaped() && Recorded()
      ensures fresh(span) && span.startingTs == startingTs && fresh(span.context) && span.id !in done
      ensures span.Parent() == context.parentId && span.context.traceId == context.traceId
      ensures o == Fail ==> started == old(started) && (forall t :: t in traces ==> traces[t].spans == old(traces[t].spans))
      ensures o == Fail ==> Goes(old(run), Op.Draw, run)
      ensures o == Pass ==> started == old(started) + {span} && run.Step? && Goes(old(run), Op.Draw, run.before)
      ensures o == Pass ==> Goes(run.before, Op.StartBelow(span, Link(context.traceId, context.parentId)), run)
      ensures o == Pass ==> forall t :: t in traces ==>
        traces[t].spans == if t == context.traceId then old(traces[t].spans)[span.id := span] else old(traces[t].spans)
    {
      var traceContext := new TraceContext.WithParent(context);
      span := NewSpan(startingTs, traceContext);
      if !takesFirst {
        return Fail, span;
      }
      o := JoinTrace(span);
    }

    method StartSpanByParentPassOnContext(context: Context, startingTs: nat, takesFirst: bool)
        returns (o: Outcome, span: EventSpan)
      requires Valid() && context.Valid()
      modifies traces.Values, this`nextSpanId, this`started, this`run
      ensures o == (if takesFirst then Pass else Fail) && Valid()
      ensures fresh(span) && span.startingTs == startingTs && fresh(span.context) && span.id !in done
      ensures span.Parent() == context.parentId && span.context.traceId == context.traceId
      ensures o == Fail ==> started == old(started) && (forall t :: t in traces ==> traces[t].spans == old(traces[t].spans))
      ensures o == Fail ==> Goes(old(run), Op.Draw, run)
      ensures o == Pass ==> started == old(started) + {span} && run.Step? && Goes(old(run), Op.Draw, run.before)
      ensures o == Pass ==> Goes(run.before, Op.StartBelow(span, Link(context.traceId, context.parentId)), run)
      ensures o == Pass ==> forall t :: t in traces ==>
        traces[t].spans == if t == context.traceId then old(traces[t].spans)[span.id := span] else old(traces[t].spans)
    {
      o, span := StartSpanByParentInternal(context, startingTs, takesFirst);
    }

    method StartSpanByParent(parentSpan: EventSpan, startingTs: nat, takesFirst: bool) returns (o: Outcome, span: EventSpan)
      requires Valid() && parentSpan in started
      modifies traces.Values, this`nextSpanId, this`started, this`run
      ensures o == (if takesFirst then Pass else Fail) && Valid()
      ensures fresh(span) && span.startingTs == startingTs && fresh(span.context) && span.id !in done
      ensures span.Parent() == parentSpan.id && span.context.traceId == parentSpan.context.traceId
      ensures o == Fail ==> started == old(started) && (forall t :: t in traces ==> traces[t].spans == old(traces[t].spans))
      ensures o == Fail ==> Goes(old(run), Op.Draw, run)
      ensures o == Pass ==> started == old(started) + {span} && run.Step? && Goes(old(run), Op.Draw, run.before)
      ensures o == Pass ==> Goes(run.before, Op.StartBelow(span, Link(parentSpan.context.traceId, parentSpan.id)), run)
      ensures o == Pass ==> forall t :: t in traces ==>
        traces[t].spans == if t == parentSpan.context.traceId then old(traces[t].spans)[span.id := span] else old(traces[t].spans)
    {
      SpansAreOld();
      SpanFacts(parentSpan);
      o, span := StartSpanByParentPassOnContext(
        Context(parentSpan.context.traceId, parentSpan.id, parentSpan.startingTs), startingTs, takesFirst);
    }

    /** CloneShared: the copy has an id of its own and shares the context. */
    method CloneSpan(other: EventSpan) returns (span: EventSpan)
      requires Valid()
      modifies this`nextSpanId, this`run
      ensures Valid() && fresh(span) && Unregistered(span) && Goes(old(run), Op.Draw, run)
      ensures span.startingTs == other.startingTs && span.context == other.context && span.original == other.original
    {
      span := NewSpan(other.startingTs, other.context);
      span.original := other.original;
    }

    method SetParentContext(span: EventSpan, context: Context) returns (o: Outcome)
      requires Shaped() && Recorded() && Unregistered(span) && context.Valid()
      modifies span`context, traces.Values, this`started, this`run
      ensures Shaped() && Recorded() && o == if context.parentStartTs <= span.startingTs then Pass else Fail
      ensures o == Pass ==> started == old(started) + {span} && fresh(span.context)
      ensures o == Pass ==> span.Parent() == context.parentId && span.context.traceId == context.traceId
      ensures o == Pass ==> Goes(old(run), Op.StartBelow(span, Link(context.traceId, context.parentId)), run)
      ensures o == Pass ==> forall t :: t in traces ==>
        traces[t].spans == if t == context.traceId then old(traces[t].spans)[span.id := span] else old(traces[t].spans)
      ensures o == Fail ==> started == old(started) && span.context == old(span.context) && run == old(run)
      ensures o == Fail ==> forall t :: t in traces ==> traces[t].spans == old(traces[t].spans)
    {
      var traceContext := new TraceContext.WithParent(context);
      var couldSet := span.SetContext(traceContext, true);
      if !couldSet {
        return Fail;
      }
      o := JoinTrace(span);
    }

    /** Throws if the parent starts later than the span. */
    method StartSpanSetParentContext(span: EventSpan, context: Context) returns (o: Outcome)
      requires Valid() && Unregistered(span) && context.Valid()
      modifies span`context, traces.Values, this`started, this`run
      ensures Valid() && o == if context.parentStartTs <= span.startingTs then Pass else Fail
      ensures o == Pass ==> started == old(started) + {span} && fresh(span.context)
      ensures o == Pass ==> span.Parent() == context.parentId && span.context.traceId == context.traceId
      ensures o == Pass ==> Goes(old(run), Op.StartBelow(span, Link(context.traceId, context.parentId)), run)
      ensures o == Pass ==> forall t :: t in traces ==>
        traces[t].spans == if t == context.traceId then old(traces[t].spans)[span.id := span] else old(traces[t].spans)
      ensures o == Fail ==> started == old(started) && span.context == old(span.context) && run == old(run)
      ensures o == Fail ==> forall t :: t in traces ==> traces[t].spans == old(traces[t].spans)
    {
      o := SetParentContext(span, context);
    }

    // -------------------------------------------------------------- adding a parent lazily

    lemma BeforeMerge(span: EventSpan, link: Link)
      requires Shaped() && Recorded() && span in started && span.Parent() == 0 && span.id !in done
      requires link.parent != 0 && link.trace != 0
      ensures var b := Now().book;
              IdsApart(b) && MembersAgree(b) && b.links[span] == Link(span.context.traceId, 0)
              && HeldBy(b.traces, span, span.context.traceId)
              && forall t :: t in b.traces && span.id in b.traces[t] ==> t == span.context.traceId
      ensures link.trace != span.context.traceId ==>
        Legal(Step(run, Op.Merge(span, link), Now().(book := Merged(Now().book, span, link))))
    {
      EveryRunOk(run);
      var l := Now();
      RootHasTrace(l.book, span, l.nextSpan, l.nextTrace);
      HeldOnce(l.book, span);
      if link.trace != span.context.traceId {
        MergedOk(l.book, span, link, l.nextSpan, l.nextTrace);
      }
    }

    /** One span goes over to the trace `to`. */
    method ChangeTrace(span: EventSpan, to: nat)
      requires Shaped() && span in started
      modifies span.context`traceId
      ensures Shaped() && Links() == old(Links())[span := Link(to, old(span.Parent()))]
    {
      ghost var links := Links();
      span.context.SetTraceId(to);
      assert Links() == links[span := Link(to, span.Parent())];
    }

    /** Joining a trace changes no context. */
    method JoinAsIs(span: EventSpan, to: nat) returns (o: Outcome)
      requires Shaped()
      modifies set t | t in traces && t == to :: traces[t]
      ensures o == if to in old(Held()) && span.id in old(Held())[to] then Fail else Pass
      ensures Shaped() && Links() == old(Links())
      ensures Held() == if o == Pass then Joined(old(Held()), to, span) else old(Held())
    {
      o := AddSpanToTraceIfTraceExists(to, span);
    }

    method MoveSpan(span: EventSpan, to: nat) returns (o: Outcome)
      requires Shaped() && span in started && (to in traces ==> span.id !in traces[to].spans)
      modifies span.context`traceId, set t | t in traces && t == to :: traces[t]
      ensures o == Pass && Shaped()
      ensures Links() == old(Links())[span := Link(to, old(span.Parent()))]
      ensures Held() == Joined(old(Held()), to, span)
    {
      ChangeTrace(span, to);
      o := JoinAsIs(span, to);
    }

    method Relink(span: EventSpan, context: Context) returns (o: Outcome)
      requires Shaped() && span in started && context.Valid()
      modifies span.context
      ensures o == Pass && Shaped() && Links() == old(Links())[span := Link(context.traceId, context.parentId)]
    {
      ghost var links := Links();
      span.context.SetTraceId(context.traceId);
      o := span.context.SetParentIdAndTs(context.parentId, context.parentStartTs);
      assert Links() == links[span := Link(context.traceId, context.parentId)];
    }

    /** The span itself gets the parent and the trace of the context. */
    method Reparent(span: EventSpan, context: Context) returns (o: Outcome)
      requires Shaped() && span in started && context.Valid()
      modifies span.context, set t | t in traces && t == context.traceId :: traces[t]
      ensures o == if context.traceId in traces && span.id in old(Held())[context.traceId] then Fail else Pass
      ensures o == Pass ==> Shaped() && Links() == old(Links())[span := Link(context.traceId, context.parentId)]
      ensures o == Pass ==> Held() == Joined(old(Held()), context.traceId, span)
    {
      o := Relink(span, context);
      o := JoinAsIs(span, context.traceId);
    }

    /** The ids in `moved` have left the trace of `span` for the trace of `link`. */
    ghost predicate Moving(b: Book, span: EventSpan, link: Link, moved: set<nat>)
      reads this`traces, this`started, traces.Values, started, set s | s in started :: s.context
      requires span in b.links && b.links[span].trace in b.traces
    {
      && Links() == LinksMoved(b.links, span, link, moved)
      && Held() == TracesMoved(b.traces, b.links[span].trace, link.trace, moved)
    }

    method MoveChild(child: EventSpan, ghost b: Book, ghost span: EventSpan, link: Link, ghost moved: set<nat>)
        returns (o: Outcome)
      requires Shaped() && IdsApart(b) && MembersAgree(b) && span in b.links && started == b.links.Keys
      requires b.links[span].trace in b.traces && link.trace != b.links[span].trace
      requires Moving(b, span, link, moved) && span.id in moved && child.id !in moved
      requires HeldBy(b.traces, child, b.links[span].trace) && b.traces[b.links[span].trace][child.id] == child
      modifies (set s | s in started :: s.context), traces.Values
      ensures o == Pass && Shaped() && Moving(b, span, link, moved + {child.id})
    {
      MoveOne(b, span, link, moved, child);
      assert link.trace in traces ==> traces[link.trace].spans == Held()[link.trace];
      assert Links()[child].parent == child.Parent();
      o := MoveSpan(child, link.trace);
    }

    /** Before the `k`-th child: the ones before it have moved, and of the others at most `span`. */
    ghost predicate MovedUpTo(children: seq<EventSpan>, k: nat, moved: set<nat>, all: set<nat>, span: EventSpan)
      requires k <= |children|
    {
      && span.id in moved && moved <= all
      && (forall i :: 0 <= i < k ==> children[i].id in moved)
      && (forall i :: k <= i < |children| && children[i].id in moved ==> children[i].id == span.id)
    }

    /** The loop of AddParentLazily over the spans taken out of the old trace. */
    method MoveChildren(span: EventSpan, link: Link, children: seq<EventSpan>, ghost b: Book) returns (o: Outcome)
      requires Shaped() && IdsApart(b) && MembersAgree(b) && span in b.links && started == b.links.Keys
      requires b.links[span].trace in b.traces && link.trace != b.links[span].trace
      requires Moving(b, span, link, {span.id}) && HeldBy(b.traces, span, b.links[span].trace)
      requires ListsAll(children, b.traces[b.links[span].trace])
      modifies (set s | s in started :: s.context), traces.Values
      ensures o == Pass && Shaped() && Moving(b, span, link, b.traces[b.links[span].trace].Keys)
    {
      ghost var moved, all := {span.id}, b.traces[b.links[span].trace].Keys;
      for k := 0 to |children|
        invariant Shaped() && Moving(b, span, link, moved) && MovedUpTo(children, k, moved, all, span)
      {
        if children[k].id != span.id {
          o := MoveChild(children[k], b, span, link, moved);
          ChildMoved(children, k, moved, all, span);
          moved := moved + {children[k].id};
        }
      }
      ListedIds(children, b.traces[b.links[span].trace], moved);
      o := Pass;
    }

    lemma ChildMoved(children: seq<EventSpan>, k: nat, moved: set<nat>, all: set<nat>, span: EventSpan)
      requires k < |children| && MovedUpTo(children, k, moved, all, span) && children[k].id in all
      requires forall i, j :: 0 <= i < j < |children| ==> children[i].id != children[j].id
      ensures MovedUpTo(children, k + 1, moved + {children[k].id}, all, span)
    {
    }

    /** Takes all spans out of the trace. */
    method EmptyTrace(traceId: nat) returns (children: seq<EventSpan>)
      requires Shaped() && traceId in traces && forall i :: i in traces[traceId].spans ==> traces[traceId].spans[i].id == i
      modifies traces[traceId]
      ensures Shaped() && Held() == Emptied(old(Held()), traceId) && ListsAll(children, old(Held())[traceId])
    {
      children := traces[traceId].GetSpansAndRemoveSpans();
    }

    ghost method RecordMerge(span: EventSpan, link: Link, b: Book)
      requires span in b.links && b.links[span].trace in b.traces && b.links[span].trace != link.trace && b.d == done
      requires Links() == LinksMoved(b.links, span, link, b.traces[b.links[span].trace].Keys)
      requires Held() == TracesMoved(b.traces, b.links[span].trace, link.trace, b.traces[b.links[span].trace].Keys)
                         - {b.links[span].trace}
      requires Legal(Step(run, Op.Merge(span, link), Ledger(Merged(b, span, link), nextSpanId, nextTraceId)))
      modifies this`run
      ensures Recorded() && Goes(old(run), Op.Merge(span, link), run)
    {
      AllMoved(b, span, link);
      run := Step(run, Op.Merge(span, link), Ledger(Merged(b, span, link), nextSpanId, nextTraceId));
    }

    /** GetSpansAndRemoveSpans, seen as the beginning of the move. */
    method TakeChildren(span: EventSpan, oldTraceId: nat, link: Link, ghost b: Book) returns (children: seq<EventSpan>)
      requires Shaped() && IdsApart(b) && MembersAgree(b) && span in b.links && started == b.links.Keys
      requires b.links[span].trace != link.trace && HeldBy(b.traces, span, b.links[span].trace)
      requires Links() == b.links[span := link] && Held() == Joined(b.traces, link.trace, span)
      requires traces.Keys == b.traces.Keys && oldTraceId == b.links[span].trace
      modifies traces.Values
      ensures Shaped() && Moving(b, span, link, {span.id}) && ListsAll(children, b.traces[b.links[span].trace])
    {
      assert Held()[b.links[span].trace] == b.traces[b.links[span].trace];
      children := EmptyTrace(oldTraceId);
      MoveFirst(b, span, link, b.links[span].trace);
    }

    /** The removal of the emptied trace. */
    method EndMove(span: EventSpan, oldTraceId: nat, link: Link, ghost b: Book) returns (o: Outcome)
      requires Shaped() && span in b.links && oldTraceId == b.links[span].trace != link.trace && b.d == done
      requires oldTraceId in b.traces && traces.Keys == b.traces.Keys
      requires Moving(b, span, link, b.traces[oldTraceId].Keys)
      requires Legal(Step(run, Op.Merge(span, link), Ledger(Merged(b, span, link), nextSpanId, nextTraceId)))
      modifies this`traces, this`run
      ensures o == Pass && Shaped() && Recorded() && Goes(old(run), Op.Merge(span, link), run)
      ensures traces == old(traces) - {oldTraceId}
    {
      ghost var held := Held();
      o := RemoveTrace(oldTraceId);
      assert Held() == held - {oldTraceId};
      RecordMerge(span, link, b);
    }

    /** AddParentLazily once the span itself has moved. */
    method MoveRest(span: EventSpan, oldTraceId: nat, link: Link, ghost b: Book) returns (o: Outcome)
      requires Shaped() && IdsApart(b) && MembersAgree(b) && span in b.links && started == b.links.Keys && b.d == done
      requires oldTraceId == b.links[span].trace != link.trace && HeldBy(b.traces, span, oldTraceId)
      requires Links() == b.links[span := link] && Held() == Joined(b.traces, link.trace, span)
      requires Legal(Step(run, Op.Merge(span, link), Ledger(Merged(b, span, link), nextSpanId, nextTraceId)))
      modifies (set s | s in started :: s.context), traces.Values, this`traces, this`run
      ensures o == Pass && Shaped() && Recorded() && Goes(old(run), Op.Merge(span, link), run)
      ensures traces == old(traces) - {oldTraceId}
    {
      assert traces.Keys == Held().Keys;
      var children := TakeChildren(span, oldTraceId, link, b);
      o := MoveChildren(span, link, children, b);
      o := EndMove(span, oldTraceId, link, b);
    }

    method MergeTrace(span: EventSpan, context: Context) returns (o: Outcome)
      requires Shaped() && Recorded() && context.Valid()
      requires span in started && !span.context.hasParent && span.id !in done
      modifies (set s | s in started :: s.context), traces.Values, this`traces, this`run
      ensures o == if context.traceId == old(span.context.traceId) then Fail else Pass
      ensures o == Pass ==> Shaped() && Recorded()
      ensures o == Pass ==> Goes(old(run), Op.Merge(span, Link(context.traceId, context.parentId)), run)
      ensures o == Pass ==> traces == old(traces) - {old(span.context.traceId)}
    {
      var oldTraceId, link := span.context.traceId, Link(context.traceId, context.parentId);
      BeforeMerge(span, link);
      ghost var b := Now().book;
      if oldTraceId !in traces {
        return Fail;
      }
      o := Reparent(span, context);
      if o == Pass {
        o := MoveRest(span, oldTraceId, link, b);
      }
    }

    /** What the record of a merge says about the contexts and traces. */
    lemma AfterMerge(l: Ledger, span: EventSpan, link: Link)
      requires Shaped() && Recorded() && run.Step? && run.op == Op.Merge(span, link) && l == Last(run.before)
      ensures Ok(l.book, l.nextSpan, l.nextTrace) && span in l.book.links && l.book.links[span].trace in l.book.traces
      ensures var moved := l.book.traces[l.book.links[span].trace]; span.id in moved && moved[span.id] == span
      ensures var moved := l.book.traces[l.book.links[span].trace];
              && (forall s :: s in started ==>
                    s in l.book.links
                    && s.context.traceId == if s.id in moved then link.trace else l.book.links[s].trace)
              && (forall t :: t in traces ==>
                    t in l.book.traces
                    && traces[t].spans == if t == link.trace then l.book.traces[t] + moved else l.book.traces[t])
      ensures forall s :: s in started ==> s.Parent() == if s == span then link.parent else l.book.links[s].parent
    {
      EveryRunOk(run.before);
      RootHasTrace(l.book, span, l.nextSpan, l.nextTrace);
      MergedInPlainTerms(l.book, span, link);
      forall s | s in started ensures s in Links() && Links()[s] == Link(s.context.traceId, s.Parent()) {
      }
      forall t | t in traces ensures t in Held() && Held()[t] == traces[t].spans {
      }
    }

    /** AddParentLazily, of which the scheduler sees nothing. */
    method MergeSpan(span: EventSpan, context: Context) returns (o: Outcome)
      requires Shaped() && Recorded() && context.Valid()
      requires span in started && !span.context.hasParent && span.id !in done
      modifies (set s | s in started :: s.context), traces.Values, this`traces, this`run
      ensures o == if context.traceId == old(span.context.traceId) then Fail else Pass
      ensures o == Pass ==> Shaped() && Recorded()
      ensures o == Pass ==> Goes(old(run), Op.Merge(span, Link(context.traceId, context.parentId)), run)
      ensures o == Pass ==> old(span.context.traceId) in old(traces) && traces == old(traces) - {old(span.context.traceId)}
      ensures o == Pass ==> span.id in old(traces[span.context.traceId].spans)
                            && old(traces[span.context.traceId].spans)[span.id] == span
      ensures o == Pass ==> forall t :: t in traces ==>
        traces[t].spans == if t == context.traceId then old(traces[t].spans) + old(traces[span.context.traceId].spans)
                           else old(traces[t].spans)
      ensures o == Pass ==> forall s :: s in started ==>
        s.context.traceId == if s.id in old(traces[span.context.traceId].spans) then context.traceId
                             else old(s.context.traceId)
      ensures o == Pass ==> forall s :: s in started ==>
        s.Parent() == if s == span then context.parentId else old(s.Parent())
    {
      ghost var l := Now();
      o := MergeTrace(span, context);
      if o == Pass {
        AfterMerge(l, span, Link(context.traceId, context.parentId));
      }
    }

    /** Gives an unfinished root the parent of the context and merges its trace into that one; throws
        exactly if the two are the same trace. */
    method AddParentLazily(span: EventSpan, context: Context) returns (o: Outcome)
      requires Valid() && context.Valid() && span in started && !span.context.hasParent && span.id !in done
      modifies (set s | s in started :: s.context), traces.Values, this`traces, this`run
      ensures o == if context.traceId == old(span.context.traceId) then Fail else Pass
      ensures o == Pass ==> Valid() && OnlyNew()
      ensures o == Pass ==> Goes(old(run), Op.Merge(span, Link(context.traceId, context.parentId)), run)
      ensures o == Pass ==> old(span.context.traceId) in old(traces) && traces == old(traces) - {old(span.context.traceId)}
      ensures o == Pass ==> span.id in old(traces[span.context.traceId].spans)
                            && old(traces[span.context.traceId].spans)[span.id] == span
      ensures o == Pass ==> forall t :: t in traces ==>
        traces[t].spans == if t == context.traceId then old(traces[t].spans) + old(traces[span.context.traceId].spans)
                           else old(traces[t].spans)
      ensures o == Pass ==> forall s :: s in started ==>
        s.context.traceId == if s.id in old(traces[span.context.traceId].spans) then context.traceId
                             else old(s.context.traceId)
      ensures o == Pass ==> forall s :: s in started ==>
        s.Parent() == if s == span then context.parentId else old(s.Parent())
    {
      o := MergeSpan(span, context);
    }

    /** After a run whose contexts named drawn traces, a span whose trace exists is one of its members. */
    lemma StartedSpanIsHeld(span: EventSpan)
      requires Valid() && span in started && TracesDrawn(run) && span.context.traceId in traces
      ensures span.id in traces[span.context.traceId].spans && traces[span.context.traceId].spans[span.id] == span
    {
      SpanFacts(span);
      StartedAreHeld(run, span);
      assert traces[span.context.traceId].spans == Held()[span.context.traceId];
    }
  }
}
