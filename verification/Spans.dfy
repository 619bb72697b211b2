/** Spans, the trace contexts they point to, traces, and the exporter's bookkeeping. */
module Spans {
  import opened Wrappers

  /** What one simulator passes on to another about the span that caused something. */
  datatype Context = Context(traceId: nat, parentId: nat, parentStartTs: nat) {
    /** The constructor throws on invalid ids. */
    predicate Valid() { traceId != 0 && parentId != 0 }
  }

  class TraceContext {
    var traceId: nat
    var parentId: nat
    var hasParent: bool
    var parentStartTs: nat

    /** A context is never seen with the flag and the parent id disagreeing. */
    ghost predicate Valid()
      reads this
    {
      hasParent <==> parentId != 0
    }

    constructor (traceId: nat)
      ensures Valid() && this.traceId == traceId && !hasParent
    {
      this.traceId, parentId, hasParent, parentStartTs := traceId, 0, false, 0xFFFF_FFFF_FFFF_FFFF;
    }

    constructor WithParent(context: Context)
      requires context.Valid()
      ensures Valid() && traceId == context.traceId && hasParent
      ensures parentId == context.parentId && parentStartTs == context.parentStartTs
    {
      traceId, parentId, hasParent, parentStartTs := context.traceId, context.parentId, true, context.parentStartTs;
    }

    method SetTraceId(newId: nat)
      modifies this`traceId
      ensures traceId == newId
    {
      traceId := newId;
    }

    method SetParentIdAndTs(parentId: nat, parentStartTs: nat) returns (o: Outcome)
      modifies this`parentId, this`hasParent, this`parentStartTs
      ensures o == if parentId == 0 then Fail else Pass
      ensures o == Pass ==> Valid() && hasParent && this.parentId == parentId && this.parentStartTs == parentStartTs
      ensures o == Fail ==> unchanged(this)
    {
      if parentId == 0 {
        return Fail;
      }
      this.parentId, hasParent, this.parentStartTs := parentId, true, parentStartTs;
      o := Pass;
    }
  }

  /** A span with the timestamp of its first event. */
  class EventSpan {
    const id: nat
    const startingTs: nat
    var context: TraceContext
    /** The span that this one is a copy of. */
    var original: EventSpan?

    /** The id of the parent, 0 for a span that starts a trace. */
    ghost function Parent(): nat
      reads this, context
    {
      if context.hasParent then context.parentId else 0
    }

    constructor (id: nat, startingTs: nat, context: TraceContext)
      ensures this.id == id && this.startingTs == startingTs && this.context == context && original == null
    {
      this.id, this.startingTs, this.context, original := id, startingTs, context, null;
    }

    method SetOriginal(original: EventSpan)
      modifies this`original
      ensures this.original == original
    {
      this.original := original;
    }

    /** A span always has a context, so without `overrideExisting` it is refused. */
    method SetContext(traceContext: TraceContext, overrideExisting: bool) returns (ok: bool)
      modifies this`context
      ensures ok == (overrideExisting && traceContext.hasParent && traceContext.parentStartTs <= startingTs)
      ensures context == if ok then traceContext else old(context)
    {
      if !overrideExisting {
        return false;
      }
      if !traceContext.hasParent {
        return false;
      }
      if traceContext.parentStartTs > startingTs {
        return false;
      }
      context := traceContext;
      ok := true;
    }
  }

  class Trace {
    const ident: nat
    var spans: map<nat, EventSpan>

    constructor (ident: nat, parentSpan: EventSpan)
      ensures this.ident == ident && spans == map[parentSpan.id := parentSpan]
    {
      this.ident := ident;
      spans := map[parentSpan.id := parentSpan];
    }

    method AddSpan(span: EventSpan) returns (o: Outcome)
      modifies this`spans
      ensures o == if span.id in old(spans) then Fail else Pass
      ensures spans == if o == Pass then old(spans)[span.id := span] else old(spans)
    {
      if span.id in spans {
        return Fail;
      }
      spans := spans[span.id := span];
      o := Pass;
    }

    method GetSpansAndRemoveSpans() returns (removed: seq<EventSpan>)
      requires forall i :: i in spans ==> spans[i].id == i
      modifies this`spans
      ensures spans == map[]
      ensures forall i :: 0 <= i < |removed| ==> removed[i].id in old(spans) && old(spans)[removed[i].id] == removed[i]
      ensures forall i, j :: 0 <= i < j < |removed| ==> removed[i].id != removed[j].id
      ensures forall s :: s in old(spans).Values ==> s in removed
    {
      removed := [];
      ghost var all := spans;
      while spans != map[]
        invariant forall i :: i in spans ==> i in all && spans[i] == all[i]
        invariant forall i :: 0 <= i < |removed| ==>
          removed[i].id in all && removed[i].id !in spans && all[removed[i].id] == removed[i]
        invariant forall i, j :: 0 <= i < j < |removed| ==> removed[i].id != removed[j].id
        invariant forall i :: i in all && i !in spans ==> all[i] in removed
        decreases |spans|
      {
        var ident :| ident in spans;
        removed := removed + [spans[ident]];
        spans := spans - {ident};
      }
    }
  }

  /** The exporter's two maps; what they map to belongs to OpenTelemetry and is not modelled. */
  class Exporter {
    var contextMap: set<nat>
    var spanMap: set<nat>
    ghost var log: seq<nat>

    constructor ()
      ensures contextMap == {} && spanMap == {} && log == []
    {
      contextMap, spanMap, log := {}, {}, [];
    }

    /** The lookup of the parent's context, and the two inserts. */
    method StartSpan(span: EventSpan) returns (o: Outcome)
      requires span.context.Valid()
      modifies this`contextMap, this`spanMap
      ensures o == if (span.context.hasParent ==> span.context.parentId in old(contextMap))
                      && span.id !in old(spanMap) && span.id != 0 && span.id !in old(contextMap) then Pass else Fail
      ensures o == Pass ==> contextMap == old(contextMap) + {span.id} && spanMap == old(spanMap) + {span.id}
    {
      if span.context.hasParent {
        var parentId := span.context.parentId;
        if parentId == 0 || parentId !in contextMap {
          return Fail;
        }
      }
      if span.id in spanMap {
        return Fail;
      }
      spanMap := spanMap + {span.id};
      if span.id == 0 || span.id in contextMap {
        return Fail;
      }
      contextMap := contextMap + {span.id};
      o := Pass;
    }

    method EndSpan(span: EventSpan) returns (o: Outcome)
      modifies this`spanMap
      ensures o == if span.id in old(spanMap) then Pass else Fail
      ensures spanMap == old(spanMap) - {span.id}
    {
      if span.id !in spanMap {
        return Fail;
      }
      spanMap := spanMap - {span.id};
      o := Pass;
    }

    method ExportSpan(span: EventSpan) returns (o: Outcome)
      requires span.context.Valid()
      modifies this
      ensures o == if (span.context.hasParent ==> span.context.parentId in old(contextMap))
                      && span.id !in old(spanMap) && span.id != 0 && span.id !in old(contextMap) then Pass else Fail
      ensures o == Pass ==> contextMap == old(contextMap) + {span.id} && spanMap == old(spanMap)
      ensures o == Pass ==> log == old(log) + [span.id]
    {
      o := StartSpan(span);
      if o == Pass {
        o := EndSpan(span);
        log := log + [span.id];
      }
    }
  }
}
