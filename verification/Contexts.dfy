/** The unbounded channel of contexts between two spanners. */
module Contexts {
  import opened Wrappers
  import opened Spans

  predicate AllValid(items: seq<Context>) { forall i :: 0 <= i < |items| ==> items[i].Valid() }

  /** For `Pop` an empty queue stands for a closed one. */
  class ContextQueue {
    var items: seq<Context>
    var closed: bool

    constructor (items: seq<Context>)
      ensures this.items == items && !closed
    {
      this.items, closed := items, false;
    }

    method Push(context: Context) returns (ok: bool)
      modifies this`items
      ensures ok == !closed && items == if ok then old(items) + [context] else old(items)
    {
      if closed {
        return false;
      }
      items := items + [context];
      ok := true;
    }

    method Pop() returns (context: Option<Context>)
      modifies this`items
      ensures context == (if old(items) == [] then None else Some(old(items)[0]))
      ensures items == if old(items) == [] then [] else old(items)[1..]
    {
      if items == [] {
        return None;
      }
      context := Some(items[0]);
      items := items[1..];
    }

    method TryPopOnTrue(pred: Context -> bool) returns (context: Option<Context>)
      modifies this`items
      ensures context == if old(items) != [] && pred(old(items)[0]) then Some(old(items)[0]) else None
      ensures items == if context.Some? then old(items)[1..] else old(items)
    {
      if items == [] {
        return None;
      }
      var front := items[0];
      if !pred(front) {
        return None;
      }
      items := items[1..];
      context := Some(front);
    }
  }

  /** Announces a span, with its trace, its id and its start; throws if the queue is closed. */
  method PushPropagateContext(to: ContextQueue, parent: EventSpan) returns (o: Outcome)
    requires parent.context.traceId != 0 && parent.id != 0 && AllValid(to.items)
    modifies to`items
    ensures o == (if to.closed then Fail else Pass) && AllValid(to.items)
    ensures o == Fail ==> to.items == old(to.items)
    ensures o == Pass ==>
      && |to.items| == |old(to.items)| + 1 && to.items[..|old(to.items)|] == old(to.items)
      && to.items[|old(to.items)|].traceId == parent.context.traceId
      && to.items[|old(to.items)|].parentId == parent.id
      && to.items[|old(to.items)|].parentStartTs == parent.startingTs
  {
    var ok := to.Push(Context(parent.context.traceId, parent.id, parent.startingTs));
    o := if ok then Pass else Fail;
  }
}
