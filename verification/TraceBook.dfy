/**
 Which span belongs to which trace: the tracer's traces as values, and the operations on them.
 */
module TraceBook {
  import opened Spans

  type Members = map<nat, EventSpan>

  /** What a span's context says; the parent is 0 for a span that starts a trace. */
  datatype Link = Link(trace: nat, parent: nat)

  /** `d` are the finished spans with their parents, `links` all started spans, and `traces` the spans
      each trace holds. */
  datatype Book = Book(d: map<nat, nat>, links: map<EventSpan, Link>, traces: map<nat, Members>)

  predicate IsRoot(b: Book, s: EventSpan) { s in b.links && b.links[s].parent == 0 }

  /** A trace holds spans that say they belong to it, so a span is in at most one trace. */
  predicate MembersAgree(b: Book) {
    forall t, i :: t in b.traces && i in b.traces[t] ==>
      b.traces[t][i] in b.links && b.traces[t][i].id == i && b.links[b.traces[t][i]].trace == t
  }

  predicate HeldBy(traces: map<nat, Members>, s: EventSpan, t: nat) { t in traces && s.id in traces[t] }

  /** The trace of an unfinished span without parent exists and holds the span. */
  predicate RootsHeld(b: Book) {
    forall s :: s in b.links && b.links[s].parent == 0 && s.id !in b.d ==> HeldBy(b.traces, s, b.links[s].trace)
  }

  /** Spans without parent have traces of their own. */
  predicate RootsApart(b: Book) {
    forall s, r :: s in b.links && r in b.links && b.links[s].parent == 0 && b.links[r].parent == 0 && s != r ==>
      b.links[s].trace != b.links[r].trace
  }

  predicate IdsApart(b: Book) {
    forall s, r :: s in b.links && r in b.links && s != r ==> s.id != r.id
  }

  /** The parent of a finished span is still the one it had when it was finished. */
  predicate LinksFixed(b: Book) {
    forall s :: s in b.links && s.id in b.d ==> b.d[s.id] == b.links[s].parent
  }

  predicate Fresh(b: Book, nextSpanId: nat, nextTraceId: nat) {
    && (forall s :: s in b.links ==> 0 < s.id < nextSpanId && b.links[s].trace != 0)
    && (forall x :: x in b.d ==> 0 < x < nextSpanId)
    && (forall t :: t in b.traces ==> t < nextTraceId)
    && (forall s :: s in b.links && b.links[s].parent == 0 ==> b.links[s].trace < nextTraceId)
    && 0 < nextSpanId && 0 < nextTraceId
  }

  /** The id of `s` was drawn, but no span with it was started. */
  predicate IsNew(b: Book, s: EventSpan, nextSpanId: nat) {
    s !in b.links && 0 < s.id < nextSpanId && s.id !in b.d && forall r :: r in b.links ==> r.id != s.id
  }

  predicate Ok(b: Book, nextSpanId: nat, nextTraceId: nat) {
    && MembersAgree(b) && RootsHeld(b) && RootsApart(b) && IdsApart(b) && LinksFixed(b)
    && Fresh(b, nextSpanId, nextTraceId)
  }

  // ---------------------------------------------------------------- operations

  function Finished(b: Book, s: EventSpan): Book
    requires s in b.links
  {
    b.(d := b.d[s.id := b.links[s].parent])
  }

  function Removed(b: Book, t: nat): Book { b.(traces := b.traces - {t}) }

  function Joined(traces: map<nat, Members>, t: nat, s: EventSpan): map<nat, Members> {
    if t in traces then
      var more: Members := traces[t][s.id := s];
      traces[t := more]
    else traces
  }

  function Only(s: EventSpan): Members { map[s.id := s] }

  /** A new span without parent gets a trace of its own. */
  function Started(b: Book, s: EventSpan, t: nat): Book {
    Book(b.d, b.links[s := Link(t, 0)], b.traces[t := Only(s)])
  }

  /** A new span with a parent joins the trace if that still exists. */
  function StartedBelow(b: Book, s: EventSpan, link: Link): Book {
    Book(b.d, b.links[s := link], Joined(b.traces, link.trace, s))
  }

  /** `s` gets the parent and trace of `link`, and its old trace is merged into that one. */
  function Merged(b: Book, s: EventSpan, link: Link): Book
    requires s in b.links && b.links[s].trace in b.traces
  {
    var from := b.links[s].trace;
    var moved := b.traces[from];
    Book(b.d,
         map x | x in b.links :: if x == s then link
                                 else if x.id in moved then b.links[x].(trace := link.trace) else b.links[x],
         (if link.trace in b.traces then b.traces[link.trace := b.traces[link.trace] + moved] else b.traces) - {from})
  }

  // ---------------------------------------------------------------- merging one span at a time

  /** The links after the spans with the ids `moved` went over to the trace of `link`. */
  function LinksMoved(links: map<EventSpan, Link>, s: EventSpan, link: Link, moved: set<nat>): map<EventSpan, Link> {
    map x | x in links :: if x == s then link
                          else if x.id in moved then links[x].(trace := link.trace) else links[x]
  }

  /** The traces at that time, `from` being emptied. */
  function TracesMoved(traces: map<nat, Members>, from: nat, to: nat, moved: set<nat>): map<nat, Members>
    requires from in traces
  {
    map t | t in traces :: if t == from then map[] else if t == to then traces[t] + Part(traces[from], moved) else traces[t]
  }

  function Part(m: Members, ids: set<nat>): Members { map i | i in m && i in ids :: m[i] }

  lemma MoveFirst(b: Book, s: EventSpan, link: Link, from: nat)
    requires IdsApart(b) && MembersAgree(b) && s in b.links && from == b.links[s].trace && from != link.trace
    requires HeldBy(b.traces, s, from)
    ensures b.links[s := link] == LinksMoved(b.links, s, link, {s.id})
    ensures Emptied(Joined(b.traces, link.trace, s), from) == TracesMoved(b.traces, from, link.trace, {s.id})
  {
    assert b.traces[from][s.id] == s;
    assert Part(b.traces[from], {s.id}) == map[s.id := s];
    if link.trace in b.traces {
      assert b.traces[link.trace][s.id := s] == b.traces[link.trace] + Part(b.traces[from], {s.id});
    }
  }

  function Emptied(traces: map<nat, Members>, t: nat): map<nat, Members> {
    map u | u in traces :: if u == t then map[] else traces[u]
  }

  lemma MoveOneLink(links: map<EventSpan, Link>, s: EventSpan, link: Link, moved: set<nat>, c: EventSpan)
    requires c in links && c != s && c.id !in moved
    requires forall x, y :: x in links && y in links && x != y ==> x.id != y.id
    ensures LinksMoved(links, s, link, moved)[c := links[c].(trace := link.trace)]
            == LinksMoved(links, s, link, moved + {c.id})
  {
  }

  lemma MoveOneMember(traces: map<nat, Members>, from: nat, to: nat, moved: set<nat>, c: EventSpan)
    requires from in traces && from != to && c.id in traces[from] && traces[from][c.id] == c
    ensures Joined(TracesMoved(traces, from, to, moved), to, c) == TracesMoved(traces, from, to, moved + {c.id})
  {
    assert Part(traces[from], moved)[c.id := c] == Part(traces[from], moved + {c.id});
    if to in traces {
      assert (traces[to] + Part(traces[from], moved))[c.id := c] == traces[to] + Part(traces[from], moved)[c.id := c];
    }
  }

  /** A span of the old trace that was not moved is not in the new one. */
  lemma MemberOnce(b: Book, from: nat, to: nat, moved: set<nat>, c: EventSpan)
    requires MembersAgree(b) && from in b.traces && from != to && c.id !in moved
    requires c.id in b.traces[from] && b.traces[from][c.id] == c
    requires IdsApart(b)
    ensures c in b.links
    ensures to in b.traces ==> c.id !in TracesMoved(b.traces, from, to, moved)[to]
  {
  }

  /** What moving one more span of the old trace changes. */
  lemma MoveOne(b: Book, s: EventSpan, link: Link, moved: set<nat>, c: EventSpan)
    requires MembersAgree(b) && IdsApart(b) && s in b.links && s.id in moved && c.id !in moved
    requires b.links[s].trace in b.traces && b.links[s].trace != link.trace
    requires HeldBy(b.traces, c, b.links[s].trace) && b.traces[b.links[s].trace][c.id] == c
    ensures c in b.links
    ensures var links := LinksMoved(b.links, s, link, moved);
            links[c := Link(link.trace, links[c].parent)] == LinksMoved(b.links, s, link, moved + {c.id})
    ensures var traces := TracesMoved(b.traces, b.links[s].trace, link.trace, moved);
            && Joined(traces, link.trace, c) == TracesMoved(b.traces, b.links[s].trace, link.trace, moved + {c.id})
            && (link.trace in traces ==> c.id !in traces[link.trace])
  {
    MemberOnce(b, b.links[s].trace, link.trace, moved, c);
    MoveOneLink(b.links, s, link, moved, c);
    MoveOneMember(b.traces, b.links[s].trace, link.trace, moved, c);
  }

  /** All members of a trace, each once. */
  predicate ListsAll(children: seq<EventSpan>, m: Members) {
    && (forall i :: 0 <= i < |children| ==> children[i].id in m && m[children[i].id] == children[i])
    && (forall i, j :: 0 <= i < j < |children| ==> children[i].id != children[j].id)
    && (forall x :: x in m ==> m[x] in children)
  }

  lemma ListedIds(children: seq<EventSpan>, m: Members, ids: set<nat>)
    requires ListsAll(children, m) && ids <= m.Keys && forall i :: i in m ==> m[i].id == i
    requires forall i :: 0 <= i < |children| ==> children[i].id in ids
    ensures ids == m.Keys
  {
    forall y | y in m ensures y in ids {
      var i :| 0 <= i < |children| && children[i] == m[y];
    }
  }

  lemma AllMoved(b: Book, s: EventSpan, link: Link)
    requires s in b.links && b.links[s].trace in b.traces && b.links[s].trace != link.trace
    ensures var from := b.links[s].trace; var all := b.traces[from].Keys;
            Merged(b, s, link)
            == Book(b.d, LinksMoved(b.links, s, link, all), TracesMoved(b.traces, from, link.trace, all) - {from})
  {
    var from := b.links[s].trace;
    assert Part(b.traces[from], b.traces[from].Keys) == b.traces[from];
  }

  /** The merge in plain terms: `s` gets the link, the others of its trace go over with their parents, and
      the target, if it exists, holds both traces' spans. */
  lemma MergedInPlainTerms(b: Book, s: EventSpan, link: Link)
    requires MembersAgree(b) && IdsApart(b) && s in b.links && b.links[s].trace in b.traces
    requires link.trace != b.links[s].trace
    ensures var from := b.links[s].trace; var m := Merged(b, s, link);
            && m.d == b.d && m.links.Keys == b.links.Keys && m.traces.Keys == b.traces.Keys - {from} && m.links[s] == link
            && (forall x :: x in b.links && x != s ==> m.links[x].parent == b.links[x].parent)
            && (forall x :: x in b.links && x != s ==>
                  m.links[x].trace == if x.id in b.traces[from] then link.trace else b.links[x].trace)
            && (link.trace in b.traces ==> m.traces[link.trace] == b.traces[link.trace] + b.traces[from])
            && (forall t :: t in b.traces && t != from && t != link.trace ==> m.traces[t] == b.traces[t])
  {
  }

  // ---------------------------------------------------------------- what every operation keeps

  lemma FinishedOk(b: Book, s: EventSpan, i: nat, t: nat)
    requires Ok(b, i, t) && s in b.links
    ensures Ok(Finished(b, s), i, t)
  {
  }

  /** A trace may go once all its spans are finished. */
  lemma RemovedOk(b: Book, from: nat, i: nat, t: nat)
    requires Ok(b, i, t) && from in b.traces && forall x :: x in b.traces[from] ==> x in b.d
    ensures Ok(Removed(b, from), i, t)
  {
  }

  lemma StartedMembers(b: Book, s: EventSpan, i: nat, t: nat)
    requires Ok(b, i, t) && IsNew(b, s, i)
    ensures MembersAgree(Started(b, s, t))
  {
  }

  lemma StartedRoots(b: Book, s: EventSpan, i: nat, t: nat)
    requires Ok(b, i, t) && IsNew(b, s, i)
    ensures RootsHeld(Started(b, s, t)) && RootsApart(Started(b, s, t))
  {
    var m := Started(b, s, t);
    forall x | x in m.links && m.links[x].parent == 0 && x.id !in m.d ensures HeldBy(m.traces, x, m.links[x].trace) {
      if x != s {
        assert IsRoot(b, x);
      }
    }
  }

  lemma StartedOk(b: Book, s: EventSpan, i: nat, t: nat)
    requires Ok(b, i, t) && IsNew(b, s, i)
    ensures Ok(Started(b, s, t), i, t + 1) && t !in b.traces
  {
    StartedMembers(b, s, i, t);
    StartedRoots(b, s, i, t);
  }

  lemma StartedBelowMembers(b: Book, s: EventSpan, link: Link, i: nat, t: nat)
    requires Ok(b, i, t) && IsNew(b, s, i)
    ensures MembersAgree(StartedBelow(b, s, link))
    ensures link.trace in b.traces ==> s.id !in b.traces[link.trace]
  {
  }

  lemma StartedBelowRoots(b: Book, s: EventSpan, link: Link, i: nat, t: nat)
    requires Ok(b, i, t) && IsNew(b, s, i) && link.parent != 0
    ensures RootsHeld(StartedBelow(b, s, link)) && RootsApart(StartedBelow(b, s, link))
  {
    var m := StartedBelow(b, s, link);
    forall x | x in m.links && m.links[x].parent == 0 && x.id !in m.d ensures HeldBy(m.traces, x, m.links[x].trace) {
      assert IsRoot(b, x);
    }
  }

  lemma StartedBelowOk(b: Book, s: EventSpan, link: Link, i: nat, t: nat)
    requires Ok(b, i, t) && IsNew(b, s, i) && link.parent != 0 && link.trace != 0
    ensures Ok(StartedBelow(b, s, link), i, t)
    ensures link.trace in b.traces ==> s.id !in b.traces[link.trace]
  {
    StartedBelowMembers(b, s, link, i, t);
    StartedBelowRoots(b, s, link, i, t);
  }

  /** The lookup that AddParentLazily relies on. */
  lemma RootHasTrace(b: Book, s: EventSpan, i: nat, t: nat)
    requires Ok(b, i, t) && IsRoot(b, s) && s.id !in b.d
    ensures b.links[s].trace in b.traces && s.id in b.traces[b.links[s].trace]
    ensures b.traces[b.links[s].trace][s.id] == s
  {
    assert HeldBy(b.traces, s, b.links[s].trace);
  }

  lemma HeldOnce(b: Book, s: EventSpan)
    requires MembersAgree(b) && IdsApart(b) && s in b.links
    ensures forall t :: t in b.traces && s.id in b.traces[t] ==> t == b.links[s].trace
  {
  }

  lemma MergedMembers(b: Book, s: EventSpan, link: Link)
    requires MembersAgree(b) && IdsApart(b)
    requires s in b.links && b.links[s].trace in b.traces && s.id in b.traces[b.links[s].trace]
    requires link.trace != b.links[s].trace
    ensures MembersAgree(Merged(b, s, link))
  {
  }

  /** The other spans of the merged trace all have parents. */
  lemma MergedRoots(b: Book, s: EventSpan, link: Link, x: EventSpan)
    requires MembersAgree(b) && IdsApart(b) && RootsApart(b) && IsRoot(b, s) && b.links[s].trace in b.traces
    requires IsRoot(b, x) && x != s
    ensures Merged(b, s, link).links[x] == b.links[x] && b.links[x].trace != b.links[s].trace
  {
  }

  lemma MergedRootsHeld(b: Book, s: EventSpan, link: Link)
    requires MembersAgree(b) && IdsApart(b) && RootsApart(b) && RootsHeld(b)
    requires IsRoot(b, s) && b.links[s].trace in b.traces && link.parent != 0 && link.trace != b.links[s].trace
    ensures RootsHeld(Merged(b, s, link)) && RootsApart(Merged(b, s, link))
  {
    var m := Merged(b, s, link);
    forall x | x in m.links && m.links[x].parent == 0
      ensures IsRoot(b, x) && m.links[x] == b.links[x] && b.links[x].trace != b.links[s].trace {
      MergedRoots(b, s, link, x);
    }
    forall x | x in m.links && m.links[x].parent == 0 && x.id !in m.d ensures HeldBy(m.traces, x, m.links[x].trace) {
      assert HeldBy(b.traces, x, b.links[x].trace);
    }
  }

  lemma MergedLinks(b: Book, s: EventSpan, link: Link, i: nat, t: nat)
    requires Ok(b, i, t) && IsRoot(b, s) && b.links[s].trace in b.traces && s.id !in b.d && link.parent != 0
    ensures IdsApart(Merged(b, s, link)) && LinksFixed(Merged(b, s, link))
  {
  }

  lemma MergedFresh(b: Book, s: EventSpan, link: Link, i: nat, t: nat)
    requires Ok(b, i, t) && IsRoot(b, s) && b.links[s].trace in b.traces && link.parent != 0 && link.trace != 0
    ensures Fresh(Merged(b, s, link), i, t)
  {
    var m := Merged(b, s, link);
    forall x | x in m.links && m.links[x].parent == 0 ensures m.links[x].trace < t {
      MergedRoots(b, s, link, x);
    }
  }

  lemma MergedOk(b: Book, s: EventSpan, link: Link, i: nat, t: nat)
    requires Ok(b, i, t) && IsRoot(b, s) && s.id !in b.d && link.parent != 0 && link.trace != 0 && link.trace != b.links[s].trace
    ensures b.links[s].trace in b.traces && Ok(Merged(b, s, link), i, t)
  {
    RootHasTrace(b, s, i, t);
    MergedMembers(b, s, link);
    MergedRootsHeld(b, s, link);
    MergedLinks(b, s, link, i, t);
    MergedFresh(b, s, link, i, t);
  }

  // ---------------------------------------------------------------- runs

  /** `Draw` and `DrawTrace` take the next id of a span and of a trace. */
  datatype Op =
    | Draw
    | DrawTrace
    | Finish(s: EventSpan)
    | Remove(t: nat)
    | Start(s: EventSpan)
    | StartBelow(s: EventSpan, link: Link)
    | Merge(s: EventSpan, link: Link)

  datatype Ledger = Ledger(book: Book, nextSpan: nat, nextTrace: nat)

  const EMPTY: Ledger := Ledger(Book(map[], map[], map[]), 1, 1)

  /** What the code demands of the callers, and checks before it removes a trace. */
  predicate Allowed(l: Ledger, op: Op) {
    match op
    case Finish(s) => s in l.book.links && s.id !in l.book.d
    case Remove(t) => t in l.book.traces && l.book.traces[t].Keys <= l.book.d.Keys
    case Draw => true
    case DrawTrace => true
    case Start(s) => IsNew(l.book, s, l.nextSpan)
    case StartBelow(s, link) => IsNew(l.book, s, l.nextSpan) && link.parent != 0 && link.trace != 0
    case Merge(s, link) => IsRoot(l.book, s) && s.id !in l.book.d && link.parent != 0 && link.trace != 0
                           && link.trace != l.book.links[s].trace && l.book.links[s].trace in l.book.traces
  }

  function Apply(l: Ledger, op: Op): Ledger
    requires Allowed(l, op)
  {
    match op
    case Finish(s) => l.(book := Finished(l.book, s))
    case Remove(t) => l.(book := Removed(l.book, t))
    case Draw => l.(nextSpan := l.nextSpan + 1)
    case DrawTrace => l.(nextTrace := l.nextTrace + 1)
    case Start(s) => l.(book := Started(l.book, s, l.nextTrace), nextTrace := l.nextTrace + 1)
    case StartBelow(s, link) => l.(book := StartedBelow(l.book, s, link))
    case Merge(s, link) => l.(book := Merged(l.book, s, link))
  }

  /** A run: the operations so far, each with the ledger after it. */
  datatype Run = Begin | Step(before: Run, op: Op, after: Ledger)

  function Last(r: Run): Ledger { if r.Begin? then EMPTY else r.after }

  predicate Legal(r: Run) {
    r.Step? ==> Legal(r.before) && Allowed(Last(r.before), r.op) && r.after == Apply(Last(r.before), r.op)
  }

  /** The run went on with one operation. */
  predicate Goes(from: Run, op: Op, to: Run) { to.Step? && to.before == from && to.op == op }

  lemma ApplyKeepsOk(l: Ledger, op: Op)
    requires Ok(l.book, l.nextSpan, l.nextTrace) && Allowed(l, op)
    ensures var m := Apply(l, op); Ok(m.book, m.nextSpan, m.nextTrace)
  {
    var b, i, t := l.book, l.nextSpan, l.nextTrace;
    match op
    case Draw =>
    case DrawTrace =>
    case Finish(s) => FinishedOk(b, s, i, t);
    case Remove(r) => RemovedOk(b, r, i, t);
    case Start(s) => StartedOk(b, s, i, t);
    case StartBelow(s, link) => StartedBelowOk(b, s, link, i, t);
    case Merge(s, link) => MergedOk(b, s, link, i, t);
  }

  /** The invariant holds after every run. */
  lemma {:induction false} EveryRunOk(r: Run)
    requires Legal(r)
    ensures Ok(Last(r).book, Last(r).nextSpan, Last(r).nextTrace)
  {
    if r.Step? {
      EveryRunOk(r.before);
      ApplyKeepsOk(Last(r.before), r.op);
    }
  }

  /** The trace that AddParentLazily looks up always exists. */
  lemma RootTraceExists(r: Run, s: EventSpan)
    requires Legal(r) && IsRoot(Last(r).book, s) && s.id !in Last(r).book.d
    ensures var b := Last(r).book; b.links[s].trace in b.traces && s in b.traces[b.links[s].trace].Values
  {
    EveryRunOk(r);
    RootHasTrace(Last(r).book, s, Last(r).nextSpan, Last(r).nextTrace);
  }

  /** No span is ever in two traces. */
  lemma InOneTraceOnly(r: Run, s: EventSpan, t: nat, u: nat)
    requires Legal(r)
    requires var b := Last(r).book;
             t in b.traces && u in b.traces && s in b.traces[t].Values && s in b.traces[u].Values
    ensures t == u
  {
    EveryRunOk(r);
    var b := Last(r).book;
    var i :| i in b.traces[t] && b.traces[t][i] == s;
    var j :| j in b.traces[u] && b.traces[u][j] == s;
  }

  /** A started span whose trace exists is held by it, and traces that do not exist yet have no spans. */
  predicate AllHeld(l: Ledger) {
    && (forall s :: s in l.book.links ==> l.book.links[s].trace < l.nextTrace)
    && (forall s :: s in l.book.links && l.book.links[s].trace in l.book.traces ==>
          HeldBy(l.book.traces, s, l.book.links[s].trace))
  }

  /** The contexts named traces whose ids were drawn. */
  predicate TracesDrawn(r: Run) {
    r.Step? ==>
      && TracesDrawn(r.before)
      && (r.op.StartBelow? || r.op.Merge? ==> r.op.link.trace < Last(r.before).nextTrace)
  }

  lemma MergeKeepsHeld(l: Ledger, s: EventSpan, link: Link)
    requires Ok(l.book, l.nextSpan, l.nextTrace) && AllHeld(l) && Allowed(l, Op.Merge(s, link)) && link.trace < l.nextTrace
    ensures AllHeld(Apply(l, Op.Merge(s, link)))
  {
    var m := Apply(l, Op.Merge(s, link)).book;
    var from := l.book.links[s].trace;
    RootHasTrace(l.book, s, l.nextSpan, l.nextTrace);
    MergedInPlainTerms(l.book, s, link);
    forall x | x in m.links && m.links[x].trace in m.traces ensures HeldBy(m.traces, x, m.links[x].trace) {
      if x != s && x.id !in l.book.traces[from] {
        assert HeldBy(l.book.traces, x, l.book.links[x].trace);
      }
    }
  }

  lemma ApplyKeepsHeld(l: Ledger, op: Op)
    requires Ok(l.book, l.nextSpan, l.nextTrace) && AllHeld(l) && Allowed(l, op)
    requires op.StartBelow? || op.Merge? ==> op.link.trace < l.nextTrace
    ensures AllHeld(Apply(l, op))
  {
    var m := Apply(l, op);
    if op.Merge? {
      MergeKeepsHeld(l, op.s, op.link);
    } else {
      forall x | x in m.book.links && m.book.links[x].trace in m.book.traces
        ensures HeldBy(m.book.traces, x, m.book.links[x].trace)
      {
        if x in l.book.links && l.book.links[x].trace in l.book.traces {
          assert HeldBy(l.book.traces, x, l.book.links[x].trace);
        }
      }
    }
  }

  lemma {:induction false} EveryRunHolds(r: Run)
    requires Legal(r) && TracesDrawn(r)
    ensures AllHeld(Last(r))
  {
    if r.Step? {
      EveryRunHolds(r.before);
      EveryRunOk(r.before);
      ApplyKeepsHeld(Last(r.before), r.op);
    }
  }

  /** After every run whose contexts name drawn traces, a started span whose trace exists is held by it. */
  lemma StartedAreHeld(r: Run, s: EventSpan)
    requires Legal(r) && TracesDrawn(r) && s in Last(r).book.links
    ensures var b := Last(r).book; var t := b.links[s].trace;
            t in b.traces ==> s.id in b.traces[t] && b.traces[t][s.id] == s
  {
    EveryRunHolds(r);
    EveryRunOk(r);
    var b := Last(r).book;
    if b.links[s].trace in b.traces {
      assert HeldBy(b.traces, s, b.links[s].trace);
    }
  }

  /** A span started below a context whose trace id was not drawn yet is left out when that trace appears. */
  lemma UndrawnTraceMisses(s: EventSpan, r: EventSpan) returns (run: Run)
    requires s.id == 1 && r.id == 2
    ensures Legal(run) && !TracesDrawn(run)
    ensures var b := Last(run).book;
            s in b.links && b.links[s].trace == 1 && 1 in b.traces && s.id !in b.traces[1]
  {
    var drawn := EMPTY.(nextSpan := 2);
    var link := Link(1, 7);
    var below := drawn.(book := StartedBelow(drawn.book, s, link));
    var twice := below.(nextSpan := 3);
    var started := twice.(book := Started(twice.book, r, 1), nextTrace := 2);
    var r1 := Step(Begin, Draw, drawn);
    var r2 := Step(r1, Op.StartBelow(s, link), below);
    var r3 := Step(r2, Draw, twice);
    run := Step(r3, Op.Start(r), started);
    assert Legal(r1) && Legal(r2) && Legal(r3);
    assert !TracesDrawn(r2) && !TracesDrawn(r3);
  }

  predicate Prefix(p: Run, r: Run) { p == r || (r.Step? && Prefix(p, r.before)) }

  /** A finished span stays finished, and its recorded parent never changes. */
  lemma {:induction false} FinishedForGood(p: Run, r: Run, x: nat)
    requires Legal(r) && Prefix(p, r) && x in Last(p).book.d
    ensures x in Last(r).book.d && Last(r).book.d[x] == Last(p).book.d[x]
  {
    if p != r {
      FinishedForGood(p, r.before, x);
    }
  }
}
