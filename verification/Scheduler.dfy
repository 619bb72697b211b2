/**
 What the tracer's export scheduler keeps, and why a cascade of exports restores it.
 */
module Scheduler {
  import opened Grounded
  import opened Spans

  type Waiting = map<nat, seq<EventSpan>>

  ghost predicate Logged(d: map<nat, nat>, rank: map<nat, nat>, exported: set<nat>, log: seq<nat>)
  {
    0 !in d && exported == Elements(log) && ParentFirst(d, log) && SiblingsInOrder(d, rank, log)
  }

  /** Spans with the same parent are exported in the order in which they were finished. */
  predicate SiblingsInOrder(d: map<nat, nat>, rank: map<nat, nat>, log: seq<nat>)
  {
    log == []
    || (var front, s := log[..|log| - 1], log[|log| - 1];
        && SiblingsInOrder(d, rank, front)
        && forall r :: r in Elements(front) && r in d && s in d && d[r] == d[s] ==> Before(rank, r, s))
  }

  /** The finished spans are numbered in the order in which they were finished; `next` is the next number. */
  datatype Order = Order(rank: map<nat, nat>, next: nat) {
    function Then(s: nat): Order { Order(rank[s := next], next + 1) }
  }

  /** Both are finished, `x` earlier than `y`. */
  predicate Before(rank: map<nat, nat>, x: nat, y: nat) { x in rank && y in rank && rank[x] < rank[y] }

  predicate Ranked(d: map<nat, nat>, rank: map<nat, nat>, next: nat) {
    rank.Keys == d.Keys && forall s :: s in rank ==> rank[s] < next
  }

  /** No span is exported before a sibling that was finished earlier. */
  predicate NoneOvertaken(d: map<nat, nat>, rank: map<nat, nat>, exported: set<nat>)
  {
    forall r, s {:trigger Before(rank, r, s)} ::
      r in exported && r in d && s in d && s !in exported && d[r] == d[s] ==> Before(rank, r, s)
  }

  /** A waiting list holds finished spans with the key as their parent, in the order they were finished in. */
  predicate WaitersOk(d: map<nat, nat>, rank: map<nat, nat>, w: Waiting)
  {
    && (forall p, i :: p in w && 0 <= i < |w[p]| ==> w[p][i].id in d && d[w[p][i].id] == p)
    && (forall p, i, j :: p in w && 0 <= i < j < |w[p]| ==> Before(rank, w[p][i].id, w[p][j].id))
  }

  predicate IsListed(waiters: seq<EventSpan>, s: nat) { exists i :: 0 <= i < |waiters| && waiters[i].id == s }

  /** Every finished span that is not exported waits for its parent. */
  predicate AllListed(d: map<nat, nat>, exported: set<nat>, w: Waiting) {
    forall s :: s in d && s !in exported ==> d[s] in w && IsListed(w[d[s]], s)
  }

  /** No waiting span is exported, except among those whose list is being worked on. */
  predicate NoneExported(exported: set<nat>, w: Waiting, busy: set<nat>) {
    forall p, i :: p in w && p !in busy && 0 <= i < |w[p]| ==> w[p][i].id !in exported
  }

  /** Only the spans in `due` are exported and still have waiters. */
  predicate KeysUnexported(exported: set<nat>, w: Waiting, due: set<nat>) {
    forall p :: p in w && p in exported ==> p in due
  }

  /** `d` maps every finished span to its parent and `order` to its number, `exported` are the exported spans,
      `log` is the order in which they were exported, and `w` the waiting list. */
  datatype Snapshot = Snapshot(d: map<nat, nat>, order: Order, exported: set<nat>, w: Waiting, log: seq<nat>)

  /** Outside a cascade `due` and `busy` are empty. */
  ghost predicate State(s: Snapshot, due: set<nat>, busy: set<nat>) {
    forall t :: t == s ==> Sound(t, due, busy)   // unfolded only where a proof mentions `Sound`
  }

  ghost predicate Sound(s: Snapshot, due: set<nat>, busy: set<nat>) {
    match s
    case Snapshot(d, Order(rank, next), exported, w, log) =>
      && Ranked(d, rank, next) && Logged(d, rank, exported, log) && NoneOvertaken(d, rank, exported)
      && Released(d, exported, due) && WaitersOk(d, rank, w) && AllListed(d, exported, w)
      && NoneExported(exported, w, busy) && KeysUnexported(exported, w, due)
  }

  /** What a cascade below `p` newly exports hangs below `p`. */
  predicate Below(d: map<nat, nat>, before: set<nat>, after: set<nat>, p: nat) {
    && before <= after
    && forall x :: x in after && x !in before ==> x in d && (d[x] == p || (d[x] in after && d[x] !in before))
  }

  /** The waiting list without the keys that were exported meanwhile. */
  function Without(w: Waiting, before: set<nat>, after: set<nat>): Waiting {
    map q | q in w && !(q in after && q !in before) :: w[q]
  }

  // ---------------------------------------------------------------- single exports

  lemma LogOne(d: map<nat, nat>, rank: map<nat, nat>, exported: set<nat>, log: seq<nat>, s: nat)
    requires Logged(d, rank, exported, log) && NoneOvertaken(d, rank, exported)
    requires s in d && s !in exported && (d[s] == 0 || d[s] in exported)
    ensures Logged(d, rank, exported + {s}, log + [s])
  {
    assert (log + [s])[..|log|] == log;
  }

  /** The span `x` comes next: its parent is exported, or it has none, and no unexported sibling was finished earlier. */
  predicate Next(s: Snapshot, x: nat, due: set<nat>)
  {
    && x in s.d && x !in s.exported && (s.d[x] == 0 || s.d[x] in due)
    && (forall y :: y in s.d && y !in s.exported && y != x && s.d[y] == s.d[x] ==> Before(s.order.rank, x, y))
    && forall p, i :: p in s.w && 0 <= i < |s.w[p]| && s.w[p][i].id == x ==> p in due
  }

  function Exported(s: Snapshot, x: nat): Snapshot { s.(exported := s.exported + {x}, log := s.log + [x]) }

  /** Exporting the next span makes its own waiters due. */
  lemma ExportOne(s: Snapshot, due: set<nat>, x: nat)
    requires State(s, due, due) && due <= s.exported && Next(s, x, due)
    ensures State(Exported(s, x), due + {x}, due)
    ensures x != 0 && (s.d[x] == 0 || s.d[x] in s.exported)
  {
    assert Sound(s, due, due);
    LogOne(s.d, s.order.rank, s.exported, s.log, x);
  }

  function Dropped(s: Snapshot, p: nat): Snapshot { s.(w := map q | q in s.w && q != p :: s.w[q]) }

  /** A list that is worked off entirely, or that does not exist, is no longer due. */
  lemma ListDone(s: Snapshot, active: set<nat>, p: nat)
    requires State(s, active + {p}, active + {p}) && p !in active
    requires p in s.w ==> forall i :: 0 <= i < |s.w[p]| ==> s.w[p][i].id in s.exported
    ensures State(Dropped(s, p), active, active)
  {
    assert Sound(s, active + {p}, active + {p});
    forall x | x in s.d && x !in s.exported ensures s.d[x] != p {
      if s.d[x] == p {
        assert false;
      }
    }
  }

  // ---------------------------------------------------------------- finishing a span

  lemma {:induction false} StillParentFirst(d: map<nat, nat>, log: seq<nat>, x: nat, p: nat)
    requires ParentFirst(d, log) && x !in d
    ensures ParentFirst(d[x := p], log) && x !in Elements(log)
  {
    if log != [] {
      StillParentFirst(d, log[..|log| - 1], x, p);
    }
  }

  lemma {:induction false} StillInOrder(d: map<nat, nat>, rank: map<nat, nat>, log: seq<nat>, x: nat, p: nat, n: nat)
    requires ParentFirst(d, log) && SiblingsInOrder(d, rank, log) && x !in d
    ensures SiblingsInOrder(d[x := p], rank[x := n], log)
  {
    if log != [] {
      StillInOrder(d, rank, log[..|log| - 1], x, p, n);
      StillParentFirst(d, log[..|log| - 1], x, p);
    }
  }

  /** The span is finished now, after all others. */
  function WithDone(s: Snapshot, x: nat, p: nat): Snapshot {
    s.(d := s.d[x := p], order := s.order.Then(x))
  }

  /** The span finished last overtakes nobody, and nobody that waits is a sibling of a span that need not wait. */
  lemma LastIsNotOvertaken(s: Snapshot, x: nat, p: nat)
    requires State(s, {}, {}) && x !in s.d
    ensures var t := WithDone(s, x, p);
            && Ranked(t.d, t.order.rank, t.order.next) && NoneOvertaken(t.d, t.order.rank, s.exported)
            && (p == 0 || p in s.exported ==> NoneOvertaken(t.d, t.order.rank, s.exported + {x}))
  {
    assert Sound(s, {}, {});
    StillParentFirst(s.d, s.log, x, p);
    var t := WithDone(s, x, p);
    forall r, y | r in t.d && y in t.d && t.d[r] == t.d[y] && r in s.exported && y !in s.exported
      ensures Before(t.order.rank, r, y)
    {
      assert y != x ==> Before(s.order.rank, r, y);
    }
  }

  lemma ReadyIsLogged(s: Snapshot, x: nat, p: nat)
    requires State(s, {}, {}) && x !in s.d && x != 0 && (p == 0 || p in s.exported)
    ensures var t := Exported(WithDone(s, x, p), x); x !in s.exported && Logged(t.d, t.order.rank, t.exported, t.log)
  {
    assert Sound(s, {}, {});
    var t := WithDone(s, x, p);
    LastIsNotOvertaken(s, x, p);
    StillParentFirst(s.d, s.log, x, p);
    StillInOrder(s.d, s.order.rank, s.log, x, p, s.order.next);
    LogOne(t.d, t.order.rank, t.exported, t.log, x);
  }

  lemma ReadyIsDue(d: map<nat, nat>, rank: map<nat, nat>, exported: set<nat>, w: Waiting, x: nat, p: nat, n: nat)
    requires Released(d, exported, {}) && WaitersOk(d, rank, w) && AllListed(d, exported, w)
    requires NoneExported(exported, w, {}) && KeysUnexported(exported, w, {}) && x !in d
    ensures Released(d[x := p], exported + {x}, {x}) && WaitersOk(d[x := p], rank[x := n], w)
    ensures AllListed(d[x := p], exported + {x}, w)
    ensures NoneExported(exported + {x}, w, {}) && KeysUnexported(exported + {x}, w, {x})
  {
  }

  /** A finished span whose parent is exported, or that has none, is exported at once. */
  lemma FinishReady(s: Snapshot, x: nat, p: nat)
    requires State(s, {}, {}) && x !in s.d && x != 0 && (p == 0 || p in s.exported)
    ensures x !in s.exported && State(Exported(WithDone(s, x, p), x), {x}, {})
  {
    assert Sound(s, {}, {});
    ReadyIsLogged(s, x, p);
    LastIsNotOvertaken(s, x, p);
    ReadyIsDue(s.d, s.order.rank, s.exported, s.w, x, p, s.order.next);
  }

  /** What MarkSpanAsWaitingForParent does to the waiting list. */
  function Parked(w: Waiting, p: nat, span: EventSpan): Waiting {
    var more: seq<EventSpan> := if p in w then w[p] + [span] else [span];
    w[p := more]
  }

  lemma ParkedAreListed(d: map<nat, nat>, exported: set<nat>, w: Waiting, span: EventSpan, p: nat)
    requires AllListed(d, exported, w) && span.id !in d
    ensures AllListed(d[span.id := p], exported, Parked(w, p, span))
  {
    var more := Parked(w, p, span);
    forall y | y in d && y !in exported ensures IsListed(more[d[y]], y) {
      var i :| 0 <= i < |w[d[y]]| && w[d[y]][i].id == y;
      assert more[d[y]][i].id == y;
    }
    assert more[p][|more[p]| - 1].id == span.id;
  }

  lemma ParkedInOrder(d: map<nat, nat>, rank: map<nat, nat>, w: Waiting, span: EventSpan, p: nat, n: nat)
    requires Ranked(d, rank, n) && WaitersOk(d, rank, w) && span.id !in d
    ensures WaitersOk(d[span.id := p], rank[span.id := n], Parked(w, p, span))
  {
  }

  lemma LaterKeepsLog(d: map<nat, nat>, rank: map<nat, nat>, exported: set<nat>, log: seq<nat>, x: nat, p: nat, n: nat)
    requires Logged(d, rank, exported, log) && x !in d && x != 0
    ensures Logged(d[x := p], rank[x := n], exported, log) && x !in exported
  {
    StillParentFirst(d, log, x, p);
    StillInOrder(d, rank, log, x, p, n);
  }

  lemma LaterKeepsLists(d: map<nat, nat>, exported: set<nat>, w: Waiting, span: EventSpan, p: nat)
    requires Released(d, exported, {}) && NoneExported(exported, w, {}) && KeysUnexported(exported, w, {})
    requires p != 0 && p !in exported && span.id !in exported
    ensures Released(d[span.id := p], exported, {})
    ensures NoneExported(exported, Parked(w, p, span), {}) && KeysUnexported(exported, Parked(w, p, span), {})
  {
  }

  /** Any other finished span is parked with its parent. */
  lemma FinishParked(s: Snapshot, span: EventSpan, p: nat)
    requires State(s, {}, {}) && span.id !in s.d && span.id != 0 && p != 0 && p !in s.exported
    ensures State(WithDone(s, span.id, p).(w := Parked(s.w, p, span)), {}, {})
  {
    assert Sound(s, {}, {});
    LastIsNotOvertaken(s, span.id, p);
    LaterKeepsLog(s.d, s.order.rank, s.exported, s.log, span.id, p, s.order.next);
    LaterKeepsLists(s.d, s.exported, s.w, span, p);
    ParkedAreListed(s.d, s.exported, s.w, span, p);
    ParkedInOrder(s.d, s.order.rank, s.w, span, p, s.order.next);
  }

  lemma ParkedIsLater(s: Snapshot, span: EventSpan, p: nat)
    requires State(s, {}, {}) && span.id !in s.d
    ensures span.id !in s.exported
  {
    assert Sound(s, {}, {});
    StillParentFirst(s.d, s.log, span.id, p);
  }

  /** Outside a cascade the exported spans are the grounded ones. */
  lemma ExportsAreGrounded(s: Snapshot)
    requires State(s, {}, {})
    ensures s.exported == Exportable(s.d)
  {
    assert Sound(s, {}, {});
    ExportsAreTheLeastFixpoint(s.d, s.log);
  }

  ghost predicate WaitsFor(w: Waiting, p: nat, x: nat) { p in w && IsListed(w[p], x) }

  /** Outside a cascade a finished span was either exported, once, or it waits, once, for its parent. */
  lemma ExportedOrWaiting(s: Snapshot, x: nat)
    requires State(s, {}, {}) && x in s.d
    ensures x in s.log <==> !exists p :: WaitsFor(s.w, p, x)
    ensures forall p :: WaitsFor(s.w, p, x) ==> p == s.d[x] && p !in s.log
    ensures forall i, j :: 0 <= i < |s.log| && 0 <= j < |s.log| && s.log[i] == x == s.log[j] ==> i == j
    ensures s.d[x] in s.w ==>
      forall i, j :: 0 <= i < j < |s.w[s.d[x]]| ==> s.w[s.d[x]][i].id != x || s.w[s.d[x]][j].id != x
  {
    assert Sound(s, {}, {});
    ElementsAreMembers(s.log);
    if x !in s.log {
      assert WaitsFor(s.w, s.d[x], x);
    }
    forall i, j | 0 <= i < j < |s.log| ensures s.log[i] != s.log[j] {
      LogOrder(s.d, s.log, j);
      assert s.log[..j][i] == s.log[i];
    }
  }

  // ---------------------------------------------------------------- cascades

  /** One waiter `s` of `p` and the cascade below it, after what was exported below `p` before. */
  lemma Descend(d: map<nat, nat>, w: Waiting, e0: set<nat>, e1: set<nat>, e2: set<nat>, p: nat, s: nat)
    requires Below(d, e0, e1, p) && s in d && d[s] == p && s !in e1 && Below(d, e1 + {s}, e2, s)
    ensures Below(d, e0, e2, p) && Without(Without(w, e0, e1), e1, e2) == Without(w, e0, e2)
  {
  }

  /** What is exported below one waiter of `p` does not include the other waiters. */
  lemma SiblingsStay(d: map<nat, nat>, waiters: seq<EventSpan>, e1: set<nat>, e2: set<nat>, p: nat, k: nat)
    requires forall i :: 0 <= i < |waiters| ==> waiters[i].id in d && d[waiters[i].id] == p
    requires forall i, j :: 0 <= i < j < |waiters| ==> waiters[i].id != waiters[j].id
    requires k < |waiters| && p in e1 && Below(d, e1 + {waiters[k].id}, e2, waiters[k].id)
    requires forall i :: k <= i < |waiters| ==> waiters[i].id !in e1
    ensures forall i :: k < i < |waiters| ==> waiters[i].id !in e2
  {
  }

  lemma NothingWaits(s: Snapshot, active: set<nat>, p: nat)
    requires State(s, active + {p}, active) && p !in active && p in s.exported && p !in s.w
    ensures State(s, active, active) && s.w == Without(s.w, s.exported - {p}, s.exported)
    ensures Below(s.d, s.exported, s.exported, p)
  {
    assert Sound(s, active + {p}, active);
    ListDone(s, active, p);
    assert Dropped(s, p).w == s.w;
  }

  /** A due list becomes a busy one. */
  lemma StartList(s: Snapshot, active: set<nat>, p: nat)
    requires State(s, active + {p}, active) && p !in active && p in s.w
    ensures State(s, active + {p}, active + {p})
    ensures forall i :: 0 <= i < |s.w[p]| ==> s.w[p][i].id !in s.exported
    ensures Below(s.d, s.exported, s.exported, p) && s.w == Without(s.w, s.exported, s.exported)
  {
    assert Sound(s, active + {p}, active);
  }

  /** What is known of the waiters of `p`. */
  lemma WaiterFacts(s: Snapshot, due: set<nat>, busy: set<nat>, p: nat)
    requires State(s, due, busy) && p in s.w
    ensures forall i :: 0 <= i < |s.w[p]| ==> s.w[p][i].id in s.d && s.d[s.w[p][i].id] == p
    ensures forall i, j :: 0 <= i < j < |s.w[p]| ==> s.w[p][i].id != s.w[p][j].id
  {
    assert Sound(s, due, busy);
  }

  lemma WaiterIsNext(s: Snapshot, due: set<nat>, p: nat, k: nat)
    requires State(s, due, due) && p in due && p in s.w && k < |s.w[p]| && s.w[p][k].id !in s.exported
    requires forall i :: 0 <= i < k ==> s.w[p][i].id in s.exported
    ensures Next(s, s.w[p][k].id, due) && p != 0
  {
    assert Sound(s, due, due);
    var x := s.w[p][k].id;
    forall y | y in s.d && y !in s.exported && y != x && s.d[y] == p ensures Before(s.order.rank, x, y) {
      var i :| 0 <= i < |s.w[p]| && s.w[p][i].id == y;
    }
  }

  /** Spans with the same parent are exported in the order in which they were finished. */
  lemma FirstFinishedFirst(s: Snapshot, x: nat, y: nat)
    requires State(s, {}, {}) && x in s.d && y in s.d && s.d[x] == s.d[y] && Before(s.order.rank, x, y)
    ensures y in s.log ==> x in s.log
    ensures forall i, j :: 0 <= i < |s.log| && 0 <= j < |s.log| && s.log[i] == x && s.log[j] == y ==> i < j
  {
    assert Sound(s, {}, {});
    ElementsAreMembers(s.log);
    assert y in s.log && x !in s.log ==> Before(s.order.rank, y, x);
    forall i, j | 0 <= i < |s.log| && 0 <= j < |s.log| && s.log[i] == x && s.log[j] == y ensures i < j {
      if j < i {
        InOrderAt(s.d, s.order.rank, s.log, j, i);
      }
    }
  }

  lemma {:induction false} InOrderAt(d: map<nat, nat>, rank: map<nat, nat>, log: seq<nat>, i: nat, j: nat)
    requires SiblingsInOrder(d, rank, log) && i < j < |log|
    requires log[i] in d && log[j] in d && d[log[i]] == d[log[j]]
    ensures Before(rank, log[i], log[j])
  {
    var front := log[..|log| - 1];
    if j < |front| {
      InOrderAt(d, rank, front, i, j);
    } else {
      ElementsAreMembers(front);
      assert front[i] == log[i];
    }
  }

  lemma KeyErased(d: map<nat, nat>, w: Waiting, e0: set<nat>, e1: set<nat>, p: nat)
    requires p in e0 && e0 <= e1
    ensures (map q | q in Without(w, e0, e1) && q != p :: Without(w, e0, e1)[q]) == Without(w, e0 - {p}, e1)
  {
  }
}
