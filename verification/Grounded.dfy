/**
 Which finished spans may be exported, as a function of the parent links alone.

 `d` maps every finished span to its parent, or to 0 if it starts a trace.  A span is grounded if
 its chain of parents ends at a trace start and every span on the chain is finished.
 */
module Grounded {

  predicate GroundedWithin(d: map<nat, nat>, s: nat, steps: nat)
    decreases steps
  {
    s in d && (d[s] == 0 || (steps > 0 && GroundedWithin(d, d[s], steps - 1)))
  }

  ghost predicate Grounded(d: map<nat, nat>, s: nat) { exists n: nat :: GroundedWithin(d, s, n) }

  ghost function Exportable(d: map<nat, nat>): set<nat> { set s | s in d && Grounded(d, s) }

  // ---------------------------------------------------------------- what the scheduler keeps

  function Elements(log: seq<nat>): set<nat> {
    if log == [] then {} else Elements(log[..|log| - 1]) + {log[|log| - 1]}
  }

  /** Every exported span is finished, was not exported before, and its parent was. */
  predicate ParentFirst(d: map<nat, nat>, log: seq<nat>) {
    log == []
    || (var front, s := log[..|log| - 1], log[|log| - 1];
        ParentFirst(d, front) && s in d && s !in Elements(front) && (d[s] == 0 || d[s] in Elements(front)))
  }

  /** No finished span that could be exported is held back, except below the spans in `active`. */
  predicate Released(d: map<nat, nat>, exported: set<nat>, active: set<nat>) {
    forall s :: s in d && s !in exported ==> d[s] != 0 && (d[s] in exported ==> d[s] in active)
  }

  lemma {:induction false} LoggedAreGrounded(d: map<nat, nat>, log: seq<nat>, s: nat)
    requires ParentFirst(d, log) && s in Elements(log)
    ensures GroundedWithin(d, s, |log|)
  {
    var front, last := log[..|log| - 1], log[|log| - 1];
    if s != last {
      LoggedAreGrounded(d, front, s);
      MoreSteps(d, s, |front|, |log|);
    } else if d[s] != 0 {
      LoggedAreGrounded(d, front, d[s]);
    }
  }

  /** No span is exported twice, and parents come before children. */
  lemma {:induction false} LogOrder(d: map<nat, nat>, log: seq<nat>, i: nat)
    requires ParentFirst(d, log) && i < |log|
    ensures log[i] in Elements(log) && log[i] in d && log[i] !in log[..i]
    ensures d[log[i]] == 0 || d[log[i]] in log[..i]
  {
    var front := log[..|log| - 1];
    ElementsAreMembers(front);
    if i < |front| {
      LogOrder(d, front, i);
      assert log[..i] == front[..i];
    } else {
      assert log[..i] == front;
    }
  }

  lemma {:induction false} ElementsAreMembers(log: seq<nat>)
    ensures forall s :: s in Elements(log) <==> s in log
  {
    if log != [] {
      ElementsAreMembers(log[..|log| - 1]);
      assert log == log[..|log| - 1] + [log[|log| - 1]];
    }
  }

  lemma {:induction false} MoreSteps(d: map<nat, nat>, s: nat, n: nat, m: nat)
    requires GroundedWithin(d, s, n) && n <= m
    ensures GroundedWithin(d, s, m)
    decreases n
  {
    if d[s] != 0 {
      MoreSteps(d, d[s], n - 1, m - 1);
    }
  }

  lemma {:induction false} GroundedAreReleased(d: map<nat, nat>, exported: set<nat>, s: nat, n: nat)
    requires Released(d, exported, {}) && GroundedWithin(d, s, n)
    ensures s in exported
    decreases n
  {
    if s !in exported {
      GroundedAreReleased(d, exported, d[s], n - 1);
      assert false;
    }
  }

  /** The export log then holds exactly the grounded spans: nothing depends on the order in which
      the spans were finished. */
  lemma ExportsAreTheLeastFixpoint(d: map<nat, nat>, log: seq<nat>)
    requires ParentFirst(d, log) && Released(d, Elements(log), {})
    ensures Elements(log) == Exportable(d)
  {
    forall s | s in Elements(log) ensures s in Exportable(d) {
      LoggedAreGrounded(d, log, s);
    }
    forall s | s in Exportable(d) ensures s in Elements(log) {
      var n: nat :| GroundedWithin(d, s, n);
      GroundedAreReleased(d, Elements(log), s, n);
    }
  }

  // ---------------------------------------------------------------- properties of the specification

  /** Spans that keep each other from being exported: unfinished ones, and finished ones whose parent
      is in the set.  Every cycle of parent links is such a set. */
  predicate Trap(d: map<nat, nat>, c: set<nat>) { forall s :: s in c && s in d ==> d[s] != 0 && d[s] in c }

  lemma {:induction false} TrappedIsNotGrounded(d: map<nat, nat>, c: set<nat>, s: nat, n: nat)
    requires Trap(d, c) && s in c
    ensures !GroundedWithin(d, s, n)
    decreases n
  {
    if s in d && n > 0 {
      TrappedIsNotGrounded(d, c, d[s], n - 1);
    }
  }

  /** A span is never exported exactly when it sits in a trap. */
  lemma NeverExportedIffTrapped(d: map<nat, nat>, s: nat)
    ensures s !in Exportable(d) <==> exists c :: Trap(d, c) && s in c
  {
    if s !in Exportable(d) {
      var c := set x | x in {s} + d.Keys + d.Values && x !in Exportable(d);
      forall x | x in c && x in d ensures d[x] != 0 && d[x] in c {
        if d[x] == 0 {
          RootIsGrounded(d, x);
          assert false;
        }
        assert d[x] in d.Values;
        if d[x] in Exportable(d) {
          ChildOfGrounded(d, x);
          assert false;
        }
      }
      assert Trap(d, c) && s in c;
    } else {
      forall c | Trap(d, c) && s in c ensures false {
        var n: nat :| GroundedWithin(d, s, n);
        TrappedIsNotGrounded(d, c, s, n);
      }
    }
  }

  lemma RootIsGrounded(d: map<nat, nat>, s: nat)
    requires s in d && d[s] == 0
    ensures s in Exportable(d)
  {
    assert GroundedWithin(d, s, 0);
  }

  lemma ChildOfGrounded(d: map<nat, nat>, s: nat)
    requires s in d && d[s] in Exportable(d)
    ensures s in Exportable(d)
  {
    var n: nat :| GroundedWithin(d, d[s], n);
    assert GroundedWithin(d, s, n + 1);
  }

  lemma ParentIsGrounded(d: map<nat, nat>, s: nat)
    requires s in Exportable(d) && d[s] != 0
    ensures d[s] in Exportable(d)
  {
    var n: nat :| GroundedWithin(d, s, n);
    assert GroundedWithin(d, d[s], n - 1);
  }

  /** Finishing more spans never takes an export back. */
  lemma {:induction false} StillGrounded(d: map<nat, nat>, more: map<nat, nat>, s: nat, n: nat)
    requires (forall x :: x in d ==> x in more && more[x] == d[x]) && GroundedWithin(d, s, n)
    ensures GroundedWithin(more, s, n)
    decreases n
  {
    if d[s] != 0 {
      StillGrounded(d, more, d[s], n - 1);
    }
  }

  lemma ExportsOnlyGrow(d: map<nat, nat>, more: map<nat, nat>)
    requires forall x :: x in d ==> x in more && more[x] == d[x]
    ensures Exportable(d) <= Exportable(more)
  {
    forall s | s in Exportable(d) ensures s in Exportable(more) {
      var n: nat :| GroundedWithin(d, s, n);
      StillGrounded(d, more, s, n);
    }
  }

  /** What one more finished span releases: itself and, through it, spans that waited below it; or
      nothing, if its own parent is not exported. */
  lemma OneMoreSpan(d: map<nat, nat>, s: nat, parent: nat)
    requires s !in d && parent != 0 && parent !in Exportable(d)
    ensures Exportable(d[s := parent]) == Exportable(d)
  {
    var more := d[s := parent];
    ExportsOnlyGrow(d, more);
    forall x | x in Exportable(more) ensures x in Exportable(d) {
      var n: nat :| GroundedWithin(more, x, n);
      WithoutTheNewOne(d, s, parent, x, n);
    }
  }

  lemma {:induction false} WithoutTheNewOne(d: map<nat, nat>, s: nat, parent: nat, x: nat, n: nat)
    requires s !in d && parent != 0 && parent !in Exportable(d) && GroundedWithin(d[s := parent], x, n)
    ensures x in Exportable(d)
    decreases n
  {
    var more := d[s := parent];
    if x == s {
      WithoutTheNewOne(d, s, parent, parent, n - 1);
      assert false;
    } else if d[x] == 0 {
      RootIsGrounded(d, x);
    } else {
      WithoutTheNewOne(d, s, parent, d[x], n - 1);
      ChildOfGrounded(d, x);
    }
  }
}
