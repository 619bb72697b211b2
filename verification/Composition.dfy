/**
 What a chain of handlers makes of a stream, as a recursive function and in plain terms.
 */
module Composition {
  import opened Pipeline

  /** What a handler makes of a whole stream, starting with memory `m`: its outputs and final memory. */
  function Apply<S, T>(h: HandlerFn<S, T>, m: S, xs: seq<T>): (seq<T>, S)
    decreases |xs|
  {
    if xs == [] then ([], m)
    else
      var (m', passOn, w) := h(m, xs[0]);
      var (ys, last) := Apply(h, m', xs[1..]);
      ((if passOn then [w] else []) + ys, last)
  }

  /** The stream pushed through the handlers `k`, `k + 1`, ... one after the other. */
  function Compose<S, T>(hs: seq<HandlerFn<S, T>>, memory: seq<S>, k: nat, xs: seq<T>): seq<T>
    requires |memory| == |hs| && k <= |hs|
    decreases |hs| - k
  {
    if k == |hs| then xs else Compose(hs, memory, k + 1, Apply(hs[k], memory[k], xs).0)
  }

  // ---------------------------------------------------------------- in plain terms

  /** The handler's memories before every input and at the end. */
  predicate Remembers<S(==), T>(h: HandlerFn<S, T>, xs: seq<T>, ms: seq<S>) {
    |ms| == |xs| + 1 && forall i :: 0 <= i < |xs| ==> ms[i + 1] == h(ms[i], xs[i]).0
  }

  /** The numbers of the inputs that are passed on. */
  predicate Passes<S, T>(h: HandlerFn<S, T>, xs: seq<T>, ms: seq<S>, taken: seq<nat>)
    requires |ms| == |xs| + 1
  {
    && (forall j, k :: 0 <= j < k < |taken| ==> taken[j] < taken[k])
    && (forall j :: 0 <= j < |taken| ==> taken[j] < |xs| && h(ms[taken[j]], xs[taken[j]]).1)
    && (forall i :: 0 <= i < |xs| && h(ms[i], xs[i]).1 ==> i in taken)
  }

  predicate Rewrites<S, T(==)>(h: HandlerFn<S, T>, xs: seq<T>, ms: seq<S>, taken: seq<nat>, ys: seq<T>)
    requires |ms| == |xs| + 1 && forall j :: 0 <= j < |taken| ==> taken[j] < |xs|
  {
    |taken| == |ys| && forall j :: 0 <= j < |ys| ==> ys[j] == h(ms[taken[j]], xs[taken[j]]).2
  }

  predicate Stage<S(==), T(==)>(h: HandlerFn<S, T>, xs: seq<T>, ys: seq<T>, ms: seq<S>, taken: seq<nat>) {
    Remembers(h, xs, ms) && Passes(h, xs, ms, taken) && Rewrites(h, xs, ms, taken, ys)
  }

  lemma OneMorePassed<S, T>(h: HandlerFn<S, T>, xs: seq<T>, ms: seq<S>, taken: seq<nat>, x: T, m: S)
    requires |ms| == |xs| + 1 && Passes(h, xs, ms, taken)
    ensures Passes(h, xs + [x], ms + [m], if h(ms[|xs|], x).1 then taken + [|xs|] else taken)
  {
    var passOn := h(ms[|xs|], x).1;
    var more, xs', ms' := if passOn then taken + [|xs|] else taken, xs + [x], ms + [m];
    forall i | 0 <= i < |xs'| && h(ms'[i], xs'[i]).1 ensures i in more {
      assert i < |xs| ==> i in taken;
    }
  }

  lemma OneMoreRemembered<S, T>(h: HandlerFn<S, T>, xs: seq<T>, ms: seq<S>, x: T)
    requires Remembers(h, xs, ms)
    ensures Remembers(h, xs + [x], ms + [h(ms[|xs|], x).0])
  {
  }

  lemma OneMoreRewritten<S, T>(h: HandlerFn<S, T>, xs: seq<T>, ms: seq<S>, taken: seq<nat>, ys: seq<T>, x: T, m: S)
    requires |ms| == |xs| + 1 && (forall j :: 0 <= j < |taken| ==> taken[j] < |xs|) && Rewrites(h, xs, ms, taken, ys)
    ensures Rewrites(h, xs + [x], ms + [m], taken, ys)
    ensures Rewrites(h, xs + [x], ms + [m], taken + [|xs|], ys + [h(ms[|xs|], x).2])
  {
  }

  /** One more input at the end: passed on, rewritten, exactly if the handler says so. */
  lemma OneMoreInput<S, T>(h: HandlerFn<S, T>, xs: seq<T>, ys: seq<T>, ms: seq<S>, taken: seq<nat>, x: T)
    requires Stage(h, xs, ys, ms, taken)
    ensures var (m, passOn, w) := h(ms[|xs|], x);
            Stage(h, xs + [x], ys + if passOn then [w] else [], ms + [m], if passOn then taken + [|xs|] else taken)
  {
    assert ys + [] == ys;
    OneMoreRemembered(h, xs, ms, x);
    OneMorePassed(h, xs, ms, taken, x, h(ms[|xs|], x).0);
    OneMoreRewritten(h, xs, ms, taken, ys, x, h(ms[|xs|], x).0);
  }

  lemma {:induction false} ApplyAppends<S, T>(h: HandlerFn<S, T>, m: S, xs: seq<T>, x: T)
    ensures var (ys, last) := Apply(h, m, xs);
            Apply(h, m, xs + [x]) == (ys + if h(last, x).1 then [h(last, x).2] else [], h(last, x).0)
    decreases |xs|
  {
    if xs == [] {
      assert xs + [x] == [x] && [x][1..] == xs;
      var one := if h(m, x).1 then [h(m, x).2] else [];
      assert Apply(h, h(m, x).0, xs).0 == [] && one + [] == one == [] + one;
    } else {
      var (m', passOn, w) := h(m, xs[0]);
      ApplyAppends(h, m', xs[1..], x);
      assert (xs + [x])[1..] == xs[1..] + [x];
      var (ys, last) := Apply(h, m', xs[1..]);
      var more := if h(last, x).1 then [h(last, x).2] else [];
      assert (if passOn then [w] else []) + (ys + more) == (if passOn then [w] else []) + ys + more;
    }
  }

  lemma {:induction false} ApplyIsStage<S, T>(h: HandlerFn<S, T>, m: S, xs: seq<T>) returns (ms: seq<S>, taken: seq<nat>)
    ensures Stage(h, xs, Apply(h, m, xs).0, ms, taken) && ms[0] == m && ms[|xs|] == Apply(h, m, xs).1
    decreases |xs|
  {
    if xs == [] {
      ms, taken := [m], [];
    } else {
      var front, x := xs[..|xs| - 1], xs[|xs| - 1];
      ms, taken := ApplyIsStage(h, m, front);
      assert front + [x] == xs by { assert xs[..|xs| - 1] + [xs[|xs| - 1]] == xs; }
      ApplyAppends(h, m, front, x);
      OneMoreInput(h, front, Apply(h, m, front).0, ms, taken, x);
      taken := if h(ms[|front|], x).1 then taken + [|front|] else taken;
      ms := ms + [h(ms[|front|], x).0];
    }
  }

  /** The streams between the handlers from `k` on. */
  ghost predicate Stages<S, T>(hs: seq<HandlerFn<S, T>>, memory: seq<S>, k: nat, input: seq<T>, output: seq<T>,
                               streams: seq<seq<T>>, memories: seq<seq<S>>, taken: seq<seq<nat>>)
    requires |memory| == |hs| && k <= |hs|
  {
    var n := |hs| - k;
    && |streams| == n + 1 && |memories| == |taken| == n && streams[0] == input && streams[n] == output
    && forall i :: 0 <= i < n ==>
         memories[i] != [] && memories[i][0] == memory[k + i]
         && Stage(hs[k + i], streams[i], streams[i + 1], memories[i], taken[i])
  }

  lemma {:induction false} ComposeIsStages<S, T>(hs: seq<HandlerFn<S, T>>, memory: seq<S>, k: nat, xs: seq<T>)
      returns (streams: seq<seq<T>>, memories: seq<seq<S>>, taken: seq<seq<nat>>)
    requires |memory| == |hs| && k <= |hs|
    ensures Stages(hs, memory, k, xs, Compose(hs, memory, k, xs), streams, memories, taken)
    decreases |hs| - k
  {
    if k == |hs| {
      streams, memories, taken := [xs], [], [];
    } else {
      var ms, numbers := ApplyIsStage(hs[k], memory[k], xs);
      streams, memories, taken := ComposeIsStages(hs, memory, k + 1, Apply(hs[k], memory[k], xs).0);
      StagesInFront(hs, memory, k, xs, streams[0], Compose(hs, memory, k, xs), streams, memories, taken, ms, numbers);
      streams, memories, taken := [xs] + streams, [ms] + memories, [numbers] + taken;
    }
  }

  lemma StagesInFront<S, T>(hs: seq<HandlerFn<S, T>>, memory: seq<S>, k: nat, xs: seq<T>, ys: seq<T>, output: seq<T>,
                            streams: seq<seq<T>>, memories: seq<seq<S>>, taken: seq<seq<nat>>, ms: seq<S>, numbers: seq<nat>)
    requires |memory| == |hs| && k < |hs| && Stages(hs, memory, k + 1, ys, output, streams, memories, taken)
    requires Stage(hs[k], xs, ys, ms, numbers) && ms[0] == memory[k]
    ensures Stages(hs, memory, k, xs, output, [xs] + streams, [ms] + memories, [numbers] + taken)
  {
    var streams', memories', taken' := [xs] + streams, [ms] + memories, [numbers] + taken;
    forall i | 0 <= i < |hs| - k
      ensures memories'[i] != [] && memories'[i][0] == memory[k + i]
              && Stage(hs[k + i], streams'[i], streams'[i + 1], memories'[i], taken'[i])
    {
      if i > 0 {
        assert memories'[i] == memories[i - 1] && memory[k + i] == memory[k + 1 + (i - 1)];
      }
    }
  }
}
