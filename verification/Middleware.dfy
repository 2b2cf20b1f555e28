/** What follows from the meaning of a list of middlewares: their order, short circuits, and how often
    the handler runs. */
module Middlewares {
  import opened Dispatching

  /** The middlewares `b` around a handler, as a handler. */
  function Around<W, V>(b: seq<Behaviour<W, V>>, execute: W -> (W, Outcome<V>)): W -> (W, Outcome<V>) {
    w => (Meaning(b, execute, w).world, Meaning(b, execute, w).outcome)
  }

  ghost predicate SameResult<W, V>(e: Effect<W, V>, e': Effect<W, V>) {
    e.world == e'.world && e.outcome == e'.outcome
  }

  /** Order: those that come first run around all that come later. */
  lemma {:induction false} FirstRunAroundTheRest<W, V>(a: seq<Behaviour<W, V>>, b: seq<Behaviour<W, V>>,
                                                       execute: W -> (W, Outcome<V>), w: W)
    ensures SameResult(Meaning(a + b, execute, w), Meaning(a, Around(b, execute), w))
    decreases |a|, if a == [] then 0 else a[0].limit + 1
  {
    if a == [] {
      assert a + b == b;
    } else {
      assert (a + b)[0] == a[0];
      FirstRunsAroundTheRest(a, b, execute, w, []);
    }
  }

  lemma {:induction false} FirstRunsAroundTheRest<W, V>(a: seq<Behaviour<W, V>>, b: seq<Behaviour<W, V>>,
                                                        execute: W -> (W, Outcome<V>), w: W,
                                                        outcomes: seq<Outcome<V>>)
    requires a != [] && |outcomes| <= a[0].limit && (a + b)[0] == a[0]
    ensures SameResult(FirstDecides(a + b, execute, w, outcomes), FirstDecides(a, Around(b, execute), w, outcomes))
    decreases |a|, a[0].limit - |outcomes|
  {
    if |outcomes| < a[0].limit {
      var r := a[0].decide(w, outcomes);
      if r.1.CallNext? {
        assert (a + b)[1..] == a[1..] + b;
        FirstRunAroundTheRest(a[1..], b, execute, r.0);
        var called := Meaning(a[1..] + b, execute, r.0);
        FirstRunsAroundTheRest(a, b, execute, called.world, outcomes + [called.outcome]);
      }
    }
  }

  /** Whatever it sees, the middleware calls on exactly `k` times. */
  ghost predicate CallsOn<W(!new), V(!new)>(mw: Behaviour<W, V>, k: nat) {
    && k <= mw.limit
    && forall w: W, outcomes: seq<Outcome<V>> ::
         && (|outcomes| < k ==> mw.decide(w, outcomes).1.CallNext?)
         && (|outcomes| == k && k < mw.limit ==> mw.decide(w, outcomes).1.Finish?)
  }

  function Product(ks: seq<nat>): nat {
    if ks == [] then 1 else ks[0] * Product(ks[1..])
  }

  /** The handler runs as often as the product of the calls says: once if each middleware calls on once,
      and never if one does not. */
  lemma {:induction false} HandlerRunsProduct<W(!new), V(!new)>(mws: seq<Behaviour<W, V>>, ks: seq<nat>,
                                                                execute: W -> (W, Outcome<V>), w: W)
    requires |ks| == |mws| && forall i :: 0 <= i < |mws| ==> CallsOn(mws[i], ks[i])
    ensures Meaning(mws, execute, w).handled == Product(ks)
    decreases |mws|, if mws == [] then 0 else mws[0].limit + 1
  {
    if mws != [] {
      assert CallsOn(mws[0], ks[0]);
      EachCallRunsTheRest(mws, ks, execute, w, []);
    }
  }

  lemma {:induction false} EachCallRunsTheRest<W(!new), V(!new)>(mws: seq<Behaviour<W, V>>, ks: seq<nat>,
                                                                 execute: W -> (W, Outcome<V>), w: W,
                                                                 outcomes: seq<Outcome<V>>)
    requires |ks| == |mws| && forall i :: 0 <= i < |mws| ==> CallsOn(mws[i], ks[i])
    requires mws != [] && |outcomes| <= ks[0] <= mws[0].limit
    ensures FirstDecides(mws, execute, w, outcomes).handled == (ks[0] - |outcomes|) * Product(ks[1..])
    decreases |mws|, mws[0].limit - |outcomes|
  {
    assert CallsOn(mws[0], ks[0]);
    if |outcomes| < ks[0] {
      var r := mws[0].decide(w, outcomes);
      HandlerRunsProduct(mws[1..], ks[1..], execute, r.0);
      var called := Meaning(mws[1..], execute, r.0);
      EachCallRunsTheRest(mws, ks, execute, called.world, outcomes + [called.outcome]);
      var left, rest := ks[0] - |outcomes|, Product(ks[1..]);
      assert left * rest == (left - 1) * rest + rest;
    }
  }

  /** Behind a middleware that does not call on nothing matters: neither what comes later nor the handler
      runs. */
  lemma {:induction false} ShortCircuitHidesTheRest<W(!new), V(!new)>(
      before: seq<Behaviour<W, V>>, mw: Behaviour<W, V>, rest: seq<Behaviour<W, V>>, rest': seq<Behaviour<W, V>>,
      execute: W -> (W, Outcome<V>), execute': W -> (W, Outcome<V>), w: W)
    requires CallsOn(mw, 0)
    ensures Meaning(before + [mw] + rest, execute, w) == Meaning(before + [mw] + rest', execute', w)
    ensures Meaning(before + [mw] + rest, execute, w).handled == 0
    decreases |before|, if before == [] then 0 else before[0].limit + 1
  {
    if before == [] {
      assert (before + [mw] + rest)[0] == mw == (before + [mw] + rest')[0];
      assert var outcomes: seq<Outcome<V>> := []; mw.decide(w, outcomes) == mw.decide(w, []);
    } else {
      FirstHidesTheRest(before, mw, rest, rest', execute, execute', w, []);
    }
  }

  lemma {:induction false} FirstHidesTheRest<W(!new), V(!new)>(
      before: seq<Behaviour<W, V>>, mw: Behaviour<W, V>, rest: seq<Behaviour<W, V>>, rest': seq<Behaviour<W, V>>,
      execute: W -> (W, Outcome<V>), execute': W -> (W, Outcome<V>), w: W, outcomes: seq<Outcome<V>>)
    requires CallsOn(mw, 0) && before != [] && |outcomes| <= before[0].limit
    ensures var all, all' := before + [mw] + rest, before + [mw] + rest';
      && all[0] == all'[0] == before[0]
      && FirstDecides(all, execute, w, outcomes) == FirstDecides(all', execute', w, outcomes)
      && FirstDecides(all, execute, w, outcomes).handled == 0
    decreases |before|, before[0].limit - |outcomes|
  {
    var all, all' := before + [mw] + rest, before + [mw] + rest';
    assert all[0] == all'[0] == before[0];
    if |outcomes| < before[0].limit {
      var r := before[0].decide(w, outcomes);
      if r.1.CallNext? {
        assert all[1..] == before[1..] + [mw] + rest && all'[1..] == before[1..] + [mw] + rest';
        ShortCircuitHidesTheRest(before[1..], mw, rest, rest', execute, execute', r.0);
        var called := Meaning(all[1..], execute, r.0);
        FirstHidesTheRest(before, mw, rest, rest', execute, execute', called.world, outcomes + [called.outcome]);
      }
    }
  }
}
