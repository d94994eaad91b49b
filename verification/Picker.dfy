// server.go: the choice of an upstream, weighted random or weighted round-robin.
module Picker {

  function Weight(w: int): nat {
    if w < 1 then 1 else w
  }

  function TotalWeight(weights: seq<int>): nat {
    if weights == [] then 0
    else TotalWeight(weights[..|weights| - 1]) + Weight(weights[|weights| - 1])
  }

  // How often upstream i stands in a list of picks.
  function Count(picks: seq<nat>, i: nat): nat {
    multiset(picks)[i]
  }

  // Every slot names an upstream, in order of the upstreams.
  ghost predicate SlotsOk(pool: seq<nat>, weights: seq<int>) {
    && |pool| == TotalWeight(weights)
    && forall k :: 0 <= k < |pool| ==>
         && pool[k] < |weights|
         && TotalWeight(weights[..pool[k]]) <= k < TotalWeight(weights[..pool[k] + 1])
  }

  // Upstream i is listed exactly max(1, weights[i]) times.
  ghost predicate CountsOk(picks: seq<nat>, weights: seq<int>) {
    && (forall i: nat :: i < |weights| ==> Count(picks, i) == if weights[i] < 1 then 1 else weights[i])
    && (forall i: nat :: i >= |weights| ==> Count(picks, i) == 0)
  }

  ghost predicate IsPool(pool: seq<nat>, weights: seq<int>) {
    SlotsOk(pool, weights) && CountsOk(pool, weights)
  }

  // The slots n consecutive picks see, from counter start on.
  function Window(pool: seq<nat>, start: nat, n: nat): seq<nat>
    requires |pool| > 0
  {
    seq<nat>(n, (k: nat) => Slot(pool, start + k))
  }

  lemma WindowGrows(pool: seq<nat>, start: nat, n: nat)
    requires |pool| > 0
    ensures Window(pool, start, 0) == []
    ensures Window(pool, start, n) + [Slot(pool, start + n)] == Window(pool, start, n + 1)
  {
    hide Slot;
  }

  // The slot a counter points to.
  function Slot(pool: seq<nat>, counter: nat): nat
    requires |pool| > 0
  {
    pool[counter % |pool|]
  }

  class UpstreamPicker {
    const weights: seq<int>
    var totalWeight: nat
    var pool: seq<nat>
    var next: nat

    ghost predicate Valid()
      reads this
    {
      |weights| > 0 && totalWeight == TotalWeight(weights) && IsPool(pool, weights)
    }

    // newUpstreamPicker
    constructor (weights: seq<int>)
      requires |weights| > 0
      ensures this.weights == weights && Valid() && next == 0
    {
      this.weights := weights;
      next := 0;
      totalWeight, pool := 0, [];
      new;
      hide IsPool, TotalWeight;
      totalWeight, pool := ExpandSlots(weights);
      pool := [];
      pool := RebuildPool(weights);
    }

    // The first pass of newUpstreamPicker: the total weight, and a pool that only has
    // the right length.
    static method ExpandSlots(weights: seq<int>) returns (totalWeight: nat, pool: seq<nat>)
      ensures totalWeight == TotalWeight(weights) == |pool|
    {
      totalWeight, pool := 0, [];
      for u := 0 to |weights|
        invariant totalWeight == TotalWeight(weights[..u]) == |pool|
      {
        var w := if weights[u] < 1 then 1 else weights[u];
        assert weights[..u + 1][..u] == weights[..u];
        totalWeight := totalWeight + w;
        for i := 0 to w
          invariant |pool| + w - i == totalWeight
        {
          pool := pool + [|pool|];
        }
      }
      assert weights[..|weights|] == weights;
    }

    // The second pass: the pool with the right upstream in every slot.
    static method RebuildPool(weights: seq<int>) returns (pool: seq<nat>)
      ensures IsPool(pool, weights)
    {
      hide IsPool, TotalWeight;
      pool := [];
      EmptyPool(weights[..0]);
      for idx := 0 to |weights|
        invariant IsPool(pool, weights[..idx])
      {
        var w := if weights[idx] < 1 then 1 else weights[idx];
        ghost var before := pool;
        for i := 0 to w
          invariant pool == before + Repeated(idx, i)
        {
          pool := pool + [idx];
          assert Repeated(idx, i) + [idx] == Repeated(idx, i + 1);
        }
        PoolGrows(before, weights, idx);
      }
      assert weights[..|weights|] == weights;
    }

    // pick in round-robin mode.
    method PickRoundRobin() returns (idx: nat)
      requires Valid()
      modifies this`next
      ensures Valid() && |pool| > 0 && next == old(next) + (if |weights| == 1 then 0 else 1)
      ensures idx == Slot(pool, old(next)) && idx < |weights|
    {
      PoolNonEmpty(pool, weights);
      if |weights| == 1 {
        return 0;
      }
      idx := pool[next % |pool|];
      next := next + 1;
    }

    // pick in random mode, for the draw r.
    method PickRandom(r: nat) returns (idx: nat)
      requires Valid() && r < totalWeight
      ensures idx == pool[r] && idx < |weights|
    {
      hide IsPool, TotalWeight;
      PoolLength(pool, weights);
      TotalSteps(weights, 0);
      if |weights| == 1 {
        assert weights[..1] == weights;
        PoolSlot(pool, weights, r, 0);
        return 0;
      }
      assert weights[..|weights|] == weights;
      idx := 0;
      var cumulative := 0;
      var i := 0;
      while i < |weights|
        invariant 0 <= i <= |weights|
        invariant cumulative == TotalWeight(weights[..i]) <= r < TotalWeight(weights[..|weights|])
      {
        var w := if weights[i] < 1 then 1 else weights[i];
        TotalSteps(weights, i);
        cumulative := cumulative + w;
        if r < cumulative {
          PoolSlot(pool, weights, r, i);
          return i;
        }
        i := i + 1;
      }
      assert false;
    }

    // As many picks as the total weight, one after the other.
    method PickRound() returns (picks: seq<nat>)
      requires Valid()
      modifies this`next
      ensures Valid()
      ensures CountsOk(picks, weights)
    {
      PoolNonEmpty(pool, weights);
      hide IsPool, Count, TotalWeight, Slot, CountsOk, Window;
      ghost var start, single := next, |weights| == 1;
      picks := [];
      WindowGrows(pool, start, 0);
      for i := 0 to |pool|
        invariant Valid() && picks == Window(pool, start, i)
        invariant next == if single then start else start + i
      {
        var idx := PickRoundRobin();
        if single {
          PoolOfOne(pool, weights, start, start + i);
        }
        WindowGrows(pool, start, i);
        picks := picks + [idx];
      }
      WindowIsRotation(pool, start);
      PoolCounts(pool, weights, picks);
    }
  }

  lemma PoolOfOne(pool: seq<nat>, weights: seq<int>, c: nat, d: nat)
    requires IsPool(pool, weights) && |weights| == 1 && |pool| > 0
    ensures Slot(pool, c) == Slot(pool, d)
  {
    hide TotalWeight, CountsOk;
    assert pool[c % |pool|] < 1 && pool[d % |pool|] < 1;
  }

  lemma PoolCounts(pool: seq<nat>, weights: seq<int>, picks: seq<nat>)
    requires IsPool(pool, weights) && multiset(picks) == multiset(pool)
    ensures CountsOk(picks, weights)
  {
    hide TotalWeight;
    forall i: nat ensures Count(picks, i) == Count(pool, i) {}
  }

  function Repeated(idx: nat, n: nat): (s: seq<nat>)
    ensures |s| == n && forall k :: 0 <= k < n ==> s[k] == idx
  {
    seq(n, k => idx)
  }

  lemma {:induction false} CountRepeated(idx: nat, n: nat, i: nat)
    ensures Count(Repeated(idx, n), i) == if i == idx then n else 0
  {
    if n > 0 {
      CountRepeated(idx, n - 1, i);
      assert Repeated(idx, n) == Repeated(idx, n - 1) + [idx];
    }
  }

  lemma EmptyPool(weights: seq<int>)
    requires weights == []
    ensures IsPool([], weights)
  {
  }

  lemma PoolGrows(before: seq<nat>, weights: seq<int>, idx: nat)
    requires idx < |weights| && IsPool(before, weights[..idx])
    ensures IsPool(before + Repeated(idx, Weight(weights[idx])), weights[..idx + 1])
  {
    hide SlotsOk, Count, Repeated;
    var ws := weights[..idx + 1];
    assert ws[..idx] == weights[..idx] && ws[idx] == weights[idx];
    PoolGrowsSlots(before, ws, idx);
    forall i: nat
      ensures Count(before + Repeated(idx, Weight(weights[idx])), i) == if i < |ws| then Weight(ws[i]) else 0
    {
      PoolGrowsCounts(before, weights, idx, i);
    }
  }

  lemma PoolGrowsCounts(before: seq<nat>, weights: seq<int>, idx: nat, i: nat)
    requires idx < |weights| && CountsOk(before, weights[..idx])
    ensures Count(before + Repeated(idx, Weight(weights[idx])), i)
         == if i <= idx then Weight(weights[i]) else 0
  {
    hide TotalWeight;
    CountRepeated(idx, Weight(weights[idx]), i);
    assert Count(before, i) == if i < idx then Weight(weights[..idx][i]) else 0;
  }

  lemma PoolGrowsSlots(before: seq<nat>, ws: seq<int>, idx: nat)
    requires |ws| == idx + 1 && SlotsOk(before, ws[..idx])
    ensures SlotsOk(before + Repeated(idx, Weight(ws[idx])), ws)
  {
    var pool := before + Repeated(idx, Weight(ws[idx]));
    assert ws[..idx + 1] == ws;
    assert TotalWeight(ws) == |before| + Weight(ws[idx]);
    hide TotalWeight;
    forall k | 0 <= k < |pool|
      ensures pool[k] <= idx && TotalWeight(ws[..pool[k]]) <= k < TotalWeight(ws[..pool[k] + 1])
    {
      if k < |before| {
        assert ws[..idx][..pool[k]] == ws[..pool[k]];
        assert ws[..idx][..pool[k] + 1] == ws[..pool[k] + 1];
      }
    }
  }

  lemma {:induction false} TotalMonotone(weights: seq<int>, i: nat, j: nat)
    requires i <= j <= |weights|
    ensures TotalWeight(weights[..i]) <= TotalWeight(weights[..j])
  {
    if i < j {
      TotalMonotone(weights, i, j - 1);
      assert weights[..j][..j - 1] == weights[..j - 1];
    }
  }

  lemma PoolLength(pool: seq<nat>, weights: seq<int>)
    requires IsPool(pool, weights)
    ensures |pool| == TotalWeight(weights)
  {
  }

  lemma TotalSteps(weights: seq<int>, i: nat)
    requires i < |weights|
    ensures TotalWeight(weights[..0]) == 0
    ensures TotalWeight(weights[..i + 1]) == TotalWeight(weights[..i]) + Weight(weights[i])
  {
    assert weights[..i + 1][..i] == weights[..i];
  }

  lemma PoolNonEmpty(pool: seq<nat>, weights: seq<int>)
    requires IsPool(pool, weights) && |weights| > 0
    ensures |pool| > 0
  {
  }

  // Slot r belongs to the upstream whose cumulative weights enclose r.
  lemma PoolSlot(pool: seq<nat>, weights: seq<int>, r: nat, i: nat)
    requires IsPool(pool, weights) && r < |pool| && i < |weights|
    requires TotalWeight(weights[..i]) <= r < TotalWeight(weights[..i + 1])
    ensures pool[r] == i
  {
    if pool[r] < i {
      TotalMonotone(weights, pool[r] + 1, i);
    } else if pool[r] > i {
      TotalMonotone(weights, i + 1, pool[r]);
    }
  }

  // |pool| consecutive slots, starting anywhere and wrapping around, are the pool
  // in another order.
  lemma WindowIsRotation(pool: seq<nat>, start: nat)
    requires |pool| > 0
    ensures multiset(Window(pool, start, |pool|)) == multiset(pool)
  {
    var n := |pool|;
    var c := start % n;
    var window := Window(pool, start, n);
    forall k | 0 <= k < n ensures window[k] == if k < n - c then pool[c + k] else pool[c + k - n] {
      WrapAround(start, k, n);
    }
    assert window == pool[c..] + pool[..c];
    assert pool == pool[..c] + pool[c..];
  }

  lemma WrapAround(start: nat, k: nat, n: nat)
    requires 0 < n && k < n
    ensures (start + k) % n == if k < n - start % n then start % n + k else start % n + k - n
  {
    var q, c := start / n, start % n;
    assert start == q * n + c;
    if k < n - c {
      ModIs(start + k, q, c + k, n);
    } else {
      assert (q + 1) * n == q * n + n;
      ModIs(start + k, q + 1, c + k - n, n);
    }
  }

  lemma ModIs(x: nat, q: nat, r: nat, n: nat)
    requires n > 0 && r < n && x == q * n + r
    ensures x % n == r
  {
    var d := x / n - q;
    assert x == (x / n) * n + x % n;
    assert d * n == (x / n) * n - q * n;
    SmallMultiple(d, n);
  }

  lemma SmallMultiple(d: int, n: int)
    requires 0 < n && -n < d * n && d * n < n
    ensures d == 0
  {
  }

  // Both modes share one distribution: over all draws the random walk chooses each
  // upstream exactly as often as a full round of round-robin does.
  lemma {:induction false} SameDistribution(pool: seq<nat>, weights: seq<int>, walk: seq<nat>, start: nat)
    requires IsPool(pool, weights) && |weights| > 0 && |pool| > 0
    requires |walk| == |pool| && forall r :: 0 <= r < |walk| ==>
      walk[r] < |weights| && TotalWeight(weights[..walk[r]]) <= r < TotalWeight(weights[..walk[r] + 1])
    ensures multiset(walk) == multiset(Window(pool, start, |pool|))
  {
    forall r | 0 <= r < |walk| ensures walk[r] == pool[r] {
      PoolSlot(pool, weights, r, walk[r]);
    }
    assert walk == pool;
    WindowIsRotation(pool, start);
  }
}
