/** The depths given by the two-queue merges cost no more than any other code lengths
    that fit the code space. */
module HuffmanOptimal {
  import opened Powers
  import opened TwoQueue

  // ---------- rearranging an arbitrary assignment ----------

  lemma SwapProduct(a: nat, b: nat, x: nat, y: nat)
    requires a <= b && x <= y
    ensures a * y + b * x <= a * x + b * y
  {
    assert (b - a) * (y - x) >= 0;
  }

  /** Giving the longer of two codes to the lighter symbol costs nothing. */
  lemma SwapLengths(w: seq<nat>, x: seq<nat>, i: nat, p: nat, m: nat) returns (y: seq<nat>)
    requires |w| == |x| && i < |w| && p < |w| && i != p && w[i] <= w[p] && x[i] <= x[p] && AtMost(x, m)
    ensures y == x[i := x[p]][p := x[i]] && AtMost(y, m)
    ensures Kraft(y, m) == Kraft(x, m) && Cost(w, y) <= Cost(w, x)
  {
    var z := x[i := x[p]];
    y := z[p := x[i]];
    KraftUpdate(x, i, x[p], m, |x|);
    KraftUpdate(z, p, x[i], m, |x|);
    CostUpdate(w, x, i, x[p], |x|);
    CostUpdate(w, z, p, x[i], |x|);
    SwapProduct(w[i], w[p], x[i], x[p]);
  }

  lemma {:induction false} DeepestTo(x: seq<nat>, n: nat, skip: int) returns (p: nat)
    requires 0 < n <= |x| && (n == 1 ==> skip != 0)
    ensures p < n && p != skip && forall i :: 0 <= i < n && i != skip ==> x[i] <= x[p]
  {
    if n == 1 || (n == 2 && skip == 0) {
      p := n - 1;
    } else {
      p := DeepestTo(x, n - 1, skip);
      if n - 1 != skip && x[n - 1] > x[p] {
        p := n - 1;
      }
    }
  }

  /** If the first two weights are minimal, their codes may be taken to be the two longest. */
  lemma Arrange(w: seq<nat>, x: seq<nat>, m: nat) returns (y: seq<nat>)
    requires |w| == |x| >= 2 && AtMost(x, m)
    requires forall i :: 2 <= i < |w| ==> w[0] <= w[i] && w[1] <= w[i]
    ensures |y| == |w| && AtMost(y, m) && Kraft(y, m) == Kraft(x, m) && Cost(w, y) <= Cost(w, x)
    ensures forall i :: 2 <= i < |y| ==> y[i] <= y[0] && y[i] <= y[1]
  {
    y := x;
    var p := DeepestTo(y, |y|, -1);
    if p >= 2 {
      y := SwapLengths(w, y, 0, p, m);
      p := 0;
    }
    var o := 1 - p;
    var q := DeepestTo(y, |y|, p);
    if q >= 2 {
      y := SwapLengths(w, y, o, q, m);
    }
  }

  // ---------- merging the two longest codes ----------

  lemma CostPair(w: seq<nat>, x: seq<nat>)
    requires |w| == |x| >= 2
    ensures Cost(w, x) == w[0] * x[0] + w[1] * x[1] + Cost(w[2..], x[2..])
  {
    assert w == [w[0], w[1]] + w[2..] && x == [x[0], x[1]] + x[2..];
    CostConcat([w[0], w[1]], w[2..], [x[0], x[1]], x[2..]);
    var a, b := [w[0], w[1]], [x[0], x[1]];
    assert CostTo(a, b, 1) == CostTo(a, b, 0) + w[0] * x[0];
    assert CostTo(a, b, 2) == CostTo(a, b, 1) + w[1] * x[1];
  }

  lemma CostFirst(w: nat, x: nat, ws: seq<nat>, xs: seq<nat>)
    requires |ws| == |xs|
    ensures Cost([w] + ws, [x] + xs) == w * x + Cost(ws, xs)
  {
    CostConcat([w], ws, [x], xs);
    assert CostTo([w], [x], 1) == CostTo([w], [x], 0) + w * x;
  }

  lemma KraftFirst(x: nat, xs: seq<nat>, m: nat)
    ensures Kraft([x] + xs, m) == Share(x, m) + Kraft(xs, m)
  {
    KraftRep(1, x, xs, m);
  }

  lemma KraftPair(x: seq<nat>, m: nat)
    requires |x| >= 2
    ensures Kraft(x, m) == Share(x[0], m) + Share(x[1], m) + Kraft(x[2..], m)
  {
    assert x == [x[0]] + ([x[1]] + x[2..]);
    KraftFirst(x[0], [x[1]] + x[2..], m);
    KraftFirst(x[1], x[2..], m);
  }

  /** Codes no longer than `e` take up a whole number of slots of size 2^-e. */
  lemma {:induction false} KraftMultiple(x: seq<nat>, n: nat, e: nat, m: nat) returns (c: nat)
    requires n <= |x| && AtMost(x, e) && e <= m
    ensures KraftTo(x, n, m) == c * Pow2(m - e)
  {
    if n == 0 {
      c := 0;
    } else {
      var c' := KraftMultiple(x, n - 1, e, m);
      c := c' + Pow2(e - x[n - 1]);
      Pow2Add(e - x[n - 1], m - e);
      MulDistributes(c', Pow2(e - x[n - 1]), Pow2(m - e));
    }
  }

  /** A code longer than `t`, beside only codes of at most `t` bits, can be shortened to `t`. */
  lemma Shorten(rest: seq<nat>, t: nat, a: nat, m: nat)
    requires AtMost(rest, t) && t < a <= m
    requires Kraft(rest, m) + Share(t, m) + Share(a, m) <= Pow2(m)
    ensures Kraft(rest, m) + 2 * Share(t, m) <= Pow2(m)
  {
    var d := Pow2(m - t);
    var c := KraftMultiple(rest, |rest|, t, m);
    Pow2Add(t, m - t);
    MulDistributes(c, 1, d);
    MulCancelLess(c + 1, Pow2(t), d);
    MulMonotone(c + 2, Pow2(t), d);
    MulDistributes(c, 2, d);
  }

  /** An assignment for the weights with the first two merged, cheaper by the merged weight. */
  lemma MergeFirstTwo(w: seq<nat>, x: seq<nat>, m: nat) returns (z: seq<nat>)
    requires |w| == |x| >= 2 && AtMost(x, m) && Kraft(x, m) <= Pow2(m)
    requires forall i :: 2 <= i < |x| ==> x[i] <= x[0] && x[i] <= x[1]
    ensures |z| == |w| - 1 && AtMost(z, m) && Kraft(z, m) <= Pow2(m)
    ensures Cost([w[0] + w[1]] + w[2..], z) + w[0] + w[1] <= Cost(w, x)
  {
    var t := if x[0] <= x[1] then x[0] else x[1];
    var rest := x[2..];
    KraftPair(x, m);
    if x[0] < x[1] {
      Shorten(rest, t, x[1], m);
    } else if x[1] < x[0] {
      Shorten(rest, t, x[0], m);
    }
    assert Kraft(rest, m) + 2 * Share(t, m) <= Pow2(m);
    assert t > 0 by {
      assert t == 0 ==> Share(t, m) == Pow2(m);
    }
    z := [t - 1] + rest;
    KraftFirst(t - 1, rest, m);
    ShareHalves(t - 1, m);
    CostFirst(w[0] + w[1], t - 1, w[2..], rest);
    CostPair(w, x);
    MergedProduct(w[0], w[1], x[0], x[1], t);
  }

  lemma MergedProduct(a: nat, b: nat, x: nat, y: nat, t: nat)
    requires t <= x && t <= y && 0 < t
    ensures (a + b) * (t - 1) + a + b <= a * x + b * y
  {
    MulMonotone(t, x, a);
    MulMonotone(t, y, b);
    MulDistributes(a, b, t);
  }

  lemma MergeLightest(w: seq<nat>, x: seq<nat>, m: nat) returns (z: seq<nat>)
    requires |w| == |x| >= 2 && AtMost(x, m) && Kraft(x, m) <= Pow2(m)
    requires forall i :: 2 <= i < |w| ==> w[0] <= w[i] && w[1] <= w[i]
    ensures |z| == |w| - 1 && AtMost(z, m) && Kraft(z, m) <= Pow2(m)
    ensures Cost([w[0] + w[1]] + w[2..], z) + w[0] + w[1] <= Cost(w, x)
  {
    var x' := Arrange(w, x, m);
    z := MergeFirstTwo(w, x', m);
  }

  // ---------- optimality ----------

  lemma CostRep(w: seq<nat>, d: nat)
    requires |w| <= 2
    ensures Cost(w, Rep(|w|, d)) == Sum(w) * d
  {
    if |w| == 1 {
      assert CostTo(w, Rep(1, d), 1) == CostTo(w, Rep(1, d), 0) + w[0] * d;
      SumOneTwo(w[0], 0);
      assert w == [w[0]];
    } else if |w| == 2 {
      assert CostTo(w, Rep(2, d), 1) == CostTo(w, Rep(2, d), 0) + w[0] * d;
      assert CostTo(w, Rep(2, d), 2) == CostTo(w, Rep(2, d), 1) + w[1] * d;
      SumOneTwo(w[0], w[1]);
      assert w == [w[0], w[1]];
      assert (w[0] + w[1]) * d == w[0] * d + w[1] * d;
    }
  }

  lemma CostPrefix(k: nat, w: seq<nat>, d: nat, l: seq<nat>)
    requires k <= 2 && k <= |w| && |w| == k + |l|
    ensures Cost(w, Rep(k, d) + l) == Sum(w[..k]) * d + Cost(w[k..], l)
  {
    assert w == w[..k] + w[k..];
    CostConcat(w[..k], w[k..], Rep(k, d), l);
    CostRep(w[..k], d);
  }

  lemma CostSnoc(w: seq<nat>, x: seq<nat>)
    requires |w| == |x| > 0
    ensures Cost(w, x) == Cost(w[..|w| - 1], x[..|x| - 1]) + w[|w| - 1] * x[|x| - 1]
  {
    CostSame(w, x, w[..|w| - 1], x[..|x| - 1], |w| - 1);
  }

  /** Undoing a merge lengthens the total by exactly the merged weight. */
  lemma CostSplit(k: nat, lq: seq<nat>, iq: seq<nat>, v: nat, ll: seq<nat>, il: seq<nat>)
    requires k <= 2 && k <= |lq| && 2 - k <= |iq| && v == Sum(lq[..k]) + Sum(iq[..2 - k])
    requires |ll| == |lq| - k && |il| == |iq| - 1 + k
    ensures Cost(lq, Split(k, ll, il).0) + Cost(iq, Split(k, ll, il).1) == Cost(lq[k..], ll) + Cost(iq[2 - k..] + [v], il) + v
  {
    var d := il[|il| - 1] + 1;
    var rest := il[..|il| - 1];
    var low, high := Sum(lq[..k]), Sum(iq[..2 - k]);
    calc {
      Cost(lq, Split(k, ll, il).0) + Cost(iq, Split(k, ll, il).1);
      { CostPrefix(k, lq, d, ll); CostPrefix(2 - k, iq, d, rest); }
      low * d + Cost(lq[k..], ll) + (high * d + Cost(iq[2 - k..], rest));
      { MulDistributes(low, high, d); }
      Cost(lq[k..], ll) + Cost(iq[2 - k..], rest) + v * (d - 1) + v;
      { CostSnoc(iq[2 - k..] + [v], il); assert (iq[2 - k..] + [v])[..|il| - 1] == iq[2 - k..]; }
      Cost(lq[k..], ll) + Cost(iq[2 - k..] + [v], il) + v;
    }
  }

  /** The queued weights with the two picked ones in front. */
  function PickedFirst(k: nat, a: seq<nat>, b: seq<nat>): (s: seq<nat>)
    requires k <= 2 && k <= |a| && 2 - k <= |b|
    ensures |s| == |a| + |b|
  {
    (a[..k] + b[..2 - k]) + (a[k..] + b[2 - k..])
  }

  lemma PickedFirstCost(k: nat, w: seq<nat>, v: seq<nat>, x: seq<nat>, y: seq<nat>)
    requires k <= 2 && k <= |w| == |x| && 2 - k <= |v| == |y|
    ensures Cost(PickedFirst(k, w, v), PickedFirst(k, x, y)) == Cost(w, x) + Cost(v, y)
  {
    var j := 2 - k;
    CostCut(w, x, k);
    CostCut(v, y, j);
    CostConcat(w[..k], v[..j], x[..k], y[..j]);
    CostConcat(w[k..], v[j..], x[k..], y[j..]);
    CostConcat(w[..k] + v[..j], w[k..] + v[j..], x[..k] + y[..j], x[k..] + y[j..]);
  }

  lemma CostCut(w: seq<nat>, x: seq<nat>, k: nat)
    requires k <= |w| == |x|
    ensures Cost(w, x) == Cost(w[..k], x[..k]) + Cost(w[k..], x[k..])
  {
    assert w == w[..k] + w[k..] && x == x[..k] + x[k..];
    CostConcat(w[..k], w[k..], x[..k], x[k..]);
  }

  lemma PickedFirstKraft(k: nat, x: seq<nat>, y: seq<nat>, m: nat)
    requires k <= 2 && k <= |x| && 2 - k <= |y|
    ensures Kraft(PickedFirst(k, x, y), m) == Kraft(x, m) + Kraft(y, m)
    ensures AtMost(x, m) && AtMost(y, m) ==> AtMost(PickedFirst(k, x, y), m)
  {
    var j := 2 - k;
    KraftCut(x, k, m);
    KraftCut(y, j, m);
    KraftConcat(x[..k], y[..j], m);
    KraftConcat(x[k..], y[j..], m);
    KraftConcat(x[..k] + y[..j], x[k..] + y[j..], m);
  }

  lemma KraftCut(x: seq<nat>, k: nat, m: nat)
    requires k <= |x|
    ensures Kraft(x, m) == Kraft(x[..k], m) + Kraft(x[k..], m)
  {
    assert x == x[..k] + x[k..];
    KraftConcat(x[..k], x[k..], m);
  }

  lemma PickedFirstFacts(lq: seq<nat>, iq: seq<nat>, y: nat)
    requires |lq| + |iq| >= 2 && QueueInv(lq, iq, y)
    ensures var k := Picked(lq, iq); var s := PickedFirst(k, lq, iq);
            && s[2..] == lq[k..] + iq[2 - k..]
            && s[0] + s[1] == Merged(lq, iq)
            && forall i :: 2 <= i < |s| ==> s[0] <= s[i] && s[1] <= s[i]
  {
    var k := Picked(lq, iq);
    var s := PickedFirst(k, lq, iq);
    var rest := lq[k..] + iq[2 - k..];
    assert s[2..] == rest;
    assert {s[0], s[1]} == {Smaller(lq, iq), Larger(lq, iq)};
    QueueStep(lq, iq, y);
    assert forall i :: 0 <= i < |rest| ==> Larger(lq, iq) <= rest[i];
    forall i | 2 <= i < |s| ensures s[0] <= s[i] && s[1] <= s[i] {
      assert s[i] == rest[i - 2];
    }
  }

  /** The two picked weights merged, in front of everything else. */
  lemma MergePicked(lq: seq<nat>, iq: seq<nat>, y: nat, xl: seq<nat>, xi: seq<nat>, m: nat) returns (z: seq<nat>)
    requires |lq| + |iq| >= 2 && QueueInv(lq, iq, y)
    requires |xl| == |lq| && |xi| == |iq| && AtMost(xl, m) && AtMost(xi, m)
    requires Kraft(xl, m) + Kraft(xi, m) <= Pow2(m)
    ensures |z| == |lq| + |iq| - 1 && AtMost(z, m) && Kraft(z, m) <= Pow2(m)
    ensures var k := Picked(lq, iq);
            Cost([Merged(lq, iq)] + (lq[k..] + iq[2 - k..]), z) + Merged(lq, iq) <= Cost(lq, xl) + Cost(iq, xi)
  {
    var k := Picked(lq, iq);
    var w, x := PickedFirst(k, lq, iq), PickedFirst(k, xl, xi);
    PickedFirstCost(k, lq, iq, xl, xi);
    PickedFirstKraft(k, xl, xi, m);
    PickedFirstFacts(lq, iq, y);
    z := MergeLightest(w, x, m);
  }

  /** Any fitting assignment for the queues yields one for the merged queues, cheaper by the merged weight. */
  lemma MergeAssignment(lq: seq<nat>, iq: seq<nat>, y: nat, xl: seq<nat>, xi: seq<nat>, m: nat)
      returns (yl: seq<nat>, yi: seq<nat>)
    requires |lq| + |iq| >= 2 && QueueInv(lq, iq, y)
    requires |xl| == |lq| && |xi| == |iq| && AtMost(xl, m) && AtMost(xi, m)
    requires Kraft(xl, m) + Kraft(xi, m) <= Pow2(m)
    ensures |yl| == |AfterMerge(lq, iq).0| && |yi| == |AfterMerge(lq, iq).1| && AtMost(yl, m) && AtMost(yi, m)
    ensures Kraft(yl, m) + Kraft(yi, m) <= Pow2(m)
    ensures Cost(AfterMerge(lq, iq).0, yl) + Cost(AfterMerge(lq, iq).1, yi) + Merged(lq, iq) <= Cost(lq, xl) + Cost(iq, xi)
  {
    var k := Picked(lq, iq);
    var z := MergePicked(lq, iq, y, xl, xi, m);
    yl := z[1..][..|lq| - k];
    yi := z[1..][|lq| - k..] + [z[0]];
    MergeBack(lq[k..], iq[2 - k..], Merged(lq, iq), z, m);
  }

  lemma MergeBack(restL: seq<nat>, restI: seq<nat>, v: nat, z: seq<nat>, m: nat)
    requires |z| == |restL| + |restI| + 1
    ensures Cost([v] + (restL + restI), z) == Cost(restL, z[1..][..|restL|]) + Cost(restI + [v], z[1..][|restL|..] + [z[0]])
    ensures Kraft(z, m) == Kraft(z[1..][..|restL|], m) + Kraft(z[1..][|restL|..] + [z[0]], m)
  {
    var zl, zi := z[1..][..|restL|], z[1..][|restL|..];
    assert z == [z[0]] + (zl + zi);
    CostFirst(v, z[0], restL + restI, zl + zi);
    CostConcat(restL, restI, zl, zi);
    CostSnoc(restI + [v], zi + [z[0]]);
    assert (restI + [v])[..|restI|] == restI && (zi + [z[0]])[..|zi|] == zi;
    KraftFirst(z[0], zl + zi, m);
    KraftConcat(zl, zi, m);
    KraftSnoc(zi + [z[0]], m);
  }

  lemma {:induction false} LengthsOptimal(lq: seq<nat>, iq: seq<nat>, y: nat, xl: seq<nat>, xi: seq<nat>, m: nat)
    requires |lq| + |iq| >= 1 && QueueInv(lq, iq, y)
    requires |xl| == |lq| && |xi| == |iq| && AtMost(xl, m) && AtMost(xi, m)
    requires Kraft(xl, m) + Kraft(xi, m) <= Pow2(m)
    ensures Cost(lq, Lengths(lq, iq).0) + Cost(iq, Lengths(lq, iq).1) <= Cost(lq, xl) + Cost(iq, xi)
    decreases |lq| + |iq|
  {
    if |lq| + |iq| == 1 {
      CostRep(lq, 0);
      CostRep(iq, 0);
    } else {
      var q := AfterMerge(lq, iq);
      var r := Lengths(q.0, q.1);
      QueueStep(lq, iq, y);
      var yl, yi := MergeAssignment(lq, iq, y, xl, xi, m);
      LengthsOptimal(q.0, q.1, Larger(lq, iq), yl, yi, m);
      MergedIsSum(lq, iq);
      CostSplit(Picked(lq, iq), lq, iq, Merged(lq, iq), r.0, r.1);
    }
  }
}
