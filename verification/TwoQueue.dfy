/** The merge order of the in-place minimum-redundancy algorithm, on values.

    The algorithm keeps two queues: leaf weights still to be merged and internal
    weights still to be merged. Each step takes the two smallest fronts and
    appends their sum to the internal queue. `Lengths` gives every queued
    node its depth in the tree being built; this module proves that those
    depths fill the code space, are the cheapest possible, and stay shallow. */
module TwoQueue {
  import opened Powers

  // ---------- sums over sequences, by prefix length ----------

  function SumTo(s: seq<nat>, n: nat): nat
    requires n <= |s|
  {
    if n == 0 then 0 else SumTo(s, n - 1) + s[n - 1]
  }

  function Sum(s: seq<nat>): nat {
    SumTo(s, |s|)
  }

  function CostTo(w: seq<nat>, l: seq<nat>, n: nat): nat
    requires n <= |w| == |l|
  {
    if n == 0 then 0 else CostTo(w, l, n - 1) + w[n - 1] * l[n - 1]
  }

  /** Total number of bits spent when the symbol of weight `w[i]` gets a code of `l[i]` bits. */
  function Cost(w: seq<nat>, l: seq<nat>): nat
    requires |w| == |l|
  {
    CostTo(w, l, |w|)
  }

  function Share(l: nat, m: nat): nat {
    if l <= m then Pow2(m - l) else 0
  }

  function KraftTo(l: seq<nat>, n: nat, m: nat): nat
    requires n <= |l|
  {
    if n == 0 then 0 else KraftTo(l, n - 1, m) + Share(l[n - 1], m)
  }

  /** The Kraft sum of `l`, measured in units of 2^-m. */
  function Kraft(l: seq<nat>, m: nat): nat {
    KraftTo(l, |l|, m)
  }

  predicate AtMost(l: seq<nat>, m: nat) {
    forall i :: 0 <= i < |l| ==> l[i] <= m
  }

  predicate Ascending(s: seq<nat>) {
    forall i, j :: 0 <= i < j < |s| ==> s[i] <= s[j]
  }

  lemma {:induction false} SumSame(a: seq<nat>, b: seq<nat>, n: nat)
    requires n <= |a| && n <= |b| && forall i :: 0 <= i < n ==> a[i] == b[i]
    ensures SumTo(a, n) == SumTo(b, n)
  {
    if n > 0 { SumSame(a, b, n - 1); }
  }

  lemma {:induction false} SumConcatTo(a: seq<nat>, b: seq<nat>, n: nat)
    requires n <= |b|
    ensures SumTo(a + b, |a| + n) == Sum(a) + SumTo(b, n)
  {
    if n == 0 {
      SumSame(a + b, a, |a|);
    } else {
      SumConcatTo(a, b, n - 1);
    }
  }

  lemma SumConcat(a: seq<nat>, b: seq<nat>)
    ensures Sum(a + b) == Sum(a) + Sum(b)
  {
    SumConcatTo(a, b, |b|);
  }

  lemma {:induction false} CostSame(a: seq<nat>, x: seq<nat>, b: seq<nat>, y: seq<nat>, n: nat)
    requires n <= |a| == |x| && n <= |b| == |y|
    requires forall i :: 0 <= i < n ==> a[i] == b[i] && x[i] == y[i]
    ensures CostTo(a, x, n) == CostTo(b, y, n)
  {
    if n > 0 { CostSame(a, x, b, y, n - 1); }
  }

  lemma {:induction false} CostConcatTo(a: seq<nat>, b: seq<nat>, x: seq<nat>, y: seq<nat>, n: nat)
    requires |a| == |x| && n <= |b| == |y|
    ensures CostTo(a + b, x + y, |a| + n) == Cost(a, x) + CostTo(b, y, n)
  {
    if n == 0 {
      CostSame(a + b, x + y, a, x, |a|);
    } else {
      CostConcatTo(a, b, x, y, n - 1);
    }
  }

  lemma CostConcat(a: seq<nat>, b: seq<nat>, x: seq<nat>, y: seq<nat>)
    requires |a| == |x| && |b| == |y|
    ensures Cost(a + b, x + y) == Cost(a, x) + Cost(b, y)
  {
    CostConcatTo(a, b, x, y, |b|);
  }

  lemma {:induction false} KraftSame(a: seq<nat>, b: seq<nat>, n: nat, m: nat)
    requires n <= |a| && n <= |b| && forall i :: 0 <= i < n ==> a[i] == b[i]
    ensures KraftTo(a, n, m) == KraftTo(b, n, m)
  {
    if n > 0 { KraftSame(a, b, n - 1, m); }
  }

  lemma {:induction false} KraftConcatTo(x: seq<nat>, y: seq<nat>, n: nat, m: nat)
    requires n <= |y|
    ensures KraftTo(x + y, |x| + n, m) == Kraft(x, m) + KraftTo(y, n, m)
  {
    if n == 0 {
      KraftSame(x + y, x, |x|, m);
    } else {
      KraftConcatTo(x, y, n - 1, m);
    }
  }

  lemma KraftConcat(x: seq<nat>, y: seq<nat>, m: nat)
    ensures Kraft(x + y, m) == Kraft(x, m) + Kraft(y, m)
  {
    KraftConcatTo(x, y, |y|, m);
  }

  lemma {:induction false} CostUpdate(w: seq<nat>, l: seq<nat>, i: nat, v: nat, n: nat)
    requires n <= |w| == |l| && i < |l|
    ensures CostTo(w, l[i := v], n) + (if i < n then w[i] * l[i] else 0) == CostTo(w, l, n) + (if i < n then w[i] * v else 0)
  {
    if n > 0 { CostUpdate(w, l, i, v, n - 1); }
  }

  lemma {:induction false} KraftUpdate(l: seq<nat>, i: nat, v: nat, m: nat, n: nat)
    requires n <= |l| && i < |l|
    ensures KraftTo(l[i := v], n, m) + (if i < n then Share(l[i], m) else 0) == KraftTo(l, n, m) + (if i < n then Share(v, m) else 0)
  {
    if n > 0 { KraftUpdate(l, i, v, m, n - 1); }
  }

  // ---------- the queues ----------

  /** The next node taken is leaf `i` rather than inner node `j`; ties go to the leaf. */
  predicate PopLeaf(lq: seq<nat>, i: nat, iq: seq<nat>, j: nat) {
    i < |lq| && (j >= |iq| || lq[i] <= iq[j])
  }

  /** How many of the two nodes merged next are leaves. */
  function Picked(lq: seq<nat>, iq: seq<nat>): (k: nat)
    requires |lq| + |iq| >= 2
    ensures k <= 2 && k <= |lq| && 2 - k <= |iq|
  {
    if PopLeaf(lq, 0, iq, 0) then
      (if PopLeaf(lq, 1, iq, 0) then 2 else 1)
    else
      (if PopLeaf(lq, 0, iq, 1) then 1 else 0)
  }

  /** The two picked weights, the smaller one first. */
  function Smaller(lq: seq<nat>, iq: seq<nat>): nat
    requires |lq| + |iq| >= 2
  {
    var k := Picked(lq, iq);
    if k == 2 then lq[0] else if k == 0 then iq[0] else if lq[0] <= iq[0] then lq[0] else iq[0]
  }

  function Larger(lq: seq<nat>, iq: seq<nat>): nat
    requires |lq| + |iq| >= 2
  {
    var k := Picked(lq, iq);
    if k == 2 then lq[1] else if k == 0 then iq[1] else if lq[0] <= iq[0] then iq[0] else lq[0]
  }

  function Merged(lq: seq<nat>, iq: seq<nat>): nat
    requires |lq| + |iq| >= 2
  {
    Smaller(lq, iq) + Larger(lq, iq)
  }

  function Rep(k: nat, v: nat): (s: seq<nat>)
    requires k <= 2
    ensures |s| == k && forall i :: 0 <= i < k ==> s[i] == v
  {
    if k == 0 then [] else if k == 1 then [v] else [v, v]
  }

  /** Undoes one merge: the last inner node gives way to `k` leaves and `2 - k` inner nodes one level down. */
  function Split(k: nat, ll: seq<nat>, il: seq<nat>): (r: (seq<nat>, seq<nat>))
    requires k <= 2 && |il| > 0
    ensures |r.0| == k + |ll| && |r.1| == 1 - k + |il|
  {
    var d := il[|il| - 1] + 1;
    (Rep(k, d) + ll, Rep(2 - k, d) + il[..|il| - 1])
  }

  function AfterMerge(lq: seq<nat>, iq: seq<nat>): (q: (seq<nat>, seq<nat>))
    requires |lq| + |iq| >= 2
    ensures |q.0| == |lq| - Picked(lq, iq) && |q.1| == |iq| + Picked(lq, iq) - 1
  {
    var k := Picked(lq, iq);
    (lq[k..], iq[2 - k..] + [Merged(lq, iq)])
  }

  /** Depth of every queued node in the tree the remaining merges build. */
  function Lengths(lq: seq<nat>, iq: seq<nat>): (r: (seq<nat>, seq<nat>))
    requires |lq| + |iq| >= 1
    ensures |r.0| == |lq| && |r.1| == |iq|
    decreases |lq| + |iq|
  {
    if |lq| + |iq| == 1 then
      (Rep(|lq|, 0), Rep(|iq|, 0))
    else
      var q := AfterMerge(lq, iq);
      var r := Lengths(q.0, q.1);
      Split(Picked(lq, iq), r.0, r.1)
  }

  lemma LengthsUnfold(lq: seq<nat>, iq: seq<nat>)
    requires |lq| + |iq| >= 2
    ensures Lengths(lq, iq) == Split(Picked(lq, iq), Lengths(AfterMerge(lq, iq).0, AfterMerge(lq, iq).1).0,
                                     Lengths(AfterMerge(lq, iq).0, AfterMerge(lq, iq).1).1)
  {}

  // ---------- the code space is filled exactly ----------

  function Times(k: nat, x: nat): nat
    requires k <= 2
  {
    if k == 0 then 0 else if k == 1 then x else 2 * x
  }

  lemma KraftRep(k: nat, v: nat, l: seq<nat>, m: nat)
    requires k <= 2
    ensures Kraft(Rep(k, v) + l, m) == Times(k, Share(v, m)) + Kraft(l, m)
  {
    KraftConcat(Rep(k, v), l, m);
    if k == 2 {
      assert Rep(2, v) == [v] + [v];
      KraftConcat([v], [v], m);
    }
    if k > 0 {
      KraftSnoc([v], m);
    }
  }

  lemma KraftSnoc(l: seq<nat>, m: nat)
    requires |l| > 0
    ensures Kraft(l, m) == Kraft(l[..|l| - 1], m) + Share(l[|l| - 1], m)
  {
    KraftSame(l, l[..|l| - 1], |l| - 1, m);
  }

  lemma ShareHalves(l: nat, m: nat)
    requires l + 1 <= m
    ensures Share(l, m) == 2 * Share(l + 1, m)
  {}

  /** Splitting the last node of `il` into two children one level down keeps the Kraft sum. */
  lemma KraftSplit(k: nat, ll: seq<nat>, il: seq<nat>, m: nat)
    requires k <= 2 && |il| > 0 && il[|il| - 1] + 1 <= m
    ensures Kraft(Split(k, ll, il).0, m) + Kraft(Split(k, ll, il).1, m) == Kraft(ll, m) + Kraft(il, m)
  {
    hide Kraft, Share;
    var top := il[|il| - 1];
    KraftSnoc(il, m);
    ShareHalves(top, m);
    KraftRep(k, top + 1, ll, m);
    KraftRep(2 - k, top + 1, il[..|il| - 1], m);
  }

  lemma AtMostStep(k: nat, ll: seq<nat>, il: seq<nat>, m: nat)
    requires k <= 2 && |il| > 0
    requires AtMost(Split(k, ll, il).0, m) && AtMost(Split(k, ll, il).1, m)
    ensures AtMost(ll, m) && AtMost(il, m) && il[|il| - 1] + 1 <= m
  {
    var d := il[|il| - 1] + 1;
    var (rl, ri) := Split(k, ll, il);
    assert forall i :: 0 <= i < |ll| ==> ll[i] == rl[k + i];
    assert forall i :: 0 <= i < |il| - 1 ==> il[i] == ri[2 - k + i];
    assert d == if k > 0 then rl[0] else ri[0];
  }

  lemma {:induction false} LengthsFillCodeSpace(lq: seq<nat>, iq: seq<nat>, m: nat)
    requires |lq| + |iq| >= 1
    requires AtMost(Lengths(lq, iq).0, m) && AtMost(Lengths(lq, iq).1, m)
    ensures Kraft(Lengths(lq, iq).0, m) + Kraft(Lengths(lq, iq).1, m) == Pow2(m)
    decreases |lq| + |iq|
  {
    if |lq| + |iq| == 1 {
      KraftSnoc([0], m);
    } else {
      var q := AfterMerge(lq, iq);
      var r := Lengths(q.0, q.1);
      AtMostStep(Picked(lq, iq), r.0, r.1, m);
      LengthsFillCodeSpace(q.0, q.1, m);
      KraftSplit(Picked(lq, iq), r.0, r.1, m);
    }
  }

  // ---------- the queues stay sorted ----------

  /** Both queues ascend, nothing queued is below `y` (the largest weight merged so far),
      and no internal weight exceeds 2y. */
  ghost predicate QueueInv(lq: seq<nat>, iq: seq<nat>, y: nat) {
    && Ascending(lq) && Ascending(iq)
    && (forall i :: 0 <= i < |lq| ==> y <= lq[i])
    && (forall i :: 0 <= i < |iq| ==> y <= iq[i] <= 2 * y)
  }

  lemma SumOneTwo(a: nat, b: nat)
    ensures Sum([a]) == a && Sum([a, b]) == a + b
  {
    assert SumTo([a, b], 1) == SumTo([a, b], 0) + a;
    assert SumTo([a], 1) == SumTo([a], 0) + a;
  }

  lemma MergedIsSum(lq: seq<nat>, iq: seq<nat>)
    requires |lq| + |iq| >= 2
    ensures Merged(lq, iq) == Sum(lq[..Picked(lq, iq)]) + Sum(iq[..2 - Picked(lq, iq)])
  {
    var k := Picked(lq, iq);
    if k == 2 {
      assert lq[..2] == [lq[0], lq[1]];
      SumOneTwo(lq[0], lq[1]);
    } else if k == 1 {
      assert lq[..1] == [lq[0]] && iq[..1] == [iq[0]];
      SumOneTwo(lq[0], iq[0]);
      SumOneTwo(iq[0], lq[0]);
    } else {
      assert iq[..2] == [iq[0], iq[1]];
      SumOneTwo(iq[0], iq[1]);
    }
  }

  lemma PickedSmallest(lq: seq<nat>, iq: seq<nat>)
    requires |lq| + |iq| >= 2 && Ascending(lq) && Ascending(iq)
    ensures Smaller(lq, iq) <= Larger(lq, iq)
    ensures forall i :: Picked(lq, iq) <= i < |lq| ==> Larger(lq, iq) <= lq[i]
    ensures forall i :: 2 - Picked(lq, iq) <= i < |iq| ==> Larger(lq, iq) <= iq[i]
  {}

  lemma QueueStep(lq: seq<nat>, iq: seq<nat>, y: nat)
    requires |lq| + |iq| >= 2 && QueueInv(lq, iq, y)
    ensures y <= Smaller(lq, iq) <= Larger(lq, iq)
    ensures forall i :: Picked(lq, iq) <= i < |lq| ==> Larger(lq, iq) <= lq[i]
    ensures forall i :: 2 - Picked(lq, iq) <= i < |iq| ==> Larger(lq, iq) <= iq[i]
    ensures QueueInv(AfterMerge(lq, iq).0, AfterMerge(lq, iq).1, Larger(lq, iq))
  {
    PickedSmallest(lq, iq);
    assert y <= Smaller(lq, iq);
    hide Picked, Smaller, Larger;
  }
}
