/** The shape of the tree the two-queue merges build: parent numbers, levels and height.

    Inner nodes are numbered in creation order. `Parents` lists the number of
    the parent of every queued node, which is what the first pass of the
    in-place algorithm leaves behind; `Depths` describes what the second
    pass computes from it. */
module HuffmanTree {
  import opened TwoQueue

  // ---------- height: Fibonacci growth ----------

  /** `c` times the n-th Fibonacci number. */
  function Fib(c: nat, n: nat): nat {
    if n == 0 then 0 else if n == 1 then c else Fib(c, n - 1) + Fib(c, n - 2)
  }

  lemma {:induction false} FibMonotone(c: nat, a: nat, b: nat)
    requires a <= b
    ensures Fib(c, a) <= Fib(c, b)
    decreases b - a
  {
    if a < b {
      FibMonotone(c, a, b - 1);
    }
  }

  /** With leaves of weight at least `c`, an inner node of height h weighs at least Fib(c, h + 2), and everything
      still queued weighs at least Fib(c, h + 1). */
  ghost predicate HeightInv(c: nat, lq: seq<nat>, iq: seq<nat>, hs: seq<nat>, y: nat) {
    && QueueInv(lq, iq, y) && |hs| == |iq|
    && (forall i :: 0 <= i < |lq| ==> c <= lq[i])
    && (forall i :: 0 <= i < |iq| ==> Fib(c, hs[i] + 2) <= iq[i] && Fib(c, hs[i] + 1) <= y)
  }

  /** Height of the node made by merging the two picked nodes (a leaf has height 0). */
  function MergedHeight(k: nat, hs: seq<nat>): nat
    requires k <= 2 && 2 - k <= |hs|
  {
    if k == 2 then 1 else if k == 1 then hs[0] + 1 else (if hs[0] <= hs[1] then hs[1] else hs[0]) + 1
  }

  lemma MergedHeightBound(c: nat, lq: seq<nat>, iq: seq<nat>, hs: seq<nat>, y: nat)
    requires |lq| + |iq| >= 2 && HeightInv(c, lq, iq, hs, y)
    ensures Fib(c, MergedHeight(Picked(lq, iq), hs) + 2) <= Merged(lq, iq)
    ensures Fib(c, MergedHeight(Picked(lq, iq), hs) + 1) <= Larger(lq, iq)
  {
    var k := Picked(lq, iq);
    var small, large := Smaller(lq, iq), Larger(lq, iq);
    assert y <= small <= large by { QueueStep(lq, iq, y); }
    if k == 2 {
      assert Fib(c, 1) == Fib(c, 2) == c && Fib(c, 3) == 2 * c;
    } else {
      var j := if k == 1 || hs[1] < hs[0] then 0 else 1;
      assert MergedHeight(k, hs) == hs[j] + 1;
      assert Fib(c, hs[j] + 3) == Fib(c, hs[j] + 2) + Fib(c, hs[j] + 1);
      assert iq[j] == small || iq[j] == large;
      assert Fib(c, hs[j] + 2) <= iq[j] && Fib(c, hs[j] + 1) <= y;
    }
  }

  lemma HeightStep(c: nat, lq: seq<nat>, iq: seq<nat>, hs: seq<nat>, y: nat)
    requires |lq| + |iq| >= 2 && HeightInv(c, lq, iq, hs, y)
    ensures HeightInv(c, AfterMerge(lq, iq).0, AfterMerge(lq, iq).1,
                      hs[2 - Picked(lq, iq)..] + [MergedHeight(Picked(lq, iq), hs)], Larger(lq, iq))
  {
    hide Picked, Larger, Smaller, Merged, MergedHeight, Fib, QueueInv;
    var k := Picked(lq, iq);
    QueueStep(lq, iq, y);
    MergedHeightBound(c, lq, iq, hs, y);
    var q := AfterMerge(lq, iq);
    var hs' := hs[2 - k..] + [MergedHeight(k, hs)];
    forall i | 0 <= i < |q.1| ensures Fib(c, hs'[i] + 2) <= q.1[i] && Fib(c, hs'[i] + 1) <= Larger(lq, iq) {
      if i < |q.1| - 1 {
        assert q.1[i] == iq[2 - k + i] && hs'[i] == hs[2 - k + i];
      }
    }
  }

  /** Every node's depth plus height stays within the Fibonacci bound for the weight `total`. */
  ghost predicate DeepAtMost(c: nat, l: seq<nat>, hs: seq<nat>, total: nat) {
    |l| == |hs| && forall i :: 0 <= i < |l| ==> Fib(c, l[i] + hs[i] + 2) <= total
  }

  ghost predicate LeavesDeepAtMost(c: nat, l: seq<nat>, total: nat) {
    forall i :: 0 <= i < |l| ==> Fib(c, l[i] + 2) <= total
  }

  lemma DepthSplit(c: nat, k: nat, ll: seq<nat>, il: seq<nat>, hs: seq<nat>, total: nat)
    requires k <= 2 && |il| > 0 && |hs| == 1 - k + |il|
    requires LeavesDeepAtMost(c, ll, total)
    requires DeepAtMost(c, il, hs[2 - k..] + [MergedHeight(k, hs)], total)
    ensures LeavesDeepAtMost(c, Split(k, ll, il).0, total)
    ensures DeepAtMost(c, Split(k, ll, il).1, hs, total)
  {
    var h := MergedHeight(k, hs);
    var d := il[|il| - 1] + 1;
    var (rl, ri) := Split(k, ll, il);
    assert (hs[2 - k..] + [h])[|il| - 1] == h;
    forall i | 0 <= i < |rl| ensures Fib(c, rl[i] + 2) <= total {
      if i < k {
        FibMonotone(c, d + 2, d + h + 1);
      } else {
        assert rl[i] == ll[i - k];
      }
    }
    forall i | 0 <= i < |ri| ensures Fib(c, ri[i] + hs[i] + 2) <= total {
      if i < 2 - k {
        FibMonotone(c, d + hs[i] + 2, d + h + 1);
      } else {
        assert ri[i] == il[i - (2 - k)];
        assert (hs[2 - k..] + [h])[i - (2 - k)] == hs[i];
      }
    }
  }

  lemma DepthBoundStep(c: nat, lq: seq<nat>, iq: seq<nat>, hs: seq<nat>, total: nat)
    requires |lq| + |iq| >= 2 && |hs| == |iq|
    requires LeavesDeepAtMost(c, Lengths(AfterMerge(lq, iq).0, AfterMerge(lq, iq).1).0, total)
    requires DeepAtMost(c, Lengths(AfterMerge(lq, iq).0, AfterMerge(lq, iq).1).1,
                        hs[2 - Picked(lq, iq)..] + [MergedHeight(Picked(lq, iq), hs)], total)
    ensures LeavesDeepAtMost(c, Lengths(lq, iq).0, total) && DeepAtMost(c, Lengths(lq, iq).1, hs, total)
  {
    hide *;
    LengthsUnfold(lq, iq);
    var r := Lengths(AfterMerge(lq, iq).0, AfterMerge(lq, iq).1);
    DepthSplit(c, Picked(lq, iq), r.0, r.1, hs, total);
  }

  lemma DepthBoundBase(c: nat, lq: seq<nat>, iq: seq<nat>, hs: seq<nat>, y: nat)
    requires |lq| + |iq| == 1 && HeightInv(c, lq, iq, hs, y)
    ensures LeavesDeepAtMost(c, Lengths(lq, iq).0, Sum(lq) + Sum(iq))
    ensures DeepAtMost(c, Lengths(lq, iq).1, hs, Sum(lq) + Sum(iq))
  {
    SumOneTwo(if |lq| == 1 then lq[0] else iq[0], 0);
    assert lq == [] || lq == [lq[0]];
    assert iq == [] || iq == [iq[0]];
    assert Fib(c, 2) == c;
  }

  /** No node of the finished tree lies deeper than the Fibonacci bound on the total weight allows. */
  lemma {:induction false} DepthBound(c: nat, lq: seq<nat>, iq: seq<nat>, hs: seq<nat>, y: nat)
    requires |lq| + |iq| >= 1 && |hs| == |iq| && HeightInv(c, lq, iq, hs, y)
    ensures LeavesDeepAtMost(c, Lengths(lq, iq).0, Sum(lq) + Sum(iq))
    ensures DeepAtMost(c, Lengths(lq, iq).1, hs, Sum(lq) + Sum(iq))
    decreases |lq| + |iq|
  {
    hide *;
    if |lq| + |iq| == 1 {
      DepthBoundBase(c, lq, iq, hs, y);
    } else {
      HeightStep(c, lq, iq, hs, y);
      DepthBound(c, AfterMerge(lq, iq).0, AfterMerge(lq, iq).1,
                 hs[2 - Picked(lq, iq)..] + [MergedHeight(Picked(lq, iq), hs)], Larger(lq, iq));
      SumAfterMerge(lq, iq);
      DepthBoundStep(c, lq, iq, hs, Sum(lq) + Sum(iq));
    }
  }

  lemma SumCut(s: seq<nat>, k: nat)
    requires k <= |s|
    ensures Sum(s) == Sum(s[..k]) + Sum(s[k..])
  {
    assert s == s[..k] + s[k..];
    SumConcat(s[..k], s[k..]);
  }

  lemma SumAfterMerge(lq: seq<nat>, iq: seq<nat>)
    requires |lq| + |iq| >= 2
    ensures Sum(AfterMerge(lq, iq).0) + Sum(AfterMerge(lq, iq).1) == Sum(lq) + Sum(iq)
  {
    hide Picked, Merged, Sum;
    var k := Picked(lq, iq);
    SumCut(lq, k);
    SumCut(iq, 2 - k);
    SumConcat(iq[2 - k..], [Merged(lq, iq)]);
    SumOneTwo(Merged(lq, iq), 0);
    MergedIsSum(lq, iq);
  }

  // ---------- a leaf of weight c is no deeper than weight c times Fibonacci growth allows ----------

  function Zeros(n: nat): seq<nat> {
    seq(n, i => 0)
  }

  /** Once a leaf of weight `c` has been merged, everything left weighs at least as much. */
  lemma FlatAfter(lq: seq<nat>, iq: seq<nat>, y: nat, c: nat)
    requires |lq| + |iq| >= 2 && QueueInv(lq, iq, y) && c <= Larger(lq, iq)
    ensures HeightInv(c, AfterMerge(lq, iq).0, AfterMerge(lq, iq).1, Zeros(|AfterMerge(lq, iq).1|), Larger(lq, iq))
  {
    hide Picked, Larger, Smaller;
    QueueStep(lq, iq, y);
    assert Fib(c, 2) == Fib(c, 1) == c;
  }

  lemma PickedLeaf(lq: seq<nat>, iq: seq<nat>, y: nat, p: nat)
    requires |lq| + |iq| >= 2 && QueueInv(lq, iq, y) && p < Picked(lq, iq)
    ensures lq[p] <= Larger(lq, iq)
  {}

  lemma LeafSplit(lq: seq<nat>, iq: seq<nat>, p: nat)
    requires |lq| + |iq| >= 2 && p < |lq|
    ensures var k, q := Picked(lq, iq), AfterMerge(lq, iq);
            Lengths(lq, iq).0[p] == if p < k then Lengths(q.0, q.1).1[|q.1| - 1] + 1 else Lengths(q.0, q.1).0[p - k]
  {
    hide Picked, Lengths, AfterMerge;
    LengthsUnfold(lq, iq);
  }

  /** A leaf of weight `c` at depth d leaves room for c * F(d + 1) in all. */
  lemma {:induction false} LeafDepth(lq: seq<nat>, iq: seq<nat>, y: nat, p: nat)
    requires |lq| + |iq| >= 2 && QueueInv(lq, iq, y) && p < |lq|
    ensures Fib(lq[p], Lengths(lq, iq).0[p] + 1) <= Sum(lq) + Sum(iq)
    decreases |lq| + |iq|
  {
    hide Picked, Lengths, Larger, Smaller, Fib, Sum, QueueInv, Ascending, HeightInv, Merged;
    var k, q := Picked(lq, iq), AfterMerge(lq, iq);
    QueueStep(lq, iq, y);
    LeafSplit(lq, iq, p);
    SumAfterMerge(lq, iq);
    if p < k {
      var c, last := lq[p], |q.1| - 1;
      PickedLeaf(lq, iq, y, p);
      FlatAfter(lq, iq, y, c);
      DepthBound(c, q.0, q.1, Zeros(|q.1|), Larger(lq, iq));
      assert Fib(c, Lengths(q.0, q.1).1[last] + Zeros(|q.1|)[last] + 2) <= Sum(lq) + Sum(iq);
    } else {
      LeafDepth(q.0, q.1, Larger(lq, iq), p - k);
    }
  }

  // ---------- parents and depths ----------

  /** Parent of every queued leaf, and of every inner node from the queue's front on, the root excepted. */
  function Parents(lq: seq<nat>, iq: seq<nat>, next: nat): (p: (seq<nat>, seq<nat>))
    requires |iq| > 0 || |lq| >= 2
    ensures |p.0| == |lq| && |p.1| == 2 * |iq| + |lq| - 2
    decreases |lq| + |iq|
  {
    if |lq| + |iq| == 1 then
      ([], [])
    else
      var k := Picked(lq, iq);
      var q := AfterMerge(lq, iq);
      var p := Parents(q.0, q.1, next + 1);
      Under(k, next, p.0, p.1)
  }

  /** Puts the two picked nodes, `k` of them leaves, under the inner node `next`. */
  function Under(k: nat, next: nat, pl: seq<nat>, pi: seq<nat>): (p: (seq<nat>, seq<nat>))
    requires k <= 2
    ensures |p.0| == k + |pl| && |p.1| == 2 - k + |pi|
  {
    (Rep(k, next) + pl, Rep(2 - k, next) + pi)
  }

  /** `ds[i]` is one more than the depth of the parent of inner node `root + i`; the last node is the root. */
  ghost predicate Depths(ds: seq<nat>, root: nat, par: seq<nat>) {
    && root + |par| + 1 == |ds| && ds[|ds| - 1] == 0
    && forall i :: 0 <= i < |par| ==> par[i] < |ds| && ds[root + i] == ds[par[i]] + 1
  }

  predicate Within(s: seq<nat>, lo: int, hi: int) {
    forall i :: 0 <= i < |s| ==> lo <= s[i] < hi
  }

  predicate PointForward(s: seq<nat>, root: int) {
    forall i :: 0 <= i < |s| ==> root + i < s[i]
  }

  lemma UnderAscends(k: nat, next: nat, pl: seq<nat>, pi: seq<nat>, hi: nat)
    requires k <= 2 && 2 - k <= next < hi
    requires Ascending(pl) && Ascending(pi) && Within(pl, next + 1, hi) && Within(pi, next + 1, hi)
    ensures Ascending(Under(k, next, pl, pi).0) && Ascending(Under(k, next, pl, pi).1)
    ensures Within(Under(k, next, pl, pi).0, next, hi) && Within(Under(k, next, pl, pi).1, next, hi)
  {}

  lemma UnderPointsForward(k: nat, next: nat, pl: seq<nat>, pi: seq<nat>, root: nat)
    requires k <= 2 && root + 2 - k <= next && PointForward(pi, root + 2 - k)
    ensures PointForward(Under(k, next, pl, pi).1, root)
  {
    var p := Under(k, next, pl, pi).1;
    forall i | 0 <= i < |p| ensures root + i < p[i] {
      if i >= 2 - k {
        assert p[i] == pi[i - (2 - k)];
      }
    }
  }

  ghost predicate WellParented(p: (seq<nat>, seq<nat>), next: nat, root: int, last: int) {
    && Ascending(p.0) && Ascending(p.1) && Within(p.0, next, last) && Within(p.1, next, last) && PointForward(p.1, root)
  }

  lemma WellParentedBase(lq: seq<nat>, iq: seq<nat>, next: nat)
    requires |iq| == 1 && |lq| == 0 && 1 <= next
    ensures WellParented(Parents(lq, iq, next), next, next - 1, next)
  {}

  lemma WellParentedStep(lq: seq<nat>, iq: seq<nat>, next: nat)
    requires |lq| + |iq| >= 2 && |iq| <= next
    requires WellParented(Parents(AfterMerge(lq, iq).0, AfterMerge(lq, iq).1, next + 1), next + 1,
                          next + 2 - |iq| - Picked(lq, iq), next + |lq| + |iq| - 1)
    ensures WellParented(Parents(lq, iq, next), next, next - |iq|, next + |lq| + |iq| - 1)
  {
    var k := Picked(lq, iq);
    var p := Parents(AfterMerge(lq, iq).0, AfterMerge(lq, iq).1, next + 1);
    UnderAscends(k, next, p.0, p.1, next + |lq| + |iq| - 1);
    UnderPointsForward(k, next, p.0, p.1, next - |iq|);
  }

  /** Parent numbers ascend and always point forward. */
  lemma {:induction false} ParentsAscend(lq: seq<nat>, iq: seq<nat>, next: nat)
    requires (|iq| > 0 || |lq| >= 2) && |iq| <= next
    ensures WellParented(Parents(lq, iq, next), next, next - |iq|, next + |lq| + |iq| - 1)
    decreases |lq| + |iq|
  {
    hide *;
    if |lq| + |iq| == 1 {
      WellParentedBase(lq, iq, next);
    } else {
      ParentsAscend(AfterMerge(lq, iq).0, AfterMerge(lq, iq).1, next + 1);
      WellParentedStep(lq, iq, next);
    }
  }

  /** Every node lies one level below its parent. */
  ghost predicate UnderParents(l: seq<nat>, ds: seq<nat>, par: seq<nat>) {
    |l| == |par| && forall i :: 0 <= i < |l| ==> par[i] < |ds| && l[i] == ds[par[i]] + 1
  }

  lemma DepthsUnder(k: nat, next: nat, pl: seq<nat>, pi: seq<nat>, ds: seq<nat>, root: nat)
    requires k <= 2 && Depths(ds, root, Under(k, next, pl, pi).1) && root + 2 - k <= next < |ds|
    ensures Depths(ds, root + 2 - k, pi)
    ensures forall i :: root <= i < root + 2 - k ==> ds[i] == ds[next] + 1
  {
    var p := Under(k, next, pl, pi).1;
    forall i | 0 <= i < |pi| ensures pi[i] < |ds| && ds[root + (2 - k) + i] == ds[pi[i]] + 1 {
      assert p[2 - k + i] == pi[i];
    }
    forall i | root <= i < root + 2 - k ensures ds[i] == ds[next] + 1 {
      assert p[i - root] == next;
    }
  }

  lemma UnderSplit(k: nat, next: nat, ll: seq<nat>, il: seq<nat>, pl: seq<nat>, pi: seq<nat>, ds: seq<nat>, root: nat)
    requires k <= 2 && UnderParents(ll, ds, pl) && root + 2 - k <= next < |ds|
    requires il == ds[root + 2 - k..next + 1]
    requires forall i :: root <= i < root + 2 - k ==> ds[i] == ds[next] + 1
    ensures UnderParents(Split(k, ll, il).0, ds, Under(k, next, pl, pi).0)
    ensures Split(k, ll, il).1 == ds[root..next]
  {
    var (rl, ri) := Split(k, ll, il);
    var p := Under(k, next, pl, pi).0;
    forall i | 0 <= i < |rl| ensures p[i] < |ds| && rl[i] == ds[p[i]] + 1 {
      if i >= k {
        assert p[i] == pl[i - k] && rl[i] == ll[i - k];
      }
    }
  }

  lemma DepthsStep(lq: seq<nat>, iq: seq<nat>, next: nat, ds: seq<nat>)
    requires |lq| + |iq| >= 2 && |iq| <= next && |ds| == next + |lq| + |iq| - 1
    requires Depths(ds, next - |iq|, Parents(lq, iq, next).1)
    ensures Depths(ds, next + 2 - |iq| - Picked(lq, iq), Parents(AfterMerge(lq, iq).0, AfterMerge(lq, iq).1, next + 1).1)
    ensures forall i :: next - |iq| <= i < next + 2 - |iq| - Picked(lq, iq) ==> ds[i] == ds[next] + 1
  {
    var p := Parents(AfterMerge(lq, iq).0, AfterMerge(lq, iq).1, next + 1);
    hide Picked, AfterMerge, Under;
    DepthsUnder(Picked(lq, iq), next, p.0, p.1, ds, next - |iq|);
  }

  lemma DepthsAreLengthsBase(lq: seq<nat>, iq: seq<nat>, next: nat, ds: seq<nat>)
    requires |iq| == 1 && |lq| == 0 && 1 <= next == |ds| && Depths(ds, next - 1, Parents(lq, iq, next).1)
    ensures UnderParents(Lengths(lq, iq).0, ds, Parents(lq, iq, next).0)
    ensures Lengths(lq, iq).1 == ds[next - 1..next]
  {}

  lemma DepthsAreLengthsStep(lq: seq<nat>, iq: seq<nat>, next: nat, ds: seq<nat>)
    requires |lq| + |iq| >= 2 && |iq| <= next && |ds| == next + |lq| + |iq| - 1
    requires Depths(ds, next - |iq|, Parents(lq, iq, next).1)
    requires UnderParents(Lengths(AfterMerge(lq, iq).0, AfterMerge(lq, iq).1).0, ds,
                          Parents(AfterMerge(lq, iq).0, AfterMerge(lq, iq).1, next + 1).0)
    requires Lengths(AfterMerge(lq, iq).0, AfterMerge(lq, iq).1).1 == ds[next + 2 - |iq| - Picked(lq, iq)..next + 1]
    ensures UnderParents(Lengths(lq, iq).0, ds, Parents(lq, iq, next).0)
    ensures Lengths(lq, iq).1 == ds[next - |iq|..next]
  {
    hide Picked, AfterMerge, Split, Under, UnderParents;
    DepthsStep(lq, iq, next, ds);
    var p := Parents(AfterMerge(lq, iq).0, AfterMerge(lq, iq).1, next + 1);
    var r := Lengths(AfterMerge(lq, iq).0, AfterMerge(lq, iq).1);
    UnderSplit(Picked(lq, iq), next, r.0, r.1, p.0, p.1, ds, next - |iq|);
  }

  /** The depths computed from the parent numbers are the depths of the tree. */
  lemma {:induction false} DepthsAreLengths(lq: seq<nat>, iq: seq<nat>, next: nat, ds: seq<nat>)
    requires (|iq| > 0 || |lq| >= 2) && |iq| <= next && |ds| == next + |lq| + |iq| - 1
    requires Depths(ds, next - |iq|, Parents(lq, iq, next).1)
    ensures UnderParents(Lengths(lq, iq).0, ds, Parents(lq, iq, next).0)
    ensures Lengths(lq, iq).1 == ds[next - |iq|..next]
    decreases |lq| + |iq|
  {
    hide *;
    if |lq| + |iq| == 1 {
      DepthsAreLengthsBase(lq, iq, next, ds);
    } else {
      DepthsStep(lq, iq, next, ds);
      DepthsAreLengths(AfterMerge(lq, iq).0, AfterMerge(lq, iq).1, next + 1, ds);
      DepthsAreLengthsStep(lq, iq, next, ds);
    }
  }

  // ---------- how many nodes lie on each level ----------

  function CountTo(s: seq<nat>, n: nat, d: int): nat
    requires n <= |s|
  {
    if n == 0 then 0 else CountTo(s, n - 1, d) + (if s[n - 1] == d then 1 else 0)
  }

  function Count(s: seq<nat>, d: int): nat {
    CountTo(s, |s|, d)
  }

  lemma {:induction false} CountSame(a: seq<nat>, b: seq<nat>, n: nat, d: int)
    requires n <= |a| && n <= |b| && forall i :: 0 <= i < n ==> a[i] == b[i]
    ensures CountTo(a, n, d) == CountTo(b, n, d)
  {
    if n > 0 { CountSame(a, b, n - 1, d); }
  }

  lemma {:induction false} CountConcatTo(a: seq<nat>, b: seq<nat>, n: nat, d: int)
    requires n <= |b|
    ensures CountTo(a + b, |a| + n, d) == Count(a, d) + CountTo(b, n, d)
  {
    if n == 0 {
      CountSame(a + b, a, |a|, d);
    } else {
      CountConcatTo(a, b, n - 1, d);
    }
  }

  lemma CountConcat(a: seq<nat>, b: seq<nat>, d: int)
    ensures Count(a + b, d) == Count(a, d) + Count(b, d)
  {
    CountConcatTo(a, b, |b|, d);
  }

  lemma CountRep(k: nat, v: nat, s: seq<nat>, d: int)
    requires k <= 2
    ensures Count(Rep(k, v) + s, d) == (if v == d then k else 0) + Count(s, d)
  {
    CountConcat(Rep(k, v), s, d);
    if k > 0 {
      assert CountTo(Rep(k, v), 1, d) == CountTo(Rep(k, v), 0, d) + (if v == d then 1 else 0);
    }
  }

  lemma CountSnoc(s: seq<nat>, d: int)
    requires |s| > 0
    ensures Count(s, d) == Count(s[..|s| - 1], d) + (if s[|s| - 1] == d then 1 else 0)
  {
    CountSame(s, s[..|s| - 1], |s| - 1, d);
  }

  lemma CountSplit(k: nat, ll: seq<nat>, il: seq<nat>, d: int)
    requires k <= 2 && |il| > 0
    ensures var top := il[|il| - 1];
            Count(Split(k, ll, il).0, d) + Count(Split(k, ll, il).1, d) + (if d == top then 1 else 0)
            == Count(ll, d) + Count(il, d) + (if d == top + 1 then 2 else 0)
  {
    var top := il[|il| - 1];
    CountRep(k, top + 1, ll, d);
    CountRep(2 - k, top + 1, il[..|il| - 1], d);
    CountSnoc(il, d);
  }

  /** Every level holds two nodes for each inner node one level up, except the root's level. */
  ghost predicate LevelsFilled(ll: seq<nat>, il: seq<nat>, inner: seq<nat>, d: int) {
    Count(ll, d) + Count(il, d) + Count(inner, d) == (if d == 0 then 1 else 0) + 2 * Count(inner, d - 1)
  }

  lemma LevelsSplit(k: nat, ll: seq<nat>, il: seq<nat>, inner: seq<nat>, d: int)
    requires k <= 2 && |il| > 0 && LevelsFilled(ll, il, inner, d)
    ensures LevelsFilled(Split(k, ll, il).0, Split(k, ll, il).1, [il[|il| - 1]] + inner, d)
  {
    var top := il[|il| - 1];
    CountSplit(k, ll, il, d);
    CountRep(1, top, inner, d);
    CountRep(1, top, inner, d - 1);
  }

  lemma LevelCountsBase(lq: seq<nat>, iq: seq<nat>, next: nat, ds: seq<nat>, d: int)
    requires |iq| == 1 && |lq| == 0 && next == |ds|
    ensures LevelsFilled(Lengths(lq, iq).0, Lengths(lq, iq).1, ds[next..], d)
  {
    CountSnoc([0], d);
  }

  lemma LevelCountsStep(lq: seq<nat>, iq: seq<nat>, next: nat, ds: seq<nat>, d: int)
    requires |lq| + |iq| >= 2 && |iq| <= next && |ds| == next + |lq| + |iq| - 1
    requires Depths(ds, next - |iq|, Parents(lq, iq, next).1)
    requires LevelsFilled(Lengths(AfterMerge(lq, iq).0, AfterMerge(lq, iq).1).0,
                          Lengths(AfterMerge(lq, iq).0, AfterMerge(lq, iq).1).1, ds[next + 1..], d)
    ensures LevelsFilled(Lengths(lq, iq).0, Lengths(lq, iq).1, ds[next..], d)
  {
    hide Picked, AfterMerge, Split, LevelsFilled, UnderParents, Depths;
    DepthsStep(lq, iq, next, ds);
    DepthsAreLengths(AfterMerge(lq, iq).0, AfterMerge(lq, iq).1, next + 1, ds);
    var r := Lengths(AfterMerge(lq, iq).0, AfterMerge(lq, iq).1);
    LevelsSplit(Picked(lq, iq), r.0, r.1, ds[next + 1..], d);
    assert ds[next..] == [r.1[|r.1| - 1]] + ds[next + 1..];
  }

  lemma {:induction false} LevelCounts(lq: seq<nat>, iq: seq<nat>, next: nat, ds: seq<nat>, d: int)
    requires (|iq| > 0 || |lq| >= 2) && |iq| <= next && |ds| == next + |lq| + |iq| - 1
    requires Depths(ds, next - |iq|, Parents(lq, iq, next).1)
    ensures LevelsFilled(Lengths(lq, iq).0, Lengths(lq, iq).1, ds[next..], d)
    decreases |lq| + |iq|
  {
    hide *;
    if |lq| + |iq| == 1 {
      LevelCountsBase(lq, iq, next, ds, d);
    } else {
      DepthsStep(lq, iq, next, ds);
      LevelCounts(AfterMerge(lq, iq).0, AfterMerge(lq, iq).1, next + 1, ds, d);
      LevelCountsStep(lq, iq, next, ds, d);
    }
  }
}
