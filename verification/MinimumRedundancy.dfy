/** tdefl_calculate_minimum_redundancy: the in-place computation of Huffman code lengths.

    One array of keys serves in turn as the weights still to be merged, the
    weights of the inner nodes, the parent numbers of the inner nodes, their
    depths, and finally the code lengths of the leaves. */
module MinimumRedundancy {
  import opened Powers
  import opened TwoQueue
  import opened HuffmanOptimal
  import opened HuffmanTree

  /** tdefl_sym_freq: both fields are 16 bits wide in the source. */
  datatype SymFreq = SymFreq(key: nat, sym: nat)

  function Keys(s: seq<SymFreq>): (k: seq<nat>)
    ensures |k| == |s| && forall i :: 0 <= i < |s| ==> k[i] == s[i].key
  {
    seq(|s|, i requires 0 <= i < |s| => s[i].key)
  }

  function Syms(s: seq<SymFreq>): (k: seq<nat>)
    ensures |k| == |s| && forall i :: 0 <= i < |s| ==> k[i] == s[i].sym
  {
    seq(|s|, i requires 0 <= i < |s| => s[i].sym)
  }

  // ---------- what the computed lengths are worth ----------

  predicate Descending(s: seq<nat>) {
    forall i, j :: 0 <= i < j < |s| ==> s[j] <= s[i]
  }

  /** `l` fits the code space and no assignment that fits it costs less. */
  ghost predicate Optimal(w: seq<nat>, l: seq<nat>) {
    && |l| == |w|
    && forall x: seq<nat>, m: nat :: |x| == |w| && AtMost(x, m) && Kraft(x, m) <= Pow2(m) ==> Cost(w, l) <= Cost(w, x)
  }

  /** `l` uses up the code space exactly. */
  ghost predicate Complete(l: seq<nat>) {
    forall m: nat :: AtMost(l, m) ==> Kraft(l, m) == Pow2(m)
  }

  function CodeLengths(w: seq<nat>): (l: seq<nat>)
    ensures |l| == |w|
  {
    if |w| == 0 then [] else if |w| == 1 then [1] else Lengths(w, []).0
  }

  lemma CodeLengthsOptimal(w: seq<nat>)
    requires |w| >= 2 && Ascending(w)
    ensures Optimal(w, CodeLengths(w))
  {
    var l := Lengths(w, []).0;
    forall x: seq<nat>, m: nat | |x| == |w| && AtMost(x, m) && Kraft(x, m) <= Pow2(m)
      ensures Cost(w, l) <= Cost(w, x)
    {
      LengthsOptimal(w, [], 0, x, [], m);
      assert Lengths(w, []).1 == [];
    }
  }

  lemma CodeLengthsComplete(w: seq<nat>)
    requires |w| >= 2
    ensures Complete(CodeLengths(w))
  {
    var l := Lengths(w, []).0;
    forall m: nat | AtMost(l, m) ensures Kraft(l, m) == Pow2(m) {
      assert Lengths(w, []).1 == [];
      LengthsFillCodeSpace(w, [], m);
    }
  }

  const MAX_DEPTH: nat := 22

  lemma FibAtMaxDepth()
    ensures Fib(1, MAX_DEPTH + 3) == 75025
  {
    assert Fib(1, 8) == 21 && Fib(1, 9) == 34;
    assert Fib(1, 10) == 55 && Fib(1, 11) == 89 && Fib(1, 12) == 144 && Fib(1, 13) == 233;
    assert Fib(1, 14) == 377 && Fib(1, 15) == 610 && Fib(1, 16) == 987 && Fib(1, 17) == 1597;
    assert Fib(1, 18) == 2584 && Fib(1, 19) == 4181 && Fib(1, 20) == 6765 && Fib(1, 21) == 10946;
    assert Fib(1, 22) == 17711 && Fib(1, 23) == 28657 && Fib(1, 24) == 46368;
  }

  /** Positive 16-bit counts never lead to a code longer than 22 bits. */
  lemma CodeLengthsShallow(w: seq<nat>)
    requires |w| >= 2 && Ascending(w) && Sum(w) < 65536
    requires forall i :: 0 <= i < |w| ==> 1 <= w[i]
    ensures AtMost(CodeLengths(w), MAX_DEPTH)
  {
    hide Lengths;
    var l := Lengths(w, []).0;
    DepthBound(1, w, [], [], 0);
    assert Sum([]) == 0;
    forall i | 0 <= i < |l| ensures l[i] <= MAX_DEPTH {
      if l[i] > MAX_DEPTH {
        FibMonotone(1, MAX_DEPTH + 3, l[i] + 2);
        FibAtMaxDepth();
      }
    }
  }

  /** All of that, for the lengths an array ends up with. */
  ghost predicate Worth(w: seq<nat>, l: seq<nat>) {
    && Optimal(w, l) && Complete(l)
    && (Sum(w) < 65536 && (forall i :: 0 <= i < |w| ==> 1 <= w[i]) ==> AtMost(l, MAX_DEPTH) && Kraft(l, MAX_DEPTH) == Pow2(MAX_DEPTH))
  }

  lemma CodeLengthsWorth(w: seq<nat>)
    requires |w| >= 2 && Ascending(w)
    ensures Worth(w, CodeLengths(w))
  {
    hide CodeLengths, Sum, Kraft, Pow2, Ascending, Optimal, AtMost;
    CodeLengthsOptimal(w);
    CodeLengthsComplete(w);
    if Sum(w) < 65536 && forall i :: 0 <= i < |w| ==> 1 <= w[i] {
      CodeLengthsShallow(w);
    }
  }

  // ---------- the shape facts the second and third pass rely on ----------

  /** Depths of inner nodes do not increase with their number. */
  lemma {:induction false} DepthsDescend(ds: seq<nat>, par: seq<nat>, i: nat, j: nat)
    requires Depths(ds, 0, par) && Ascending(par) && PointForward(par, 0)
    requires i <= j < |ds|
    ensures ds[j] <= ds[i]
    decreases |ds| - i
  {
    if i < j < |ds| - 1 {
      assert par[i] <= par[j];
      DepthsDescend(ds, par, par[i], par[j]);
    }
  }

  lemma UnderParentsDescend(l: seq<nat>, ds: seq<nat>, leafPar: seq<nat>, innerPar: seq<nat>)
    requires UnderParents(l, ds, leafPar) && Depths(ds, 0, innerPar)
    requires Ascending(leafPar) && Ascending(innerPar) && PointForward(innerPar, 0)
    ensures Descending(l)
  {
    forall i, j | 0 <= i < j < |l| ensures l[j] <= l[i] {
      DepthsDescend(ds, innerPar, leafPar[i], leafPar[j]);
    }
  }

  lemma LeafDepthsDescend(w: seq<nat>, ds: seq<nat>)
    requires |w| >= 2 && |ds| == |w| - 1 && Depths(ds, 0, Parents(w, [], 0).1)
    ensures Descending(Lengths(w, []).0)
    ensures forall i :: 0 <= i < |w| ==> 1 <= Lengths(w, []).0[i]
  {
    hide Parents, Lengths;
    ParentsAscend(w, [], 0);
    DepthsAreLengths(w, [], 0, ds);
    UnderParentsDescend(Lengths(w, []).0, ds, Parents(w, [], 0).0, Parents(w, [], 0).1);
  }

  lemma {:induction false} CountNone(s: seq<nat>, n: nat, d: int)
    requires n <= |s| && forall i :: 0 <= i < n ==> s[i] != d
    ensures CountTo(s, n, d) == 0
  {
    if n > 0 { CountNone(s, n - 1, d); }
  }

  lemma {:induction false} CountSome(s: seq<nat>, n: nat, d: int) returns (i: nat)
    requires n <= |s| && CountTo(s, n, d) > 0
    ensures i < n && s[i] == d
  {
    if s[n - 1] == d {
      i := n - 1;
    } else {
      i := CountSome(s, n - 1, d);
    }
  }

  // ---------- first pass: merge, leaving parent numbers behind ----------

  /** The array between two merges: parents below `root`, inner weights from `root`, leaf weights from `leaf`. */
  ghost predicate MergeState(a: seq<SymFreq>, w: seq<nat>, iw: seq<nat>, leafPar: seq<nat>, n: nat, leaf: nat, root: nat, next: nat)
  {
    && 2 <= n == |w| <= |a|
    && 1 <= next <= n - 1 && root < next && leaf <= n && leaf + root == 2 * next && |iw| == next
    && (forall i :: leaf <= i < n ==> a[i].key == w[i])
    && (forall i :: root <= i < next ==> a[i].key == iw[i])
    && (forall i :: 0 <= i < root ==> a[i].key < 65536)
    && Sum(w[leaf..]) + Sum(iw[root..]) == Sum(w)
    && |leafPar| == leaf
    && Parents(w, [], 0) == (leafPar + Parents(w[leaf..], iw[root..], next).0,
                             Keys(a[..root]) + Parents(w[leaf..], iw[root..], next).1)
  }

  lemma ParentsUnfold(lq: seq<nat>, iq: seq<nat>, next: nat)
    requires |lq| + |iq| >= 2
    ensures Parents(lq, iq, next) == Under(Picked(lq, iq), next, Parents(AfterMerge(lq, iq).0, AfterMerge(lq, iq).1, next + 1).0,
                                           Parents(AfterMerge(lq, iq).0, AfterMerge(lq, iq).1, next + 1).1)
  {}

  lemma MergeStart(a: seq<SymFreq>, w: seq<nat>, n: nat)
    requires 2 <= n == |w| <= |a|
    requires a[0].key == w[0] + w[1] && forall i :: 2 <= i < n ==> a[i].key == w[i]
    ensures MergeState(a, w, [w[0] + w[1]], [0, 0], n, 2, 0, 1)
  {
    hide Parents, Picked, Sum, AfterMerge, Merged, Keys;
    var iw := [w[0] + w[1]];
    FirstMerge(w);
    SumAfterMerge(w, []);
    FirstParents(w, (w[2..], iw));
    assert iw[0..] == iw;
    assert Keys(a[..0]) == [];
    assert Keys(a[..0]) + Parents(w[2..], iw, 1).1 == Parents(w[2..], iw, 1).1;
  }

  lemma FirstParents(w: seq<nat>, q: (seq<nat>, seq<nat>))
    requires |w| >= 2 && Picked(w, []) == 2 && AfterMerge(w, []) == q
    ensures Parents(w, [], 0) == ([0, 0] + Parents(q.0, q.1, 1).0, Parents(q.0, q.1, 1).1)
  {
    hide Parents, Picked, AfterMerge, Under;
    ParentsUnfold(w, [], 0);
    UnderTwoLeaves(Parents(q.0, q.1, 1).0, Parents(q.0, q.1, 1).1);
  }

  lemma UnderTwoLeaves(pl: seq<nat>, pi: seq<nat>)
    ensures Under(2, 0, pl, pi) == ([0, 0] + pl, pi)
  {
    assert [] + pi == pi;
  }

  lemma FirstMerge(w: seq<nat>)
    requires |w| >= 2
    ensures Picked(w, []) == 2 && Merged(w, []) == w[0] + w[1] && Sum([]) == 0
    ensures AfterMerge(w, []).0 == w[2..] && AfterMerge(w, []).1 == [w[0] + w[1]]
  {}

  /** What the array looks like after one merge that took `k` leaves. */
  ghost predicate MergedKeys(a: seq<SymFreq>, b: seq<SymFreq>, root: nat, next: nat, k: nat, v: nat) {
    && |b| == |a| && k <= 2
    && forall i :: 0 <= i < |b| ==>
         b[i].key == if root <= i < root + 2 - k then next else if i == next then v else a[i].key
  }

  lemma MergeStepParents(pre: seq<nat>, inner: seq<nat>, k: nat, next: nat, lq: seq<nat>, iq: seq<nat>, p: (seq<nat>, seq<nat>))
    requires |lq| + |iq| >= 2 && k == Picked(lq, iq) && p == Parents(AfterMerge(lq, iq).0, AfterMerge(lq, iq).1, next + 1)
    ensures pre + Parents(lq, iq, next).0 == (pre + Rep(k, next)) + p.0
    ensures inner + Parents(lq, iq, next).1 == (inner + Rep(2 - k, next)) + p.1
  {
    hide Parents, Picked, AfterMerge, Rep;
    ParentsUnfold(lq, iq, next);
    assert pre + (Rep(k, next) + p.0) == (pre + Rep(k, next)) + p.0;
    assert inner + (Rep(2 - k, next) + p.1) == (inner + Rep(2 - k, next)) + p.1;
  }

  lemma AfterMergeSlices(w: seq<nat>, leaf: nat, iw: seq<nat>, root: nat, k: nat, m: nat)
    requires leaf <= |w| && root <= |iw| && |w| - leaf + |iw| - root >= 2
    requires k == Picked(w[leaf..], iw[root..]) && m == Merged(w[leaf..], iw[root..])
    ensures AfterMerge(w[leaf..], iw[root..]).0 == w[leaf + k..]
    ensures AfterMerge(w[leaf..], iw[root..]).1 == (iw + [m])[root + 2 - k..]
  {
    hide Picked, Merged;
  }

  /** One merge of the array, summarised: `k` leaves taken, the rest inner nodes. */
  lemma MergeStep(a: seq<SymFreq>, b: seq<SymFreq>, w: seq<nat>, iw: seq<nat>, leafPar: seq<nat>, n: nat,
                  leaf: nat, root: nat, next: nat, k: nat)
    requires MergeState(a, w, iw, leafPar, n, leaf, root, next) && next < n - 1 && next < 65536
    requires k == Picked(w[leaf..], iw[root..]) && MergedKeys(a, b, root, next, k, Merged(w[leaf..], iw[root..]))
    ensures MergeState(b, w, iw + [Merged(w[leaf..], iw[root..])], leafPar + Rep(k, next), n, leaf + k, root + 2 - k, next + 1)
  {
    hide Parents, Picked, Merged, Sum, AfterMerge, Rep, Keys;
    var lq, iq := w[leaf..], iw[root..];
    var iw' := iw + [Merged(lq, iq)];
    AfterMergeSlices(w, leaf, iw, root, k, Merged(lq, iq));
    SumAfterMerge(lq, iq);
    var p := Parents(w[leaf + k..], iw'[root + 2 - k..], next + 1);
    MergeStepParents(leafPar, Keys(a[..root]), k, next, lq, iq, p);
    assert Keys(b[..root + 2 - k]) == Keys(a[..root]) + Rep(2 - k, next);
  }

  lemma MergedFits(w: seq<nat>, leaf: nat, iw: seq<nat>, root: nat)
    requires leaf <= |w| && root <= |iw| && |w| - leaf + |iw| - root >= 2
    requires Sum(w[leaf..]) + Sum(iw[root..]) < 65536
    ensures Merged(w[leaf..], iw[root..]) < 65536
  {
    var lq, iq := w[leaf..], iw[root..];
    MergedIsSum(lq, iq);
    SumCut(lq, Picked(lq, iq));
    SumCut(iq, 2 - Picked(lq, iq));
  }

  /** Only keys of the first `n` entries may differ. */
  ghost predicate SameSyms(a: seq<SymFreq>, b: seq<SymFreq>, n: nat) {
    |a| == |b| && forall i :: 0 <= i < |a| ==> a[i].sym == b[i].sym && (i >= n ==> a[i] == b[i])
  }

  /** The effect of one pick on the array and the two fronts. */
  ghost predicate Took(a: seq<SymFreq>, b: seq<SymFreq>, n: nat, root: nat, leaf: nat, next: nat, base: nat, root': nat, leaf': nat)
    requires root <= next < leaf && leaf <= n <= |a| && (leaf < n || root < next)
  {
    var fromInner := leaf >= n || (root < next && a[root].key < a[leaf].key);
    && root' == (if fromInner then root + 1 else root) && leaf' == (if fromInner then leaf else leaf + 1)
    && |b| == |a|
    && forall i :: 0 <= i < |b| ==>
         && b[i].sym == a[i].sym
         && b[i].key == if root <= i < root' then next
                        else if i == next then (base + (if fromInner then a[root].key else a[leaf].key)) % 65536
                        else a[i].key
  }

  /** Two picks in a row make one merge. */
  lemma TookTwice(a: seq<SymFreq>, m: seq<SymFreq>, b: seq<SymFreq>, n: nat, root: nat, leaf: nat, next: nat,
                  root1: nat, leaf1: nat, root': nat, leaf': nat, lq: seq<nat>, iq: seq<nat>)
    requires root < next < leaf <= n <= |a| && next < n - 1 && next < 65536
    requires |lq| == n - leaf && |iq| == next - root && |lq| + |iq| >= 2 && Merged(lq, iq) < 65536
    requires forall i :: 0 <= i < |lq| ==> a[leaf + i].key == lq[i]
    requires forall i :: 0 <= i < |iq| ==> a[root + i].key == iq[i]
    requires Took(a, m, n, root, leaf, next, 0, root1, leaf1)
    requires leaf1 < n || root1 < next
    requires Took(m, b, n, root1, leaf1, next, m[next].key, root', leaf')
    ensures leaf' == leaf + Picked(lq, iq) && root' == root + 2 - Picked(lq, iq)
    ensures MergedKeys(a, b, root, next, Picked(lq, iq), Merged(lq, iq))
  {
    hide Picked, Merged, Took;
    MergedParts(lq, iq);
    var c := leaf1 - leaf;
    TookFirst(a, m, n, root, leaf, next, root1, leaf1, lq, iq);
    TookSecond(m, b, n, root, leaf, next, root1, leaf1, root', leaf', lq, iq);
    TookKeys(a, m, b, n, root, leaf, next, root1, leaf1, root', leaf');
  }

  lemma TookFirst(a: seq<SymFreq>, m: seq<SymFreq>, n: nat, root: nat, leaf: nat, next: nat, root1: nat, leaf1: nat, lq: seq<nat>, iq: seq<nat>)
    requires root < next < leaf <= n <= |a| && next < n - 1
    requires |lq| == n - leaf && |iq| == next - root && |lq| + |iq| >= 2
    requires forall i :: 0 <= i < |lq| ==> a[leaf + i].key == lq[i]
    requires forall i :: 0 <= i < |iq| ==> a[root + i].key == iq[i]
    requires Took(a, m, n, root, leaf, next, 0, root1, leaf1)
    ensures |m| == |a|
    ensures leaf1 == leaf + (if PopLeaf(lq, 0, iq, 0) then 1 else 0) && root1 == root + 1 - (leaf1 - leaf)
    ensures leaf1 < n ==> m[leaf1].key == lq[leaf1 - leaf]
    ensures root1 < next ==> m[root1].key == iq[root1 - root]
    ensures m[next].key == (if PopLeaf(lq, 0, iq, 0) then lq[0] else iq[0]) % 65536
  {
    assert |lq| > 0 ==> a[leaf + 0].key == lq[0];
    assert |iq| > 0 ==> a[root + 0].key == iq[0];
    var c := leaf1 - leaf;
    assert c == if PopLeaf(lq, 0, iq, 0) then 1 else 0;
    assert leaf1 < n ==> m[leaf1].key == lq[c];
  }

  lemma TookSecond(m: seq<SymFreq>, b: seq<SymFreq>, n: nat, root: nat, leaf: nat, next: nat, root1: nat, leaf1: nat,
                   root': nat, leaf': nat, lq: seq<nat>, iq: seq<nat>)
    requires root <= root1 <= next < leaf <= leaf1 <= n <= |m| && next < n - 1
    requires |lq| == n - leaf && |iq| == next - root && leaf1 - leaf <= 1 && root1 - root == 1 - (leaf1 - leaf)
    requires leaf1 < n ==> m[leaf1].key == lq[leaf1 - leaf]
    requires root1 < next ==> m[root1].key == iq[root1 - root]
    requires leaf1 < n || root1 < next
    requires Took(m, b, n, root1, leaf1, next, m[next].key, root', leaf')
    ensures |b| == |m|
    ensures leaf' - leaf1 == (if PopLeaf(lq, leaf1 - leaf, iq, root1 - root) then 1 else 0) && root' == root1 + 1 - (leaf' - leaf1)
    ensures b[next].key == (m[next].key + if PopLeaf(lq, leaf1 - leaf, iq, root1 - root) then lq[leaf1 - leaf] else iq[root1 - root]) % 65536
  {}

  lemma TookKeys(a: seq<SymFreq>, m: seq<SymFreq>, b: seq<SymFreq>, n: nat, root: nat, leaf: nat, next: nat, root1: nat, leaf1: nat,
                 root': nat, leaf': nat)
    requires root <= root1 <= root' <= next < leaf <= leaf1 <= n <= |a| && next < n - 1 && (leaf < n || root < next) && (leaf1 < n || root1 < next)
    requires Took(a, m, n, root, leaf, next, 0, root1, leaf1) && |m| == |a|
    requires Took(m, b, n, root1, leaf1, next, m[next].key, root', leaf')
    ensures |b| == |a| && SameSyms(b, a, n)
    ensures forall i :: 0 <= i < |b| && i != next ==> b[i].key == if root <= i < root' then next else a[i].key
  {}

  lemma TookTwiceFrame(a: seq<SymFreq>, m: seq<SymFreq>, b: seq<SymFreq>, n: nat, root: nat, leaf: nat, next: nat,
                       root1: nat, leaf1: nat, root': nat, leaf': nat)
    requires root < next < leaf <= n <= |a| && next < n - 1
    requires Took(a, m, n, root, leaf, next, 0, root1, leaf1)
    requires leaf1 < n || root1 < next
    requires Took(m, b, n, root1, leaf1, next, m[next].key, root', leaf')
    ensures SameSyms(b, a, n)
  {}

  /** One of the two picks of a merge: adds the smaller front to `base` and stores it in `A[next]`.
      The source writes the two picks out; for the first one `base` is 0 and `root < next` holds anyway. */
  method TakeFront(A: array<SymFreq>, n: nat, root: nat, leaf: nat, next: nat, base: nat)
      returns (root': nat, leaf': nat)
    requires root <= next < leaf && leaf <= n <= A.Length && next < 65536 && (leaf < n || root < next)
    modifies A
    ensures Took(old(A[..]), A[..], n, root, leaf, next, base, root', leaf')
  {
    root', leaf' := root, leaf;
    if leaf >= n || (root < next && A[root].key < A[leaf].key) {
      A[next] := A[next].(key := (base + A[root].key) % 65536);
      A[root] := A[root].(key := next % 65536);
      root' := root + 1;
    } else {
      A[next] := A[next].(key := (base + A[leaf].key) % 65536);
      leaf' := leaf + 1;
    }
  }

  /** The body of the merge loop: takes the two smallest fronts into `A[next]`, linking inner nodes to it. */
  method MergeTwo(A: array<SymFreq>, n: nat, root: nat, leaf: nat, next: nat, ghost lq: seq<nat>, ghost iq: seq<nat>)
      returns (root': nat, leaf': nat)
    requires root < next < leaf <= n <= A.Length && next < n - 1 && next < 65536
    requires |lq| == n - leaf && |iq| == next - root && |lq| + |iq| >= 2 && Merged(lq, iq) < 65536
    requires forall i :: 0 <= i < |lq| ==> A[leaf + i].key == lq[i]
    requires forall i :: 0 <= i < |iq| ==> A[root + i].key == iq[i]
    modifies A
    ensures leaf' == leaf + Picked(lq, iq) && root' == root + 2 - Picked(lq, iq)
    ensures MergedKeys(old(A[..]), A[..], root, next, Picked(lq, iq), Merged(lq, iq))
    ensures SameSyms(A[..], old(A[..]), n)
  {
    hide Picked, Merged, MergedKeys, SameSyms;
    var root1, leaf1 := TakeFront(A, n, root, leaf, next, 0);
    ghost var m := A[..];
    root', leaf' := TakeFront(A, n, root1, leaf1, next, A[next].key);
    TookTwice(old(A[..]), m, A[..], n, root, leaf, next, root1, leaf1, root', leaf', lq, iq);
    TookTwiceFrame(old(A[..]), m, A[..], n, root, leaf, next, root1, leaf1, root', leaf');
  }

  /** The two picks, in the order the loop makes them. */
  lemma MergedParts(lq: seq<nat>, iq: seq<nat>)
    requires |lq| + |iq| >= 2
    ensures var a := if PopLeaf(lq, 0, iq, 0) then 1 else 0; var b := if PopLeaf(lq, a, iq, 1 - a) then 1 else 0;
            && (a == 1 ==> |lq| > 0) && (a == 0 ==> |iq| > 0)
            && (b == 1 ==> a < |lq|) && (b == 0 ==> 1 - a < |iq|)
            && Picked(lq, iq) == a + b
            && Merged(lq, iq) == (if a == 1 then lq[0] else iq[0]) + (if b == 1 then lq[a] else iq[1 - a])
  {}

  lemma MergeFacts(a: seq<SymFreq>, w: seq<nat>, iw: seq<nat>, leafPar: seq<nat>, n: nat, leaf: nat, root: nat, next: nat)
      returns (lq: seq<nat>, iq: seq<nat>)
    requires MergeState(a, w, iw, leafPar, n, leaf, root, next) && next < n - 1 && Sum(w) < 65536
    ensures root < next < leaf <= n == |w| <= |a| && |iw| == next && lq == w[leaf..] && iq == iw[root..]
    ensures |lq| + |iq| >= 2 && Merged(lq, iq) < 65536
    ensures forall i :: 0 <= i < |lq| ==> a[leaf + i].key == lq[i]
    ensures forall i :: 0 <= i < |iq| ==> a[root + i].key == iq[i]
  {
    lq, iq := w[leaf..], iw[root..];
    MergedFits(w, leaf, iw, root);
  }

  method MergeOnce(A: array<SymFreq>, n: nat, root: nat, leaf: nat, next: nat,
                   ghost w: seq<nat>, ghost iw: seq<nat>, ghost leafPar: seq<nat>)
      returns (root': nat, leaf': nat, ghost iw': seq<nat>, ghost leafPar': seq<nat>)
    requires MergeState(A[..], w, iw, leafPar, n, leaf, root, next) && next < n - 1 && Sum(w) < 65536 && n <= 65536
    modifies A
    ensures MergeState(A[..], w, iw', leafPar', n, leaf', root', next + 1)
    ensures SameSyms(A[..], old(A[..]), n)
  {
    hide MergeState, Merged, Picked, SameSyms, Sum;
    ghost var lq, iq := MergeFacts(A[..], w, iw, leafPar, n, leaf, root, next);
    root', leaf' := MergeTwo(A, n, root, leaf, next, lq, iq);
    MergeStep(old(A[..]), A[..], w, iw, leafPar, n, leaf, root, next, Picked(lq, iq));
    iw', leafPar' := iw + [Merged(lq, iq)], leafPar + Rep(Picked(lq, iq), next);
  }

  method MergePass(A: array<SymFreq>, n: nat)
    requires 2 <= n <= A.Length && n <= 65536
    requires Sum(Keys(A[..n])) < 65536
    modifies A
    ensures SameSyms(A[..], old(A[..]), n)
    ensures Keys(A[..n - 2]) == Parents(Keys(old(A[..n])), [], 0).1
  {
    hide MergeState, Parents, Sum, Keys;
    ghost var w := Keys(A[..n]);
    FirstMergeFits(w);
    assert A[0].key == w[0] && A[1].key == w[1];
    A[0] := A[0].(key := (A[0].key + A[1].key) % 65536);
    var root: nat, leaf: nat, next: nat := 0, 2, 1;
    ghost var iw, leafPar := [w[0] + w[1]], [0, 0];
    MergeStart(A[..], w, n);
    while next < n - 1
      invariant next <= n - 1
      invariant MergeState(A[..], w, iw, leafPar, n, leaf, root, next)
      invariant SameSyms(A[..], old(A[..]), n)
    {
      root, leaf, iw, leafPar := MergeOnce(A, n, root, leaf, next, w, iw, leafPar);
      next := next + 1;
    }
    MergeEnd(A[..], w, iw, leafPar, n, leaf, root, next);
  }

  lemma FirstMergeFits(w: seq<nat>)
    requires |w| >= 2 && Sum(w) < 65536
    ensures w[0] + w[1] < 65536
  {
    SumCut(w, 2);
    assert w[..2] == [w[0], w[1]];
    SumOneTwo(w[0], w[1]);
  }

  lemma MergeEnd(a: seq<SymFreq>, w: seq<nat>, iw: seq<nat>, leafPar: seq<nat>, n: nat, leaf: nat, root: nat, next: nat)
    requires MergeState(a, w, iw, leafPar, n, leaf, root, next) && next == n - 1
    ensures Keys(a[..n - 2]) == Parents(w, [], 0).1
  {
    assert |w[leaf..]| + |iw[root..]| == 1;
    assert Parents(w[leaf..], iw[root..], next).1 == [];
  }

  // ---------- second pass: parent numbers become depths ----------

  method DepthPass(A: array<SymFreq>, n: nat, ghost par: seq<nat>)
    requires 2 <= n <= A.Length && n <= 65536 && Keys(A[..n - 2]) == par
    requires PointForward(par, 0) && Within(par, 0, n - 1)
    modifies A
    ensures Depths(Keys(A[..n - 1]), 0, par) && AtMost(Keys(A[..n - 1]), n - 2)
    ensures SameSyms(A[..], old(A[..]), n)
  {
    hide Keys, Depths, HalfDepths;
    assert forall i :: 0 <= i < n - 2 ==> A[i].key == par[i];
    A[n - 2] := A[n - 2].(key := 0);
    HalfDepthsStart(A[..], par, n);
    var next := n - 3;
    while next >= 0
      invariant -1 <= next <= n - 3
      invariant SameSyms(A[..], old(A[..]), n)
      invariant HalfDepths(A[..], par, n, next)
    {
      HalfDepthsNext(A[..], par, n, next);
      ghost var a := A[..];
      A[next] := A[next].(key := (A[A[next].key].key + 1) % 65536);
      HalfDepthsStep(a, A[..], par, n, next);
      next := next - 1;
    }
    HalfDepthsEnd(A[..], par, n);
  }

  /** Depths above `next`, parent numbers up to it. */
  ghost predicate HalfDepths(a: seq<SymFreq>, par: seq<nat>, n: nat, next: int)
    requires n - 2 == |par| && n <= |a| && PointForward(par, 0) && Within(par, 0, n - 1)
  {
    && a[n - 2].key == 0
    && (forall i :: 0 <= i < n - 2 ==> if i <= next then a[i].key == par[i] else a[i].key == a[par[i]].key + 1)
    && (forall i :: 0 <= i < n - 1 ==> next < i ==> a[i].key <= n - 2 - i)
  }

  lemma HalfDepthsStart(a: seq<SymFreq>, par: seq<nat>, n: nat)
    requires n - 2 == |par| && n <= |a| && PointForward(par, 0) && Within(par, 0, n - 1)
    requires a[n - 2].key == 0 && forall i :: 0 <= i < n - 2 ==> a[i].key == par[i]
    ensures HalfDepths(a, par, n, n - 3)
  {}

  lemma HalfDepthsNext(a: seq<SymFreq>, par: seq<nat>, n: nat, next: nat)
    requires n - 2 == |par| && n <= |a| && PointForward(par, 0) && Within(par, 0, n - 1)
    requires next < n - 2 && HalfDepths(a, par, n, next)
    ensures a[next].key == par[next] && next < par[next] < n - 1 && a[par[next]].key + 1 <= n - 2 - next
  {}

  lemma HalfDepthsStep(a: seq<SymFreq>, b: seq<SymFreq>, par: seq<nat>, n: nat, next: nat)
    requires n - 2 == |par| && n <= |a| == |b| && PointForward(par, 0) && Within(par, 0, n - 1)
    requires next < n - 2 && HalfDepths(a, par, n, next)
    requires b == a[next := a[next].(key := a[par[next]].key + 1)]
    ensures HalfDepths(b, par, n, next - 1)
  {
    forall i | next <= i < n - 2 ensures b[i].key == b[par[i]].key + 1 {
      assert i < par[i];
    }
  }

  lemma HalfDepthsEnd(a: seq<SymFreq>, par: seq<nat>, n: nat)
    requires n - 2 == |par| && n <= |a| && PointForward(par, 0) && Within(par, 0, n - 1) && HalfDepths(a, par, n, -1)
    ensures Depths(Keys(a[..n - 1]), 0, par) && AtMost(Keys(a[..n - 1]), n - 2)
  {}

  // ---------- third pass: depths of inner nodes become lengths of leaves ----------

  lemma {:induction false} CountPrefix(s: seq<nat>, n: nat, m: nat, d: int)
    requires n <= m <= |s| && forall i :: n <= i < m ==> s[i] != d
    ensures CountTo(s, m, d) == CountTo(s, n, d)
  {
    if n < m { CountPrefix(s, n, m - 1, d); }
  }

  lemma {:induction false} CountRun(s: seq<nat>, lo: nat, hi: nat, d: int)
    requires lo <= hi <= |s|
    requires forall i :: 0 <= i < |s| ==> (s[i] == d <==> lo <= i < hi)
    ensures Count(s, d) == hi - lo
  {
    CountPrefix(s, hi, |s|, d);
    CountNone(s, lo, d);
    CountRunTo(s, lo, hi, d);
  }

  lemma {:induction false} CountRunTo(s: seq<nat>, lo: nat, n: nat, d: int)
    requires lo <= n <= |s| && forall i :: lo <= i < n ==> s[i] == d
    ensures CountTo(s, n, d) == CountTo(s, lo, d) + n - lo
  {
    if lo < n { CountRunTo(s, lo, n - 1, d); }
  }

  lemma {:induction false} CountZero(s: seq<nat>, n: nat, i: nat, d: int)
    requires i < n <= |s| && CountTo(s, n, d) == 0
    ensures s[i] != d
  {
    if i < n - 1 { CountZero(s, n - 1, i, d); }
  }

  /** What the third pass knows about the depths `ds` and the lengths `l` it has to produce. */
  ghost predicate Levels(ds: seq<nat>, par: seq<nat>, l: seq<nat>) {
    && |l| == |ds| + 1 >= 2 && Depths(ds, 0, par) && PointForward(par, 0) && Descending(ds) && Descending(l)
    && (forall d: nat :: Count(l, d) + Count(ds, d) == if d == 0 then 1 else 2 * Count(ds, d - 1))
  }

  /** Nodes on level `d`. */
  function LevelSize(ds: seq<nat>, d: nat): nat {
    if d == 0 then 1 else 2 * Count(ds, d - 1)
  }

  /** The array between two levels: inner depths up to `root` unread, lengths beyond `next` written. */
  ghost predicate LevelState(a: seq<SymFreq>, ds: seq<nat>, l: seq<nat>, n: nat, root: int, next: int, d: nat) {
    && n == |l| == |ds| + 1 && n <= |a|
    && -1 <= root <= n - 2 && root <= next <= n - 1 && next == root + LevelSize(ds, d)
    && (forall i :: 0 <= i <= root ==> a[i].key == ds[i] && ds[i] >= d)
    && (forall i :: root < i < n - 1 ==> ds[i] < d)
    && (forall i :: next < i < n ==> a[i].key == l[i] && l[i] < d)
    && (forall i :: 0 <= i <= next ==> l[i] >= d)
  }

  /** No node left on a level means no node left at all. */
  lemma LevelsEnd(a: seq<SymFreq>, ds: seq<nat>, par: seq<nat>, l: seq<nat>, n: nat, root: int, next: int, d: nat)
    requires Levels(ds, par, l) && LevelState(a, ds, l, n, root, next, d) && LevelSize(ds, d) == 0
    ensures root == next == -1 && Keys(a[..n]) == l
  {
    if root >= 0 {
      assert ds[root] == ds[par[root]] + 1;
      CountZero(ds, |ds|, par[root], d - 1);
    }
  }

  /** The inner nodes of level `d` are a run of the array, and the leaves make up the rest of the level. */
  lemma LevelSplit(ds: seq<nat>, par: seq<nat>, l: seq<nat>, n: nat, root: int, root': int, next: int, d: nat)
    requires Levels(ds, par, l) && n == |l| && -1 <= root' <= root <= n - 2 && -1 <= next <= n - 1
    requires forall i :: root < i < n - 1 ==> ds[i] < d
    requires forall i :: root' < i <= root ==> ds[i] == d
    requires forall i :: 0 <= i <= root' ==> ds[i] >= d
    requires root' >= 0 ==> ds[root'] != d
    requires forall i :: next < i < n ==> l[i] < d
    ensures Count(ds, d) == root - root'
    ensures CountTo(l, next + 1, d) + (root - root') == LevelSize(ds, d)
    ensures forall i :: 0 <= i <= root' ==> ds[i] >= d + 1
  {
    forall i | 0 <= i <= root' ensures ds[i] > d {
      assert ds[root'] <= ds[i];
    }
    CountRun(ds, root' + 1, root + 1, d);
    CountPrefix(l, next + 1, n, d);
    LevelOf(ds, par, l, d);
  }

  lemma LevelOf(ds: seq<nat>, par: seq<nat>, l: seq<nat>, d: nat)
    requires Levels(ds, par, l)
    ensures Count(l, d) + Count(ds, d) == LevelSize(ds, d)
  {
    hide Count;
  }

  method LengthPass(A: array<SymFreq>, n: nat, ghost ds: seq<nat>, ghost par: seq<nat>, ghost l: seq<nat>)
    requires 2 <= n <= A.Length && |l| == n && Keys(A[..n - 1]) == ds && Levels(ds, par, l) && AtMost(l, 65535)
    modifies A
    ensures Keys(A[..n]) == l
    ensures SameSyms(A[..], old(A[..]), n)
  {
    hide Levels, Keys, Count;
    var avbl, used, dpth: nat := 1, 0, 0;
    var root, next := n - 2, n - 1;
    while avbl > 0
      invariant avbl == LevelSize(ds, dpth) && used == 0
      invariant LevelState(A[..], ds, l, n, root, next, dpth)
      invariant SameSyms(A[..], old(A[..]), n)
      decreases next + root
    {
      ghost var root0 := root;
      while root >= 0 && A[root].key == dpth
        invariant -1 <= root <= root0 && used == root0 - root
        invariant forall i :: root < i <= root0 ==> ds[i] == dpth
      {
        used := used + 1;
        root := root - 1;
      }
      LevelSplit(ds, par, l, n, root0, root, next, dpth);
      next, avbl := AssignLevel(A, n, root, next, avbl, used, dpth, ds, par, l);
      avbl := 2 * used;
      dpth := dpth + 1;
      used := 0;
    }
    LevelsEnd(A[..], ds, par, l, n, root, next, dpth);
  }

  /** The leaves of one level, written from the top of the array down. */
  method AssignLevel(A: array<SymFreq>, n: nat, root: int, next0: int, avbl0: nat, used: nat, dpth: nat,
                     ghost ds: seq<nat>, ghost par: seq<nat>, ghost l: seq<nat>)
      returns (next: int, avbl: nat)
    requires n <= A.Length && |l| == n && Levels(ds, par, l) && AtMost(l, 65535)
    requires -1 <= root && used <= avbl0 && next0 == root + used + avbl0 && next0 <= n - 1
    requires CountTo(l, next0 + 1, dpth) == avbl0 - used
    requires forall i :: next0 < i < n ==> A[i].key == l[i] && l[i] < dpth
    requires forall i :: 0 <= i <= next0 ==> l[i] >= dpth
    modifies A
    ensures avbl == used && next == root + 2 * used
    ensures forall i :: 0 <= i <= next ==> A[i] == old(A[i])
    ensures forall i :: next < i < n ==> A[i].key == l[i] && l[i] < dpth + 1
    ensures forall i :: 0 <= i <= next ==> l[i] >= dpth + 1
    ensures SameSyms(A[..], old(A[..]), n)
  {
    hide Levels, Count;
    next, avbl := next0, avbl0;
    while avbl > used
      invariant used <= avbl && root + used <= next <= n - 1 && next == root + used + avbl
      invariant CountTo(l, next + 1, dpth) == avbl - used
      invariant forall i :: 0 <= i <= next ==> A[i] == old(A[i])
      invariant forall i :: next < i < n ==> A[i].key == l[i] && l[i] <= dpth
      invariant forall i :: 0 <= i <= next ==> l[i] >= dpth
      invariant SameSyms(A[..], old(A[..]), n)
    {
      LastOnLevel(ds, par, l, next, dpth);
      A[next] := A[next].(key := dpth % 65536);
      next := next - 1;
      avbl := avbl - 1;
    }
    NoneOnLevel(l, next, dpth);
  }

  lemma LastOnLevel(ds: seq<nat>, par: seq<nat>, l: seq<nat>, next: int, d: nat)
    requires 0 <= next < |l| && Levels(ds, par, l) && CountTo(l, next + 1, d) > 0
    requires forall i :: 0 <= i <= next ==> l[i] >= d
    ensures l[next] == d && CountTo(l, next, d) == CountTo(l, next + 1, d) - 1
  {
    var i := CountSome(l, next + 1, d);
    assert l[next] <= l[i];
  }

  lemma NoneOnLevel(l: seq<nat>, next: int, d: nat)
    requires -1 <= next < |l| && CountTo(l, next + 1, d) == 0
    requires forall i :: 0 <= i <= next ==> l[i] >= d
    ensures forall i :: 0 <= i <= next ==> l[i] >= d + 1
  {
    forall i | 0 <= i <= next ensures l[i] >= d + 1 {
      CountZero(l, next + 1, i, d);
    }
  }

  // ---------- the whole algorithm ----------

  lemma AllDepthsDescend(ds: seq<nat>, par: seq<nat>)
    requires Depths(ds, 0, par) && Ascending(par) && PointForward(par, 0)
    ensures Descending(ds)
  {
    forall i, j | 0 <= i < j < |ds| ensures ds[j] <= ds[i] {
      DepthsDescend(ds, par, i, j);
    }
  }

  lemma LengthsBelowCount(w: seq<nat>, ds: seq<nat>)
    requires |w| >= 2 && |ds| == |w| - 1 && Depths(ds, 0, Parents(w, [], 0).1) && AtMost(ds, |w| - 2)
    ensures AtMost(Lengths(w, []).0, |w| - 1)
  {
    hide Lengths, Parents, Depths;
    DepthsAreLengths(w, [], 0, ds);
  }

  lemma LevelsHold(w: seq<nat>, ds: seq<nat>)
    requires |w| >= 2 && |ds| == |w| - 1 && Depths(ds, 0, Parents(w, [], 0).1) && AtMost(ds, |w| - 2)
    ensures Levels(ds, Parents(w, [], 0).1, CodeLengths(w)) && AtMost(CodeLengths(w), |w| - 1)
    ensures Descending(CodeLengths(w)) && forall i :: 0 <= i < |w| ==> 1 <= CodeLengths(w)[i]
  {
    hide Lengths, Parents, Depths, Count, Descending, PointForward, Ascending;
    ParentsAscend(w, [], 0);
    AllDepthsDescend(ds, Parents(w, [], 0).1);
    LeafDepthsDescend(w, ds);
    LengthsBelowCount(w, ds);
    forall d: nat ensures Count(Lengths(w, []).0, d) + Count(ds, d) == if d == 0 then 1 else 2 * Count(ds, d - 1) {
      LevelHolds(w, ds, d);
    }
  }

  lemma LevelHolds(w: seq<nat>, ds: seq<nat>, d: nat)
    requires |w| >= 2 && |ds| == |w| - 1 && Depths(ds, 0, Parents(w, [], 0).1)
    ensures Count(Lengths(w, []).0, d) + Count(ds, d) == if d == 0 then 1 else 2 * Count(ds, d - 1)
  {
    hide *;
    var l, inner := Lengths(w, []).0, Lengths(w, []).1;
    AllLevels(w, ds, d);
    NoInner(inner);
    RootFilled(l, ds, d);
  }

  lemma AllLevels(w: seq<nat>, ds: seq<nat>, d: nat)
    requires |w| >= 2 && |ds| == |w| - 1 && Depths(ds, 0, Parents(w, [], 0).1)
    ensures LevelsFilled(Lengths(w, []).0, Lengths(w, []).1, ds, d)
  {
    hide *;
    LevelCounts(w, [], 0, ds, d);
    assert ds[0..] == ds;
  }

  lemma NoInner(s: seq<nat>)
    ensures |s| == 0 ==> s == []
  {}

  lemma RootFilled(ll: seq<nat>, inner: seq<nat>, d: nat)
    requires LevelsFilled(ll, [], inner, d)
    ensures Count(ll, d) + Count(inner, d) == if d == 0 then 1 else 2 * Count(inner, d - 1)
  {
    CountNone([], 0, d);
    CountNone(inner, |inner|, -1);
  }

  /** Replaces the first `n` keys, taken as weights, by the code lengths of their Huffman tree: no assignment that fits the
      code space costs less, the code space is used up, and positive 16-bit weights give no length beyond 22. */
  method CalculateMinimumRedundancy(A: array<SymFreq>, n: nat)
    requires n <= A.Length && n <= 65536
    requires Sum(Keys(A[..n])) < 65536
    modifies A
    ensures Keys(A[..n]) == CodeLengths(Keys(old(A[..n])))
    ensures SameSyms(A[..], old(A[..]), n)
    ensures Descending(Keys(A[..n])) && forall i :: 0 <= i < n ==> 1 <= A[i].key
    ensures n >= 2 && Ascending(Keys(old(A[..n]))) ==> Worth(Keys(old(A[..n])), Keys(A[..n]))
  {
    hide Lengths, Parents, Depths, Levels, Sum, Worth, Ascending;
    if n == 0 {
      return;
    } else if n == 1 {
      A[0] := A[0].(key := 1);
      return;
    }
    ghost var w := Keys(A[..n]);
    ghost var par := Parents(w, [], 0).1;
    ParentsAscend(w, [], 0);
    MergePass(A, n);
    DepthPass(A, n, par);
    ghost var ds := Keys(A[..n - 1]);
    LevelsHold(w, ds);
    LengthPass(A, n, ds, par, CodeLengths(w));
    if Ascending(w) {
      CodeLengthsWorth(w);
    }
  }
}
