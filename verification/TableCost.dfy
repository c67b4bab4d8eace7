/** What a table of code lengths costs, symbol by symbol, against any other lengths for the same alphabet. */
module TableCost {
  import opened Powers
  import opened TwoQueue
  import opened HuffmanTable
  import opened LimitCost

  // ---------- sums over a listing of symbols, and over the whole alphabet ----------

  function SumAt(g: seq<nat>, syms: seq<nat>, n: nat): nat
    requires n <= |syms| && forall p :: 0 <= p < |syms| ==> syms[p] < |g|
  {
    if n == 0 then 0 else SumAt(g, syms, n - 1) + g[syms[n - 1]]
  }

  lemma {:induction false} SumAtSame(g: seq<nat>, f: seq<nat>, syms: seq<nat>, n: nat)
    requires n <= |syms| && |f| == |g| && forall p :: 0 <= p < |syms| ==> syms[p] < |g|
    requires forall p :: 0 <= p < n ==> f[syms[p]] == g[syms[p]]
    ensures SumAt(f, syms, n) == SumAt(g, syms, n)
  {
    if n > 0 { SumAtSame(g, f, syms, n - 1); }
  }

  lemma {:induction false} SumUpdate(g: seq<nat>, k: nat, v: nat, n: nat)
    requires n <= |g| && k < |g|
    ensures SumTo(g[k := v], n) + (if k < n then g[k] else 0) == SumTo(g, n) + if k < n then v else 0
  {
    if n > 0 { SumUpdate(g, k, v, n - 1); }
  }

  lemma {:induction false} SumOfZeros(g: seq<nat>, n: nat)
    requires n <= |g| && forall s :: 0 <= s < n ==> g[s] == 0
    ensures SumTo(g, n) == 0
  {
    if n > 0 { SumOfZeros(g, n - 1); }
  }

  /** Distinct symbols have no more than the whole, and all of it if the others have nothing. */
  lemma {:induction false} ListedSum(g: seq<nat>, syms: seq<nat>, n: nat)
    requires n <= |syms| && forall p :: 0 <= p < |syms| ==> syms[p] < |g|
    requires forall p, q :: 0 <= p < q < |syms| ==> syms[p] != syms[q]
    ensures SumAt(g, syms, n) <= Sum(g)
    ensures (forall s :: 0 <= s < |g| && s !in syms[..n] ==> g[s] == 0) ==> SumAt(g, syms, n) == Sum(g)
    decreases n
  {
    hide SumTo;
    if n == 0 {
      if forall s :: 0 <= s < |g| && s !in syms[..n] ==> g[s] == 0 {
        SumOfZeros(g, |g|);
      }
    } else {
      var k := syms[n - 1];
      var f := g[k := 0];
      assert syms[..n] == syms[..n - 1] + [k];
      ListedSum(f, syms, n - 1);
      SumAtSame(g, f, syms, n - 1);
      SumUpdate(g, k, 0, |g|);
    }
  }

  // ---------- costs ----------

  function Products(w: seq<nat>, l: seq<nat>): (g: seq<nat>)
    requires |w| == |l|
    ensures |g| == |w|
  {
    seq(|w|, s requires 0 <= s < |w| => w[s] * l[s])
  }

  function Shares(l: seq<nat>, m: nat): (g: seq<nat>)
    ensures |g| == |l|
  {
    seq(|l|, s requires 0 <= s < |l| => Share(l[s], m))
  }

  lemma {:induction false} CostIsSum(w: seq<nat>, l: seq<nat>, n: nat)
    requires n <= |w| == |l|
    ensures CostTo(w, l, n) == SumTo(Products(w, l), n)
  {
    if n > 0 { CostIsSum(w, l, n - 1); }
  }

  lemma {:induction false} KraftIsSum(l: seq<nat>, n: nat, m: nat)
    requires n <= |l|
    ensures KraftTo(l, n, m) == SumTo(Shares(l, m), n)
  {
    if n > 0 { KraftIsSum(l, n - 1, m); }
  }

  lemma {:induction false} CostAlong(syms: seq<nat>, w: seq<nat>, counts: seq<nat>, sizes: seq<nat>, n: nat)
    requires Listing(syms, w, counts) && n <= |syms| && |sizes| == |counts|
    ensures CostTo(w, Along(sizes, syms, 0), n) == SumAt(Products(counts, sizes), syms, n)
  {
    if n > 0 { CostAlong(syms, w, counts, sizes, n - 1); }
  }

  lemma {:induction false} KraftAlong(syms: seq<nat>, sizes: seq<nat>, n: nat, m: nat)
    requires n <= |syms| && forall p :: 0 <= p < |syms| ==> syms[p] < |sizes|
    ensures KraftTo(Along(sizes, syms, 0), n, m) == SumAt(Shares(sizes, m), syms, n)
  {
    if n > 0 { KraftAlong(syms, sizes, n - 1, m); }
  }

  /** The listed symbols cost what the whole table costs. */
  lemma ListedCost(syms: seq<nat>, w: seq<nat>, counts: seq<nat>, sizes: seq<nat>)
    requires Listing(syms, w, counts) && |sizes| == |counts|
    ensures Cost(w, Along(sizes, syms, 0)) == Cost(counts, sizes)
  {
    hide SumTo, CostTo, Along, SumAt;
    var g := Products(counts, sizes);
    CostAlong(syms, w, counts, sizes, |syms|);
    CostIsSum(counts, sizes, |counts|);
    forall s | 0 <= s < |g| && s !in syms[..|syms|] ensures g[s] == 0 {
      assert syms[..|syms|] == syms;
    }
    ListedSum(g, syms, |syms|);
  }

  lemma ListedKraft(syms: seq<nat>, w: seq<nat>, counts: seq<nat>, sizes: seq<nat>, m: nat)
    requires Listing(syms, w, counts) && |sizes| == |counts|
    ensures Kraft(Along(sizes, syms, 0), m) <= Kraft(sizes, m)
  {
    hide SumTo, KraftTo, Along, SumAt;
    KraftAlong(syms, sizes, |syms|, m);
    KraftIsSum(sizes, |sizes|, m);
    ListedSum(Shares(sizes, m), syms, |syms|);
  }

  lemma ListedSumOf(syms: seq<nat>, w: seq<nat>, counts: seq<nat>, n: nat)
    requires Listing(syms, w, counts) && n <= |syms|
    ensures SumTo(w, n) == SumAt(counts, syms, n)
  {}

  /** No more symbols are listed than have been counted below `n`. */
  lemma ListedBelow(syms: seq<nat>, w: seq<nat>, counts: seq<nat>, n: nat)
    requires Listing(syms, w, counts) && n <= |counts| && forall s :: n <= s < |counts| ==> counts[s] == 0
    ensures |syms| <= n
  {
    var g := seq(|counts|, s => if s < n then 1 else 0);
    OneEach(g, syms, |syms|);
    ListedSum(g, syms, |syms|);
    OnesTo(g, n, |g|);
  }

  lemma {:induction false} OneEach(g: seq<nat>, syms: seq<nat>, n: nat)
    requires n <= |syms| && forall p :: 0 <= p < |syms| ==> syms[p] < |g| && g[syms[p]] == 1
    ensures SumAt(g, syms, n) == n
  {
    if n > 0 { OneEach(g, syms, n - 1); }
  }

  lemma {:induction false} OnesTo(g: seq<nat>, n: nat, k: nat)
    requires n <= |g| && k <= |g| && forall s :: 0 <= s < |g| ==> g[s] == if s < n then 1 else 0
    ensures SumTo(g, k) == if k < n then k else n
  {
    if k > 0 { OnesTo(g, n, k - 1); }
  }

  /** The table made from the counts costs at most one bit for each use more than any other that fits the code space. */
  lemma TableNearlyOptimal(syms: seq<nat>, w: seq<nat>, counts: seq<nat>, sizes: seq<nat>, other: seq<nat>, m: nat)
    requires Listing(syms, w, counts) && |sizes| == |counts| == |other|
    requires NearlyOptimal(w, Along(sizes, syms, 0)) && AtMost(other, m) && Kraft(other, m) <= Pow2(m)
    ensures Cost(counts, sizes) <= Cost(counts, other) + Sum(counts)
  {
    hide SumTo, CostTo, KraftTo, Pow2, Listing, SumAt;
    AlongAtMost(syms, w, counts, other, m);
    ListedKraft(syms, w, counts, other, m);
    ListedCost(syms, w, counts, sizes);
    ListedCost(syms, w, counts, other);
    ListedWeight(syms, w, counts);
  }

  lemma AlongAtMost(syms: seq<nat>, w: seq<nat>, counts: seq<nat>, sizes: seq<nat>, m: nat)
    requires Listing(syms, w, counts) && |sizes| == |counts| && AtMost(sizes, m)
    ensures |syms| == |w| && (forall p :: 0 <= p < |syms| ==> syms[p] < |sizes|) && AtMost(Along(sizes, syms, 0), m)
  {}

  lemma ListedWeight(syms: seq<nat>, w: seq<nat>, counts: seq<nat>)
    requires Listing(syms, w, counts)
    ensures Sum(w) == Sum(counts)
  {
    hide SumTo, SumAt;
    ListedSumOf(syms, w, counts, |syms|);
    assert syms[..|syms|] == syms;
    ListedSum(counts, syms, |syms|);
  }
}
