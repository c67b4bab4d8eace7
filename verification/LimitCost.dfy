/** What limiting the code lengths to 15 bits costs: at most one bit for each symbol counted.

    The codes that change their length are the longest ones, so they belong to
    rare symbols: a symbol at depth d of the tree leaves room for d + 1
    Fibonacci steps above its weight. And the repairs give back only as much
    code space as folding the over-long codes took. */
module LimitCost {
  import opened Powers
  import opened TwoQueue
  import opened HuffmanTree
  import opened MinimumRedundancy
  import opened LengthLimit

  // ---------- histogram sums as sums over the listed lengths ----------

  function ShortTo(s: seq<nat>, n: nat, d: nat): nat
    requires n <= |s|
  {
    if n == 0 then 0 else ShortTo(s, n - 1, d) + if s[n - 1] <= d then 1 else 0
  }

  /** Code space of the lengths up to `d` beyond one unit each. */
  function ShortSlackTo(s: seq<nat>, n: nat, d: nat, m: nat): int
    requires n <= |s|
  {
    if n == 0 then 0 else ShortSlackTo(s, n - 1, d, m) + if s[n - 1] <= d then Share(s[n - 1], m) - 1 else 0
  }

  predicate Positive(s: seq<nat>) {
    forall i :: 0 <= i < |s| ==> 1 <= s[i]
  }

  lemma {:induction false} ShortUp(s: seq<nat>, n: nat, d: nat, m: nat)
    requires n <= |s| && 1 <= d <= m
    ensures ShortTo(s, n, d) == ShortTo(s, n, d - 1) + CountTo(s, n, d)
    ensures ShortSlackTo(s, n, d, m) == ShortSlackTo(s, n, d - 1, m) + CountTo(s, n, d) * (Pow2(m - d) - 1)
  {
    hide Pow2;
    if n > 0 {
      ShortUp(s, n - 1, d, m);
      if s[n - 1] == d {
        MulDistributes(CountTo(s, n - 1, d), 1, Pow2(m - d) - 1);
      }
    }
  }

  lemma {:induction false} NoneShort(s: seq<nat>, n: nat, d: nat, m: nat)
    requires n <= |s| && forall i :: 0 <= i < n ==> d < s[i]
    ensures ShortTo(s, n, d) == 0 && ShortSlackTo(s, n, d, m) == 0
  {
    if n > 0 { NoneShort(s, n - 1, d, m); }
  }

  lemma {:induction false} ShortIsCodes(s: seq<nat>, h: seq<int>, d: nat, m: nat)
    requires d < |h| && d <= m && Positive(s) && forall e :: 1 <= e <= d ==> h[e] == Count(s, e)
    ensures ShortTo(s, |s|, d) == CodesTo(h, d) && ShortSlackTo(s, |s|, d, m) == Slack(h, d, m)
  {
    hide CountTo, Pow2;
    if d == 0 {
      NoneShort(s, |s|, 0, m);
    } else {
      ShortIsCodes(s, h, d - 1, m);
      ShortUp(s, |s|, d, m);
      assert h[d] == CountTo(s, |s|, d);
      MulDistributes(Pow2(m - d) - 1, 1, h[d]);
    }
  }

  lemma {:induction false} ShortFrom(s: seq<nat>, n: nat, p: nat, d: nat)
    requires p <= n <= |s| && Descending(s) && p < |s| && s[p] <= d
    ensures n - p <= ShortTo(s, n, d)
  {
    if p < n { ShortFrom(s, n - 1, p, d); }
  }

  lemma {:induction false} ShortBehind(s: seq<nat>, n: nat, p: nat, d: nat)
    requires p < n <= |s| && Descending(s) && d < s[p]
    ensures ShortTo(s, n, d) <= n - p - 1
  {
    if p == n - 1 {
      NoneShort(s, n, d, 0);
    } else {
      ShortBehind(s, n - 1, p, d);
    }
  }

  /** Of descending lengths, those of at most `d` come last. */
  lemma RankIsShort(s: seq<nat>, p: nat, d: nat)
    requires p < |s| && Descending(s)
    ensures s[p] <= d <==> |s| - ShortTo(s, |s|, d) <= p
  {
    if s[p] <= d {
      ShortFrom(s, |s|, p, d);
    } else {
      ShortBehind(s, |s|, p, d);
    }
  }

  // ---------- which lengths change ----------

  /** Descending lengths `l` of a tree, and descending lengths `a` handed out from the repaired histogram. */
  ghost predicate Reassigned(l: seq<nat>, a: seq<nat>, h: seq<int>, H: seq<int>, max: nat, level: nat) {
    && |l| == |a| && Descending(l) && Descending(a) && Positive(l) && Positive(a) && AtMost(a, max)
    && FewShortened(h, H, |l|, max, level)
    && forall d :: 1 <= d <= max ==> h[d] == Count(l, d) && H[d] == Count(a, d)
  }

  function Capped(x: nat, max: nat): nat {
    if x < max then x else max
  }

  lemma SameRank(l: seq<nat>, a: seq<nat>, h: seq<int>, H: seq<int>, max: nat, level: nat, p: nat, d: nat)
    requires Reassigned(l, a, h, H, max, level) && p < |a| && d <= level
    ensures d < level ==> (a[p] <= d <==> l[p] <= d)
    ensures d == level < max && a[p] <= d ==> l[p] <= d
  {
    hide Count, CodesTo, ShortTo, ShortSlackTo, Descending, Slack;
    RankIsShort(l, p, d);
    RankIsShort(a, p, d);
    ShortIsCodes(l, h, d, max);
    ShortIsCodes(a, H, d, max);
    if d < level {
      CodesSame(h, H, d);
    } else if d < max {
      CodesSame(h, H, d - 1);
      CodesNext(h, d);
      CodesNext(H, d);
    }
  }

  /** A length of at most `level` has been left alone. */
  lemma LeftAlone(l: seq<nat>, a: seq<nat>, h: seq<int>, H: seq<int>, max: nat, level: nat, p: nat)
    requires Reassigned(l, a, h, H, max, level) && p < |a| && a[p] <= level
    ensures a[p] == Capped(l[p], max)
  {
    hide Count, Descending, Slack;
    SameRank(l, a, h, H, max, level, p, a[p]);
    SameRank(l, a, h, H, max, level, p, a[p] - 1);
  }

  // ---------- how much code space the others had ----------

  /** Code space each changed code had beyond the one unit a longest code takes. */
  function Lost(l: seq<nat>, a: seq<nat>, max: nat, level: nat): (s: seq<nat>)
    requires |l| == |a|
    ensures |s| == |a|
  {
    seq(|a|, p requires 0 <= p < |a| => if a[p] <= level then 0 else Share(Capped(l[p], max), max) - 1)
  }

  lemma {:induction false} LostIsSlack(l: seq<nat>, a: seq<nat>, max: nat, level: nat, n: nat)
    requires n <= |l| == |a| && level <= max && forall p :: 0 <= p < n && a[p] <= level ==> a[p] == Capped(l[p], max)
    ensures SumTo(Lost(l, a, max, level), n) == ShortSlackTo(l, n, max, max) - ShortSlackTo(a, n, level, max)
  {
    if n > 0 {
      LostIsSlack(l, a, max, level, n - 1);
      assert Share(max, max) == 1;
    }
  }

  lemma LittleLost(l: seq<nat>, a: seq<nat>, h: seq<int>, H: seq<int>, max: nat, level: nat)
    requires Reassigned(l, a, h, H, max, level)
    ensures Sum(Lost(l, a, max, level)) <= |l| + Pow2(max - level) - 2
  {
    hide Count, Descending, Slack, SumTo, ShortTo, ShortSlackTo, Lost, Pow2;
    forall p | 0 <= p < |a| && a[p] <= level ensures a[p] == Capped(l[p], max) {
      LeftAlone(l, a, h, H, max, level, p);
    }
    LostIsSlack(l, a, max, level, |a|);
    ShortIsCodes(l, h, max, max);
    ShortIsCodes(a, H, level, max);
  }

  // ---------- rare symbols only ----------

  lemma {:induction false} FibScales(c: nat, n: nat)
    ensures Fib(c, n) == c * Fib(1, n)
  {
    if n >= 2 {
      FibScales(c, n - 1);
      FibScales(c, n - 2);
      MulDistributes(Fib(1, n - 1), Fib(1, n - 2), c);
    }
  }

  const MAX_BITS: nat := 15

  lemma FibValues()
    ensures Fib(1, 2) == 1 && Fib(1, 3) == 2 && Fib(1, 4) == 3 && Fib(1, 5) == 5 && Fib(1, 6) == 8 && Fib(1, 7) == 13
    ensures Fib(1, 8) == 21 && Fib(1, 9) == 34 && Fib(1, 10) == 55 && Fib(1, 11) == 89 && Fib(1, 12) == 144
    ensures Fib(1, 13) == 233 && Fib(1, 14) == 377 && Fib(1, 15) == 610
  {
    assert Fib(1, 8) == 21 && Fib(1, 9) == 34;
    assert Fib(1, 10) == 55 && Fib(1, 11) == 89 && Fib(1, 12) == 144 && Fib(1, 13) == 233;
  }

  lemma PowValues()
    ensures Pow2(0) == 1 && Pow2(1) == 2 && Pow2(2) == 4 && Pow2(3) == 8 && Pow2(4) == 16 && Pow2(5) == 32 && Pow2(6) == 64
    ensures Pow2(7) == 128 && Pow2(8) == 256 && Pow2(9) == 512 && Pow2(10) == 1024 && Pow2(11) == 2048 && Pow2(12) == 4096
    ensures Pow2(13) == 8192 && Pow2(14) == 16384
  {
    assert Pow2(4) == 16;
    assert Pow2(8) == 256;
    assert Pow2(12) == 4096;
  }

  /** Fibonacci growth up the tree, and halving code space down to 15 bits, together outgrow the bits in between. */
  lemma GrowthCovers(k: nat)
    requires 1 <= k <= MAX_BITS
    ensures 540 * (MAX_BITS - k) <= Fib(1, k + 1) * (Pow2(MAX_BITS - k) - 1)
  {
    hide Fib, Pow2;
    FibValues();
    PowValues();
    if k == MAX_BITS {
      assert Fib(1, k + 1) * 0 == 0;
    } else {
      Growth(k, Fib(1, k + 1), Pow2(MAX_BITS - k));
    }
  }

  lemma Growth(k: nat, fib: nat, units: nat)
    requires 1 <= k < MAX_BITS
    requires fib == [1, 2, 3, 5, 8, 13, 21, 34, 55, 89, 144, 233, 377, 610][k - 1]
    requires units == [16384, 8192, 4096, 2048, 1024, 512, 256, 128, 64, 32, 16, 8, 4, 2][k - 1]
    ensures 540 * (MAX_BITS - k) <= fib * (units - 1)
  {}

  lemma SymbolCost(w: nat, l: nat, a: nat, total: nat)
    requires 1 <= l && a <= MAX_BITS && Fib(w, l + 1) <= total
    ensures 540 * (w * a) <= 540 * (w * l) + total * (Share(Capped(l, MAX_BITS), MAX_BITS) - 1)
  {
    hide Fib, Pow2;
    var k := Capped(l, MAX_BITS);
    var unit := Pow2(MAX_BITS - k) - 1;
    GrowthCovers(k);
    FibMonotone(w, k + 1, l + 1);
    FibScales(w, k + 1);
    Scaled(w, Fib(1, k + 1), Fib(w, k + 1), total, unit, MAX_BITS - k);
    MulMonotone(a, l + (MAX_BITS - k), w);
    MulDistributes(l, MAX_BITS - k, w);
  }

  lemma Scaled(w: nat, f: nat, wf: nat, total: nat, unit: nat, bits: nat)
    requires wf == w * f <= total && 540 * bits <= f * unit
    ensures 540 * (w * bits) <= total * unit
  {
    MulMonotone(540 * bits, f * unit, w);
    MulMonotone(wf, total, unit);
    assert f * unit * w == wf * unit;
  }

  lemma {:induction false} CostOfLost(w: seq<nat>, l: seq<nat>, a: seq<nat>, level: nat, total: nat, n: nat)
    requires n <= |w| == |l| == |a| && Positive(l) && AtMost(a, MAX_BITS)
    requires forall p :: 0 <= p < |w| ==> Fib(w[p], l[p] + 1) <= total
    requires forall p :: 0 <= p < |w| && a[p] <= level ==> a[p] <= l[p]
    ensures 540 * CostTo(w, a, n) <= 540 * CostTo(w, l, n) + total * SumTo(Lost(l, a, MAX_BITS, level), n)
  {
    hide Fib, Share, Lost;
    if n > 0 {
      CostOfLost(w, l, a, level, total, n - 1);
      CostOfOne(w[n - 1], l[n - 1], a[n - 1], level, total);
      LostAt(l, a, level, n - 1);
      MulDistributes(SumTo(Lost(l, a, MAX_BITS, level), n - 1), Lost(l, a, MAX_BITS, level)[n - 1], total);
    }
  }

  lemma LostAt(l: seq<nat>, a: seq<nat>, level: nat, p: nat)
    requires p < |l| == |a|
    ensures Lost(l, a, MAX_BITS, level)[p] == if a[p] <= level then 0 else Share(Capped(l[p], MAX_BITS), MAX_BITS) - 1
  {}

  lemma CostOfOne(w: nat, l: nat, a: nat, level: nat, total: nat)
    requires 1 <= l && a <= MAX_BITS && Fib(w, l + 1) <= total && (a <= level ==> a <= l)
    ensures 540 * (w * a) <= 540 * (w * l) + total * (if a <= level then 0 else Share(Capped(l, MAX_BITS), MAX_BITS) - 1)
  {
    hide Fib, Share;
    if a <= level {
      MulMonotone(a, l, w);
    } else {
      SymbolCost(w, l, a, total);
    }
  }

  lemma FewLost(codes: nat, level: nat, lost: nat)
    requires 2 <= codes <= 286 && level <= MAX_BITS && lost <= codes + Pow2(MAX_BITS - level) - 2
    requires level < MAX_BITS ==> Pow2(MAX_BITS - level) < codes
    ensures lost <= 540
  {
    if level < MAX_BITS - 8 {
      Pow2Monotone(9, MAX_BITS - level);
      Pow2Values();
    } else {
      Pow2Monotone(MAX_BITS - level, 8);
      Pow2Values();
    }
  }

  /** With at most 286 symbols in use, limiting the lengths of their codes to 15 bits costs at most one bit each time
      a symbol is used. */
  lemma LimitCostsAtMostOneBit(w: seq<nat>, a: seq<nat>, h: seq<int>, H: seq<int>, level: nat)
    requires 2 <= |w| <= 286 && Ascending(w) && Reassigned(CodeLengths(w), a, h, H, MAX_BITS, level)
    ensures Cost(w, a) <= Cost(w, CodeLengths(w)) + Sum(w)
  {
    hide CodeLengths, Count, Descending, Slack, Fib, Pow2, CostTo, SumTo, Lost, Ascending;
    var l, total := CodeLengths(w), Sum(w);
    forall p | 0 <= p < |w| ensures Fib(w[p], l[p] + 1) <= total {
      DepthOfWeight(w, p);
    }
    forall p | 0 <= p < |w| && a[p] <= level ensures a[p] <= l[p] {
      LeftAlone(l, a, h, H, MAX_BITS, level, p);
    }
    CostOfLost(w, l, a, level, total, |w|);
    LittleLost(l, a, h, H, MAX_BITS, level);
    var lost := SumTo(Lost(l, a, MAX_BITS, level), |w|);
    FewLost(|w|, level, lost);
    MulMonotone(lost, 540, total);
  }

  lemma DepthOfWeight(w: seq<nat>, p: nat)
    requires 2 <= |w| && Ascending(w) && p < |w|
    ensures Fib(w[p], CodeLengths(w)[p] + 1) <= Sum(w)
  {
    hide Fib, Lengths;
    LeafDepth(w, [], 0, p);
    assert Sum([]) == 0;
  }

  /** The histogram `H` is that of the lengths `l`, limited to `max`. */
  ghost predicate LimitedFrom(l: seq<nat>, H: seq<int>, max: nat) {
    exists h: seq<int>, level: nat :: LimitedAt(l, h, H, max, level)
  }

  ghost predicate LimitedAt(l: seq<nat>, h: seq<int>, H: seq<int>, max: nat, level: nat) {
    FewShortened(h, H, |l|, max, level) && forall d :: 1 <= d <= max ==> h[d] == Count(l, d)
  }

  /** `l` costs at most one bit for each unit of weight more than any lengths that fit the code space. */
  ghost predicate NearlyOptimal(w: seq<nat>, l: seq<nat>) {
    && |l| == |w|
    && forall x: seq<nat>, m: nat :: |x| == |w| && AtMost(x, m) && Kraft(x, m) <= Pow2(m) ==> Cost(w, l) <= Cost(w, x) + Sum(w)
  }

  lemma LimitedNearlyOptimal(w: seq<nat>, a: seq<nat>, H: seq<int>)
    requires 2 <= |w| <= 286 && Ascending(w) && LimitedFrom(CodeLengths(w), H, MAX_BITS) && |a| == |w|
    requires Descending(CodeLengths(w)) && Positive(CodeLengths(w)) && Descending(a) && Positive(a) && AtMost(a, MAX_BITS)
    requires forall d :: 1 <= d <= MAX_BITS ==> H[d] == Count(a, d)
    ensures NearlyOptimal(w, a)
  {
    hide CodeLengths, Count, Descending, Slack, CostTo, SumTo, Ascending, Kraft, Pow2, FewShortened;
    var h, level :| LimitedAt(CodeLengths(w), h, H, MAX_BITS, level);
    LimitCostsAtMostOneBit(w, a, h, H, level);
    CodeLengthsOptimal(w);
  }

  lemma FewNearlyOptimal(w: seq<nat>)
    requires |w| <= 1
    ensures NearlyOptimal(w, CodeLengths(w))
  {
    if |w| == 1 {
      assert CostTo(w, [1], 1) == CostTo(w, [1], 0) + w[0] * 1;
      assert SumTo(w, 1) == SumTo(w, 0) + w[0];
    }
  }
}
