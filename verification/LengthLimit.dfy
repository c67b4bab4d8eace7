/** tdefl_huffman_enforce_max_code_size: shortening over-long codes without losing code space. */
module LengthLimit {
  import opened Powers

  const MAX_SUPPORTED: nat := 32

  /** Codes of lengths 1 to `n`. */
  function CodesTo(h: seq<int>, n: nat): int
    requires n < |h|
  {
    if n == 0 then 0 else CodesTo(h, n - 1) + h[n]
  }

  /** Code space taken by the codes of lengths 1 to `n`, in units of 2^-m. */
  function SpaceTo(h: seq<int>, n: nat, m: nat): int
    requires n < |h| && n <= m
  {
    if n == 0 then 0 else SpaceTo(h, n - 1, m) + h[n] * Pow2(m - n)
  }

  predicate NonNegative(h: seq<int>) {
    forall i :: 0 <= i < |h| ==> 0 <= h[i]
  }

  lemma {:induction false} CodesSame(h: seq<int>, g: seq<int>, n: nat)
    requires n < |h| && n < |g| && forall i :: 1 <= i <= n ==> h[i] == g[i]
    ensures CodesTo(h, n) == CodesTo(g, n)
  {
    if n > 0 { CodesSame(h, g, n - 1); }
  }

  lemma {:induction false} SpaceSame(h: seq<int>, g: seq<int>, n: nat, m: nat)
    requires n < |h| && n < |g| && n <= m && forall i :: 1 <= i <= n ==> h[i] == g[i]
    ensures SpaceTo(h, n, m) == SpaceTo(g, n, m)
  {
    if n > 0 { SpaceSame(h, g, n - 1, m); }
  }

  /** `d` more codes of length `j`. */
  function Add(h: seq<int>, j: nat, d: int): (g: seq<int>)
    requires j < |h|
    ensures |g| == |h|
  {
    h[j := h[j] + d]
  }

  lemma {:induction false} CodesAdd(h: seq<int>, j: nat, d: int, n: nat)
    requires n < |h| && 1 <= j < |h|
    ensures CodesTo(Add(h, j, d), n) == CodesTo(h, n) + (if j <= n then d else 0)
  {
    if n > 0 { CodesAdd(h, j, d, n - 1); }
  }

  lemma {:induction false} SpaceAdd(h: seq<int>, j: nat, d: int, n: nat, m: nat)
    requires n < |h| && 1 <= j < |h| && n <= m
    ensures SpaceTo(Add(h, j, d), n, m) == SpaceTo(h, n, m) + (if j <= n then d * Pow2(m - j) else 0)
  {
    if n > 0 {
      SpaceAdd(h, j, d, n - 1, m);
      if j == n {
        MulDistributes(d, h[j], Pow2(m - j));
      }
    }
  }

  /** The scale may be refined: each unit of 2^-m is 2^k units of 2^-(m+k). */
  lemma {:induction false} SpaceRescale(h: seq<int>, n: nat, m: nat, k: nat)
    requires n < |h| && n <= m
    ensures SpaceTo(h, n, m + k) == SpaceTo(h, n, m) * Pow2(k)
  {
    if n > 0 {
      SpaceRescale(h, n - 1, m, k);
      Pow2Add(m - n, k);
      MulDistributes(SpaceTo(h, n - 1, m), h[n] * Pow2(m - n), Pow2(k));
      MulAssociates(h[n], Pow2(m - n), Pow2(k));
    }
  }

  lemma {:induction false} CodesMonotone(h: seq<int>, a: nat, b: nat)
    requires a <= b < |h| && NonNegative(h)
    ensures 0 <= CodesTo(h, a) <= CodesTo(h, b)
  {
    if b > 0 {
      if a < b {
        CodesMonotone(h, a, b - 1);
      } else {
        CodesMonotone(h, a - 1, b - 1);
      }
    }
  }

  /** Codes longer than `a` take between one and half as many units as there are codes, if there are any. */
  lemma {:induction false} LongCodesSpace(h: seq<int>, a: nat, b: nat, m: nat)
    requires a <= b < |h| && b <= m && a < m && NonNegative(h)
    ensures CodesTo(h, b) - CodesTo(h, a) <= SpaceTo(h, b, m) - SpaceTo(h, a, m)
    ensures SpaceTo(h, b, m) - SpaceTo(h, a, m) <= (CodesTo(h, b) - CodesTo(h, a)) * Pow2(m - a - 1)
  {
    if a < b {
      LongCodesSpace(h, a, b - 1, m);
      Pow2Monotone(m - b, m - a - 1);
      LongCodesStep(CodesTo(h, b - 1) - CodesTo(h, a), SpaceTo(h, b - 1, m) - SpaceTo(h, a, m), h[b], Pow2(m - b), Pow2(m - a - 1));
    }
  }

  lemma LongCodesStep(codes: int, space: int, x: int, p: int, q: int)
    requires codes <= space <= codes * q && 0 <= x && 1 <= p <= q
    ensures codes + x <= space + x * p <= (codes + x) * q
  {
    MulMonotone(1, p, x);
    MulMonotone(p, q, x);
    MulDistributes(codes, x, q);
  }

  lemma ExcessOf(t: int, p: int, k: int, q: int, long: int, folded: int)
    requires t * k + long == p * k && k == 2 * q && 0 < q
    requires 0 <= folded <= long <= folded * q
    ensures p <= t + folded && (folded == 0 ==> t == p) && (folded > 0 ==> t < p)
  {
    if folded == 0 {
      MulCancel(t, p, k);
    } else {
      MulCancelLess(t, p, k);
    }
    if t + folded < p {
      MulMonotone(folded + 1, p - t, k);
      MulDistributes(folded, 1, k);
      MulDistributes(p - t, t, k);
      MulMonotone(q, k, folded);
    }
  }

  /** Folding every longer code to length `max` overfills the code space by less than the number of folded codes. */
  lemma FoldingExcess(h: seq<int>, max: nat, folded: int)
    requires |h| == MAX_SUPPORTED + 1 && 1 <= max < MAX_SUPPORTED && NonNegative(h)
    requires SpaceTo(h, MAX_SUPPORTED, MAX_SUPPORTED) == Pow2(MAX_SUPPORTED)
    requires folded == CodesTo(h, MAX_SUPPORTED) - CodesTo(h, max)
    ensures Pow2(max) <= SpaceTo(h, max, max) + folded
    ensures folded == 0 ==> SpaceTo(h, max, max) == Pow2(max)
    ensures folded > 0 ==> SpaceTo(h, max, max) < Pow2(max)
  {
    hide *;
    var k := MAX_SUPPORTED - max;
    var t := SpaceTo(h, max, max);
    SpaceRescale(h, max, max, k);
    Pow2Add(max, k);
    LongCodesSpace(h, max, MAX_SUPPORTED, MAX_SUPPORTED);
    CodesMonotone(h, max, MAX_SUPPORTED);
    Pow2Unfold(k);
    ExcessOf(t, Pow2(max), Pow2(k), Pow2(k - 1), Pow2(MAX_SUPPORTED) - t * Pow2(k), folded);
  }

  /** Histogram and running total between two repairs. */
  ghost predicate Repairing(h: seq<int>, codes: int, max: nat, total: int) {
    && |h| == MAX_SUPPORTED + 1 && 1 <= max < MAX_SUPPORTED
    && (forall i :: 1 <= i <= max ==> 0 <= h[i])
    && CodesTo(h, max) == codes <= Pow2(max)
    && SpaceTo(h, max, max) == total && Pow2(max) <= total
    && (total > Pow2(max) ==> h[max] > total - Pow2(max))
  }

  lemma {:induction false} OnlyLongest(h: seq<int>, n: nat, m: nat)
    requires n < |h| && n <= m && forall i :: 1 <= i <= n ==> h[i] == 0
    ensures CodesTo(h, n) == 0 && SpaceTo(h, n, m) == 0
  {
    if n > 0 { OnlyLongest(h, n - 1, m); }
  }

  /** One code of length `max` less, and one of length `i` replaced by two siblings one level down. */
  function Repaired(h: seq<int>, max: nat, i: nat): (g: seq<int>)
    requires i + 1 <= max < |h|
    ensures |g| == |h|
  {
    Add(Add(Add(h, max, -1), i, -1), i + 1, 2)
  }

  lemma RepairSums(h: seq<int>, max: nat, i: nat)
    requires 1 <= i < max < |h|
    ensures CodesTo(Repaired(h, max, i), max) == CodesTo(h, max)
    ensures SpaceTo(Repaired(h, max, i), max, max) == SpaceTo(h, max, max) - 1
  {
    hide SpaceTo, CodesTo, Add;
    var a := Add(h, max, -1);
    var b := Add(a, i, -1);
    CodesAdd(h, max, -1, max);
    CodesAdd(a, i, -1, max);
    CodesAdd(b, i + 1, 2, max);
    SpaceAdd(h, max, -1, max, max);
    SpaceAdd(a, i, -1, max, max);
    SpaceAdd(b, i + 1, 2, max, max);
    assert Pow2(max - i) == 2 * Pow2(max - i - 1) && Pow2(0) == 1;
  }

  lemma RepairStep(h: seq<int>, codes: int, max: nat, total: int, i: nat)
    requires Repairing(h, codes, max, total) && total > Pow2(max)
    requires 1 <= i < max && h[i] > 0
    ensures Repairing(Repaired(h, max, i), codes, max, total - 1)
  {
    hide SpaceTo, CodesTo;
    RepairSums(h, max, i);
  }

  lemma FoldEffect(h: seq<int>, g: seq<int>, max: nat, folded: int)
    requires |h| == MAX_SUPPORTED + 1 && 1 <= max < MAX_SUPPORTED && NonNegative(h)
    requires CodesTo(h, MAX_SUPPORTED) <= Pow2(max)
    requires SpaceTo(h, MAX_SUPPORTED, MAX_SUPPORTED) == Pow2(MAX_SUPPORTED)
    requires folded == CodesTo(h, MAX_SUPPORTED) - CodesTo(h, max) && g == Add(h, max, folded)
    ensures Repairing(g, CodesTo(h, MAX_SUPPORTED), max, SpaceTo(g, max, max))
    ensures folded == 0 ==> g == h && SpaceTo(g, max, max) == Pow2(max)
  {
    hide SpaceTo, CodesTo, Pow2;
    CodesMonotone(h, max, MAX_SUPPORTED);
    FoldingExcess(h, max, folded);
    CodesAdd(h, max, folded, max);
    SpaceAdd(h, max, folded, max, max);
    Pow2Values();
  }

  lemma {:induction false} SpaceBound(h: seq<int>, n: nat, m: nat)
    requires n < |h| && n <= m && 1 <= m && forall i :: 1 <= i <= n ==> 0 <= h[i]
    ensures 0 <= SpaceTo(h, n, m) <= CodesTo(h, n) * Pow2(m - 1) && 0 <= CodesTo(h, n)
  {
    hide Pow2;
    if n > 0 {
      SpaceBound(h, n - 1, m);
      Pow2Monotone(m - n, m - 1);
      SpaceBoundStep(SpaceTo(h, n - 1, m), CodesTo(h, n - 1), h[n], Pow2(m - n), Pow2(m - 1));
    }
  }

  lemma SpaceBoundStep(space: int, codes: int, x: int, p: int, q: int)
    requires 0 <= space <= codes * q && 0 <= codes && 0 <= x && 1 <= p <= q
    ensures 0 <= space + x * p <= (codes + x) * q && 0 <= codes + x
  {
    MulMonotone(0, p, x);
    MulMonotone(p, q, x);
    MulDistributes(codes, x, q);
  }

  /** `Pow2(15)` codes of up to 15 bits stay far below 32 bits of code space. */
  lemma TotalFits(h: seq<int>, max: nat)
    requires |h| == MAX_SUPPORTED + 1 && 1 <= max <= 15
    requires forall i :: 1 <= i <= max ==> 0 <= h[i]
    requires CodesTo(h, max) <= Pow2(max)
    ensures SpaceTo(h, max, max) < WORD
  {
    SpaceBound(h, max, max);
    Pow2Monotone(max, 15);
    Pow2Monotone(max - 1, 15);
    Pow2Values();
    MulMonotone(CodesTo(h, max), 32768, Pow2(max - 1));
    MulMonotone(Pow2(max - 1), 32768, 32768);
  }

  /** If all codes have the longest length there are not too many of them, so the search loop always finds a shorter one. */
  lemma AllLongest(h: seq<int>, codes: int, max: nat, total: int)
    requires Repairing(h, codes, max, total)
    requires forall i :: 1 <= i < max ==> h[i] == 0
    ensures total == Pow2(max)
  {
    OnlyLongest(h, max - 1, max);
    assert Pow2(0) == 1;
  }

  // ---------- how far the repairs reach ----------

  /** Code space beyond one unit for each of the codes of lengths 1 to `n`. */
  function Slack(h: seq<int>, n: nat, m: nat): int
    requires n < |h| && n <= m
  {
    SpaceTo(h, n, m) - CodesTo(h, n)
  }

  /** No length below `level` has lost or gained a code since `g`, and the longer ones are few. */
  ghost predicate RepairedDownTo(g: seq<int>, h: seq<int>, codes: int, max: nat, level: nat) {
    && |g| == |h| == MAX_SUPPORTED + 1 && 1 <= level <= max < MAX_SUPPORTED
    && (forall j :: 1 <= j < level ==> h[j] == g[j])
    && (level < max ==> h[level] <= g[level] && Pow2(max - level) < codes)
    && Slack(h, max, max) - Slack(h, level, max) < Pow2(max - level)
  }

  lemma {:induction false} EmptyStretch(h: seq<int>, a: nat, b: nat, m: nat)
    requires a <= b < |h| && b <= m && forall j :: a < j <= b ==> h[j] == 0
    ensures CodesTo(h, b) == CodesTo(h, a) && SpaceTo(h, b, m) == SpaceTo(h, a, m)
  {
    if a < b { EmptyStretch(h, a, b - 1, m); }
  }

  /** Only a code with few longest ones under it is ever replaced. */
  lemma ManyLongest(h: seq<int>, codes: int, max: nat, total: int, i: nat)
    requires Repairing(h, codes, max, total) && total > Pow2(max)
    requires 1 <= i < max && forall j :: i < j < max ==> h[j] == 0
    ensures Pow2(max - i) < codes
  {
    var unit, above := Pow2(max - i), SpaceTo(h, i, i);
    EmptyStretch(h, i, max - 1, max);
    SpaceRescale(h, i, i, max - i);
    Pow2Add(i, max - i);
    assert Pow2(0) == 1;
    assert above * unit < Pow2(i) * unit;
    MulCancelLess(above, Pow2(i), unit);
    MulMonotone(above + 1, Pow2(i), unit);
    MulDistributes(above, 1, unit);
    CodesNonNegative(h, max - 1);
    assert h[max] <= codes;
  }

  lemma {:induction false} CodesNonNegative(h: seq<int>, n: nat)
    requires n < |h| && forall j :: 1 <= j <= n ==> 0 <= h[j]
    ensures 0 <= CodesTo(h, n)
  {
    if n > 0 { CodesNonNegative(h, n - 1); }
  }

  /** A repair further down than all before. */
  lemma RepairLower(h: seq<int>, max: nat, i: nat)
    requires |h| == MAX_SUPPORTED + 1 && 1 <= i < max < MAX_SUPPORTED && forall j :: i < j < max ==> h[j] == 0
    ensures Slack(Repaired(h, max, i), max, max) - Slack(Repaired(h, max, i), i, max) < Pow2(max - i)
  {
    var g := Repaired(h, max, i);
    assert Pow2(0) == 1;
    if i + 1 < max {
      EmptyStretch(g, i + 1, max - 1, max);
      assert g[i + 1] == 2;
    } else {
      assert max - 1 == i;
    }
  }

  /** A repair above the lowest so far. */
  lemma RepairHigher(h: seq<int>, max: nat, level: nat, i: nat)
    requires |h| == MAX_SUPPORTED + 1 && 1 <= level < i < max < MAX_SUPPORTED
    ensures Slack(Repaired(h, max, i), max, max) - Slack(Repaired(h, max, i), level, max)
            == Slack(h, max, max) - Slack(h, level, max) - 1
  {
    hide SpaceTo, CodesTo;
    var g := Repaired(h, max, i);
    RepairSums(h, max, i);
    CodesSame(h, g, level);
    SpaceSame(h, g, level, max);
  }

  lemma RepairReaches(g: seq<int>, h: seq<int>, codes: int, max: nat, total: int, level: nat, i: nat)
    requires Repairing(h, codes, max, total) && total > Pow2(max) && RepairedDownTo(g, h, codes, max, level)
    requires 1 <= i < max && h[i] > 0 && forall j :: i < j < max ==> h[j] == 0
    ensures RepairedDownTo(g, Repaired(h, max, i), codes, max, if i < level then i else level)
  {
    hide SpaceTo, CodesTo, Slack;
    if i <= level {
      ManyLongest(h, codes, max, total, i);
      RepairLower(h, max, i);
    } else {
      RepairHigher(h, max, level, i);
    }
  }

  lemma NothingRepaired(g: seq<int>, codes: int, max: nat)
    requires |g| == MAX_SUPPORTED + 1 && 1 <= max < MAX_SUPPORTED
    ensures RepairedDownTo(g, g, codes, max, max)
  {
    assert Pow2(0) == 1;
  }

  /** What the lengths handed out may cost: below `level` nothing has changed, and the code space taken from
      the codes above it was not much larger than their number. */
  ghost predicate FewShortened(h: seq<int>, H: seq<int>, codes: int, max: nat, level: nat) {
    && |h| == |H| == MAX_SUPPORTED + 1 && 1 <= level <= max < MAX_SUPPORTED
    && (forall j :: 1 <= j < level ==> H[j] == h[j])
    && (level < max ==> H[level] <= h[level] && Pow2(max - level) < codes)
    && Slack(h, max, max) - Slack(H, level, max) <= codes + Pow2(max - level) - 2
  }

  lemma ShortenedFew(h: seq<int>, g: seq<int>, H: seq<int>, codes: int, max: nat, level: nat, folded: int)
    requires |h| == MAX_SUPPORTED + 1 && 1 <= max < MAX_SUPPORTED && NonNegative(h) && codes >= 1
    requires folded == CodesTo(h, MAX_SUPPORTED) - CodesTo(h, max) && g == Add(h, max, folded)
    requires codes == CodesTo(h, MAX_SUPPORTED) && SpaceTo(h, MAX_SUPPORTED, MAX_SUPPORTED) == Pow2(MAX_SUPPORTED)
    requires RepairedDownTo(g, H, codes, max, level)
    requires SpaceTo(H, max, max) == Pow2(max) && CodesTo(H, max) == codes
    ensures FewShortened(h, H, codes, max, level)
  {
    hide SpaceTo, CodesTo;
    FoldingExcess(h, max, folded);
    CodesNonNegative(h, max);
    CodesMonotone(h, max, MAX_SUPPORTED);
  }

  /** Limits the histogram `H` of code lengths to `max`.

      The lengths fill the code space exactly before and after, no code is
      lost, and lengths above `max` are to be ignored afterwards. */
  method EnforceMaxCodeSize(H: array<int>, codeListLen: int, max: nat) returns (ghost level: nat)
    requires H.Length == MAX_SUPPORTED + 1 && 1 <= max <= 15 && NonNegative(H[..])
    requires codeListLen == CodesTo(H[..], MAX_SUPPORTED) <= Pow2(max)
    requires codeListLen > 1 ==> SpaceTo(H[..], MAX_SUPPORTED, MAX_SUPPORTED) == Pow2(MAX_SUPPORTED)
    modifies H
    ensures codeListLen <= 1 ==> H[..] == old(H[..])
    ensures codeListLen > 1 ==> SpaceTo(H[..], max, max) == Pow2(max) && CodesTo(H[..], max) == codeListLen
    ensures NonNegative(H[..]) && H[0] == old(H[0])
    ensures CodesTo(old(H[..]), max) == codeListLen ==> H[..] == old(H[..])
    ensures codeListLen > 1 ==> FewShortened(old(H[..]), H[..], codeListLen, max, level)
  {
    hide SpaceTo, CodesTo, Repairing, Pow2, Add, RepairedDownTo, FewShortened;
    level := max;
    if codeListLen <= 1 {
      return;
    }
    ghost var h := H[..];
    ghost var folded := CodesTo(h, MAX_SUPPORTED) - CodesTo(h, max);
    FoldLonger(H, max);
    FoldEffect(h, H[..], max, folded);
    RepairDone(H[..], codeListLen, max, SpaceTo(H[..], max, max));
    CodesMonotone(h, max, MAX_SUPPORTED);
    var total := SumSpace(H, max);
    ghost var g := H[..];
    NothingRepaired(g, codeListLen, max);
    while total != Pow2(max)
      invariant folded == 0 ==> H[..] == h && total == Pow2(max)
      invariant Repairing(H[..], codeListLen, max, total)
      invariant NonNegative(H[..]) && H[0] == h[0] && RepairedDownTo(g, H[..], codeListLen, max, level)
      decreases total
    {
      total, level := RepairOnce(H, codeListLen, max, total, g, level);
    }
    RepairDone(H[..], codeListLen, max, total);
    ShortenedFew(h, g, H[..], codeListLen, max, level, folded);
  }

  /** Adds the codes of every length above `max` to those of length `max`. */
  method FoldLonger(H: array<int>, max: nat)
    requires H.Length == MAX_SUPPORTED + 1 && 1 <= max <= 15
    modifies H
    ensures H[..] == Add(old(H[..]), max, CodesTo(old(H[..]), MAX_SUPPORTED) - CodesTo(old(H[..]), max))
    ensures NonNegative(old(H[..])) ==> NonNegative(H[..])
    ensures H[0] == old(H[0])
  {
    hide CodesTo;
    ghost var h := H[..];
    var i := max + 1;
    while i <= MAX_SUPPORTED
      invariant max + 1 <= i <= MAX_SUPPORTED + 1
      invariant H[..] == Add(h, max, CodesTo(h, i - 1) - CodesTo(h, max))
    {
      CodesNext(h, i);
      H[max] := H[max] + H[i];
      i := i + 1;
    }
    if NonNegative(h) { CodesMonotone(h, max, MAX_SUPPORTED); }
  }

  lemma CodesNext(h: seq<int>, i: nat)
    requires 1 <= i < |h|
    ensures CodesTo(h, i) == CodesTo(h, i - 1) + h[i]
  {}

  lemma RepairDone(h: seq<int>, codes: int, max: nat, total: int)
    requires Repairing(h, codes, max, total)
    ensures SpaceTo(h, max, max) == total && CodesTo(h, max) == codes <= Pow2(max) <= total
  {}

  /** The running total, kept in 32 bits. */
  method SumSpace(H: array<int>, max: nat) returns (total: nat)
    requires H.Length == MAX_SUPPORTED + 1 && 1 <= max <= 15
    requires forall i :: 1 <= i <= max ==> 0 <= H[i]
    requires CodesTo(H[..], max) <= Pow2(max)
    ensures total == SpaceTo(H[..], max, max)
  {
    hide SpaceTo, CodesTo;
    total := 0;
    TotalFits(H[..], max);
    var i := max;
    while i > 0
      invariant 0 <= i <= max
      invariant total == SpaceTo(H[..], max, max) - SpaceTo(H[..], i, max)
    {
      SpaceNext(H[..], i, max);
      SpaceMonotone(H[..], i - 1, max, max);
      total := (total + H[i] * Pow2(max - i)) % WORD;
      i := i - 1;
    }
    assert SpaceTo(H[..], 0, max) == 0 by { SpaceZero(H[..], max); }
  }

  lemma SpaceNext(h: seq<int>, i: nat, m: nat)
    requires 1 <= i < |h| && i <= m
    ensures SpaceTo(h, i, m) == SpaceTo(h, i - 1, m) + h[i] * Pow2(m - i)
  {}

  lemma SpaceZero(h: seq<int>, m: nat)
    requires |h| > 0
    ensures SpaceTo(h, 0, m) == 0
  {}

  lemma {:induction false} SpaceMonotone(h: seq<int>, a: nat, b: nat, m: nat)
    requires a <= b < |h| && b <= m && forall i :: 1 <= i <= b ==> 0 <= h[i]
    ensures 0 <= SpaceTo(h, a, m) <= SpaceTo(h, b, m)
  {
    if b > 0 {
      MulMonotone(0, h[b], Pow2(m - b));
      if a < b {
        SpaceMonotone(h, a, b - 1, m);
      } else {
        SpaceMonotone(h, a - 1, b - 1, m);
      }
    }
  }

  method RepairOnce(H: array<int>, codes: int, max: nat, total: nat, ghost g: seq<int>, ghost level: nat)
      returns (total': nat, ghost level': nat)
    requires H.Length == MAX_SUPPORTED + 1 && max <= 15 && NonNegative(H[..])
    requires Repairing(H[..], codes, max, total) && total != Pow2(max) && RepairedDownTo(g, H[..], codes, max, level)
    modifies H
    ensures Repairing(H[..], codes, max, total') && total' == total - 1 && RepairedDownTo(g, H[..], codes, max, level')
    ensures NonNegative(H[..]) && H[0] == old(H[0])
  {
    hide SpaceTo, CodesTo, RepairedDownTo;
    level' := level;
    ghost var h := H[..];
    H[max] := H[max] - 1;
    var i := max - 1;
    while i > 0
      invariant 0 <= i <= max - 1
      invariant forall j :: i < j < max ==> h[j] == 0
      invariant H[..] == Add(h, max, -1)
    {
      if H[i] != 0 {
        RepairStep(h, codes, max, total, i);
        RepairReaches(g, h, codes, max, total, level, i);
        level' := if i < level then i else level;
        H[i] := H[i] - 1;
        H[i + 1] := H[i + 1] + 2;
        assert H[..] == Repaired(h, max, i);
        break;
      }
      i := i - 1;
    }
    if i == 0 {
      AllLongest(h, codes, max, total);
      assert false;
    }
    total' := total - 1;
  }
}
