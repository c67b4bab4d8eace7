/** tdefl_radix_sort_syms: two stable counting passes over 16-bit keys, the second one skipped
    when every high byte is zero. */
module RadixSort {
  import opened TwoQueue
  import opened MinimumRedundancy

  /** The byte of the key that pass `p` sorts by. */
  function Digit(x: SymFreq, p: nat): (d: nat)
    ensures d < 256
  {
    if p == 0 then x.key % 256 else (x.key / 256) % 256
  }

  /** The part of the key the passes before `p` have sorted by. */
  function KeyBelow(x: SymFreq, p: nat): nat {
    if p == 0 then 0 else if p == 1 then x.key % 256 else x.key % 65536
  }

  predicate SortedBelow(s: seq<SymFreq>, p: nat) {
    forall i, j :: 0 <= i < j < |s| ==> KeyBelow(s[i], p) <= KeyBelow(s[j], p)
  }

  /** The first `n` entries whose digit is `b`, in order. */
  function Bucket(s: seq<SymFreq>, n: nat, p: nat, b: nat): (r: seq<SymFreq>)
    requires n <= |s|
    ensures |r| <= n
  {
    if n == 0 then [] else
      var r := Bucket(s, n - 1, p, b);
      if Digit(s[n - 1], p) == b then r + [s[n - 1]] else r
  }

  /** The first `c` buckets, one after the other. */
  function Buckets(s: seq<SymFreq>, p: nat, c: nat): seq<SymFreq> {
    if c == 0 then [] else Buckets(s, p, c - 1) + Bucket(s, |s|, p, c - 1)
  }

  // ---------- a pass permutes ----------

  lemma {:induction false} BucketCount(s: seq<SymFreq>, n: nat, p: nat, b: nat, x: SymFreq)
    requires n <= |s|
    ensures multiset(Bucket(s, n, p, b))[x] == if Digit(x, p) == b then multiset(s[..n])[x] else 0
  {
    hide Digit;
    if n > 0 {
      BucketCount(s, n - 1, p, b, x);
      var y := s[n - 1];
      assert s[..n] == s[..n - 1] + [y];
      MultisetSnoc(s[..n - 1], y, x);
      MultisetSnoc(Bucket(s, n - 1, p, b), y, x);
    }
  }

  lemma MultisetSnoc(s: seq<SymFreq>, y: SymFreq, x: SymFreq)
    ensures multiset(s + [y])[x] == multiset(s)[x] + (if x == y then 1 else 0)
  {}

  lemma MultisetConcat(s: seq<SymFreq>, t: seq<SymFreq>, x: SymFreq)
    ensures multiset(s + t)[x] == multiset(s)[x] + multiset(t)[x]
  {}

  lemma {:induction false} BucketsCount(s: seq<SymFreq>, p: nat, c: nat, x: SymFreq)
    ensures multiset(Buckets(s, p, c))[x] == if Digit(x, p) < c then multiset(s)[x] else 0
  {
    if c > 0 {
      BucketsCount(s, p, c - 1, x);
      BucketCount(s, |s|, p, c - 1, x);
      MultisetConcat(Buckets(s, p, c - 1), Bucket(s, |s|, p, c - 1), x);
      assert s[..|s|] == s;
    }
  }

  lemma PassPermutes(s: seq<SymFreq>, p: nat)
    ensures multiset(Buckets(s, p, 256)) == multiset(s)
    ensures |Buckets(s, p, 256)| == |s|
  {
    forall x: SymFreq ensures multiset(Buckets(s, p, 256))[x] == multiset(s)[x] {
      BucketsCount(s, p, 256, x);
    }
    var t := Buckets(s, p, 256);
    assert |multiset(t)| == |t| && |multiset(s)| == |s|;
  }

  // ---------- a pass sorts ----------

  lemma {:induction false} BucketOrdered(s: seq<SymFreq>, n: nat, p: nat, b: nat)
    requires n <= |s| && p <= 1 && SortedBelow(s, p)
    ensures SortedBelow(Bucket(s, n, p, b), p)
    ensures forall i :: 0 <= i < |Bucket(s, n, p, b)| ==> Digit(Bucket(s, n, p, b)[i], p) == b
    ensures forall i :: 0 <= i < |Bucket(s, n, p, b)| ==> n < |s| ==> KeyBelow(Bucket(s, n, p, b)[i], p) <= KeyBelow(s[n], p)
  {
    if n > 0 {
      BucketOrdered(s, n - 1, p, b);
    }
  }

  lemma LowStep(x: SymFreq, p: nat)
    requires p <= 1
    ensures KeyBelow(x, p + 1) == (if p == 0 then 1 else 256) * Digit(x, p) + KeyBelow(x, p)
    ensures KeyBelow(x, p) < (if p == 0 then 1 else 256)
  {}

  lemma {:induction false} BucketsOrdered(s: seq<SymFreq>, p: nat, c: nat)
    requires p <= 1 && SortedBelow(s, p)
    ensures SortedBelow(Buckets(s, p, c), p + 1)
    ensures forall i :: 0 <= i < |Buckets(s, p, c)| ==> Digit(Buckets(s, p, c)[i], p) < c
  {
    if c > 0 {
      BucketsOrdered(s, p, c - 1);
      BucketOrdered(s, |s|, p, c - 1);
      var front, back := Buckets(s, p, c - 1), Bucket(s, |s|, p, c - 1);
      var all := front + back;
      forall i, j | 0 <= i < j < |all| ensures KeyBelow(all[i], p + 1) <= KeyBelow(all[j], p + 1) {
        LowStep(all[i], p);
        LowStep(all[j], p);
        if i >= |front| {
          assert all[i] == back[i - |front|] && all[j] == back[j - |front|];
        }
      }
    }
  }

  // ---------- the passes on arrays ----------

  /** How far the pass has got: the first `n` entries are in their buckets, and `offsets` points behind each bucket's last one. */
  ghost predicate Scattered(t: seq<SymFreq>, s: seq<SymFreq>, offsets: seq<nat>, n: nat, p: nat) {
    && n <= |s| <= |t| && |offsets| == 256
    && forall b :: 0 <= b < 256 ==> BucketPlaced(t, s, offsets[b], n, p, b)
  }

  ghost predicate BucketPlaced(t: seq<SymFreq>, s: seq<SymFreq>, offset: nat, n: nat, p: nat, b: nat)
    requires n <= |s|
  {
    && offset == |Buckets(s, p, b)| + |Bucket(s, n, p, b)|
    && offset <= |t|
    && t[|Buckets(s, p, b)|..offset] == Bucket(s, n, p, b)
  }

  lemma {:induction false} BucketGrows(s: seq<SymFreq>, m: nat, n: nat, p: nat, b: nat)
    requires m <= n <= |s|
    ensures |Bucket(s, m, p, b)| <= |Bucket(s, n, p, b)|
    ensures m < n && Digit(s[m], p) == b ==> |Bucket(s, m, p, b)| < |Bucket(s, n, p, b)|
  {
    hide Digit;
    if m < n { BucketGrows(s, m, n - 1, p, b); }
  }

  lemma {:induction false} BucketsGrow(s: seq<SymFreq>, p: nat, a: nat, c: nat)
    requires a <= c
    ensures |Buckets(s, p, a)| <= |Buckets(s, p, c)|
    ensures a < c ==> |Buckets(s, p, a)| + |Bucket(s, |s|, p, a)| <= |Buckets(s, p, c)|
  {
    if a < c { BucketsGrow(s, p, a, c - 1); }
  }

  /** Where the next entry goes lies within its own bucket and outside every other bucket's filled part. */
  lemma PlaceInBucket(s: seq<SymFreq>, n: nat, p: nat, d: nat, b: nat)
    requires n < |s| && d == Digit(s[n], p) && b < 256
    ensures |Buckets(s, p, d)| + |Bucket(s, n, p, d)| < |s|
    ensures b < d ==> |Buckets(s, p, b)| + |Bucket(s, n, p, b)| <= |Buckets(s, p, d)|
    ensures b > d ==> |Buckets(s, p, d)| + |Bucket(s, n, p, d)| < |Buckets(s, p, b)|
  {
    hide Digit;
    BucketGrows(s, n, |s|, p, d);
    BucketGrows(s, n, |s|, p, b);
    BucketsGrow(s, p, d, 256);
    PassPermutes(s, p);
    if b < d {
      BucketsGrow(s, p, b, d);
    } else {
      BucketsGrow(s, p, d, b);
    }
  }

  lemma ScatterStep(t: seq<SymFreq>, s: seq<SymFreq>, offsets: seq<nat>, n: nat, p: nat, d: nat)
    requires Scattered(t, s, offsets, n, p) && n < |s| && d == Digit(s[n], p)
    ensures offsets[d] < |s|
    ensures Scattered(t[offsets[d] := s[n]], s, offsets[d := offsets[d] + 1], n + 1, p)
  {
    hide Digit;
    PlaceInBucket(s, n, p, d, d);
    assert BucketPlaced(t, s, offsets[d], n, p, d);
    var t', o' := t[offsets[d] := s[n]], offsets[d := offsets[d] + 1];
    forall b | 0 <= b < 256 ensures BucketPlaced(t', s, o'[b], n + 1, p, b) {
      PlaceInBucket(s, n, p, d, b);
      assert BucketPlaced(t, s, offsets[b], n, p, b);
      var start := |Buckets(s, p, b)|;
      if b == d {
        assert t'[start..offsets[b]] == t[start..offsets[b]];
        assert t'[start..offsets[b] + 1] == t'[start..offsets[b]] + [s[n]];
      } else {
        assert t'[start..offsets[b]] == t[start..offsets[b]];
      }
    }
  }

  lemma {:induction false} ScatterDone(t: seq<SymFreq>, s: seq<SymFreq>, offsets: seq<nat>, p: nat, c: nat)
    requires Scattered(t, s, offsets, |s|, p) && c <= 256
    ensures |Buckets(s, p, c)| <= |t| && t[..|Buckets(s, p, c)|] == Buckets(s, p, c)
  {
    if c > 0 {
      ScatterDone(t, s, offsets, p, c - 1);
      assert BucketPlaced(t, s, offsets[c - 1], |s|, p, c - 1);
      var m, e := |Buckets(s, p, c - 1)|, |Buckets(s, p, c)|;
      assert t[..e] == t[..m] + t[m..e];
    }
  }

  lemma ScatterStart(t: seq<SymFreq>, s: seq<SymFreq>, offsets: seq<nat>, p: nat)
    requires |s| <= |t| && |offsets| == 256 && forall b :: 0 <= b < 256 ==> offsets[b] == |Buckets(s, p, b)|
    ensures Scattered(t, s, offsets, 0, p)
  {
    forall b | 0 <= b < 256 ensures BucketPlaced(t, s, offsets[b], 0, p, b) {
      BucketsGrow(s, p, b, 256);
      PassPermutes(s, p);
    }
  }

  /** Where each bucket of pass `p` starts: the running sum of the histogram. */
  method BucketStarts(hist: array<nat>, p: nat, ghost s: seq<SymFreq>) returns (offsets: array<nat>)
    requires hist.Length == 512 && p < 2
    requires forall b :: 0 <= b < 256 ==> hist[p * 256 + b] == |Bucket(s, |s|, p, b)|
    ensures fresh(offsets) && offsets.Length == 256
    ensures forall b :: 0 <= b < 256 ==> offsets[b] == |Buckets(s, p, b)|
  {
    hide Digit;
    offsets := new nat[256];
    var curOfs, i := 0, 0;
    while i < 256
      invariant 0 <= i <= 256 && curOfs == |Buckets(s, p, i)|
      invariant forall b :: 0 <= b < i ==> offsets[b] == |Buckets(s, p, b)|
    {
      offsets[i] := curOfs;
      curOfs := curOfs + hist[p * 256 + i];
      i := i + 1;
    }
  }

  /** One counting pass from `cur` to `next`. */
  method Pass(cur: array<SymFreq>, next: array<SymFreq>, n: nat, hist: array<nat>, p: nat)
    requires n <= cur.Length && n <= next.Length && cur != next && hist.Length == 512 && p < 2
    requires forall b :: 0 <= b < 256 ==> hist[p * 256 + b] == |Bucket(cur[..n], n, p, b)|
    modifies next
    ensures next[..n] == Buckets(cur[..n], p, 256)
  {
    hide Digit, Scattered, Buckets, Bucket;
    ghost var s := cur[..n];
    var offsets := BucketStarts(hist, p, s);
    ScatterStart(next[..], s, offsets[..], p);
    var i := 0;
    while i < n
      invariant 0 <= i <= n && offsets.Length == 256
      invariant Scattered(next[..], s, offsets[..], i, p)
    {
      var d := Digit(cur[i], p);
      ScatterStep(next[..], s, offsets[..], i, p, d);
      next[offsets[d]] := cur[i];
      offsets[d] := offsets[d] + 1;
      i := i + 1;
    }
    ScatterDone(next[..], s, offsets[..], p, 256);
    PassPermutes(s, p);
  }

  /** Counts the low and the high byte of every key. */
  method CountDigits(syms: array<SymFreq>, n: nat) returns (hist: array<nat>)
    requires n <= syms.Length
    ensures fresh(hist) && hist.Length == 512
    ensures forall b :: 0 <= b < 256 ==> hist[b] == |Bucket(syms[..n], n, 0, b)|
    ensures forall b :: 0 <= b < 256 ==> hist[256 + b] == |Bucket(syms[..n], n, 1, b)|
  {
    hide Digit;
    ghost var s := syms[..n];
    hist := new nat[512](i => 0);
    var i := 0;
    while i < n
      invariant 0 <= i <= n && syms[..n] == s
      invariant forall b :: 0 <= b < 256 ==> hist[b] == |Bucket(s, i, 0, b)|
      invariant forall b :: 0 <= b < 256 ==> hist[256 + b] == |Bucket(s, i, 1, b)|
    {
      var low, high := Digit(syms[i], 0), Digit(syms[i], 1);
      hist[low] := hist[low] + 1;
      hist[256 + high] := hist[256 + high] + 1;
      i := i + 1;
    }
  }

  lemma {:induction false} AllInBucket(s: seq<SymFreq>, n: nat, p: nat, b: nat, i: nat)
    requires i < n <= |s| && |Bucket(s, n, p, b)| == n
    ensures Digit(s[i], p) == b
  {
    if i < n - 1 { AllInBucket(s, n - 1, p, b, i); }
  }

  /** With every high byte zero the low byte alone decides the order. */
  lemma HighBytesZero(s: seq<SymFreq>, t: seq<SymFreq>)
    requires |Bucket(s, |s|, 1, 0)| == |s| && forall i :: 0 <= i < |s| ==> s[i].key < 65536
    requires multiset(t) == multiset(s) && SortedBelow(t, 1)
    ensures SortedBelow(t, 2)
  {
    forall i | 0 <= i < |t| ensures KeyBelow(t[i], 2) == KeyBelow(t[i], 1) {
      assert t[i] in multiset(t);
      assert t[i] in s;
      var j :| 0 <= j < |s| && s[j] == t[i];
      AllInBucket(s, |s|, 1, 0, j);
    }
  }

  lemma KeysAscend(s: seq<SymFreq>, t: seq<SymFreq>)
    requires forall i :: 0 <= i < |s| ==> s[i].key < 65536
    requires multiset(t) == multiset(s) && SortedBelow(t, 2)
    ensures Ascending(Keys(t)) && |t| == |s|
  {
    assert |multiset(t)| == |t| && |multiset(s)| == |s|;
    forall i | 0 <= i < |t| ensures KeyBelow(t[i], 2) == t[i].key {
      assert t[i] in multiset(t);
      assert t[i] in s;
    }
  }

  lemma {:induction false} BucketsSameSizes(s: seq<SymFreq>, t: seq<SymFreq>, p: nat, b: nat)
    requires multiset(s) == multiset(t)
    ensures |Bucket(s, |s|, p, b)| == |Bucket(t, |t|, p, b)|
  {
    forall x: SymFreq ensures multiset(Bucket(s, |s|, p, b))[x] == multiset(Bucket(t, |t|, p, b))[x] {
      BucketCount(s, |s|, p, b, x);
      BucketCount(t, |t|, p, b, x);
      assert s[..|s|] == s && t[..|t|] == t;
    }
    var u, v := Bucket(s, |s|, p, b), Bucket(t, |t|, p, b);
    assert multiset(u) == multiset(v) && |multiset(u)| == |u| && |multiset(v)| == |v|;
  }

  /** Sorts the first `n` entries by key; the result ends up in one of the two arrays. */
  method RadixSortSyms(syms0: array<SymFreq>, syms1: array<SymFreq>, n: nat) returns (sorted: array<SymFreq>)
    requires n <= syms0.Length && n <= syms1.Length && syms0 != syms1
    requires forall i :: 0 <= i < n ==> syms0[i].key < 65536
    modifies syms0, syms1
    ensures sorted == syms0 || sorted == syms1
    ensures multiset(sorted[..n]) == multiset(old(syms0[..n]))
    ensures Ascending(Keys(sorted[..n]))
  {
    hide Digit, Bucket, Buckets, SortedBelow, Keys, Ascending;
    ghost var s := syms0[..n];
    var hist := CountDigits(syms0, n);
    var totalPasses := 2;
    while totalPasses > 1 && n == hist[(totalPasses - 1) * 256]
      invariant 1 <= totalPasses <= 2
      invariant totalPasses == 1 ==> n == hist[256]
    {
      totalPasses := totalPasses - 1;
    }
    NothingBelow(s);
    Pass(syms0, syms1, n, hist, 0);
    ghost var t := syms1[..n];
    PassPermutes(s, 0);
    BucketsOrdered(s, 0, 256);
    if totalPasses == 1 {
      HighBytesZero(s, t);
      KeysAscend(s, t);
      return syms1;
    }
    forall b | 0 <= b < 256 ensures hist[256 + b] == |Bucket(t, n, 1, b)| {
      BucketsSameSizes(s, t, 1, b);
    }
    Pass(syms1, syms0, n, hist, 1);
    PassPermutes(t, 1);
    BucketsOrdered(t, 1, 256);
    KeysAscend(s, syms0[..n]);
    return syms0;
  }

  lemma NothingBelow(s: seq<SymFreq>)
    ensures SortedBelow(s, 0)
  {}
}
