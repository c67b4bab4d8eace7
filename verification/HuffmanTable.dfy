/** tdefl_optimize_huffman_table: from symbol counts to limited code lengths and stream codes. */
module HuffmanTable {
  import opened Powers
  import opened TwoQueue
  import opened HuffmanTree
  import opened MinimumRedundancy
  import opened RadixSort
  import opened LengthLimit
  import opened LimitCost
  import opened Canonical

  // ---------- collecting the used symbols ----------

  /** The symbols below `n` with a nonzero count, in order. */
  function UsedSyms(counts: seq<nat>, n: nat): (s: seq<SymFreq>)
    requires n <= |counts|
    ensures |s| <= n
  {
    if n == 0 then [] else
      var s := UsedSyms(counts, n - 1);
      if counts[n - 1] > 0 then s + [SymFreq(counts[n - 1], n - 1)] else s
  }

  lemma {:induction false} UsedAreCounted(counts: seq<nat>, n: nat)
    requires n <= |counts|
    ensures forall x :: x in UsedSyms(counts, n) ==> x.sym < n && counts[x.sym] == x.key > 0
  {
    if n > 0 { UsedAreCounted(counts, n - 1); }
  }

  lemma {:induction false} CountedIsUsed(counts: seq<nat>, n: nat, s: nat)
    requires s < n <= |counts| && counts[s] > 0
    ensures SymFreq(counts[s], s) in UsedSyms(counts, n)
  {
    if s < n - 1 { CountedIsUsed(counts, n - 1, s); }
  }

  lemma {:induction false} UsedOnce(counts: seq<nat>, n: nat, x: SymFreq)
    requires n <= |counts|
    ensures multiset(UsedSyms(counts, n))[x] <= 1
  {
    if n > 0 {
      UsedOnce(counts, n - 1, x);
      UsedAreCounted(counts, n - 1);
      MultisetSnoc(UsedSyms(counts, n - 1), SymFreq(counts[n - 1], n - 1), x);
    }
  }

  lemma {:induction false} UsedSum(counts: seq<nat>, n: nat)
    requires n <= |counts|
    ensures SumKeys(UsedSyms(counts, n)) == SumTo(counts, n)
  {
    if n > 0 {
      UsedSum(counts, n - 1);
      SumKeysSnoc(UsedSyms(counts, n - 1), SymFreq(counts[n - 1], n - 1));
    } else {
      assert Keys([]) == [];
    }
  }

  function SumKeys(s: seq<SymFreq>): nat {
    Sum(Keys(s))
  }

  lemma SumKeysSnoc(s: seq<SymFreq>, y: SymFreq)
    ensures SumKeys(s + [y]) == SumKeys(s) + y.key
  {
    assert Keys(s + [y]) == Keys(s) + [y.key];
    SumConcat(Keys(s), [y.key]);
    SumOneTwo(y.key, 0);
  }

  lemma SumKeysConcat(s: seq<SymFreq>, t: seq<SymFreq>)
    ensures SumKeys(s + t) == SumKeys(s) + SumKeys(t)
  {
    assert Keys(s + t) == Keys(s) + Keys(t);
    SumConcat(Keys(s), Keys(t));
  }

  /** `t` without its entry `i`. */
  function Without(t: seq<SymFreq>, i: nat): seq<SymFreq>
    requires i < |t|
  {
    t[..i] + t[i + 1..]
  }

  lemma WithoutSums(t: seq<SymFreq>, i: nat)
    requires i < |t|
    ensures SumKeys(t) == SumKeys(Without(t, i)) + t[i].key
  {
    hide SumKeys;
    assert t == (t[..i] + [t[i]]) + t[i + 1..];
    SumKeysConcat(t[..i] + [t[i]], t[i + 1..]);
    SumKeysSnoc(t[..i], t[i]);
    SumKeysConcat(t[..i], t[i + 1..]);
  }

  lemma WithoutPermutes(s: seq<SymFreq>, t: seq<SymFreq>, i: nat)
    requires |s| > 0 && i < |t| && t[i] == s[|s| - 1] && multiset(s) == multiset(t)
    ensures multiset(s[..|s| - 1]) == multiset(Without(t, i))
  {
    var x := t[i];
    assert t == (t[..i] + [x]) + t[i + 1..];
    assert s == s[..|s| - 1] + [x];
    calc {
      multiset(s[..|s| - 1]);
      multiset(s) - multiset{x};
      multiset(t) - multiset{x};
      multiset(t[..i]) + multiset{x} + multiset(t[i + 1..]) - multiset{x};
      multiset(t[..i]) + multiset(t[i + 1..]);
      multiset(Without(t, i));
    }
  }

  lemma {:induction false} SumKeysPermutes(s: seq<SymFreq>, t: seq<SymFreq>)
    requires multiset(s) == multiset(t)
    ensures SumKeys(s) == SumKeys(t)
    decreases |s|
  {
    hide SumKeys;
    if s == [] {
      assert |multiset(s)| == 0 && |multiset(t)| == |t|;
      assert t == [];
    } else {
      var n := |s| - 1;
      assert s[n] in multiset(t);
      var i :| 0 <= i < |t| && t[i] == s[n];
      WithoutPermutes(s, t, i);
      SumKeysPermutes(s[..n], Without(t, i));
      WithoutSums(t, i);
      WithoutSums(s, n);
      assert Without(s, n) == s[..n];
    }
  }

  /** A sorted listing of the used symbols: each once, lightest first. */
  ghost predicate Listing(syms: seq<nat>, w: seq<nat>, counts: seq<nat>) {
    && |syms| == |w| && Ascending(w)
    && (forall p :: 0 <= p < |syms| ==> syms[p] < |counts| && counts[syms[p]] == w[p] > 0)
    && (forall p, q :: 0 <= p < q < |syms| ==> syms[p] != syms[q])
    && (forall s :: 0 <= s < |counts| && counts[s] > 0 ==> s in syms)
  }

  lemma ListedOnce(counts: seq<nat>, t: seq<SymFreq>, p: nat, q: nat)
    requires multiset(t) == multiset(UsedSyms(counts, |counts|)) && p < q < |t|
    ensures t[p].sym != t[q].sym
  {
    var u := UsedSyms(counts, |counts|);
    UsedOnce(counts, |counts|, t[p]);
    UsedAreCounted(counts, |counts|);
    assert t[p] in multiset(t) && t[q] in multiset(t);
    assert t[p] in u && t[q] in u;
    if t[p] == t[q] {
      TwiceInMultiset(t, p, q);
      assert false;
    }
  }

  lemma ListedAreCounted(counts: seq<nat>, t: seq<SymFreq>, p: nat)
    requires multiset(t) == multiset(UsedSyms(counts, |counts|)) && p < |t|
    ensures t[p].sym < |counts| && counts[t[p].sym] == t[p].key > 0
  {
    UsedAreCounted(counts, |counts|);
    assert t[p] in multiset(t);
    assert t[p] in UsedSyms(counts, |counts|);
  }

  lemma CountedIsListed(counts: seq<nat>, t: seq<SymFreq>, s: nat)
    requires multiset(t) == multiset(UsedSyms(counts, |counts|)) && s < |counts| && counts[s] > 0
    ensures s in Syms(t)
  {
    CountedIsUsed(counts, |counts|, s);
    assert SymFreq(counts[s], s) in multiset(t);
    var p :| 0 <= p < |t| && t[p] == SymFreq(counts[s], s);
    assert Syms(t)[p] == s;
  }

  lemma SortedIsListing(counts: seq<nat>, t: seq<SymFreq>)
    requires multiset(t) == multiset(UsedSyms(counts, |counts|)) && Ascending(Keys(t))
    ensures Listing(Syms(t), Keys(t), counts)
    ensures Sum(Keys(t)) == Sum(counts)
    ensures |t| <= |counts|
  {
    hide UsedSyms, SumTo, Ascending, Listing;
    SumKeysPermutes(t, UsedSyms(counts, |counts|));
    UsedSum(counts, |counts|);
    SameSize(t, UsedSyms(counts, |counts|));
    SortedNames(counts, t);
    NamesAreListing(counts, t);
  }

  lemma NamesAreListing(counts: seq<nat>, t: seq<SymFreq>)
    requires Ascending(Keys(t))
    requires forall p :: 0 <= p < |t| ==> t[p].sym < |counts| && counts[t[p].sym] == t[p].key > 0
    requires forall p, q :: 0 <= p < q < |t| ==> t[p].sym != t[q].sym
    requires forall s :: 0 <= s < |counts| && counts[s] > 0 ==> s in Syms(t)
    ensures Listing(Syms(t), Keys(t), counts)
  {
    hide Ascending;
  }

  lemma SameSize(s: seq<SymFreq>, t: seq<SymFreq>)
    requires multiset(s) == multiset(t)
    ensures |s| == |t|
  {
    assert |multiset(s)| == |s| && |multiset(t)| == |t|;
  }

  lemma SortedNames(counts: seq<nat>, t: seq<SymFreq>)
    requires multiset(t) == multiset(UsedSyms(counts, |counts|))
    ensures forall p :: 0 <= p < |t| ==> t[p].sym < |counts| && counts[t[p].sym] == t[p].key > 0
    ensures forall p, q :: 0 <= p < q < |t| ==> t[p].sym != t[q].sym
    ensures forall s :: 0 <= s < |counts| && counts[s] > 0 ==> s in Syms(t)
  {
    hide UsedSyms;
    forall s | 0 <= s < |counts| && counts[s] > 0 ensures s in Syms(t) {
      CountedIsListed(counts, t, s);
    }
    forall p | 0 <= p < |t| ensures t[p].sym < |counts| && counts[t[p].sym] == t[p].key > 0 {
      ListedAreCounted(counts, t, p);
    }
    forall p, q | 0 <= p < q < |t| ensures t[p].sym != t[q].sym {
      ListedOnce(counts, t, p, q);
    }
  }

  lemma TwiceInMultiset(t: seq<SymFreq>, p: nat, q: nat)
    requires p < q < |t| && t[p] == t[q]
    ensures multiset(t)[t[p]] >= 2
  {
    assert t == t[..q] + t[q..];
    assert t[p] in t[..q] && t[p] in t[q..];
    MultisetConcat(t[..q], t[q..], t[p]);
  }

  method CollectUsed(counts: array<nat>, tableLen: nat, syms: array<SymFreq>) returns (n: nat)
    requires tableLen <= counts.Length && tableLen <= syms.Length && counts.Length != 0
    modifies syms
    ensures n <= tableLen && syms[..n] == UsedSyms(counts[..tableLen], tableLen)
  {
    n := 0;
    var i := 0;
    while i < tableLen
      invariant 0 <= i <= tableLen && n <= i
      invariant syms[..n] == UsedSyms(counts[..tableLen], i)
    {
      if counts[i] != 0 {
        syms[n] := SymFreq(counts[i], i);
        n := n + 1;
        assert syms[..n] == syms[..n - 1] + [SymFreq(counts[i], i)];
      }
      i := i + 1;
    }
  }

  // ---------- the histogram of lengths ----------

  method LengthHistogram(A: array<SymFreq>, n: nat, ghost l: seq<nat>) returns (H: array<int>)
    requires n <= A.Length && Keys(A[..n]) == l
    requires forall i :: 0 <= i < n ==> 1 <= l[i] <= MAX_SUPPORTED
    ensures fresh(H) && H.Length == MAX_SUPPORTED + 1 && NonNegative(H[..]) && H[0] == 0
    ensures CodesTo(H[..], MAX_SUPPORTED) == n
    ensures SpaceTo(H[..], MAX_SUPPORTED, MAX_SUPPORTED) == Kraft(l, MAX_SUPPORTED)
    ensures forall d :: 1 <= d <= MAX_SUPPORTED ==> H[d] == Count(l, d)
  {
    hide CodesTo, SpaceTo, Keys;
    H := new int[MAX_SUPPORTED + 1](i => 0);
    EmptyHistogram(H[..], MAX_SUPPORTED);
    var i := 0;
    while i < n
      invariant 0 <= i <= n && NonNegative(H[..]) && H[0] == 0
      invariant CodesTo(H[..], MAX_SUPPORTED) == i
      invariant SpaceTo(H[..], MAX_SUPPORTED, MAX_SUPPORTED) == KraftTo(l, i, MAX_SUPPORTED)
      invariant forall d :: 1 <= d <= MAX_SUPPORTED ==> H[d] == CountTo(l, i, d)
    {
      var k := A[i].key;
      assert k == l[i];
      ghost var h := H[..];
      CodesAdd(h, k, 1, MAX_SUPPORTED);
      SpaceAdd(h, k, 1, MAX_SUPPORTED, MAX_SUPPORTED);
      H[k] := H[k] + 1;
      assert H[..] == Add(h, k, 1);
      i := i + 1;
    }
  }

  lemma {:induction false} EmptyHistogram(h: seq<int>, n: nat)
    requires n < |h| && n <= MAX_SUPPORTED && forall i :: 0 <= i < |h| ==> h[i] == 0
    ensures CodesTo(h, n) == 0 && SpaceTo(h, n, MAX_SUPPORTED) == 0
  {
    if n > 0 { EmptyHistogram(h, n - 1); }
  }

  /** The given lengths are counted instead when the table is one of the two fixed ones. */
  method StaticHistogram(sizes: array<nat>, tableLen: nat) returns (H: array<int>)
    requires tableLen == sizes.Length && SizesAtMost(sizes[..], MAX_SUPPORTED)
    ensures fresh(H) && H.Length == MAX_SUPPORTED + 1
    ensures forall d :: 1 <= d <= MAX_SUPPORTED ==> H[d] == Count(sizes[..], d)
  {
    H := new int[MAX_SUPPORTED + 1](i => 0);
    var i := 0;
    while i < tableLen
      invariant 0 <= i <= tableLen
      invariant forall d :: 1 <= d <= MAX_SUPPORTED ==> H[d] == CountTo(sizes[..], i, d)
    {
      H[sizes[i]] := H[sizes[i]] + 1;
      i := i + 1;
    }
  }

  // ---------- handing the lengths out, longest to the rarest symbols ----------

  /** Entry `k` turned from 0 into `v`. */
  lemma {:induction false} CountSet(s: seq<nat>, t: seq<nat>, k: nat, v: nat, n: nat, d: nat)
    requires k < |s| && t == s[k := v] && s[k] == 0 && d > 0 && n <= |s|
    ensures CountTo(t, n, d) == CountTo(s, n, d) + (if k < n && v == d then 1 else 0)
  {
    if n > 0 { CountSet(s, t, k, v, n - 1, d); }
  }

  /** Symbols from position `j` on have got a length of at most `i`, the later ones no longer. */
  ghost predicate Assigning(sizes: seq<nat>, syms: seq<nat>, j: nat, i: nat) {
    && j <= |syms|
    && (forall p :: 0 <= p < |syms| ==> syms[p] < |sizes|)
    && (forall p :: 0 <= p < j ==> sizes[syms[p]] == 0)
    && (forall p :: j <= p < |syms| ==> 1 <= sizes[syms[p]] <= i)
    && (forall p, q :: j <= p <= q < |syms| ==> sizes[syms[q]] <= sizes[syms[p]])
    && (forall s :: 0 <= s < |sizes| && s !in syms ==> sizes[s] == 0)
  }

  /** The lengths of the listed symbols from position `j` on. */
  function Along(sizes: seq<nat>, syms: seq<nat>, j: nat): (r: seq<nat>)
    requires j <= |syms| && forall p :: 0 <= p < |syms| ==> syms[p] < |sizes|
    ensures |r| == |syms| - j
  {
    seq(|syms| - j, p requires 0 <= p < |syms| - j => sizes[syms[j + p]])
  }

  /** The listed symbols from `j` on are all that has a length up to `limit`. */
  ghost predicate Tracked(sizes: seq<nat>, syms: seq<nat>, j: nat, limit: nat) {
    && j <= |syms| && (forall p :: 0 <= p < |syms| ==> syms[p] < |sizes|)
    && forall d :: 1 <= d <= limit ==> Count(Along(sizes, syms, j), d) == Count(sizes, d)
  }

  lemma TrackedStep(a: seq<nat>, b: seq<nat>, syms: seq<nat>, j: nat, i: nat, limit: nat)
    requires Assigning(a, syms, j, i) && 1 <= j && Tracked(a, syms, j, limit)
    requires forall p, q :: 0 <= p < q < |syms| ==> syms[p] != syms[q]
    requires b == a[syms[j - 1] := i]
    ensures Tracked(b, syms, j - 1, limit)
  {
    hide Count, Along;
    forall d | 1 <= d <= limit ensures Count(Along(b, syms, j - 1), d) == Count(b, d) {
      AlongStep(a, b, syms, j, i, d);
    }
  }

  lemma AlongStep(a: seq<nat>, b: seq<nat>, syms: seq<nat>, j: nat, i: nat, d: nat)
    requires Assigning(a, syms, j, i) && 1 <= j && 1 <= d
    requires forall p, q :: 0 <= p < q < |syms| ==> syms[p] != syms[q]
    requires b == a[syms[j - 1] := i]
    requires Count(Along(a, syms, j), d) == Count(a, d)
    ensures Count(Along(b, syms, j - 1), d) == Count(b, d)
  {
    hide CountTo;
    CountSet(a, b, syms[j - 1], i, |a|, d);
    assert Along(b, syms, j - 1) == [i] + Along(a, syms, j);
    CountConcat([i], Along(a, syms, j), d);
    CountOne(i, d);
  }

  lemma CountOne(i: nat, d: nat)
    ensures Count([i], d) == if i == d then 1 else 0
  {
    assert CountTo([i], 0, d) == 0;
  }

  lemma AssignStep(a: seq<nat>, b: seq<nat>, syms: seq<nat>, j: nat, i: nat)
    requires Assigning(a, syms, j, i) && 1 <= j && 1 <= i
    requires forall p, q :: 0 <= p < q < |syms| ==> syms[p] != syms[q]
    requires b == a[syms[j - 1] := i]
    ensures Assigning(b, syms, j - 1, i)
  {
    assert syms[j - 1] in syms;
  }

  /** The lengths of the histogram, one for each listed symbol. */
  ghost predicate Assigned(sizes: seq<nat>, syms: seq<nat>, h: seq<int>, limit: nat) {
    && limit < |h| && Assigning(sizes, syms, 0, limit) && Tracked(sizes, syms, 0, limit)
    && forall d :: 1 <= d <= limit ==> Count(sizes, d) == h[d]
  }

  /** One length: the next `h[i]` symbols get it. */
  method AssignLength(sizes: array<nat>, syms: array<SymFreq>, n: nat, j0: nat, i: nat, count: int, limit: nat) returns (j: nat)
    requires n <= syms.Length && 1 <= i <= limit && 0 <= count <= j0
    requires Assigning(sizes[..], Syms(syms[..n]), j0, i) && Tracked(sizes[..], Syms(syms[..n]), j0, limit)
    requires forall p, q :: 0 <= p < q < n ==> syms[p].sym != syms[q].sym
    modifies sizes
    ensures j == j0 - count
    ensures Assigning(sizes[..], Syms(syms[..n]), j, i) && Tracked(sizes[..], Syms(syms[..n]), j, limit)
    ensures forall d :: 1 <= d <= limit ==>
      Count(sizes[..], d) == Count(old(sizes[..]), d) + (if d == i then count else 0)
  {
    hide CountTo, Assigning, Tracked;
    ghost var names := Syms(syms[..n]);
    j := j0;
    var l := count;
    while l > 0
      invariant 0 <= l <= count && j == j0 - (count - l)
      invariant Assigning(sizes[..], names, j, i) && Tracked(sizes[..], names, j, limit)
      invariant forall d :: 1 <= d <= limit ==>
        CountTo(sizes[..], sizes.Length, d) == CountTo(old(sizes[..]), sizes.Length, d) + (if d == i then count - l else 0)
    {
      ghost var a := sizes[..];
      j := NextSymbol(sizes, syms, n, j, i, limit);
      forall d | 1 <= d <= limit
        ensures CountTo(sizes[..], |a|, d) == CountTo(a, |a|, d) + (if i == d then 1 else 0)
      {
        CountSet(a, sizes[..], syms[j].sym, i, |a|, d);
      }
      l := l - 1;
    }
  }

  method NextSymbol(sizes: array<nat>, syms: array<SymFreq>, n: nat, j0: nat, i: nat, ghost limit: nat) returns (j: nat)
    requires n <= syms.Length && 1 <= i && 1 <= j0
    requires Assigning(sizes[..], Syms(syms[..n]), j0, i) && Tracked(sizes[..], Syms(syms[..n]), j0, limit)
    requires forall p, q :: 0 <= p < q < n ==> syms[p].sym != syms[q].sym
    modifies sizes
    ensures j == j0 - 1 < n
    ensures Assigning(sizes[..], Syms(syms[..n]), j, i) && Tracked(sizes[..], Syms(syms[..n]), j, limit)
    ensures syms[j].sym < sizes.Length && old(sizes[syms[j].sym]) == 0
    ensures sizes[..] == old(sizes[..])[syms[j].sym := i]
  {
    hide Tracked;
    ghost var names := Syms(syms[..n]);
    j := j0 - 1;
    assert names[j] == syms[j].sym;
    AssignStep(sizes[..], sizes[..][syms[j].sym := i], names, j0, i);
    TrackedStep(sizes[..], sizes[..][syms[j].sym := i], names, j0, i, limit);
    sizes[syms[j].sym] := i;
    assert sizes[..] == old(sizes[..])[syms[j].sym := i];
  }

  method AssignSizes(sizes: array<nat>, syms: array<SymFreq>, n: nat, H: array<int>, limit: nat)
    requires n <= syms.Length && limit < H.Length && NonNegative(H[..]) && CodesTo(H[..], limit) == n
    requires forall s :: 0 <= s < sizes.Length ==> sizes[s] == 0
    requires forall p :: 0 <= p < n ==> syms[p].sym < sizes.Length
    requires forall p, q :: 0 <= p < q < n ==> syms[p].sym != syms[q].sym
    modifies sizes
    ensures Assigned(sizes[..], Syms(syms[..n]), H[..], limit)
  {
    hide CountTo, CodesTo, Assigning, Tracked;
    ghost var names := Syms(syms[..n]);
    NothingAssigned(sizes[..], names, limit);
    ghost var h := H[..];
    var i, j := 1, n;
    CodesToZero(h);
    while i <= limit
      invariant 1 <= i <= limit + 1 && j == n - CodesTo(h, i - 1)
      invariant Assigning(sizes[..], names, j, i - 1) && Tracked(sizes[..], names, j, limit)
      invariant forall d :: 1 <= d <= limit ==> Count(sizes[..], d) == if d < i then h[d] else 0
    {
      CodesMonotone(h, i, limit);
      CodesUnfold(h, i);
      AssigningUp(sizes[..], names, j, i - 1);
      j := AssignLength(sizes, syms, n, j, i, H[i], limit);
      i := i + 1;
    }
  }

  lemma NothingAssigned(sizes: seq<nat>, syms: seq<nat>, limit: nat)
    requires forall s :: 0 <= s < |sizes| ==> sizes[s] == 0
    requires forall p :: 0 <= p < |syms| ==> syms[p] < |sizes|
    ensures Assigning(sizes, syms, |syms|, 0) && Tracked(sizes, syms, |syms|, limit)
    ensures forall d :: 1 <= d <= limit ==> Count(sizes, d) == 0
  {
    hide CountTo;
    forall d | 1 <= d <= limit ensures Count(Along(sizes, syms, |syms|), d) == 0 && Count(sizes, d) == 0 {
      NoneOfSize(sizes, |sizes|, d);
      NoneOfSize(Along(sizes, syms, |syms|), 0, d);
    }
  }

  lemma CodesToZero(h: seq<int>)
    requires |h| > 0
    ensures CodesTo(h, 0) == 0
  {}

  lemma CodesUnfold(h: seq<int>, i: nat)
    requires 0 < i < |h|
    ensures CodesTo(h, i) == CodesTo(h, i - 1) + h[i]
  {}

  lemma AssigningUp(sizes: seq<nat>, syms: seq<nat>, j: nat, i: nat)
    requires Assigning(sizes, syms, j, i)
    ensures Assigning(sizes, syms, j, i + 1)
  {}

  // ---------- what the assigned lengths are worth ----------

  lemma {:induction false} UsedIsSpace(sizes: seq<nat>, h: seq<int>, l: nat)
    requires 1 <= l < |h| && forall d :: 1 <= d <= l ==> Count(sizes, d) == h[d]
    ensures Used(sizes, l) == SpaceTo(h, l, l)
  {
    if l == 1 {
      assert SpaceTo(h, 1, 1) == SpaceTo(h, 0, 1) + h[1] * Pow2(0);
    } else {
      UsedIsSpace(sizes, h, l - 1);
      SpaceRescale(h, l - 1, l - 1, 1);
      assert SpaceTo(h, l, l) == SpaceTo(h, l - 1, l) + h[l] * Pow2(0);
    }
  }

  /** A histogram of at most one code takes at most half the code space. */
  lemma {:induction false} FewCodesFit(h: seq<int>, l: nat)
    requires 1 <= l < |h| && NonNegative(h) && CodesTo(h, l) <= 1
    ensures SpaceTo(h, l, l) <= Pow2(l - 1)
  {
    if l == 1 {
      assert SpaceTo(h, 1, 1) == SpaceTo(h, 0, 1) + h[1] * Pow2(0);
      assert CodesTo(h, 1) == CodesTo(h, 0) + h[1];
    } else {
      CodesMonotone(h, l - 1, l);
      FewCodesFit(h, l - 1);
      FewCodesStep(h, l);
    }
  }

  lemma FewCodesStep(h: seq<int>, l: nat)
    requires 2 <= l < |h| && NonNegative(h) && CodesTo(h, l) <= 1
    requires SpaceTo(h, l - 1, l - 1) <= Pow2(l - 2)
    ensures SpaceTo(h, l, l) <= Pow2(l - 1)
  {
    SpaceRescale(h, l - 1, l - 1, 1);
    assert SpaceTo(h, l, l) == SpaceTo(h, l - 1, l) + h[l] * Pow2(0);
    CodesMonotone(h, 0, l - 1);
    if h[l] == 1 {
      NoCodesNoSpace(h, l - 1, l - 1);
    }
  }

  lemma {:induction false} NoCodesNoSpace(h: seq<int>, n: nat, m: nat)
    requires n < |h| && n <= m && NonNegative(h) && CodesTo(h, n) == 0
    ensures SpaceTo(h, n, m) == 0
  {
    if n > 0 {
      CodesMonotone(h, n - 1, n);
      CodesMonotone(h, 0, n - 1);
      NoCodesNoSpace(h, n - 1, m);
      assert h[n] * Pow2(m - n) == 0;
    }
  }

  /** What a table of code lengths owes the symbol counts it was made from. */
  ghost predicate Serves(sizes: seq<nat>, counts: seq<nat>, limit: nat) {
    && |sizes| == |counts| && Fits(sizes, limit)
    && (forall s :: 0 <= s < |sizes| ==> (sizes[s] > 0 <==> counts[s] > 0))
    && (forall a, b :: 0 <= a < |sizes| && 0 <= b < |sizes| && counts[a] > counts[b] > 0 ==> sizes[a] <= sizes[b])
    && ((exists a, b :: 0 <= a < b < |sizes| && counts[a] > 0 && counts[b] > 0) ==> Full(sizes, limit))
    && ((forall a, b :: 0 <= a < b < |sizes| ==> counts[a] == 0 || counts[b] == 0) ==> forall s :: 0 <= s < |sizes| ==> sizes[s] <= 1)
  }

  lemma AssignedOrder(sizes: seq<nat>, syms: seq<nat>, w: seq<nat>, counts: seq<nat>, limit: nat, a: nat, b: nat)
    requires |sizes| == |counts| && Listing(syms, w, counts) && Assigning(sizes, syms, 0, limit)
    requires a < |sizes| && b < |sizes| && counts[a] > counts[b] > 0
    ensures sizes[a] <= sizes[b]
  {
    assert a in syms && b in syms;
    var p :| 0 <= p < |syms| && syms[p] == a;
    var q :| 0 <= q < |syms| && syms[q] == b;
    assert w[p] > w[q];
    assert q < p;
  }

  lemma AssignedUsed(sizes: seq<nat>, syms: seq<nat>, w: seq<nat>, counts: seq<nat>, limit: nat, s: nat)
    requires |sizes| == |counts| && Listing(syms, w, counts) && Assigning(sizes, syms, 0, limit) && s < |sizes|
    ensures sizes[s] > 0 <==> counts[s] > 0
    ensures sizes[s] <= limit
  {
    if s in syms {
      var p :| 0 <= p < |syms| && syms[p] == s;
      assert sizes[syms[p]] >= 1;
    }
  }

  lemma AssignedFits(sizes: seq<nat>, syms: seq<nat>, w: seq<nat>, counts: seq<nat>, h: seq<int>, limit: nat)
    requires |sizes| == |counts| && Listing(syms, w, counts) && Assigned(sizes, syms, h, limit) && limit >= 1
    requires NonNegative(h) && CodesTo(h, limit) == |syms|
    requires |syms| > 1 ==> SpaceTo(h, limit, limit) == Pow2(limit)
    ensures Fits(sizes, limit)
    ensures |syms| > 1 ==> Full(sizes, limit)
  {
    forall s | 0 <= s < |sizes| ensures sizes[s] <= limit {
      AssignedUsed(sizes, syms, w, counts, limit, s);
    }
    UsedIsSpace(sizes, h, limit);
    if |syms| <= 1 {
      FewCodesFit(h, limit);
      Pow2Monotone(limit - 1, limit);
    }
  }

  // ---------- lengths nobody had to shorten ----------

  lemma {:induction false} SameCounts(a: seq<nat>, b: seq<nat>, n: nat)
    requires n <= |a| == |b| && Descending(a) && Descending(b)
    requires forall d :: d >= 1 ==> CountTo(a, n, d) == CountTo(b, n, d)
    requires forall i :: 0 <= i < n ==> 1 <= a[i] && 1 <= b[i]
    ensures a[..n] == b[..n]
  {
    hide CountTo;
    if n > 0 {
      LastIsLeast(a, b, n);
      LastIsLeast(b, a, n);
      var m := n - 1;
      forall d | d >= 1 ensures CountTo(a, m, d) == CountTo(b, m, d) {
        CountLast(a, n, d);
        CountLast(b, n, d);
      }
      SameCounts(a, b, n - 1);
      assert a[..n] == a[..n - 1] + [a[n - 1]] && b[..n] == b[..n - 1] + [b[n - 1]];
    }
  }

  lemma CountLast(a: seq<nat>, n: nat, d: int)
    requires 0 < n <= |a|
    ensures CountTo(a, n, d) == CountTo(a, n - 1, d) + if a[n - 1] == d then 1 else 0
  {}

  lemma LastIsLeast(a: seq<nat>, b: seq<nat>, n: nat)
    requires 0 < n <= |a| == |b| && Descending(b) && a[n - 1] >= 1
    requires forall d :: d >= 1 ==> CountTo(a, n, d) == CountTo(b, n, d)
    ensures b[n - 1] <= a[n - 1]
  {
    if b[n - 1] > a[n - 1] {
      NoneGreater(b, n, a[n - 1]);
      CountLast(a, n, a[n - 1]);
    }
  }

  lemma {:induction false} NoneGreater(s: seq<nat>, n: nat, d: nat)
    requires n <= |s| && forall i :: 0 <= i < n ==> s[i] > d
    ensures CountTo(s, n, d) == 0
  {
    if n > 0 { NoneGreater(s, n - 1, d); }
  }

  lemma AlongDescends(sizes: seq<nat>, syms: seq<nat>, limit: nat)
    requires Assigning(sizes, syms, 0, limit)
    ensures Descending(Along(sizes, syms, 0))
    ensures forall p :: 0 <= p < |syms| ==> 1 <= Along(sizes, syms, 0)[p] <= limit
  {}

  lemma {:induction false} NoneOver(s: seq<nat>, n: nat, limit: nat, d: nat)
    requires n <= |s| && d > limit && forall i :: 0 <= i < n ==> s[i] <= limit
    ensures CountTo(s, n, d) == 0
  {
    if n > 0 { NoneOver(s, n - 1, limit, d); }
  }

  /** A histogram handed out unchanged gives every listed symbol its own computed length. */
  lemma UnchangedLengths(sizes: seq<nat>, syms: seq<nat>, h: seq<int>, l: seq<nat>, limit: nat)
    requires Assigned(sizes, syms, h, limit) && |l| == |syms| && Descending(l)
    requires forall p :: 0 <= p < |l| ==> 1 <= l[p] <= limit
    requires forall d :: 1 <= d <= limit ==> h[d] == Count(l, d)
    ensures Along(sizes, syms, 0) == l
  {
    hide CountTo, Along;
    var a := Along(sizes, syms, 0);
    AlongDescends(sizes, syms, limit);
    forall d | d >= 1 ensures CountTo(a, |a|, d) == CountTo(l, |a|, d) {
      if d > limit {
        NoneOver(a, |a|, limit, d);
        NoneOver(l, |a|, limit, d);
      } else {
        assert Count(a, d) == Count(l, d);
      }
    }
    SameCounts(a, l, |a|);
    assert a[..|a|] == a && l[..|a|] == l;
  }

  // ---------- numbering the codes ----------

  lemma FirstFits(sizes: seq<nat>, d: nat, limit: nat)
    requires Fits(sizes, limit) && 1 <= d <= limit <= 15
    ensures First(sizes, d) <= Used(sizes, d) <= 32768
  {
    hide First, Fits;
    UsedFits(sizes, d, limit);
    Pow2Monotone(d, 15);
    Pow2Values();
  }

  method FirstCodes(H: array<int>, limit: nat, ghost sizes: seq<nat>) returns (next: array<nat>)
    requires H.Length == MAX_SUPPORTED + 1 && limit <= 15 && Fits(sizes, limit)
    requires forall d :: 1 <= d <= limit ==> H[d] == Count(sizes, d)
    ensures fresh(next) && next.Length == MAX_SUPPORTED + 1
    ensures forall d :: 1 <= d <= limit ==> next[d] == First(sizes, d)
  {
    hide Count, Fits, Used;
    next := new nat[MAX_SUPPORTED + 1](d => 0);
    var i, j := 2, 0;
    while i <= limit
      invariant 2 <= i && j == First(sizes, i - 1)
      invariant forall d :: 1 <= d <= limit && d < i ==> next[d] == First(sizes, d)
    {
      FirstFits(sizes, i, limit);
      j := (j + H[i - 1]) * 2 % WORD;
      next[i] := j;
      i := i + 1;
    }
  }

  /** Symbols below `i` have their codes, and `next` numbers the first symbol of each length from `i` on. */
  ghost predicate Numbering(codes: seq<nat>, old0: seq<nat>, sizes: seq<nat>, next: seq<nat>, i: nat, limit: nat) {
    && |codes| == |old0| == |sizes| && i <= |sizes| && limit < |next|
    && (forall d :: 1 <= d <= limit ==> next[d] == First(sizes, d) + CountTo(sizes, i, d))
    && (forall k :: 0 <= k < i ==> codes[k] == if sizes[k] > 0 then RevCode(sizes, k) else old0[k])
    && (forall k :: i <= k < |sizes| ==> codes[k] == old0[k])
  }

  lemma NumberOne(a: seq<nat>, b: seq<nat>, old0: seq<nat>, sizes: seq<nat>, next: seq<nat>, i: nat, limit: nat, rev: nat)
    requires Numbering(a, old0, sizes, next, i, limit) && i < |sizes| && 1 <= sizes[i] <= limit
    requires rev == Rev(next[sizes[i]], sizes[i]) && b == a[i := rev]
    ensures rev == RevCode(sizes, i)
    ensures Numbering(b, old0, sizes, next[sizes[i] := next[sizes[i]] + 1], i + 1, limit)
  {
    hide First, Rev;
  }

  lemma NumberNone(a: seq<nat>, old0: seq<nat>, sizes: seq<nat>, next: seq<nat>, i: nat, limit: nat)
    requires Numbering(a, old0, sizes, next, i, limit) && i < |sizes| && sizes[i] == 0
    ensures Numbering(a, old0, sizes, next, i + 1, limit)
  {
    hide First, Rev;
  }

  method AssignCodes(sizes: array<nat>, codes: array<nat>, H: array<int>, limit: nat)
    requires H.Length == MAX_SUPPORTED + 1 && limit <= 15 && Fits(sizes[..], limit)
    requires sizes.Length == codes.Length && sizes != codes
    requires forall d :: 1 <= d <= limit ==> H[d] == Count(sizes[..], d)
    modifies codes
    ensures forall i :: 0 <= i < sizes.Length ==>
      codes[i] == if sizes[i] > 0 then RevCode(sizes[..], i) else old(codes[i])
  {
    hide First, Count, Fits, RevCode, Numbering;
    ghost var sz, old0 := sizes[..], codes[..];
    var next := FirstCodes(H, limit, sz);
    NumberStart(old0, sz, next[..], limit);
    var i := 0;
    while i < sizes.Length
      invariant 0 <= i <= sizes.Length
      invariant Numbering(codes[..], old0, sz, next[..], i, limit)
    {
      if sizes[i] == 0 {
        NumberNone(codes[..], old0, sz, next[..], i, limit);
      } else {
        AssignCode(sizes, codes, next, i, limit, old0);
      }
      i := i + 1;
    }
    NumberDone(codes[..], old0, sz, next[..], limit);
  }

  method AssignCode(sizes: array<nat>, codes: array<nat>, next: array<nat>, i: nat, limit: nat, ghost old0: seq<nat>)
    requires limit <= 15 && limit < next.Length && Fits(sizes[..], limit) && i < sizes.Length && sizes[i] > 0
    requires sizes.Length == codes.Length && sizes != codes && next != codes && next != sizes
    requires Numbering(codes[..], old0, sizes[..], next[..], i, limit)
    modifies codes, next
    ensures Numbering(codes[..], old0, sizes[..], next[..], i + 1, limit)
  {
    hide First, Count, Fits, RevCode, Numbering;
    var size := sizes[i];
    SizesLimited(sizes[..], limit);
    CodeFitsWord(sizes[..], i, limit);
    var rev := ReverseBits(next[size], size);
    NumberOne(codes[..], codes[..][i := rev], old0, sizes[..], next[..], i, limit, rev);
    ghost var a, m := codes[..], next[..];
    next[size] := next[size] + 1;
    codes[i] := rev % 65536;
    assert codes[..] == a[i := rev] && next[..] == m[size := m[size] + 1];
  }

  lemma NumberStart(codes: seq<nat>, sizes: seq<nat>, next: seq<nat>, limit: nat)
    requires |codes| == |sizes| && limit < |next| && forall d :: 1 <= d <= limit ==> next[d] == First(sizes, d)
    ensures Numbering(codes, codes, sizes, next, 0, limit)
  {
    hide First;
  }

  lemma NumberDone(codes: seq<nat>, old0: seq<nat>, sizes: seq<nat>, next: seq<nat>, limit: nat)
    requires Numbering(codes, old0, sizes, next, |sizes|, limit)
    ensures |codes| == |old0| == |sizes|
    ensures forall k :: 0 <= k < |sizes| ==> codes[k] == if sizes[k] > 0 then RevCode(sizes, k) else old0[k]
  {
    hide RevCode, First, CountTo;
  }

  lemma SizesLimited(sizes: seq<nat>, limit: nat)
    requires Fits(sizes, limit)
    ensures forall i :: 0 <= i < |sizes| ==> sizes[i] <= limit
  {
    hide Used;
  }

  lemma CodeFitsWord(sizes: seq<nat>, i: nat, limit: nat)
    requires Fits(sizes, limit) && limit <= 15 && i < |sizes| && sizes[i] > 0
    ensures RevCode(sizes, i) < 65536
  {
    hide Used, Rev, Code;
    RevBound(Code(sizes, i), sizes[i]);
    Pow2Monotone(sizes[i], 15);
    Pow2Values();
  }

  // ---------- the whole table ----------

  lemma {:induction false} PartOfSum(s: seq<nat>, n: nat, i: nat)
    requires i < n <= |s|
    ensures s[i] <= SumTo(s, n)
  {
    if i < n - 1 { PartOfSum(s, n - 1, i); }
  }

  lemma UsedKeysFit(counts: seq<nat>)
    requires Sum(counts) < 65536
    ensures forall i :: 0 <= i < |UsedSyms(counts, |counts|)| ==> UsedSyms(counts, |counts|)[i].key < 65536
  {
    var u := UsedSyms(counts, |counts|);
    UsedAreCounted(counts, |counts|);
    forall i | 0 <= i < |u| ensures u[i].key < 65536 {
      assert u[i] in u;
      PartOfSum(counts, |counts|, u[i].sym);
    }
  }

  /** Used symbols, rarest first, each with the length of its code in an unlimited Huffman tree. */
  method SortedLengths(counts: array<nat>) returns (syms: array<SymFreq>, n: nat, ghost w: seq<nat>)
    requires 0 < counts.Length <= 65536 && Sum(counts[..]) < 65536
    ensures fresh(syms) && n <= syms.Length && n <= counts.Length
    ensures Listing(Syms(syms[..n]), w, counts[..]) && Sum(w) < 65536
    ensures Keys(syms[..n]) == CodeLengths(w) && Descending(CodeLengths(w))
    ensures forall i :: 0 <= i < n ==> 1 <= syms[i].key
  {
    hide Keys, Sum, UsedSyms, Ascending, Descending, CodeLengths, Listing;
    ghost var c := counts[..];
    UsedKeysFit(c);
    var syms0 := new SymFreq[counts.Length](i => SymFreq(0, 0));
    var syms1 := new SymFreq[counts.Length](i => SymFreq(0, 0));
    n := CollectUsed(counts, counts.Length, syms0);
    assert c[..|c|] == c && counts[..counts.Length] == c;
    syms := RadixSortSyms(syms0, syms1, n);
    ghost var t := syms[..n];
    w := Keys(t);
    SortedIsListing(c, t);
    CalculateMinimumRedundancy(syms, n);
    SymsKept(t, syms[..n]);
  }

  lemma SymsKept(a: seq<SymFreq>, b: seq<SymFreq>)
    requires |a| == |b| && forall i :: 0 <= i < |a| ==> a[i].sym == b[i].sym
    ensures Syms(a) == Syms(b)
  {}

  lemma ListedWeights(syms: seq<nat>, w: seq<nat>, counts: seq<nat>)
    requires Listing(syms, w, counts) && Sum(w) < 65536
    ensures AtMost(CodeLengths(w), MAX_SUPPORTED)
    ensures |w| >= 2 ==> Kraft(CodeLengths(w), MAX_SUPPORTED) == Pow2(MAX_SUPPORTED)
    ensures |w| <= 1 ==> CodeLengths(w) == Rep(|w|, 1)
  {
    hide Lengths, Kraft, Pow2;
    if |w| >= 2 {
      CodeLengthsShallow(w);
      CodeLengthsComplete(w);
    }
  }

  /** A histogram all of whose codes are short enough. */
  ghost predicate Limited(h: seq<int>, n: nat, limit: nat, l: seq<nat>) {
    && limit < |h| && NonNegative(h) && CodesTo(h, limit) == n
    && (n > 1 ==> SpaceTo(h, limit, limit) == Pow2(limit))
    && (AtMost(l, limit) ==> forall d :: 1 <= d <= limit ==> h[d] == Count(l, d))
  }

  lemma {:induction false} AllCodesCounted(h: seq<int>, l: seq<nat>, limit: nat, m: nat)
    requires limit <= m < |h| && AtMost(l, limit) && forall d :: 1 <= d <= m ==> h[d] == Count(l, d)
    ensures CodesTo(h, m) == CodesTo(h, limit)
  {
    if m > limit {
      NoneOver(l, |l|, limit, m);
      AllCodesCounted(h, l, limit, m - 1);
    }
  }

  lemma FewAreShort(l: seq<nat>, n: nat, limit: nat)
    requires n <= 1 <= limit && l == Rep(n, 1)
    ensures AtMost(l, limit)
  {}

  method LimitedHistogram(syms: array<SymFreq>, n: nat, limit: nat, ghost l: seq<nat>) returns (H: array<int>)
    requires n <= syms.Length && Keys(syms[..n]) == l && 1 <= limit <= 15 && n <= Pow2(limit)
    requires forall i :: 0 <= i < n ==> 1 <= l[i] <= MAX_SUPPORTED
    requires n >= 2 ==> Kraft(l, MAX_SUPPORTED) == Pow2(MAX_SUPPORTED)
    requires n <= 1 ==> l == Rep(n, 1)
    ensures fresh(H) && H.Length == MAX_SUPPORTED + 1 && Limited(H[..], n, limit, l)
    ensures n >= 2 ==> LimitedFrom(l, H[..], limit)
  {
    hide CodesTo, SpaceTo, Keys, Kraft, Pow2, Count, AtMost, FewShortened;
    H := LengthHistogram(syms, n, l);
    ghost var h := H[..];
    if AtMost(l, limit) {
      AllCodesCounted(h, l, limit, MAX_SUPPORTED);
    }
    if n <= 1 {
      FewAreShort(l, n, limit);
    }
    ghost var level := EnforceMaxCodeSize(H, n, limit);
    assert n >= 2 ==> LimitedAt(l, h, H[..], limit, level);
  }

  lemma AssignedShort(sizes: seq<nat>, syms: seq<nat>, limit: nat, s: nat)
    requires Assigning(sizes, syms, 0, limit) && s < |sizes|
    ensures sizes[s] <= limit
  {
    if s in syms {
      var p :| 0 <= p < |syms| && syms[p] == s;
    }
  }

  lemma FewSizes(sizes: seq<nat>, syms: seq<nat>, h: seq<int>, l: seq<nat>, limit: nat)
    requires Assigned(sizes, syms, h, limit) && Limited(h, |syms|, limit, l) && limit >= 1
    requires |syms| <= 1 && l == Rep(|syms|, 1)
    ensures forall s :: 0 <= s < |sizes| ==> sizes[s] <= 1
  {
    hide SpaceTo, CodesTo, CountTo, Along;
    FewAreShort(l, |l|, limit);
    forall d | 2 <= d <= limit ensures Count(sizes, d) == 0 {
      NoneOver(l, |l|, 1, d);
      assert Count(sizes, d) == h[d];
    }
    forall s | 0 <= s < |sizes| ensures sizes[s] <= 1 {
      AssignedShort(sizes, syms, limit, s);
      if sizes[s] > 1 {
        assert Count(sizes, sizes[s]) == 0;
        CountPart(sizes, s, |sizes|, sizes[s]);
      }
    }
  }

  lemma AssignedServes(sizes: seq<nat>, syms: seq<nat>, w: seq<nat>, counts: seq<nat>, h: seq<int>, limit: nat, l: seq<nat>)
    requires |sizes| == |counts| && Listing(syms, w, counts) && Assigned(sizes, syms, h, limit) && limit >= 1
    requires Limited(h, |syms|, limit, l) && (|syms| <= 1 ==> l == Rep(|syms|, 1))
    ensures Serves(sizes, counts, limit)
  {
    hide Fits, Full, SpaceTo, CodesTo, CountTo, Along;
    AssignedFits(sizes, syms, w, counts, h, limit);
    forall s | 0 <= s < |sizes| ensures sizes[s] > 0 <==> counts[s] > 0 {
      AssignedUsed(sizes, syms, w, counts, limit, s);
    }
    forall a, b | 0 <= a < |sizes| && 0 <= b < |sizes| && counts[a] > counts[b] > 0 ensures sizes[a] <= sizes[b] {
      AssignedOrder(sizes, syms, w, counts, limit, a, b);
    }
    if |syms| <= 1 {
      FewSizes(sizes, syms, h, l, limit);
      OneListed(syms, w, counts);
    } else {
      TwoListed(syms, w, counts);
    }
  }

  lemma OneListed(syms: seq<nat>, w: seq<nat>, counts: seq<nat>)
    requires Listing(syms, w, counts) && |syms| <= 1
    ensures forall a, b :: 0 <= a < b < |counts| ==> counts[a] == 0 || counts[b] == 0
  {}

  lemma TwoListed(syms: seq<nat>, w: seq<nat>, counts: seq<nat>)
    requires Listing(syms, w, counts) && |syms| >= 2
    ensures exists a, b :: 0 <= a < b < |counts| && counts[a] > 0 && counts[b] > 0
  {
    assert counts[syms[0]] > 0 && counts[syms[1]] > 0;
    if syms[0] < syms[1] {
    } else {
      assert syms[1] < syms[0];
    }
  }

  method Clear(a: array<nat>)
    modifies a
    ensures forall s :: 0 <= s < a.Length ==> a[s] == 0
  {
    var i := 0;
    while i < a.Length
      invariant 0 <= i <= a.Length && forall s :: 0 <= s < i ==> a[s] == 0
    {
      a[i] := 0;
      i := i + 1;
    }
  }

  lemma SymsInRange(syms: seq<nat>, w: seq<nat>, counts: seq<nat>)
    requires Listing(syms, w, counts)
    ensures forall p :: 0 <= p < |syms| ==> syms[p] < |counts|
    ensures forall p, q :: 0 <= p < q < |syms| ==> syms[p] != syms[q]
  {}

  /** New lengths from counts. `syms` and `w` list the used symbols and their counts, rarest first. */
  method DynamicSizes(counts: array<nat>, sizes: array<nat>, limit: nat)
      returns (H: array<int>, ghost syms: seq<nat>, ghost w: seq<nat>)
    requires 0 < counts.Length == sizes.Length <= Pow2(limit) && counts != sizes && 1 <= limit <= 15
    requires Sum(counts[..]) < 65536
    modifies sizes
    ensures fresh(H) && H.Length == MAX_SUPPORTED + 1
    ensures forall d :: 1 <= d <= limit ==> H[d] == Count(sizes[..], d)
    ensures Serves(sizes[..], counts[..], limit) && Listing(syms, w, counts[..])
    ensures forall p :: 0 <= p < |syms| ==> syms[p] < sizes.Length
    ensures AtMost(CodeLengths(w), limit) ==> Along(sizes[..], syms, 0) == CodeLengths(w)
    ensures limit == MAX_BITS && |w| <= 286 ==> NearlyOptimal(w, Along(sizes[..], syms, 0))
  {
    hide LimitedFrom, NearlyOptimal, Keys, Sum, Kraft, CountTo, CodesTo, SpaceTo, CodeLengths, Descending, Pow2, Serves, Along, Tracked, Assigning, Ascending;
    TableFits(counts.Length, limit);
    var list, n;
    list, n, w := SortedLengths(counts);
    syms := Syms(list[..n]);
    ghost var l := CodeLengths(w);
    ListedWeights(syms, w, counts[..]);
    H := LimitedHistogram(list, n, limit, l);
    Clear(sizes);
    SymsInRange(syms, w, counts[..]);
    AssignSizes(sizes, list, n, H, limit);
    AssignedServes(sizes[..], syms, w, counts[..], H[..], limit, l);
    if AtMost(l, limit) {
      UnchangedLengths(sizes[..], syms, H[..], l, limit);
    }
    if limit == MAX_BITS && |w| <= 286 {
      AssignedNearlyOptimal(sizes[..], syms, w, counts[..], H[..]);
    }
  }

  /** The lengths handed out from a histogram limited to 15 bits. */
  lemma AssignedNearlyOptimal(sizes: seq<nat>, syms: seq<nat>, w: seq<nat>, counts: seq<nat>, h: seq<int>)
    requires Assigned(sizes, syms, h, MAX_BITS) && |w| == |syms| && |w| <= 286 && Listing(syms, w, counts)
    requires |w| >= 2 ==> LimitedFrom(CodeLengths(w), h, MAX_BITS)
    requires Descending(CodeLengths(w)) && forall p :: 0 <= p < |w| ==> 1 <= CodeLengths(w)[p]
    requires |w| <= 1 ==> Along(sizes, syms, 0) == CodeLengths(w)
    ensures NearlyOptimal(w, Along(sizes, syms, 0))
  {
    hide CountTo, Along, CodeLengths, NearlyOptimal, Descending, Ascending, LimitedFrom;
    if |w| <= 1 {
      FewNearlyOptimal(w);
    } else {
      AlongDescends(sizes, syms, MAX_BITS);
      forall d | 1 <= d <= MAX_BITS ensures h[d] == Count(Along(sizes, syms, 0), d) {
        assert Count(sizes, d) == h[d];
      }
      LimitedNearlyOptimal(w, Along(sizes, syms, 0), h);
    }
  }

  lemma TableFits(n: nat, limit: nat)
    requires n <= Pow2(limit) && limit <= 15
    ensures n <= 65536
  {
    hide Pow2;
    Pow2Monotone(limit, 15);
    Pow2Values();
  }

  /** tdefl_optimize_huffman_table: the counts are turned into lengths unless the table is a fixed one,
      and the lengths into codes. */
  method OptimizeHuffmanTable(counts: array<nat>, sizes: array<nat>, codes: array<nat>, limit: nat, staticTable: bool)
      returns (ghost syms: seq<nat>, ghost w: seq<nat>)
    requires 0 < counts.Length == sizes.Length == codes.Length <= Pow2(limit) && 1 <= limit <= 15
    requires counts != sizes && counts != codes && sizes != codes
    requires if staticTable then Fits(sizes[..], limit) else Sum(counts[..]) < 65536
    modifies sizes, codes
    ensures staticTable ==> sizes[..] == old(sizes[..])
    ensures !staticTable ==> Serves(sizes[..], counts[..], limit) && Listing(syms, w, counts[..])
    ensures !staticTable && |w| >= 2 && AtMost(CodeLengths(w), limit) ==>
      (forall p :: 0 <= p < |syms| ==> syms[p] < sizes.Length) && Optimal(w, Along(sizes[..], syms, 0))
    ensures !staticTable && limit == MAX_BITS && |w| <= 286 ==>
      (forall p :: 0 <= p < |syms| ==> syms[p] < sizes.Length) && NearlyOptimal(w, Along(sizes[..], syms, 0))
    ensures Fits(sizes[..], limit)
    ensures forall i :: 0 <= i < sizes.Length && sizes[i] > 0 ==> codes[i] == RevCode(sizes[..], i)
  {
    hide Sum, Fits, RevCode, CountTo, CodeLengths, Optimal, NearlyOptimal, Along, Ascending, Pow2, Lengths;
    var H: array<int>;
    syms, w := [], [];
    if staticTable {
      SizesLimited(sizes[..], limit);
      H := StaticHistogram(sizes, sizes.Length);
    } else {
      H, syms, w := DynamicSizes(counts, sizes, limit);
      Clear(codes);
      if |w| >= 2 {
        CodeLengthsOptimal(w);
      }
    }
    AssignCodes(sizes, codes, H, limit);
  }
}
