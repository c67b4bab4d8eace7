/** Canonical Huffman codes from code lengths (section 3.2.2 of RFC 1951), as compressor and
    decompressor both number them, and what bit reversal does to them. */
module Canonical {
  import opened Powers
  import opened HuffmanTree

  /** Code of the first symbol of length `l`: next_code[l] before any symbol is numbered. */
  function First(sizes: seq<nat>, l: nat): nat {
    if l <= 1 then 0 else 2 * (First(sizes, l - 1) + Count(sizes, l - 1))
  }

  /** Prefixes of `l` bits taken by codes of up to `l` bits. */
  function Used(sizes: seq<nat>, l: nat): nat {
    First(sizes, l) + Count(sizes, l)
  }

  /** The code of symbol `i`, most significant bit first. */
  function Code(sizes: seq<nat>, i: nat): nat
    requires i < |sizes|
  {
    First(sizes, sizes[i]) + CountTo(sizes, i, sizes[i])
  }

  /** The lowest `l` bits of `c` in the opposite order. */
  function Rev(c: nat, l: nat): nat {
    if l == 0 then 0 else (c % 2) * Pow2(l - 1) + Rev(c / 2, l - 1)
  }

  /** The code of symbol `i` as it goes into the bit stream, first bit lowest. */
  function RevCode(sizes: seq<nat>, i: nat): nat
    requires i < |sizes|
  {
    Rev(Code(sizes, i), sizes[i])
  }

  predicate SizesAtMost(sizes: seq<nat>, m: nat) {
    forall i :: 0 <= i < |sizes| ==> sizes[i] <= m
  }

  /** The codes fit the code space of `m`-bit strings. */
  predicate Fits(sizes: seq<nat>, m: nat) {
    m >= 1 && SizesAtMost(sizes, m) && Used(sizes, m) <= Pow2(m)
  }

  /** The codes fill it. */
  predicate Full(sizes: seq<nat>, m: nat) {
    m >= 1 && SizesAtMost(sizes, m) && Used(sizes, m) == Pow2(m)
  }

  // ---------- code space ----------

  lemma {:induction false} UsedGrows(sizes: seq<nat>, a: nat, b: nat)
    requires 1 <= a <= b
    ensures Used(sizes, a) * Pow2(b - a) <= Used(sizes, b)
    ensures a < b ==> Used(sizes, a) * Pow2(b - a) <= First(sizes, b)
    decreases b - a
  {
    if a < b {
      UsedGrows(sizes, a, b - 1);
      assert Pow2(b - a) == 2 * Pow2(b - 1 - a);
      MulAssociates(Used(sizes, a), Pow2(b - 1 - a), 2);
    }
  }

  lemma UsedFits(sizes: seq<nat>, l: nat, m: nat)
    requires Fits(sizes, m) && 1 <= l <= m
    ensures Used(sizes, l) <= Pow2(l)
  {
    UsedGrows(sizes, l, m);
    Pow2Add(l, m - l);
    if Used(sizes, l) > Pow2(l) {
      MulMonotone(Pow2(l) + 1, Used(sizes, l), Pow2(m - l));
      MulDistributes(Pow2(l), 1, Pow2(m - l));
    }
  }

  lemma {:induction false} CountPart(s: seq<nat>, i: nat, n: nat, d: int)
    requires i < n <= |s| && s[i] == d
    ensures CountTo(s, i, d) < CountTo(s, n, d)
  {
    if i < n - 1 { CountPart(s, i, n - 1, d); }
  }

  /** Every code fits its length. */
  lemma CodeFits(sizes: seq<nat>, i: nat, m: nat)
    requires Fits(sizes, m) && i < |sizes| && sizes[i] >= 1
    ensures First(sizes, sizes[i]) <= Code(sizes, i) < Used(sizes, sizes[i]) <= Pow2(sizes[i])
  {
    CountPart(sizes, i, |sizes|, sizes[i]);
    UsedFits(sizes, sizes[i], m);
  }

  /** The code of `i` is not the first bits of the code of `j`. */
  lemma CodesDiffer(sizes: seq<nat>, i: nat, j: nat, m: nat)
    requires Fits(sizes, m) && i < |sizes| && j < |sizes| && i != j
    requires 1 <= sizes[i] <= sizes[j]
    ensures Shr(Code(sizes, j), sizes[j] - sizes[i]) != Code(sizes, i)
  {
    var a, b := sizes[i], sizes[j];
    CodeFits(sizes, i, m);
    CodeFits(sizes, j, m);
    if a == b {
      if i < j { CountPart(sizes, i, j, a); } else { CountPart(sizes, j, i, a); }
      assert Code(sizes, j) / Pow2(0) == Code(sizes, j);
    } else {
      UsedGrows(sizes, a, b);
      DivideBelow(Code(sizes, j), Used(sizes, a), Pow2(b - a));
    }
  }

  // ---------- bit reversal ----------

  lemma {:induction false} RevBound(c: nat, l: nat)
    ensures Rev(c, l) < Pow2(l)
  {
    if l > 0 {
      RevBound(c / 2, l - 1);
    }
  }

  lemma HalfOfQuotient(c: nat, k: nat)
    ensures Shr(c, k + 1) == Shr(c / 2, k)
  {
    HalfFirst(c, Pow2(k));
  }

  lemma RevUnfold(c: nat, l: nat)
    requires l > 0
    ensures Rev(c, l) == (c % 2) * Pow2(l - 1) + Rev(c / 2, l - 1)
  {}

  /** The first `m` bits of a reversed code are the reversal of the code's first `m` bits. */
  lemma {:induction false} RevPrefix(c: nat, l: nat, m: nat)
    requires m <= l
    ensures Low(Rev(c, l), m) == Rev(Shr(c, l - m), m)
  {
    hide Rev;
    if m == l {
      RevBound(c, l);
      DivModUnique(Rev(c, l), 0, Rev(c, l), Pow2(l));
      assert Shr(c, 0) == c;
    } else {
      RevDropTop(c, l, m);
      RevPrefix(c / 2, l - 1, m);
      HalfOfQuotient(c, l - 1 - m);
    }
  }

  lemma RevDropTop(c: nat, l: nat, m: nat)
    requires m < l
    ensures Low(Rev(c, l), m) == Low(Rev(c / 2, l - 1), m)
  {
    hide Rev;
    RevUnfold(c, l);
    Pow2Add(l - 1 - m, m);
    ModOfMultiple(Rev(c / 2, l - 1), c % 2, Pow2(l - 1 - m), Pow2(m));
  }

  lemma {:induction false} RevInjective(c: nat, d: nat, l: nat)
    requires c < Pow2(l) && d < Pow2(l) && Rev(c, l) == Rev(d, l)
    ensures c == d
  {
    hide Rev;
    if l > 0 {
      RevUnfold(c, l);
      RevUnfold(d, l);
      RevBound(c / 2, l - 1);
      RevBound(d / 2, l - 1);
      DivModUnique(Rev(c, l), c % 2, Rev(c / 2, l - 1), Pow2(l - 1));
      DivModUnique(Rev(d, l), d % 2, Rev(d / 2, l - 1), Pow2(l - 1));
      RevInjective(c / 2, d / 2, l - 1);
    }
  }

  /** The other way to peel a reversal: the top bit of `c` becomes the lowest. */
  lemma {:induction false} RevTop(c: nat, l: nat)
    requires l > 0
    ensures Rev(c, l) == c / Pow2(l - 1) % 2 + 2 * Rev(c % Pow2(l - 1), l - 1)
  {
    if l == 1 {
      assert Rev(c, 1) == c % 2;
      assert Shr(c, 0) == c;
    } else {
      var p := Pow2(l - 2);
      RevTop(c / 2, l - 1);
      HalfFirst(c, p);
      RevUnfold(c, l);
      RevUnfold(c % (2 * p), l - 1);
      RevTopStep(c % 2, p, c / 2 / p % 2, Rev(c / 2 % p, l - 2));
    }
  }

  lemma RevTopStep(b: nat, p: nat, t: nat, r: nat)
    ensures b * (2 * p) + (t + 2 * r) == t + 2 * (b * p + r)
  {
    MulAssociates(2, b, p);
    MulAssociates(b, 2, p);
  }

  lemma {:induction false} RevTwice(v: nat, l: nat)
    requires v < Pow2(l)
    ensures Rev(Rev(v, l), l) == v
  {
    hide Rev;
    if l == 0 {
      RevBound(Rev(v, 0), 0);
    } else {
      RevUnfold(v, l);
      RevTop(Rev(v, l), l);
      RevBound(v / 2, l - 1);
      DivModUnique(Rev(v, l), v % 2, Rev(v / 2, l - 1), Pow2(l - 1));
      RevTwice(v / 2, l - 1);
    }
  }

  lemma QuotientFits(d: nat, a: nat, b: nat)
    requires a <= b && d < Pow2(b)
    ensures Shr(d, b - a) < Pow2(a)
  {
    hide Pow2;
    Pow2Add(a, b - a);
    DivideAbove(d, Pow2(a), Pow2(b - a));
  }

  /** Bit strings that differ in their first `a` bits still do when reversed. */
  lemma RevKeepsApart(c: nat, a: nat, d: nat, b: nat)
    requires a <= b && c < Pow2(a) && d < Pow2(b) && Shr(d, b - a) != c
    ensures Low(Rev(d, b), a) != Rev(c, a)
  {
    hide Rev, Shr, Low;
    RevPrefix(d, b, a);
    QuotientFits(d, a, b);
    if Low(Rev(d, b), a) == Rev(c, a) {
      RevInjective(Shr(d, b - a), c, a);
    }
  }

  // ---------- the reversal loop of both sides ----------

  /** `rev` holds the low bits of `code0` in reverse, `code` the `l` bits still to be moved. */
  ghost predicate Reversing(rev: nat, code: nat, l: nat, code0: nat, size: nat) {
    l <= size && rev * Pow2(l) + Rev(code, l) == Rev(code0, size)
  }

  method ReverseBits(code0: nat, size: nat) returns (rev: nat)
    requires size <= 15
    ensures rev == Rev(code0, size)
  {
    hide Reversing;
    var code, l := code0, size;
    rev := 0;
    ReverseStart(code0, size);
    while l > 0
      invariant Reversing(rev, code, l, code0, size)
    {
      ReverseStep(rev, code, l, code0, size);
      rev := (2 * rev + code % 2) % WORD;
      code := code / 2;
      l := l - 1;
    }
    ReverseDone(rev, code, code0, size);
  }

  lemma ReverseStart(code0: nat, size: nat)
    ensures Reversing(0, code0, size, code0, size)
  {}

  lemma ReverseDone(rev: nat, code: nat, code0: nat, size: nat)
    requires Reversing(rev, code, 0, code0, size)
    ensures rev == Rev(code0, size)
  {
    assert rev * Pow2(0) == rev;
  }

  lemma ReverseStep(rev: nat, code: nat, l: nat, code0: nat, size: nat)
    requires 0 < l && size <= 15 && Reversing(rev, code, l, code0, size)
    ensures Reversing(2 * rev + code % 2, code / 2, l - 1, code0, size)
    ensures 2 * rev + code % 2 < WORD
  {
    hide Rev, Pow2;
    RevUnfold(code, l);
    Pow2Unfold(l);
    RevBound(code0, size);
    Pow2Monotone(size, 15);
    Pow2Values();
    ReverseArithmetic(rev, code % 2, Pow2(l - 1));
  }

  lemma ReverseArithmetic(rev: nat, bit: nat, p: nat)
    requires p >= 1
    ensures (2 * rev + bit) * p == rev * (2 * p) + bit * p
    ensures 2 * rev + bit <= (2 * rev + bit) * p
  {
    MulDistributes(2 * rev, bit, p);
    MulAssociates(rev, 2, p);
    MulMonotone(1, p, 2 * rev + bit);
  }

  // ---------- prefix-freeness and completeness of the stream codes ----------

  /** No reversed code is the low bits of another one. */
  lemma PrefixFree(sizes: seq<nat>, i: nat, j: nat, m: nat)
    requires Fits(sizes, m) && i < |sizes| && j < |sizes| && i != j
    requires 1 <= sizes[i] <= sizes[j]
    ensures Low(RevCode(sizes, j), sizes[i]) != RevCode(sizes, i)
  {
    hide Code, Fits, Used;
    CodesDiffer(sizes, i, j, m);
    CodeFits(sizes, i, m);
    CodeFits(sizes, j, m);
    RevKeepsApart(Code(sizes, i), sizes[i], Code(sizes, j), sizes[j]);
  }

  lemma {:induction false} FindNth(s: seq<nat>, n: nat, d: int, k: nat) returns (i: nat)
    requires n <= |s| && k < CountTo(s, n, d)
    ensures i < n && s[i] == d && CountTo(s, i, d) == k
  {
    if s[n - 1] == d && CountTo(s, n - 1, d) == k {
      i := n - 1;
    } else {
      i := FindNth(s, n - 1, d, k);
    }
  }

  /** Some code is the first bits of the `l`-bit string `c`, if enough prefixes of length `l` are used. */
  lemma {:induction false} FindCode(sizes: seq<nat>, c: nat, l: nat) returns (i: nat)
    requires 1 <= l && c < Used(sizes, l)
    ensures i < |sizes| && 1 <= sizes[i] <= l && Code(sizes, i) == Shr(c, l - sizes[i])
  {
    if c < First(sizes, l) {
      i := FindCode(sizes, c / 2, l - 1);
      HalfOfQuotient(c, l - 1 - sizes[i]);
    } else {
      i := FindNth(sizes, |sizes|, l, c - First(sizes, l));
      assert Shr(c, 0) == c;
    }
  }

  /** With a full code space every bit string starts with a code. */
  lemma CodeExists(sizes: seq<nat>, v: nat, m: nat) returns (i: nat)
    requires Full(sizes, m)
    ensures i < |sizes| && 1 <= sizes[i] <= m && Low(v, sizes[i]) == RevCode(sizes, i)
  {
    var low := Low(v, m);
    var c := Rev(low, m);
    RevBound(low, m);
    i := FindCode(sizes, c, m);
    RevPrefix(c, m, sizes[i]);
    RevTwice(low, m);
    LowLow(v, m, sizes[i]);
  }

  /** A shorter limit already filled stays filled at any greater one. */
  lemma {:induction false} FullExtends(sizes: seq<nat>, a: nat, b: nat)
    requires Full(sizes, a) && a <= b
    ensures Full(sizes, b)
  {
    if a < b {
      FullExtends(sizes, a, b - 1);
      NoneOfSize(sizes, |sizes|, b);
    }
  }

  lemma {:induction false} NoneOfSize(s: seq<nat>, n: nat, d: nat)
    requires n <= |s| && forall i :: 0 <= i < n ==> s[i] < d
    ensures CountTo(s, n, d) == 0
  {
    if n > 0 { NoneOfSize(s, n - 1, d); }
  }
}
