/** mz_adler32: the checksum of section 2.2 of RFC 1950, with the remainders taken only every 5552 bytes. */
module Adler32 {
  import opened Powers
  import opened BitStream

  const BASE: nat := 65521
  const NMAX: nat := 5552

  datatype Sums = Sums(s1: nat, s2: nat)

  function Unpack(a: nat): Sums {
    Sums(a % 65536, a / 65536)
  }

  function Pack(s: Sums): nat {
    s.s2 * 65536 + s.s1
  }

  /** One byte, as the RFC defines it. */
  function Update(s: Sums, b: nat): Sums {
    Sums((s.s1 + b) % BASE, (s.s2 + (s.s1 + b) % BASE) % BASE)
  }

  function Fold(s: Sums, bytes: seq<nat>): Sums {
    if bytes == [] then s else Update(Fold(s, bytes[..|bytes| - 1]), bytes[|bytes| - 1])
  }

  /** The checksum of `bytes`, continuing from checksum `a`. */
  function Checksum(a: nat, bytes: seq<nat>): nat {
    Pack(Fold(Unpack(a), bytes))
  }

  /** The sums without any remainder taken. */
  function Raw(s: Sums, bytes: seq<nat>): Sums {
    if bytes == [] then s else
      var p := Raw(s, bytes[..|bytes| - 1]);
      Sums(p.s1 + bytes[|bytes| - 1], p.s2 + p.s1 + bytes[|bytes| - 1])
  }

  function Reduced(s: Sums): Sums {
    Sums(s.s1 % BASE, s.s2 % BASE)
  }

  // ---------- remainders may be taken late ----------

  lemma LateRemainder(x: nat, y: nat, b: nat)
    requires x % BASE == y % BASE
    ensures (x + b) % BASE == (y + b) % BASE
  {
    RemainderOfSum(x, b);
    RemainderOfSum(y, b);
  }

  lemma RemainderOfSum(x: nat, b: nat)
    ensures (x + b) % BASE == (x % BASE + b) % BASE
  {
    DivMod(x, BASE);
    ModOfSum(x % BASE + b, x / BASE, BASE);
  }

  /** One more byte keeps congruent sums congruent, whether the remainder is taken or not. */
  lemma UpdateLate(p: Sums, q: Sums, b: nat)
    requires Reduced(p) == Reduced(q)
    ensures Reduced(Sums(p.s1 + b, p.s2 + p.s1 + b)) == Update(q, b) == Reduced(Update(q, b))
  {
    LateRemainder(p.s1, q.s1, b);
    var x := (q.s1 + b) % BASE;
    LateRemainder(p.s2, q.s2, x);
    RemainderOfSum(p.s1 + b, p.s2);
  }

  lemma {:induction false} RawIsFold(p: Sums, q: Sums, bytes: seq<nat>)
    requires Reduced(p) == Reduced(q)
    ensures Reduced(Raw(p, bytes)) == Reduced(Fold(q, bytes))
    ensures bytes != [] ==> Fold(q, bytes) == Reduced(Fold(q, bytes))
  {
    if bytes != [] {
      var n := |bytes| - 1;
      RawIsFold(p, q, bytes[..n]);
      UpdateLate(Raw(p, bytes[..n]), Fold(q, bytes[..n]), bytes[n]);
    }
  }

  lemma {:induction false} FoldConcat(s: Sums, a: seq<nat>, b: seq<nat>)
    ensures Fold(s, a + b) == Fold(Fold(s, a), b)
  {
    if b == [] {
      assert a + b == a;
    } else {
      var n := |b| - 1;
      assert (a + b)[..|a| + n] == a + b[..n];
      FoldConcat(s, a, b[..n]);
    }
  }

  lemma {:induction false} FoldSmall(s: Sums, bytes: seq<nat>)
    requires s.s1 < 65536 && s.s2 < 65536
    ensures Fold(s, bytes).s1 < 65536 && Fold(s, bytes).s2 < 65536
  {
    if bytes != [] { FoldSmall(s, bytes[..|bytes| - 1]); }
  }

  /** Checksums compose: a message may be summed piece by piece. */
  lemma ChecksumConcat(a: nat, x: seq<nat>, y: seq<nat>)
    requires a < WORD
    ensures Checksum(a, x + y) == Checksum(Checksum(a, x), y) && Checksum(a, x) < WORD
  {
    FoldConcat(Unpack(a), x, y);
    FoldSmall(Unpack(a), x);
    PackUnpack(Fold(Unpack(a), x));
  }

  lemma PackUnpack(s: Sums)
    requires s.s1 < 65536
    ensures Unpack(Pack(s)) == s
  {}

  // ---------- no overflow within a block ----------

  function Triangle(k: nat): nat {
    if k == 0 then 0 else Triangle(k - 1) + k
  }

  lemma {:induction false} TriangleClosed(k: nat)
    ensures 2 * Triangle(k) == k * (k + 1)
  {
    if k > 0 { TriangleClosed(k - 1); }
  }

  lemma {:induction false} TriangleGrows(j: nat, k: nat)
    requires j <= k
    ensures Triangle(j) <= Triangle(k)
    decreases k - j
  {
    if j < k { TriangleGrows(j, k - 1); }
  }

  lemma {:induction false} RawBound(s: Sums, bytes: seq<nat>)
    requires s.s1 < 65536 && s.s2 < 65536 && AllBytes(bytes)
    ensures Raw(s, bytes).s1 <= 65535 + 255 * |bytes|
    ensures Raw(s, bytes).s2 <= 65535 * (|bytes| + 1) + 255 * Triangle(|bytes|)
  {
    if bytes != [] { RawBound(s, bytes[..|bytes| - 1]); }
  }

  /** 5552 bytes are few enough for 32 bits, whatever 16-bit sums they start from. */
  lemma NoOverflow(s: Sums, bytes: seq<nat>)
    requires s.s1 < 65536 && s.s2 < 65536 && AllBytes(bytes) && |bytes| <= NMAX
    ensures Raw(s, bytes).s1 < WORD && Raw(s, bytes).s2 < WORD
  {
    RawBound(s, bytes);
    TriangleGrows(|bytes|, NMAX);
    TriangleClosed(NMAX);
  }

  // ---------- the loops ----------

  method SumOne(b: nat, s1: nat, s2: nat, ghost s: Sums, ghost bytes: seq<nat>, ghost i: nat) returns (t1: nat, t2: nat)
    requires s.s1 < 65536 && s.s2 < 65536 && AllBytes(bytes) && |bytes| <= NMAX && i < |bytes| && b == bytes[i]
    requires Sums(s1, s2) == Raw(s, bytes[..i])
    ensures Sums(t1, t2) == Raw(s, bytes[..i + 1])
  {
    assert bytes[..i + 1][..i] == bytes[..i];
    NoOverflow(s, bytes[..i + 1]);
    t1 := (s1 + b) % WORD;
    t2 := (s2 + t1) % WORD;
  }

  /** One block: eight bytes at a time, then the rest, then the remainders. */
  method SumBlock(data: seq<nat>, from: nat, blockLen: nat, r1: nat, r2: nat) returns (s1: nat, s2: nat)
    requires from + blockLen <= |data| && blockLen <= NMAX && AllBytes(data) && r1 < 65536 && r2 < 65536
    ensures Sums(s1, s2) == Reduced(Raw(Sums(r1, r2), data[from..from + blockLen]))
  {
    hide Raw;
    ghost var bytes, s := data[from..from + blockLen], Sums(r1, r2);
    s1, s2 := r1, r2;
    RawNothing(s);
    var i: nat := 0;
    while i + 7 < blockLen
      invariant 0 <= i <= blockLen && Sums(s1, s2) == Raw(s, bytes[..i])
    {
      var k := 0;
      while k < 8
        invariant 0 <= k <= 8 && Sums(s1, s2) == Raw(s, bytes[..i + k])
      {
        s1, s2 := SumOne(data[from + i + k], s1, s2, s, bytes, i + k);
        k := k + 1;
      }
      i := i + 8;
    }
    while i < blockLen
      invariant 0 <= i <= blockLen && Sums(s1, s2) == Raw(s, bytes[..i])
    {
      s1, s2 := SumOne(data[from + i], s1, s2, s, bytes, i);
      i := i + 1;
    }
    assert bytes[..blockLen] == bytes;
    s1, s2 := s1 % BASE, s2 % BASE;
  }

  lemma RawNothing(s: Sums)
    ensures Raw(s, []) == s
  {}

  /** The first block takes what is left over after whole blocks of 5552 bytes, and may be empty. */
  method Adler(adler: nat, data: seq<nat>) returns (sum: nat)
    requires adler < WORD && AllBytes(data)
    ensures sum == Checksum(adler, data) < WORD
  {
    hide Raw, Fold;
    var s1: nat, s2: nat := adler % 65536, adler / 65536;
    ghost var s := Sums(s1, s2);
    var bufLen: nat, blockLen: nat, at: nat := |data|, |data| % NMAX, 0;
    Nothing(s);
    while bufLen != 0
      invariant at + bufLen == |data| && blockLen <= NMAX && (blockLen == NMAX || at == 0)
      invariant bufLen != 0 ==> blockLen <= bufLen && (bufLen - blockLen) % NMAX == 0
      invariant s1 < 65536 && s2 < 65536 && Reduced(Sums(s1, s2)) == Reduced(Fold(s, data[..at]))
      invariant data == [] ==> Sums(s1, s2) == s
      invariant at > 0 ==> Sums(s1, s2) == Reduced(Fold(s, data[..at]))
      decreases bufLen, if blockLen == NMAX then 0 else 1
    {
      ghost var r := Sums(s1, s2);
      ghost var block := data[at..at + blockLen];
      s1, s2 := SumBlock(data, at, blockLen, s1, s2);
      RawIsFold(r, Fold(s, data[..at]), block);
      FoldConcat(s, data[..at], block);
      assert data[..at] + block == data[..at + blockLen];
      at := at + blockLen;
      bufLen := bufLen - blockLen;
      blockLen := NMAX;
    }
    assert data[..at] == data;
    RawIsFold(s, s, data);
    FoldSmall(s, data);
    sum := s2 * 65536 % WORD + s1;
  }

  lemma Nothing(s: Sums)
    ensures Fold(s, []) == s
  {}

  // ---------- the two sums in closed form ----------

  function PlainTo(bytes: seq<nat>, i: nat): nat
    requires i <= |bytes|
  {
    if i == 0 then 0 else PlainTo(bytes, i - 1) + bytes[i - 1]
  }

  /** Every byte as often as there are bytes from it to the `n`-th. */
  function WeightedTo(bytes: seq<nat>, n: nat, i: nat): nat
    requires i <= |bytes| && i <= n
  {
    if i == 0 then 0 else WeightedTo(bytes, n, i - 1) + (n - i + 1) * bytes[i - 1]
  }

  lemma {:induction false} PlainPrefix(bytes: seq<nat>, n: nat, i: nat)
    requires i <= n <= |bytes|
    ensures PlainTo(bytes[..n], i) == PlainTo(bytes, i)
  {
    if i > 0 { PlainPrefix(bytes, n, i - 1); }
  }

  lemma {:induction false} WeightedPrefix(bytes: seq<nat>, n: nat, i: nat)
    requires i <= n <= |bytes|
    ensures WeightedTo(bytes[..n], n, i) == WeightedTo(bytes, n, i)
    ensures WeightedTo(bytes, n + 1, i) == WeightedTo(bytes, n, i) + PlainTo(bytes, i)
  {
    if i > 0 {
      WeightedPrefix(bytes, n, i - 1);
      Once(n - i + 1, bytes[i - 1]);
    }
  }

  lemma Once(k: nat, b: nat)
    ensures (k + 1) * b == k * b + b
  {}

  lemma {:induction false} RawClosed(bytes: seq<nat>)
    ensures Raw(Sums(1, 0), bytes) == Sums(1 + PlainTo(bytes, |bytes|), |bytes| + WeightedTo(bytes, |bytes|, |bytes|))
  {
    if bytes != [] {
      var n := |bytes| - 1;
      RawClosed(bytes[..n]);
      PlainPrefix(bytes, n, n);
      WeightedPrefix(bytes, n, n);
    }
  }

  /** Section 8.2 of RFC 1950: one more than the sum of all bytes, and the sum of the sums after each byte, both modulo 65521. */
  lemma ChecksumClosed(bytes: seq<nat>)
    ensures Checksum(1, bytes) == (|bytes| + WeightedTo(bytes, |bytes|, |bytes|)) % 65521 * 65536 + (1 + PlainTo(bytes, |bytes|)) % 65521
  {
    hide Raw, Fold, PlainTo, WeightedTo;
    RawClosed(bytes);
    RawIsFold(Sums(1, 0), Sums(1, 0), bytes);
    if bytes == [] {
      RawNothing(Sums(1, 0));
      Nothing(Sums(1, 0));
    }
  }
}
