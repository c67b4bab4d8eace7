/** Literals and matches, what they expand to, and how DEFLATE numbers lengths and distances
    (sections 3.2.5 and 3.2.3 of RFC 1951). */
module LzOps {
  import opened Wrappers
  import opened Powers

  const MIN_MATCH: nat := 3
  const MAX_MATCH: nat := 258
  const DICT_SIZE: nat := 32768

  datatype Op = Literal(c: nat) | Match(len: nat, dist: nat)

  predicate Legal(op: Op) {
    match op
    case Literal(c) => c < 256
    case Match(len, dist) => MIN_MATCH <= len <= MAX_MATCH && 1 <= dist <= DICT_SIZE
  }

  predicate AllLegal(ops: seq<Op>) {
    forall i :: 0 <= i < |ops| ==> Legal(ops[i])
  }

  // ---------- expansion ----------

  /** `len` bytes copied from `dist` bytes back, one at a time, so that a match may overlap itself. */
  function Copied(out: seq<nat>, len: nat, dist: nat): (r: seq<nat>)
    requires 1 <= dist <= |out|
    ensures |r| == |out| + len
    decreases len
  {
    if len == 0 then out else Copied(out + [out[|out| - dist]], len - 1, dist)
  }

  /** No distance reaches back beyond the first byte. */
  function Applied(out: seq<nat>, op: Op): Option<seq<nat>> {
    match op
    case Literal(c) => Some(out + [c])
    case Match(len, dist) => if 1 <= dist <= |out| then Some(Copied(out, len, dist)) else None
  }

  function Expand(start: seq<nat>, ops: seq<Op>): Option<seq<nat>> {
    if ops == [] then Some(start) else
      match Expand(start, ops[..|ops| - 1])
      case None => None
      case Some(out) => Applied(out, ops[|ops| - 1])
  }

  lemma ExpandSnoc(start: seq<nat>, ops: seq<Op>, op: Op)
    requires Expand(start, ops).Some?
    ensures Expand(start, ops + [op]) == Applied(Expand(start, ops).value, op)
  {
    assert (ops + [op])[..|ops|] == ops;
  }

  lemma {:induction false} ExpandConcat(start: seq<nat>, a: seq<Op>, b: seq<Op>)
    requires Expand(start, a).Some?
    ensures Expand(start, a + b) == Expand(Expand(start, a).value, b)
  {
    if b == [] {
      assert a + b == a;
    } else {
      var n := |b| - 1;
      assert (a + b)[..|a| + n] == a + b[..n] && (a + b)[|a| + n] == b[n];
      ExpandConcat(start, a, b[..n]);
    }
  }

  /** A match whose source agrees with what follows in `input` produces it. */
  lemma {:induction false} MatchCopies(input: seq<nat>, n: nat, len: nat, dist: nat)
    requires 1 <= dist <= n && n + len <= |input|
    requires forall q :: n <= q < n + len ==> input[q] == input[q - dist]
    ensures Copied(input[..n], len, dist) == input[..n + len]
    decreases len
  {
    if len > 0 {
      assert input[..n] + [input[n - dist]] == input[..n + 1];
      MatchCopies(input, n + 1, len - 1, dist);
    }
  }

  function OpLength(op: Op): nat {
    if op.Literal? then 1 else op.len
  }

  function Total(ops: seq<Op>): nat {
    if ops == [] then 0 else Total(ops[..|ops| - 1]) + OpLength(ops[|ops| - 1])
  }

  lemma {:induction false} ExpandLength(start: seq<nat>, ops: seq<Op>)
    ensures Expand(start, ops).Some? ==> |Expand(start, ops).value| == |start| + Total(ops)
    ensures Expand(start, ops).Some? ==> start <= Expand(start, ops).value
  {
    if ops != [] {
      ExpandLength(start, ops[..|ops| - 1]);
      match Expand(start, ops[..|ops| - 1])
      case None =>
      case Some(out) =>
        var op := ops[|ops| - 1];
        if op.Match? && 1 <= op.dist <= |out| {
          CopiedExtends(out, op.len, op.dist);
        }
    }
  }

  lemma {:induction false} CopiedExtends(out: seq<nat>, len: nat, dist: nat)
    requires 1 <= dist <= |out|
    ensures out <= Copied(out, len, dist)
    decreases len
  {
    if len > 0 {
      CopiedExtends(out + [out[|out| - dist]], len - 1, dist);
    }
  }

  // ---------- length and distance symbols; the source tabulates these formulas ----------

  function Log2(x: nat): nat
    requires x > 0
  {
    if x == 1 then 0 else 1 + Log2(x / 2)
  }

  lemma {:induction false} Log2Bounds(x: nat, top: nat)
    requires 0 < x < Pow2(top)
    ensures Pow2(Log2(x)) <= x < 2 * Pow2(Log2(x)) && Log2(x) < top
  {
    if x > 1 {
      Log2Bounds(x / 2, top - 1);
    } else {
      assert top > 0;
    }
  }

  /** s_tdefl_len_sym and s_tdefl_len_extra, for a match length less 3. */
  function LenSym(l: nat): nat {
    if l < 8 then 257 + l
    else if l == 255 then 285
    else 253 + 4 * Log2(l) + (if l < Pow2(Log2(l)) then 0 else l - Pow2(Log2(l))) / Pow2(LenExtra(l))
  }

  function LenExtra(l: nat): nat {
    if l < 8 || l == 255 || Log2(l) < 2 then 0 else Log2(l) - 2
  }

  /** s_length_base and s_length_extra. */
  function LengthBase(sym: nat): nat {
    if sym < 265 then (if sym < 257 then 0 else sym - 254)
    else if sym == 285 then 258
    else if sym > 285 then 0
    else 3 + Pow2((sym - 253) / 4) + (sym - 253) % 4 * Pow2((sym - 261) / 4)
  }

  function LengthExtra(sym: nat): nat {
    if sym < 265 || sym >= 285 then 0 else (sym - 261) / 4
  }

  /** s_tdefl_small_dist_sym and s_tdefl_large_dist_sym, for a distance less 1; likewise the extra bits. */
  function DistSym(d: nat): nat {
    if d < 4 then d
    else 2 * Log2(d) + (if d < Pow2(Log2(d)) then 0 else d - Pow2(Log2(d))) / Pow2(DistExtra(d))
  }

  function DistExtra(d: nat): nat {
    if d < 4 || Log2(d) < 1 then 0 else Log2(d) - 1
  }

  /** s_dist_base and s_dist_extra. */
  function DistBase(sym: nat): nat {
    if sym < 4 then sym + 1 else if sym >= 30 then 0 else 1 + Pow2(sym / 2) + sym % 2 * Pow2(sym / 2 - 1)
  }

  function DistanceExtra(sym: nat): nat {
    if sym < 4 || sym >= 30 then 0 else sym / 2 - 1
  }

  /** `q` numbers the part of [2^k, 2^(k+1)) that `x` lies in, if that range is cut into 2^w equal parts. */
  ghost predicate Part(x: nat, k: nat, w: nat, q: nat) {
    w <= k && Pow2(k) <= x && q == (x - Pow2(k)) / Pow2(k - w) && q < Pow2(w)
    && x == Pow2(k) + q * Pow2(k - w) + x % Pow2(k - w)
  }

  lemma FindPart(x: nat, k: nat, w: nat) returns (q: nat)
    requires w <= k && Pow2(k) <= x < 2 * Pow2(k)
    ensures Part(x, k, w, q)
  {
    hide Pow2;
    var d := Pow2(k - w);
    q := (x - Pow2(k)) / d;
    Pow2Add(w, k - w);
    DivMod(x - Pow2(k), d);
    DivideAbove(x - Pow2(k), Pow2(w), d);
    ModOfSum(x - Pow2(k), Pow2(w), d);
  }

  /** The decoder undoes the compressor: symbol and extra bits give back the length. */
  lemma LengthRoundTrip(l: nat)
    requires l < 256
    ensures 257 <= LenSym(l) <= 285 && LengthExtra(LenSym(l)) == LenExtra(l) <= 5
    ensures LengthBase(LenSym(l)) + l % Pow2(LenExtra(l)) == l + 3
  {
    hide Pow2, Log2, Part, DistSym, DistExtra, DistBase, DistanceExtra, LenSym, LenExtra, LengthBase, LengthExtra;
    Pow2Values();
    if 8 <= l < 255 {
      var k := Log2(l);
      Log2Bounds(l, 8);
      LongLength(l, k);
      var q := FindPart(l, k, 2);
      LongLenSym(l, k, q);
      LongLenBase(l, k, q);
    } else {
      ShortLength(l);
    }
  }

  lemma ShortLength(l: nat)
    requires l < 8 || l == 255
    ensures 257 <= LenSym(l) <= 285 && LengthExtra(LenSym(l)) == LenExtra(l) == 0 && LengthBase(LenSym(l)) == l + 3
    ensures l % Pow2(0) == 0
  {}

  lemma LongLenSym(l: nat, k: nat, q: nat)
    requires 8 <= l < 255 && k == Log2(l) >= 3 && Part(l, k, 2, q)
    ensures LenSym(l) == 253 + 4 * k + q && LenExtra(l) == k - 2
  {
    hide Pow2;
  }

  lemma LongLenBase(l: nat, k: nat, q: nat)
    requires 3 <= k < 8 && Part(l, k, 2, q)
    ensures 257 <= 253 + 4 * k + q < 285 && LengthExtra(253 + 4 * k + q) == k - 2
    ensures LengthBase(253 + 4 * k + q) + l % Pow2(k - 2) == l + 3
  {
    hide Pow2;
    Pow2Unfold(2);
    Pow2Values();
    SymbolParts(k, q);
  }

  lemma LongLength(l: nat, k: nat)
    requires 8 <= l && Pow2(k) <= l < 2 * Pow2(k)
    ensures k >= 3
  {
    assert Pow2(2) == 4;
    if k < 3 { Pow2Monotone(k, 2); }
  }

  lemma SymbolParts(k: nat, q: nat)
    requires k >= 3 && q < 4
    ensures (4 * k + q) / 4 == k && (4 * k + q) % 4 == q && (4 * k + q - 8) / 4 == k - 2
  {}

  lemma DistanceRoundTrip(d: nat)
    requires d < DICT_SIZE
    ensures DistSym(d) < 30 && DistanceExtra(DistSym(d)) == DistExtra(d) <= 13
    ensures DistBase(DistSym(d)) + d % Pow2(DistExtra(d)) == d + 1
  {
    hide Pow2, Log2, Part, DistSym, DistExtra, DistBase, DistanceExtra, LenSym, LenExtra, LengthBase, LengthExtra;
    Pow2Values();
    if d >= 4 {
      var k := Log2(d);
      Log2Bounds(d, 15);
      LongDistance(d, k);
      var q := FindPart(d, k, 1);
      LongDistSym(d, k, q);
      LongDistBase(d, k, q);
    } else {
      ShortDistance(d);
    }
  }

  lemma ShortDistance(d: nat)
    requires d < 4
    ensures DistSym(d) < 30 && DistanceExtra(DistSym(d)) == DistExtra(d) == 0 && DistBase(DistSym(d)) == d + 1
    ensures d % Pow2(0) == 0
  {}

  lemma LongDistSym(d: nat, k: nat, q: nat)
    requires d >= 4 && k == Log2(d) >= 2 && Part(d, k, 1, q)
    ensures DistSym(d) == 2 * k + q && DistExtra(d) == k - 1
  {
    hide Pow2;
  }

  lemma LongDistBase(d: nat, k: nat, q: nat)
    requires 2 <= k < 15 && Part(d, k, 1, q)
    ensures 2 * k + q < 30 && DistanceExtra(2 * k + q) == k - 1
    ensures DistBase(2 * k + q) + d % Pow2(k - 1) == d + 1
  {
    hide Pow2;
    Pow2Values();
  }

  lemma LongDistance(d: nat, k: nat)
    requires 4 <= d && Pow2(k) <= d < 2 * Pow2(k)
    ensures k >= 2
  {
    assert Pow2(1) == 2;
    if k < 2 { Pow2Monotone(k, 1); }
  }

  /** From 512 on the distance tables are indexed by the upper byte alone, which suffices. */
  lemma LargeDistance(d: nat)
    requires 512 <= d < DICT_SIZE
    ensures DistSym(d / 256 * 256) == DistSym(d) && DistExtra(d / 256 * 256) == DistExtra(d)
  {
    hide Pow2, Log2, DistSym, DistExtra;
    var k := Log2(d);
    Pow2Values();
    Log2Bounds(d, 16);
    AtLeast512(d, k);
    UpperByte(d, k);
    Log2Unique(d / 256 * 256, k);
    LargeSym(d, k);
    LargeSym(d / 256 * 256, k);
    SamePart(d, k);
  }

  lemma SamePart(d: nat, k: nat)
    requires k >= 9 && Pow2(k) <= d && Pow2(k) <= d / 256 * 256
    ensures (d / 256 * 256 - Pow2(k)) / Pow2(k - 1) == (d - Pow2(k)) / Pow2(k - 1)
  {
    hide Pow2;
    Pow2Byte(k - 8);
    Pow2Byte(k - 9);
    UpperBits(d, Pow2(k - 9), Pow2(k - 8));
  }

  lemma AtLeast512(d: nat, k: nat)
    requires 512 <= d && Pow2(k) <= d < 2 * Pow2(k)
    ensures k >= 9
  {
    if k < 9 {
      Pow2Monotone(k, 8);
      Pow2Values();
    }
  }

  lemma UpperByte(d: nat, k: nat)
    requires k >= 9 && Pow2(k) <= d < 2 * Pow2(k)
    ensures Pow2(k) <= d / 256 * 256 < 2 * Pow2(k)
  {
    hide Pow2;
    Pow2Byte(k - 8);
    DivideBelow(d, Pow2(k - 8), 256);
  }

  lemma LargeSym(d: nat, k: nat)
    requires d > 0 && k >= 9 && k == Log2(d) && Pow2(k) <= d
    ensures d >= 4 && DistExtra(d) == k - 1 && DistSym(d) == 2 * k + (d - Pow2(k)) / Pow2(k - 1)
  {
    hide Pow2;
    Pow2Monotone(2, k);
    assert Pow2(2) == 4 by { Pow2Unfold(2); Pow2Values(); }
  }

  lemma {:induction false} Log2Unique(x: nat, k: nat)
    requires Pow2(k) <= x < 2 * Pow2(k)
    ensures Log2(x) == k
  {
    if k > 0 { Log2Unique(x / 2, k - 1); }
  }

  /** Dropping the low byte before dividing by a multiple of 256 changes nothing. */
  lemma UpperBits(d: nat, p: nat, q: nat)
    requires p > 0 && q * 256 <= d
    ensures d / 256 * 256 >= q * 256
    ensures (d / 256 * 256 - q * 256) / (p * 256) == (d - q * 256) / (p * 256)
  {
    var x := d - q * 256;
    ModOfSum(x, q, 256);
    assert d / 256 * 256 - q * 256 == x / 256 * 256;
    NestedQuotient(x, p);
    NestedQuotient(x / 256 * 256, p);
  }

  lemma NestedQuotient(x: nat, p: nat)
    requires p > 0
    ensures x / (p * 256) == x / 256 / p
  {
    var y := x / 256;
    DivMod(x, 256);
    DivMod(y, p);
    MulAssociates(y / p, p, 256);
    MulDistributes(y / p * p, y % p, 256);
    DivModUnique(x, y / p, y % p * 256 + x % 256, p * 256);
  }

  // ---------- the tables of section 3.2.5 of RFC 1951 ----------

  const LENGTH_BASES: seq<nat> := [3, 4, 5, 6, 7, 8, 9, 10, 11, 13, 15, 17, 19, 23, 27, 31, 35, 43, 51, 59, 67, 83, 99, 115, 131, 163, 195, 227, 258]
  const LENGTH_EXTRAS: seq<nat> := [0, 0, 0, 0, 0, 0, 0, 0, 1, 1, 1, 1, 2, 2, 2, 2, 3, 3, 3, 3, 4, 4, 4, 4, 5, 5, 5, 5, 0]
  const DIST_BASES: seq<nat> := [1, 2, 3, 4, 5, 7, 9, 13, 17, 25, 33, 49, 65, 97, 129, 193, 257, 385, 513, 769, 1025, 1537, 2049, 3073, 4097,
                                 6145, 8193, 12289, 16385, 24577]

  /** The formulas are the tables. */
  lemma LengthTable(sym: nat)
    requires 257 <= sym <= 285
    ensures LengthBase(sym) == LENGTH_BASES[sym - 257] && LengthExtra(sym) == LENGTH_EXTRAS[sym - 257]
  {
    hide Pow2;
    SmallPowers();
    if 265 <= sym < 285 {
      var k, q := (sym - 253) / 4, (sym - 253) % 4;
      assert sym == 253 + 4 * k + q && 3 <= k < 8 && (sym - 261) / 4 == k - 2;
      LengthRow(k, q);
    }
  }

  lemma LengthRow(k: nat, q: nat)
    requires 3 <= k < 8 && q < 4
    ensures 3 + Pow2(k) + q * Pow2(k - 2) == LENGTH_BASES[4 * k + q - 4] && k - 2 == LENGTH_EXTRAS[4 * k + q - 4]
  {
    hide Pow2;
    SmallPowers();
  }

  lemma SmallPowers()
    ensures Pow2(0) == 1 && Pow2(1) == 2 && Pow2(2) == 4 && Pow2(3) == 8 && Pow2(4) == 16 && Pow2(5) == 32 && Pow2(6) == 64
    ensures Pow2(7) == 128 && Pow2(8) == 256 && Pow2(9) == 512 && Pow2(10) == 1024 && Pow2(11) == 2048 && Pow2(12) == 4096
    ensures Pow2(13) == 8192 && Pow2(14) == 16384
  {
    assert Pow2(2) == 4;
    assert Pow2(4) == 16;
    assert Pow2(6) == 64;
    assert Pow2(8) == 256;
    assert Pow2(10) == 1024;
    assert Pow2(12) == 4096;
  }

  lemma DistanceTable(sym: nat)
    requires sym < 30
    ensures DistBase(sym) == DIST_BASES[sym] && DistanceExtra(sym) == if sym < 2 then 0 else sym / 2 - 1
  {
    hide Pow2;
    SmallPowers();
    if sym >= 4 {
      var k, q := sym / 2, sym % 2;
      assert sym == 2 * k + q && 2 <= k < 15;
      DistanceRow(k, q);
    }
  }

  lemma DistanceRow(k: nat, q: nat)
    requires 2 <= k < 15 && q < 2
    ensures 1 + Pow2(k) + q * Pow2(k - 1) == DIST_BASES[2 * k + q]
  {
    hide Pow2;
    SmallPowers();
  }
}
