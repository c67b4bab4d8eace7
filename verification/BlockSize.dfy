/** How many bits a block takes, and why every block fits the output buffer.

    A block with new codes is compared with one in a flat code: 9 bits for a
    literal, 6 for a length or the end of the block, 5 for a distance. The codes
    made from the counts cost at most one bit each time more than that. */
module BlockSize {
  import opened Powers
  import opened TwoQueue
  import opened HuffmanTable
  import opened LimitCost
  import opened TableCost
  import opened BitStream
  import opened Canonical
  import opened HuffmanTrie
  import opened LzOps
  import opened LzCodes
  import opened CodeLengthPacking
  import opened BlockFormat

  /** No block takes more; the output buffer holds 681440 bits. */
  const MOST_BLOCK_BITS: nat := 660000

  // ---------- at most ten bits for each byte the operations were kept in ----------

  function MostBits(op: Op): nat {
    if op.Literal? then 11 else 31
  }

  lemma OpBits(op: Op, lit: seq<nat>, dist: seq<nat>)
    requires Legal(op) && FixedLit(lit) && FixedDist(dist)
    ensures FieldsBits(OpFields(op, lit, dist)) <= MostBits(op)
  {
    hide RevCode, LenSym, DistSym, LenExtra, DistExtra, Low;
    if op.Literal? {
      FieldsOne(CodeField(lit, op.c), 0);
    } else {
      LengthRoundTrip(op.len - MIN_MATCH);
      DistanceRoundTrip(op.dist - 1);
      FourFields(OpFields(op, lit, dist));
    }
  }

  lemma FourFields(fs: seq<Field>)
    requires |fs| == 4
    ensures FieldsBits(fs) == fs[0].bits + fs[1].bits + fs[2].bits + fs[3].bits
  {
    var a, b, c := fs[1..], fs[1..][1..], fs[1..][1..][1..];
    assert a[0] == fs[1] && b[0] == fs[2] && c[0] == fs[3] && c[1..] == [];
    assert FieldsBits(c) == c[0].bits + FieldsBits(c[1..]);
    assert FieldsBits(b) == b[0].bits + FieldsBits(c);
  }

  /** The most bits the operations can take. */
  function MostBitsAll(ops: seq<Op>): nat {
    if ops == [] then 7 else MostBits(ops[0]) + MostBitsAll(ops[1..])
  }

  lemma {:induction false} OpsBits(ops: seq<Op>, lit: seq<nat>, dist: seq<nat>)
    requires AllLegal(ops) && FixedLit(lit) && FixedDist(dist)
    ensures FieldsBits(OpsFields(ops, lit, dist)) <= MostBitsAll(ops)
  {
    hide OpFields, RevCode;
    if ops == [] {
      FieldsOne(CodeField(lit, END_OF_BLOCK), 0);
    } else {
      OpBits(ops[0], lit, dist);
      OpsBits(ops[1..], lit, dist);
      FieldsConcat(OpFields(ops[0], lit, dist), OpsFields(ops[1..], lit, dist), 0);
    }
  }

  /** Ten bits for each byte of a group are enough, since a match takes three bytes and a group has a byte of flags. */
  lemma {:induction false} GroupBits(g: seq<Op>, rest: seq<Op>, spare: nat)
    requires AllLegal(g) && |g| <= spare
    ensures MostBitsAll(g + rest) <= 10 * |Payload(g)| + spare + MostBitsAll(rest)
  {
    if g == [] {
      assert g + rest == rest;
    } else {
      assert (g + rest)[0] == g[0] && (g + rest)[1..] == g[1..] + rest;
      GroupBits(g[1..], rest, spare - 1);
    }
  }

  lemma {:induction false} GroupsBits(gs: seq<seq<Op>>)
    requires LegalGroups(gs) && Grouped(gs)
    ensures MostBitsAll(Flat(gs)) <= 10 * |GroupsBytes(gs)| + 7
  {
    if gs != [] {
      GroupsBits(gs[1..]);
      GroupBits(gs[0], Flat(gs[1..]), 8);
    }
  }

  // ---------- operations, symbol by symbol ----------

  function LitBits(ops: seq<Op>, lit: seq<nat>): nat
    requires AllLegal(ops) && |lit| == LIT_SYMBOLS
  {
    if ops == [] then lit[END_OF_BLOCK] else lit[LitSymbol(ops[0])] + LitBits(ops[1..], lit)
  }

  function DistBits(ops: seq<Op>, dist: seq<nat>): nat
    requires AllLegal(ops) && |dist| == DIST_SYMBOLS
  {
    if ops == [] then 0 else (if ops[0].Match? then dist[DistSymbol(ops[0])] else 0) + DistBits(ops[1..], dist)
  }

  /** Bits behind the symbols. */
  function RestBits(op: Op): nat {
    if op.Match? && op.len >= MIN_MATCH && op.dist >= 1 then LenExtra(op.len - MIN_MATCH) + DistExtra(op.dist - 1) else 0
  }

  function AllRestBits(ops: seq<Op>): nat {
    if ops == [] then 0 else RestBits(ops[0]) + AllRestBits(ops[1..])
  }

  lemma OpSize(op: Op, lit: seq<nat>, dist: seq<nat>)
    requires Legal(op) && |lit| == LIT_SYMBOLS && |dist| == DIST_SYMBOLS
    ensures FieldsBits(OpFields(op, lit, dist))
            == lit[LitSymbol(op)] + (if op.Match? then dist[DistSymbol(op)] else 0) + RestBits(op)
  {
    hide RevCode, LenSym, DistSym, LenExtra, DistExtra, Low;
    if op.Literal? {
      FieldsOne(CodeField(lit, op.c), 0);
    } else {
      FourFields(OpFields(op, lit, dist));
    }
  }

  lemma {:induction false} OpsSize(ops: seq<Op>, lit: seq<nat>, dist: seq<nat>)
    requires AllLegal(ops) && |lit| == LIT_SYMBOLS && |dist| == DIST_SYMBOLS
    ensures FieldsBits(OpsFields(ops, lit, dist)) == LitBits(ops, lit) + DistBits(ops, dist) + AllRestBits(ops)
  {
    hide OpFields, RevCode, RestBits, LitSymbol, DistSymbol;
    if ops == [] {
      FieldsOne(CodeField(lit, END_OF_BLOCK), 0);
    } else {
      OpSize(ops[0], lit, dist);
      OpsSize(ops[1..], lit, dist);
      FieldsConcat(OpFields(ops[0], lit, dist), OpsFields(ops[1..], lit, dist), 0);
    }
  }

  // ---------- the same sums over the alphabets ----------

  function LitCounts(ops: seq<Op>): (c: seq<nat>)
    requires AllLegal(ops)
    ensures |c| == LIT_SYMBOLS
  {
    seq(LIT_SYMBOLS, s requires 0 <= s < LIT_SYMBOLS => LitUses(ops, s) + if s == END_OF_BLOCK then 1 else 0)
  }

  function DistCounts(ops: seq<Op>): (c: seq<nat>)
    requires AllLegal(ops)
    ensures |c| == DIST_SYMBOLS
  {
    seq(DIST_SYMBOLS, s requires 0 <= s < DIST_SYMBOLS => DistUses(ops, s))
  }

  lemma {:induction false} UsesFront(ops: seq<Op>, s: nat)
    requires AllLegal(ops) && ops != []
    ensures LitUses(ops, s) == LitUses(ops[1..], s) + if LitSymbol(ops[0]) == s then 1 else 0
    ensures DistUses(ops, s) == DistUses(ops[1..], s) + if ops[0].Match? && DistSymbol(ops[0]) == s then 1 else 0
  {
    hide LitSymbol, DistSymbol;
    var n := |ops| - 1;
    if n == 0 {
      assert ops[..0] == [] && ops[1..] == [];
    } else {
      UsesFront(ops[..n], s);
      assert ops[..n][1..] == ops[1..][..n - 1] && ops[1..][n - 1] == ops[n];
    }
  }

  lemma {:induction false} CostIncrement(w: seq<nat>, l: seq<nat>, k: nat, n: nat)
    requires n <= |w| == |l| && k < |w|
    ensures CostTo(w[k := w[k] + 1], l, n) == CostTo(w, l, n) + if k < n then l[k] else 0
  {
    if n > 0 {
      CostIncrement(w, l, k, n - 1);
      if k == n - 1 {
        MulDistributes(w[k], 1, l[k]);
      }
    }
  }

  lemma {:induction false} CostOfNone(w: seq<nat>, l: seq<nat>, n: nat)
    requires n <= |w| == |l| && forall s :: 0 <= s < |w| ==> w[s] == 0
    ensures CostTo(w, l, n) == 0
  {
    if n > 0 { CostOfNone(w, l, n - 1); }
  }

  lemma {:induction false} LitCost(ops: seq<Op>, lit: seq<nat>)
    requires AllLegal(ops) && |lit| == LIT_SYMBOLS
    ensures Cost(LitCounts(ops), lit) == LitBits(ops, lit)
  {
    hide LitSymbol, CostTo;
    if ops == [] {
      var none := seq(LIT_SYMBOLS, s => 0);
      CostOfNone(none, lit, LIT_SYMBOLS);
      CostIncrement(none, lit, END_OF_BLOCK, LIT_SYMBOLS);
      assert LitCounts(ops) == none[END_OF_BLOCK := 1];
    } else {
      var rest, k := LitCounts(ops[1..]), LitSymbol(ops[0]);
      LitCost(ops[1..], lit);
      CostIncrement(rest, lit, k, LIT_SYMBOLS);
      forall s | 0 <= s < LIT_SYMBOLS ensures LitCounts(ops)[s] == rest[k := rest[k] + 1][s] {
        UsesFront(ops, s);
      }
      assert LitCounts(ops) == rest[k := rest[k] + 1];
    }
  }

  lemma {:induction false} DistCost(ops: seq<Op>, dist: seq<nat>)
    requires AllLegal(ops) && |dist| == DIST_SYMBOLS
    ensures Cost(DistCounts(ops), dist) == DistBits(ops, dist)
  {
    hide DistSymbol, CostTo;
    if ops == [] {
      CostOfNone(DistCounts(ops), dist, DIST_SYMBOLS);
    } else {
      var rest := DistCounts(ops[1..]);
      DistCost(ops[1..], dist);
      if ops[0].Match? {
        var k := DistSymbol(ops[0]);
        CostIncrement(rest, dist, k, DIST_SYMBOLS);
        forall s | 0 <= s < DIST_SYMBOLS ensures DistCounts(ops)[s] == rest[k := rest[k] + 1][s] {
          UsesFront(ops, s);
        }
        assert DistCounts(ops) == rest[k := rest[k] + 1];
      } else {
        forall s | 0 <= s < DIST_SYMBOLS ensures DistCounts(ops)[s] == rest[s] {
          UsesFront(ops, s);
        }
        assert DistCounts(ops) == rest;
      }
    }
  }

  // ---------- the flat code ----------

  function FlatLit(): (l: seq<nat>)
    ensures |l| == LIT_SYMBOLS
  {
    seq(LIT_SYMBOLS, s => if s < END_OF_BLOCK then 9 else 6)
  }

  function FlatDist(): (l: seq<nat>)
    ensures |l| == DIST_SYMBOLS
  {
    seq(DIST_SYMBOLS, s => 5)
  }

  lemma {:induction false} FlatLitSpace(n: nat)
    requires n <= LIT_SYMBOLS
    ensures KraftTo(FlatLit(), n, 9) == if n <= END_OF_BLOCK then n else END_OF_BLOCK + 8 * (n - END_OF_BLOCK)
  {
    if n > 0 {
      FlatLitSpace(n - 1);
      assert Share(9, 9) == 1;
      assert Share(6, 9) == 8;
    }
  }

  lemma {:induction false} FlatDistSpace(n: nat)
    requires n <= DIST_SYMBOLS
    ensures KraftTo(FlatDist(), n, 5) == n
  {
    if n > 0 {
      FlatDistSpace(n - 1);
      assert Share(5, 5) == 1;
    }
  }

  lemma FlatFits()
    ensures AtMost(FlatLit(), 9) && Kraft(FlatLit(), 9) <= Pow2(9)
    ensures AtMost(FlatDist(), 5) && Kraft(FlatDist(), 5) <= Pow2(5)
  {
    FlatLitSpace(LIT_SYMBOLS);
    FlatDistSpace(DIST_SYMBOLS);
    Pow2Values();
  }

  lemma {:induction false} FlatBits(ops: seq<Op>)
    requires AllLegal(ops)
    ensures LitBits(ops, FlatLit()) + DistBits(ops, FlatDist()) + AllRestBits(ops) + 2 * |ops| + 1 <= MostBitsAll(ops)
  {
    hide LenSym, DistSym, LenExtra, DistExtra;
    if ops != [] {
      FlatBits(ops[1..]);
      if ops[0].Match? {
        LengthRoundTrip(ops[0].len - MIN_MATCH);
        DistanceRoundTrip(ops[0].dist - 1);
      }
    }
  }

  // ---------- a block with new codes ----------

  /** The codes of lengths `lit` and `dist` cost the operations at most one bit for each symbol more than any others that
      fit the code space. */
  ghost predicate Thrifty(ops: seq<Op>, lit: seq<nat>, dist: seq<nat>) {
    && AllLegal(ops) && |lit| == LIT_SYMBOLS && |dist| == DIST_SYMBOLS
    && (forall other: seq<nat>, m: nat :: |other| == LIT_SYMBOLS && AtMost(other, m) && Kraft(other, m) <= Pow2(m) ==>
          LitBits(ops, lit) <= LitBits(ops, other) + |ops| + 1)
    && (forall other: seq<nat>, m: nat :: |other| == DIST_SYMBOLS && AtMost(other, m) && Kraft(other, m) <= Pow2(m) ==>
          DistBits(ops, dist) <= DistBits(ops, other) + |ops|)
  }

  /** Codes made from the counts of the operations, with at most 286 and 30 symbols in use, are. */
  lemma MadeFromCounts(ops: seq<Op>, lit: seq<nat>, dist: seq<nat>, ls: seq<nat>, lw: seq<nat>, ds: seq<nat>, dw: seq<nat>)
    requires AllLegal(ops) && |lit| == LIT_SYMBOLS && |dist| == DIST_SYMBOLS
    requires Listing(ls, lw, LitCounts(ops)) && NearlyOptimal(lw, Along(lit, ls, 0)) && Sum(LitCounts(ops)) <= |ops| + 1
    requires Listing(ds, dw, DistCounts(ops)) && NearlyOptimal(dw, Along(dist, ds, 0)) && Sum(DistCounts(ops)) <= |ops|
    ensures Thrifty(ops, lit, dist)
  {
    hide Listing, NearlyOptimal, Along, CostTo, SumTo, KraftTo, LitBits, DistBits, Pow2, LitUses, DistUses, LitCounts, DistCounts, AtMost;
    LitCost(ops, lit);
    DistCost(ops, dist);
    forall other: seq<nat>, m: nat | |other| == LIT_SYMBOLS && AtMost(other, m) && Kraft(other, m) <= Pow2(m)
      ensures LitBits(ops, lit) <= LitBits(ops, other) + |ops| + 1
    {
      TableNearlyOptimal(ls, lw, LitCounts(ops), lit, other, m);
      LitCost(ops, other);
    }
    forall other: seq<nat>, m: nat | |other| == DIST_SYMBOLS && AtMost(other, m) && Kraft(other, m) <= Pow2(m)
      ensures DistBits(ops, dist) <= DistBits(ops, other) + |ops|
    {
      TableNearlyOptimal(ds, dw, DistCounts(ops), dist, other, m);
      DistCost(ops, other);
    }
  }

  /** So they cost little more than the flat code. */
  lemma ThriftyBits(ops: seq<Op>, lit: seq<nat>, dist: seq<nat>)
    requires Thrifty(ops, lit, dist)
    ensures FieldsBits(OpsFields(ops, lit, dist)) <= MostBitsAll(ops)
  {
    hide CostTo, SumTo, KraftTo, LitBits, DistBits, AllRestBits, MostBitsAll, OpsFields, Pow2, FlatLit, FlatDist;
    FlatFits();
    FlatBits(ops);
    OpsSize(ops, lit, dist);
  }

  // ---------- the header of a block with new codes ----------

  lemma {:induction false} OrderedBits(len: seq<nat>, i: nat, n: nat)
    requires |len| == LEN_SYMBOLS && i <= n <= LEN_SYMBOLS
    ensures FieldsBits(OrderedFields(len, i, n)) == 3 * (n - i)
    decreases n - i
  {
    if i < n {
      OrderedBits(len, i + 1, n);
      FieldsOne(Field(len[LEN_ORDER[i]], 3), 0);
      FieldsConcat([Field(len[LEN_ORDER[i]], 3)], OrderedFields(len, i + 1, n), 0);
    }
  }

  lemma TokenBits(t: Token, len: seq<nat>)
    requires Sound(t) && |len| == LEN_SYMBOLS && SizesAtMost(len, 7)
    ensures FieldsBits(TokenFields(t, len)) <= 14
  {
    hide RevCode;
    FieldsOne(CodeField(len, Symbol(t)), 0);
    if !t.Length? {
      var x := Field(Extra(t), ExtraBits(Symbol(t)));
      FieldsOne(x, 0);
      FieldsConcat([CodeField(len, Symbol(t))], [x], 0);
    } else {
      assert TokenFields(t, len) == [CodeField(len, Symbol(t))];
    }
  }

  lemma {:induction false} TokensBits(ts: seq<Token>, len: seq<nat>)
    requires AllSound(ts) && |len| == LEN_SYMBOLS && SizesAtMost(len, 7)
    ensures FieldsBits(TokensFields(ts, len)) <= 14 * |ts|
  {
    hide TokenFields, Sound, SizesAtMost;
    if ts != [] {
      TokenBits(ts[0], len);
      TokensBits(ts[1..], len);
      FieldsConcat(TokenFields(ts[0], len), TokensFields(ts[1..], len), 0);
    }
  }

  /** Every token gives at least one length. */
  lemma {:induction false} UnpackLong(ts: seq<Token>)
    requires AllSound(ts) && Unpack(ts).Some?
    ensures |ts| <= |Unpack(ts).value|
  {
    if ts != [] { UnpackLong(ts[..|ts| - 1]); }
  }

  lemma HeaderBits(lit: seq<nat>, dist: seq<nat>, len: seq<nat>, litCodes: nat, distCodes: nat, bitLengths: nat, ts: seq<Token>)
    requires Describes(lit, dist, len, litCodes, distCodes, bitLengths, ts)
    ensures FieldsBits(HeaderFields(litCodes, distCodes, bitLengths, len, ts)) <= 4498
  {
    hide Fits, Acceptable, ZeroFrom, OrderedFields, TokensFields, FieldsBits, FieldsValue, Unpack, Sound;
    UnpackLong(ts);
    OrderedBits(len, 0, bitLengths);
    TokensBits(ts, len);
    var h := [Field(2, 2), Field(litCodes - 257, 5), Field(distCodes - 1, 5), Field(bitLengths - 4, 4)];
    FourFields(h);
    FieldsConcat(h, OrderedFields(len, 0, bitLengths), 0);
    FieldsConcat(h + OrderedFields(len, 0, bitLengths), TokensFields(ts, len), 0);
  }

  /** A compressed block, with either kind of codes, of operations that fit the operation buffer. */
  lemma CompressedBits(c: Codes, gs: seq<seq<Op>>)
    requires LegalGroups(gs) && Grouped(gs) && |GroupsBytes(gs)| <= LZ_CODE_BUF_SIZE
    requires Consistent(c) && (c.DynamicCodes? ==> Thrifty(Flat(gs), c.lit, c.dist))
    ensures AllLegal(Flat(gs)) && |c.lit| == LIT_SYMBOLS && |c.dist| == DIST_SYMBOLS
    ensures FieldsBits(CodesFields(c) + OpsFields(Flat(gs), c.lit, c.dist)) <= 10 * |GroupsBytes(gs)| + 4505 <= MOST_BLOCK_BITS
  {
    hide Thrifty, GroupsBytes, OpsFields, FixedLit, FixedDist, FieldsBits, FieldsValue, Describes, MostBitsAll, HeaderFields, Grouped, LegalGroups;
    LegalFlat(gs);
    GroupsBits(gs);
    CodesSized(c);
    if c.FixedCodes? {
      OpsBits(Flat(gs), c.lit, c.dist);
      FieldsOne(Field(1, 2), 0);
    } else {
      HeaderBits(c.lit, c.dist, c.len, c.litCodes, c.distCodes, c.bitLengths, c.ts);
      ThriftyBits(Flat(gs), c.lit, c.dist);
    }
    FieldsConcat(CodesFields(c), OpsFields(Flat(gs), c.lit, c.dist), 0);
  }

  lemma CodesSized(c: Codes)
    requires Consistent(c)
    ensures |c.lit| == LIT_SYMBOLS && |c.dist| == DIST_SYMBOLS
    ensures c.FixedCodes? ==> FixedLit(c.lit) && FixedDist(c.dist) && CodesFields(c) == [Field(1, 2)]
    ensures c.DynamicCodes? ==> Describes(c.lit, c.dist, c.len, c.litCodes, c.distCodes, c.bitLengths, c.ts)
                                && CodesFields(c) == HeaderFields(c.litCodes, c.distCodes, c.bitLengths, c.len, c.ts)
  {
    hide HeaderFields, Fits, Acceptable, Unpack, ZeroFrom;
  }

  // ---------- stored blocks ----------

  lemma {:induction false} BytesBits(bytes: seq<nat>)
    ensures FieldsBits(BytesFields(bytes)) == 8 * |bytes|
  {
    if bytes != [] {
      BytesBits(bytes[1..]);
      FieldsConcat([Field(bytes[0], 8)], BytesFields(bytes[1..]), 0);
      FieldsOne(Field(bytes[0], 8), 0);
    }
  }

  lemma StoredBits(bytes: seq<nat>, used: nat)
    requires BlockFormat.WellFormed(StoredBlock(bytes)) && |bytes| <= DICT_SIZE
    ensures FieldsBits(BlockFields(StoredBlock(bytes), used)) <= 300000
    ensures (used + FieldsBits(BlockFields(StoredBlock(bytes), used))) / 8 - used / 8 <= |bytes| + 6
  {
    hide BytesFields, FieldsBits, FieldsValue, PadFields;
    BytesBits(bytes);
    PadBits(used + 2);
    StoredParts(Field(0, 2), PadFields(used + 2), Field(|bytes|, 16), Field(65535 - |bytes|, 16), BytesFields(bytes));
  }

  lemma StoredParts(a: Field, pad: seq<Field>, n: Field, m: Field, bytes: seq<Field>)
    ensures FieldsBits([a] + pad + [n, m] + bytes) == a.bits + FieldsBits(pad) + n.bits + m.bits + FieldsBits(bytes)
  {
    hide FieldsBits, FieldsValue;
    FieldsConcat([a] + pad + [n, m], bytes, 0);
    FieldsConcat([a] + pad, [n, m], 0);
    FieldsConcat([a], pad, 0);
    FieldsConcat([n], [m], 0);
    assert [n, m] == [n] + [m];
    FieldsOne(a, 0);
    FieldsOne(n, 0);
    FieldsOne(m, 0);
  }

  lemma PadBits(used: nat)
    ensures FieldsBits(PadFields(used)) <= 8
  {
    if used % 8 != 0 {
      FieldsOne(Field(0, 8 - used % 8), 0);
    }
  }
}
