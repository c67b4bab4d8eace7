/** A DEFLATE block as the fields it is made of (sections 3.2.3 to 3.2.7 of RFC 1951). */
module BlockFormat {
  import opened Wrappers
  import opened Powers
  import opened BitStream
  import opened HuffmanTree
  import opened Canonical
  import opened HuffmanTrie
  import opened LzOps
  import opened LzCodes
  import opened CodeLengthPacking

  const MAX_CODE_SIZE: nat := 15
  const LEN_SYMBOLS: nat := 19

  /** s_tdefl_packed_code_size_syms_swizzle, and s_length_dezigzag. */
  const LEN_ORDER: seq<nat> := [16, 17, 18, 0, 8, 7, 9, 6, 10, 5, 11, 4, 12, 3, 13, 2, 14, 1, 15]

  function CodeField(sizes: seq<nat>, i: nat): Field
    requires i < |sizes|
  {
    Field(RevCode(sizes, i), sizes[i])
  }

  lemma CodeFieldFits(sizes: seq<nat>, i: nat)
    requires i < |sizes|
    ensures CodeField(sizes, i).value < Pow2(sizes[i])
  {
    hide Rev, Code;
    RevBound(Code(sizes, i), sizes[i]);
  }

  /** A number's lowest `bits` bits. */
  function LowField(x: nat, bits: nat): Field {
    Field(Low(x, bits), bits)
  }

  // ---------- literals and matches ----------

  function OpFields(op: Op, lit: seq<nat>, dist: seq<nat>): seq<Field>
    requires Legal(op) && |lit| == LIT_SYMBOLS && |dist| == DIST_SYMBOLS
  {
    if op.Literal? then [CodeField(lit, op.c)] else
      [CodeField(lit, LitSymbol(op)), LowField(op.len - MIN_MATCH, LenExtra(op.len - MIN_MATCH)),
       CodeField(dist, DistSymbol(op)), LowField(op.dist - 1, DistExtra(op.dist - 1))]
  }

  /** The operations and the end-of-block symbol. */
  function OpsFields(ops: seq<Op>, lit: seq<nat>, dist: seq<nat>): seq<Field>
    requires AllLegal(ops) && |lit| == LIT_SYMBOLS && |dist| == DIST_SYMBOLS
  {
    if ops == [] then [CodeField(lit, END_OF_BLOCK)] else OpFields(ops[0], lit, dist) + OpsFields(ops[1..], lit, dist)
  }

  /** Every symbol the operations need has a code. */
  predicate Covers(lit: seq<nat>, dist: seq<nat>, ops: seq<Op>) {
    && |lit| == LIT_SYMBOLS && |dist| == DIST_SYMBOLS && AllLegal(ops) && lit[END_OF_BLOCK] > 0
    && forall i :: 0 <= i < |ops| ==> lit[LitSymbol(ops[i])] > 0 && (ops[i].Match? ==> dist[DistSymbol(ops[i])] > 0)
  }

  lemma CoveredShape(lit: seq<nat>, dist: seq<nat>, ops: seq<Op>)
    requires Covers(lit, dist, ops)
    ensures AllLegal(ops) && |lit| == LIT_SYMBOLS && |dist| == DIST_SYMBOLS && lit[END_OF_BLOCK] > 0
  {
    hide LitSymbol, DistSymbol;
  }

  // ---------- the code lengths of a dynamic block ----------

  function TokenFields(t: Token, len: seq<nat>): seq<Field>
    requires Sound(t) && |len| == LEN_SYMBOLS
  {
    [CodeField(len, Symbol(t))] + if t.Length? then [] else [Field(Extra(t), ExtraBits(Symbol(t)))]
  }

  function TokensFields(ts: seq<Token>, len: seq<nat>): seq<Field>
    requires AllSound(ts) && |len| == LEN_SYMBOLS
  {
    if ts == [] then [] else TokenFields(ts[0], len) + TokensFields(ts[1..], len)
  }

  /** The lengths of the code length code from entry `i` of the order on. */
  function OrderedFields(len: seq<nat>, i: nat, n: nat): seq<Field>
    requires |len| == LEN_SYMBOLS && n <= LEN_SYMBOLS
    decreases n - i
  {
    if i >= n then [] else [Field(len[LEN_ORDER[i]], 3)] + OrderedFields(len, i + 1, n)
  }

  function HeaderFields(litCodes: nat, distCodes: nat, bitLengths: nat, len: seq<nat>, ts: seq<Token>): seq<Field>
    requires 257 <= litCodes && 1 <= distCodes && 4 <= bitLengths <= LEN_SYMBOLS && |len| == LEN_SYMBOLS && AllSound(ts)
  {
    [Field(2, 2), Field(litCodes - 257, 5), Field(distCodes - 1, 5), Field(bitLengths - 4, 4)]
    + OrderedFields(len, 0, bitLengths) + TokensFields(ts, len)
  }

  // ---------- stored bytes ----------

  function BytesFields(bytes: seq<nat>): seq<Field> {
    if bytes == [] then [] else [Field(bytes[0], 8)] + BytesFields(bytes[1..])
  }

  // ---------- fixed codes ----------

  function FixedLitSize(i: nat): nat {
    if i <= 143 then 8 else if i <= 255 then 9 else if i <= 279 then 7 else 8
  }

  predicate FixedLit(sizes: seq<nat>) {
    |sizes| == LIT_SYMBOLS && forall i :: 0 <= i < LIT_SYMBOLS ==> sizes[i] == FixedLitSize(i)
  }

  predicate FixedDist(sizes: seq<nat>) {
    |sizes| == DIST_SYMBOLS && forall i :: 0 <= i < DIST_SYMBOLS ==> sizes[i] == 5
  }

  lemma {:induction false} CountStretch(s: seq<nat>, a: nat, b: nat, v: nat, d: int)
    requires a <= b <= |s| && forall i :: a <= i < b ==> s[i] == v
    ensures CountTo(s, b, d) == CountTo(s, a, d) + if v == d then b - a else 0
    decreases b - a
  {
    if a < b { CountStretch(s, a, b - 1, v, d); }
  }

  lemma FixedLitCount(s: seq<nat>, d: int)
    requires FixedLit(s)
    ensures Count(s, d) == if d == 7 then 24 else if d == 8 then 152 else if d == 9 then 112 else 0
  {
    CountStretch(s, 0, 144, 8, d);
    CountStretch(s, 144, 256, 9, d);
    CountStretch(s, 256, 280, 7, d);
    CountStretch(s, 280, 288, 8, d);
  }

  lemma {:induction false} NothingUsed(s: seq<nat>, l: nat)
    requires forall d :: 1 <= d <= l ==> Count(s, d) == 0
    ensures First(s, l) == 0 && (l >= 1 ==> Used(s, l) == 0)
  {
    if l > 1 { NothingUsed(s, l - 1); }
  }

  /** The fixed literal code fills the code space. */
  lemma FixedLitFull(s: seq<nat>)
    requires FixedLit(s)
    ensures Full(s, MAX_CODE_SIZE)
  {
    hide Count;
    forall d ensures Count(s, d) == if d == 7 then 24 else if d == 8 then 152 else if d == 9 then 112 else 0 {
      FixedLitCount(s, d);
    }
    NothingUsed(s, 6);
    Pow2Values();
    assert First(s, 7) == 0 && First(s, 8) == 48 && First(s, 9) == 400;
    FullExtends(s, 9, MAX_CODE_SIZE);
  }

  /** The code values of section 3.2.6 of RFC 1951. */
  lemma FixedLitCodes(s: seq<nat>, i: nat)
    requires FixedLit(s) && i < LIT_SYMBOLS
    ensures Code(s, i) == if i <= 143 then 0x30 + i else if i <= 255 then 0x190 + (i - 144) else if i <= 279 then i - 256 else 0xC0 + (i - 280)
  {
    hide Count;
    forall d ensures Count(s, d) == if d == 7 then 24 else if d == 8 then 152 else if d == 9 then 112 else 0 {
      FixedLitCount(s, d);
    }
    NothingUsed(s, 6);
    assert First(s, 7) == 0 && First(s, 8) == 48 && First(s, 9) == 400;
    CountStretch(s, 0, if i <= 144 then i else 144, 8, s[i]);
    if i > 144 { CountStretch(s, 144, if i <= 256 then i else 256, 9, s[i]); }
    if i > 256 { CountStretch(s, 256, if i <= 280 then i else 280, 7, s[i]); }
    if i > 280 { CountStretch(s, 280, i, 8, s[i]); }
  }

  lemma FixedDistCodes(s: seq<nat>, i: nat)
    requires FixedDist(s) && i < DIST_SYMBOLS
    ensures Code(s, i) == i
  {
    hide Count;
    forall d | 1 <= d <= 4 ensures Count(s, d) == 0 {
      FixedDistCount(s, d);
    }
    NothingUsed(s, 4);
    assert First(s, 5) == 0;
    CountStretch(s, 0, i, 5, 5);
  }

  lemma FixedDistCount(s: seq<nat>, d: int)
    requires FixedDist(s)
    ensures Count(s, d) == if d == 5 then 32 else 0
  {
    CountStretch(s, 0, 32, 5, d);
  }

  lemma FixedDistFull(s: seq<nat>)
    requires FixedDist(s)
    ensures Full(s, MAX_CODE_SIZE)
  {
    hide Count;
    forall d ensures Count(s, d) == if d == 5 then 32 else 0 {
      FixedDistCount(s, d);
    }
    NothingUsed(s, 4);
    Pow2Values();
    assert First(s, 5) == 0;
    FullExtends(s, 5, MAX_CODE_SIZE);
  }

  // ---------- what a dynamic header says ----------

  predicate ZeroFrom(s: seq<nat>, n: nat) {
    n <= |s| && forall i :: n <= i < |s| ==> s[i] == 0
  }

  /** Every token has a code in the code length code `len`. */
  predicate TokensCovered(ts: seq<Token>, len: seq<nat>) {
    && |len| == LEN_SYMBOLS && AllSound(ts)
    && forall i :: 0 <= i < |ts| ==> len[Symbol(ts[i])] > 0
  }

  /** The first `litCodes` and `distCodes` lengths, in tokens `ts`, and the length code `len` itself, cut
      after entry `bitLengths` of its order; nothing cut off matters. */
  ghost predicate Describes(lit: seq<nat>, dist: seq<nat>, len: seq<nat>, litCodes: nat, distCodes: nat, bitLengths: nat, ts: seq<Token>) {
    && |lit| == LIT_SYMBOLS && 257 <= litCodes <= 286 && ZeroFrom(lit, litCodes)
    && |dist| == DIST_SYMBOLS && 1 <= distCodes <= 30 && ZeroFrom(dist, distCodes)
    && TokensCovered(ts, len) && Unpack(ts) == Some(lit[..litCodes] + dist[..distCodes])
    && 4 <= bitLengths <= LEN_SYMBOLS && (forall i :: bitLengths <= i < LEN_SYMBOLS ==> len[LEN_ORDER[i]] == 0)
    && Acceptable(len) && SizesAtMost(len, 7) && Acceptable(lit) && Acceptable(dist)
    && Fits(lit, MAX_CODE_SIZE) && Fits(dist, MAX_CODE_SIZE)
  }

  /** The codes of a compressed block. */
  datatype Codes =
    | FixedCodes(lit: seq<nat>, dist: seq<nat>)
    | DynamicCodes(lit: seq<nat>, dist: seq<nat>, len: seq<nat>, litCodes: nat, distCodes: nat, bitLengths: nat, ts: seq<Token>)

  ghost predicate Consistent(c: Codes) {
    match c
    case FixedCodes(lit, dist) => FixedLit(lit) && FixedDist(dist)
    case DynamicCodes(lit, dist, len, litCodes, distCodes, bitLengths, ts) =>
      Describes(lit, dist, len, litCodes, distCodes, bitLengths, ts)
  }

  /** Block type and, for new codes, their description. */
  ghost function CodesFields(c: Codes): seq<Field>
    requires Consistent(c)
  {
    match c
    case FixedCodes(_, _) => [Field(1, 2)]
    case DynamicCodes(_, _, len, litCodes, distCodes, bitLengths, ts) => HeaderFields(litCodes, distCodes, bitLengths, len, ts)
  }

  datatype Block = StoredBlock(bytes: seq<nat>) | CompressedBlock(codes: Codes, ops: seq<Op>)

  ghost predicate WellFormed(b: Block) {
    match b
    case StoredBlock(bytes) => |bytes| < 65536 && forall i :: 0 <= i < |bytes| ==> bytes[i] < 256
    case CompressedBlock(codes, ops) => Consistent(codes) && Covers(codes.lit, codes.dist, ops)
  }

  /** The fields of a block behind its final flag, `used` bits of the stream being before them. */
  ghost function BlockFields(b: Block, used: nat): seq<Field>
    requires WellFormed(b)
  {
    match b
    case StoredBlock(bytes) =>
      [Field(0, 2)] + PadFields(used + 2) + [Field(|bytes|, 16), Field(65535 - |bytes|, 16)] + BytesFields(bytes)
    case CompressedBlock(codes, ops) => CodesFields(codes) + OpsFields(ops, codes.lit, codes.dist)
  }

  /** Zero bits up to the next byte. */
  function PadFields(used: nat): seq<Field> {
    if used % 8 == 0 then [] else [Field(0, 8 - used % 8)]
  }

  /** The output after the block. */
  ghost function Meaning(b: Block, out: seq<nat>): Option<seq<nat>> {
    match b
    case StoredBlock(bytes) => Some(out + bytes)
    case CompressedBlock(_, ops) => Expand(out, ops)
  }

  // ---------- streams of blocks ----------

  datatype Flagged = Flagged(block: Block, final: bool)

  ghost predicate AllWellFormed(bs: seq<Flagged>) {
    forall i :: 0 <= i < |bs| ==> WellFormed(bs[i].block)
  }

  ghost function FlaggedFields(b: Flagged, used: nat): seq<Field>
    requires WellFormed(b.block)
  {
    [Field(if b.final then 1 else 0, 1)] + BlockFields(b.block, used + 1)
  }

  /** The fields `start`, then the blocks. */
  ghost function StreamFields(start: seq<Field>, bs: seq<Flagged>): seq<Field>
    requires AllWellFormed(bs)
  {
    if bs == [] then start else
      var before := StreamFields(start, bs[..|bs| - 1]);
      before + FlaggedFields(bs[|bs| - 1], FieldsBits(before))
  }

  /** What the blocks together expand to. */
  ghost function MeaningAll(bs: seq<Flagged>): Option<seq<nat>> {
    if bs == [] then Some([]) else
      match MeaningAll(bs[..|bs| - 1])
      case None => None
      case Some(out) => Meaning(bs[|bs| - 1].block, out)
  }

  lemma OneMore(start: seq<Field>, bs: seq<Flagged>, b: Flagged)
    requires AllWellFormed(bs) && WellFormed(b.block)
    ensures AllWellFormed(bs + [b])
    ensures StreamFields(start, bs + [b]) == StreamFields(start, bs) + FlaggedFields(b, FieldsBits(StreamFields(start, bs)))
    ensures MeaningAll(bs).Some? ==> MeaningAll(bs + [b]) == Meaning(b.block, MeaningAll(bs).value)
  {
    hide WellFormed, FlaggedFields, Meaning;
    assert (bs + [b])[..|bs|] == bs;
  }

  /** Two ways to cut the same bits into fields. */
  ghost predicate SameBits(f: seq<Field>, g: seq<Field>) {
    FieldsValue(f, 0) == FieldsValue(g, 0) && FieldsBits(f) == FieldsBits(g)
  }

  lemma SameBitsAppend(f: seq<Field>, g: seq<Field>, h: seq<Field>, k: seq<Field>)
    requires SameBits(f, g) && SameBits(h, k)
    ensures SameBits(f + h, g + k)
  {
    hide FieldsValue, FieldsBits, Pow2;
    FieldsConcat(f, h, 0);
    FieldsConcat(g, k, 0);
    FieldsRest(f, FieldsValue(h, 0));
    FieldsRest(g, FieldsValue(h, 0));
  }
}
