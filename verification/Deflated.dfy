/** What a compressed stream means, bit by bit (section 3.2 of RFC 1951, section 2.2 of RFC 1950): a reference for the decoder
    that knows nothing of its tables, buffers and loops.

    Every predicate says that reading from `a` on gives something and leaves `b`. Where codes do not use up the code space,
    bits that are no code stand for symbol 0. */
module Deflated {
  import opened Powers
  import opened Canonical
  import opened HuffmanTrie
  import opened BitStream
  import opened LzOps
  import opened LzCodes
  import opened CodeLengthPacking
  import opened BlockFormat
  import Adler32

  /** So many bits, as a number, the first one lowest. */
  datatype Rest = Rest(value: nat, bits: nat)

  // ---------- numbers and symbols ----------

  /** From the next byte on; a stream is a whole number of bytes. */
  ghost function AtByte(a: Rest): Rest {
    Rest(Shr(a.value, a.bits % 8), a.bits / 8 * 8)
  }

  ghost function Dropped(a: Rest, n: nat): Rest
    requires n <= a.bits
  {
    Rest(Shr(a.value, n), a.bits - n)
  }

  ghost predicate TookBits(a: Rest, n: nat, x: nat, b: Rest) {
    n <= a.bits && x == Low(a.value, n) && b == Dropped(a, n)
  }

  ghost predicate TookSymbol(sizes: seq<nat>, a: Rest, sym: nat, b: Rest) {
    exists len: nat :: TookCode(sizes, a, sym, len, b)
  }

  ghost predicate TookCode(sizes: seq<nat>, a: Rest, sym: nat, len: nat, b: Rest) {
    len <= a.bits && Decodes(sizes, a.value, sym, len) && b == Dropped(a, len)
  }

  // ---------- literals and matches ----------

  /** Length and distance, the symbol `sym` having been read. */
  ghost predicate TookMatch(dist: seq<nat>, sym: nat, a: Rest, len: nat, d: nat, b: Rest) {
    exists e: nat, m: Rest, ds: nat, k: Rest, f: nat :: TookParts(dist, sym, a, e, m, ds, k, f, b) && len == LengthBase(sym) + e && d == DistBase(ds) + f
  }

  ghost predicate TookParts(dist: seq<nat>, sym: nat, a: Rest, e: nat, m: Rest, ds: nat, k: Rest, f: nat, b: Rest) {
    TookBits(a, LengthExtra(sym), e, m) && TookSymbol(dist, m, ds, k) && TookBits(k, DistanceExtra(ds), f, b)
  }

  /** The match copied; for a distance of 0 nothing is said about the bytes. */
  ghost predicate CopiedTo(out: seq<nat>, len: nat, d: nat, more: seq<nat>) {
    d <= |out| && |more| == |out| + len && out <= more && (d > 0 ==> more == Copied(out, len, d))
  }

  /** One symbol, not the end of the block. */
  ghost predicate TookOp(lit: seq<nat>, dist: seq<nat>, a: Rest, out: seq<nat>, b: Rest, more: seq<nat>) {
    exists sym: nat, m: Rest :: TookSymbol(lit, a, sym, m) && Continues(dist, sym, m, out, b, more)
  }

  ghost predicate Continues(dist: seq<nat>, sym: nat, m: Rest, out: seq<nat>, b: Rest, more: seq<nat>) {
    if sym < END_OF_BLOCK then b == m && more == out + [sym]
    else sym > END_OF_BLOCK && exists len: nat, d: nat :: TookMatch(dist, sym, m, len, d, b) && CopiedTo(out, len, d, more)
  }

  ghost predicate TookOps(lit: seq<nat>, dist: seq<nat>, n: nat, a: Rest, out: seq<nat>, b: Rest, more: seq<nat>) {
    if n == 0 then b == a && more == out
    else exists m: Rest, mid: seq<nat> :: TookOps(lit, dist, n - 1, a, out, m, mid) && TookOp(lit, dist, m, mid, b, more)
  }

  /** Everything up to and including the end of the block. */
  ghost predicate TookSymbols(lit: seq<nat>, dist: seq<nat>, a: Rest, out: seq<nat>, b: Rest, more: seq<nat>) {
    exists n: nat, m: Rest :: TookOps(lit, dist, n, a, out, m, more) && TookSymbol(lit, m, END_OF_BLOCK, b)
  }

  // ---------- stored bytes ----------

  ghost predicate TookBytes(n: nat, a: Rest, out: seq<nat>, b: Rest, more: seq<nat>) {
    if n == 0 then b == a && more == out
    else exists m: Rest, mid: seq<nat>, c: nat :: TookBytes(n - 1, a, out, m, mid) && TookBits(m, 8, c, b) && more == mid + [c]
  }

  /** Up to the byte boundary, the length and its complement, the bytes. The stream is a whole number of bytes. */
  ghost predicate TookStored(a: Rest, out: seq<nat>, b: Rest, more: seq<nat>) {
    exists n: nat, m: Rest, k: Rest, l: Rest :: TookLength(a, n, m, k, l) && TookBytes(n, l, out, b, more)
  }

  ghost predicate TookLength(a: Rest, n: nat, m: Rest, k: Rest, l: Rest) {
    n < 65536 && m == AtByte(a) && TookBits(m, 16, n, k) && TookBits(k, 16, 65535 - n, l)
  }

  // ---------- the codes of a dynamic block ----------

  /** The lengths of the code length code, three bits each, in their own order. */
  ghost predicate TookOrdered(n: nat, a: Rest, len: seq<nat>, b: Rest)
    requires n <= LEN_SYMBOLS
  {
    if n == 0 then b == a && len == seq(LEN_SYMBOLS, _ => 0)
    else exists m: Rest, before: seq<nat>, x: nat ::
      TookOrdered(n - 1, a, before, m) && TookBits(m, 3, x, b) && |before| == LEN_SYMBOLS && len == before[LEN_ORDER[n - 1] := x]
  }

  /** One length, or a run of one. */
  ghost predicate TookRun(len: seq<nat>, a: Rest, done: seq<nat>, b: Rest, more: seq<nat>) {
    exists sym: nat, m: Rest :: TookSymbol(len, a, sym, m) && Lengthens(sym, m, done, b, more)
  }

  ghost predicate Lengthens(sym: nat, m: Rest, done: seq<nat>, b: Rest, more: seq<nat>) {
    if sym < 16 then b == m && more == done + [sym]
    else (sym == 16 ==> done != []) && exists e: nat :: TookBits(m, ExtraBits(sym), e, b) && more == done + RunOf(sym, e, done)
  }

  ghost function RunOf(sym: nat, e: nat, done: seq<nat>): seq<nat>
    requires sym == 16 ==> done != []
  {
    Run(e + LeastRun(sym), if sym == 16 then done[|done| - 1] else 0)
  }

  ghost predicate TookRuns(len: seq<nat>, n: nat, a: Rest, b: Rest, all: seq<nat>) {
    if n == 0 then b == a && all == []
    else exists m: Rest, done: seq<nat> :: TookRuns(len, n - 1, a, m, done) && TookRun(len, m, done, b, all)
  }

  ghost predicate TookAllRuns(len: seq<nat>, a: Rest, b: Rest, all: seq<nat>) {
    exists n: nat :: TookRuns(len, n, a, b, all)
  }

  /** The two tables of lengths, each of which has to use up its code space or to have one code at most. */
  ghost predicate TookTables(a: Rest, lit: seq<nat>, dist: seq<nat>, b: Rest) {
    exists l: nat, d: nat, o: nat, m: Rest, len: seq<nat>, k: Rest ::
      TookCounts(a, l, d, o, m) && TookLengths(m, l, d, o, len, k, lit, dist, b)
  }

  /** How many lengths there are of each kind. */
  ghost predicate TookCounts(a: Rest, l: nat, d: nat, o: nat, b: Rest) {
    257 <= l && 1 <= d && 4 <= o <= LEN_SYMBOLS
    && exists m: Rest, k: Rest :: TookThree(a, l, m, d, k, o, b)
  }

  ghost predicate TookThree(a: Rest, l: nat, m: Rest, d: nat, k: Rest, o: nat, b: Rest) {
    257 <= l && 1 <= d && 4 <= o && TookBits(a, 5, l - 257, m) && TookBits(m, 5, d - 1, k) && TookBits(k, 4, o - 4, b)
  }

  ghost predicate TookLengths(a: Rest, l: nat, d: nat, o: nat, len: seq<nat>, k: Rest, lit: seq<nat>, dist: seq<nat>, b: Rest) {
    && o <= LEN_SYMBOLS && TookOrdered(o, a, len, k) && Acceptable(len)
    && |lit| == l && |dist| == d && TookAllRuns(len, k, b, lit + dist)
    && Acceptable(lit) && Acceptable(dist)
  }

  // ---------- blocks ----------

  /** The fixed codes, or those the block describes. There is no type 3. */
  ghost predicate TookCodes(kind: nat, a: Rest, lit: seq<nat>, dist: seq<nat>, b: Rest) {
    if kind == 1 then FixedLit(lit) && FixedDist(dist) && b == a else kind == 2 && TookTables(a, lit, dist, b)
  }

  ghost predicate TookContents(kind: nat, a: Rest, out: seq<nat>, b: Rest, more: seq<nat>) {
    if kind == 0 then TookStored(a, out, b, more)
    else exists lit: seq<nat>, dist: seq<nat>, m: Rest :: TookCodes(kind, a, lit, dist, m) && TookSymbols(lit, dist, m, out, b, more)
  }

  /** The final flag, and two bits for the type. */
  ghost predicate TookType(a: Rest, final: bool, kind: nat, b: Rest) {
    exists f: nat, m: Rest :: TookBits(a, 1, f, m) && final == (f == 1) && TookBits(m, 2, kind, b)
  }

  ghost predicate TookBlock(a: Rest, out: seq<nat>, final: bool, b: Rest, more: seq<nat>) {
    exists kind: nat, k: Rest :: TookType(a, final, kind, k) && TookContents(kind, k, out, b, more)
  }

  /** So many blocks that are not final. */
  ghost predicate TookBlocks(n: nat, a: Rest, b: Rest, out: seq<nat>) {
    if n == 0 then b == a && out == []
    else exists m: Rest, mid: seq<nat> :: TookBlocks(n - 1, a, m, mid) && TookBlock(m, mid, false, b, out)
  }

  ghost predicate TookAllBlocks(a: Rest, b: Rest, out: seq<nat>) {
    exists n: nat, m: Rest, mid: seq<nat> :: TookBlocks(n, a, m, mid) && TookBlock(m, mid, true, b, out)
  }

  // ---------- the whole stream ----------

  /** Compression method 8, no preset dictionary, and the two bytes a multiple of 31. */
  ghost predicate TookHeader(a: Rest, b: Rest) {
    exists cmf: nat, m: Rest, flg: nat ::
      TookBits(a, 8, cmf, m) && TookBits(m, 8, flg, b)
      && (cmf * 256 + flg) % 31 == 0 && flg / 32 % 2 == 0 && cmf % 16 == 8
  }

  /** Four bytes, the most significant first. */
  ghost predicate TookWord(a: Rest, z: nat) {
    exists b0: nat, m: Rest, b1: nat, k: Rest, b2: nat, l: Rest, b3: nat, b: Rest ::
      TookBits(a, 8, b0, m) && TookBits(m, 8, b1, k) && TookBits(k, 8, b2, l) && TookBits(l, 8, b3, b)
      && z == b0 * 0x100_0000 + b1 * 0x1_0000 + b2 * 0x100 + b3
  }

  /** Behind the last block and the next byte boundary: the checksum, if there is one. */
  ghost predicate Closes(b: Rest, zlib: bool, sum: nat) {
    zlib ==> TookWord(AtByte(b), sum)
  }

  /** The stream stands for `out`: header, blocks, checksum. */
  ghost predicate Encodes(a: Rest, zlib: bool, out: seq<nat>) {
    exists m: Rest, b: Rest :: (if zlib then TookHeader(a, m) else m == a) && TookAllBlocks(m, b, out) && Closes(b, zlib, Adler32.Checksum(1, out))
  }
}
