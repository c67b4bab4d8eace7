/** Writing a block: tdefl_start_static_block, tdefl_start_dynamic_block and tdefl_compress_lz_codes. */
module BlockWriter {
  import opened Wrappers
  import opened Powers
  import opened TwoQueue
  import opened HuffmanTree
  import opened BitStream
  import opened Canonical
  import opened HuffmanTrie
  import opened MinimumRedundancy
  import opened HuffmanTable
  import opened LzOps
  import opened LzCodes
  import opened CodeLengthPacking
  import opened BlockFormat
  import opened BlockSize
  import opened LimitCost
  import opened TableCost
  import opened BitWriter

  /** `codes` are the stream codes of the lengths `sizes`. */
  ghost predicate InStream(codes: seq<nat>, sizes: seq<nat>) {
    && |codes| == |sizes| && Fits(sizes, MAX_CODE_SIZE)
    && forall i :: 0 <= i < |sizes| && sizes[i] > 0 ==> codes[i] == RevCode(sizes, i)
  }

  lemma CodedField(codes: seq<nat>, sizes: seq<nat>, i: nat)
    requires InStream(codes, sizes) && i < |sizes| && sizes[i] > 0
    ensures Field(codes[i], sizes[i]) == CodeField(sizes, i)
    ensures codes[i] < Pow2(sizes[i]) && sizes[i] <= MAX_CODE_SIZE
  {
    hide RevCode, Used;
    CodeFieldFits(sizes, i);
  }

  /** What is still to be written, after what has been. */
  lemma Advance(fields: seq<Field>, first: seq<Field>, rest: seq<Field>, target: seq<Field>)
    requires fields + (first + rest) == target
    ensures (fields + first) + rest == target
  {
    assert fields + (first + rest) == (fields + first) + rest;
  }

  class CodeTables {
    const litSizes: array<nat>
    const litCodes: array<nat>
    const distSizes: array<nat>
    const distCodes: array<nat>
    const lenCount: array<nat>
    const lenSizes: array<nat>
    const lenCodes: array<nat>

    predicate Shaped() {
      && litSizes.Length == litCodes.Length == LIT_SYMBOLS && distSizes.Length == distCodes.Length == DIST_SYMBOLS
      && lenCount.Length == lenSizes.Length == lenCodes.Length == LEN_SYMBOLS
      && litSizes != litCodes && distSizes != distCodes
      && lenCount != lenSizes && lenCount != lenCodes && lenSizes != lenCodes
    }

    constructor ()
      ensures Shaped() && fresh(Arrays())
    {
      litSizes, litCodes := new nat[LIT_SYMBOLS](i => 0), new nat[LIT_SYMBOLS](i => 0);
      distSizes, distCodes := new nat[DIST_SYMBOLS](i => 0), new nat[DIST_SYMBOLS](i => 0);
      lenCount := new nat[LEN_SYMBOLS](i => 0);
      lenSizes, lenCodes := new nat[LEN_SYMBOLS](i => 0), new nat[LEN_SYMBOLS](i => 0);
    }

    ghost function Arrays(): set<object> {
      {litSizes, litCodes, distSizes, distCodes, lenCount, lenSizes, lenCodes}
    }

    /** Codes and lengths of both alphabets belong together. */
    ghost predicate Ready()
      reads litSizes, litCodes, distSizes, distCodes
    {
      Shaped() && InStream(litCodes[..], litSizes[..]) && InStream(distCodes[..], distSizes[..])
    }
  }

  method PutCode(w: BitWriter, codes: array<nat>, sizes: array<nat>, sym: nat)
    requires w.Valid() && InStream(codes[..], sizes[..]) && sym < sizes.Length && sizes[sym] > 0
    requires w.outBuf != codes && w.outBuf != sizes
    modifies w, w.outBuf
    ensures w.Valid() && w.fields == old(w.fields) + [CodeField(sizes[..], sym)]
    ensures w.end == old(w.end) && w.base == old(w.base) && old(w.sent) <= w.sent
  {
    hide RevCode, Fits, BitWriter.Valid;
    CodedField(codes[..], sizes[..], sym);
    w.PutBits(codes[sym], sizes[sym]);
  }

  method PutNumber(w: BitWriter, x: nat, bits: nat)
    requires w.Valid() && bits <= 16
    modifies w, w.outBuf
    ensures w.Valid() && w.fields == old(w.fields) + [LowField(x, bits)]
    ensures w.end == old(w.end) && w.base == old(w.base) && old(w.sent) <= w.sent
  {
    hide BitWriter.Valid;
    LowFits(x, bits);
    w.PutBits(Low(x, bits), bits);
  }

  lemma LowFits(x: nat, bits: nat)
    ensures Low(x, bits) < Pow2(bits)
  {}

  /** The two tables by which the writer finds the symbol of a distance less 1. */
  method DistanceSymbol(matchDist: nat) returns (sym: nat, extra: nat)
    requires matchDist < DICT_SIZE
    ensures sym == DistSym(matchDist) && extra == DistExtra(matchDist) <= 13 && sym < 30
  {
    hide DistSym, DistExtra;
    DistanceRoundTrip(matchDist);
    if matchDist < 512 {
      sym, extra := DistSym(matchDist), DistExtra(matchDist);
    } else {
      LargeDistance(matchDist);
      sym, extra := DistSym(matchDist / 256 * 256), DistExtra(matchDist / 256 * 256);
    }
  }

  method PutMatch(w: BitWriter, t: CodeTables, matchLen: nat, matchDist: nat)
    requires w.Valid() && t.Ready() && w.outBuf !in t.Arrays() && matchLen < 256 && matchDist < DICT_SIZE
    requires Covers(t.litSizes[..], t.distSizes[..], [Match(matchLen + MIN_MATCH, matchDist + 1)])
    modifies w, w.outBuf
    ensures w.Valid()
    ensures w.fields == old(w.fields) + OpFields(Match(matchLen + MIN_MATCH, matchDist + 1), t.litSizes[..], t.distSizes[..])
    ensures w.end == old(w.end) && w.base == old(w.base) && old(w.sent) <= w.sent
  {
    hide BitWriter.Valid, InStream, LenSym, LenExtra, DistSym, DistExtra, CodeField, LowField;
    assert [Match(matchLen + MIN_MATCH, matchDist + 1)][0] == Match(matchLen + MIN_MATCH, matchDist + 1);
    LengthRoundTrip(matchLen);
    PutCode(w, t.litCodes, t.litSizes, LenSym(matchLen));
    PutNumber(w, matchLen, LenExtra(matchLen));
    var sym, extra := DistanceSymbol(matchDist);
    PutCode(w, t.distCodes, t.distSizes, sym);
    PutNumber(w, matchDist, extra);
  }

  /** The groups and operations not read yet, seen from inside a group with `k` flag positions left. */
  ghost predicate Reading(a: seq<nat>, p: nat, flags: nat, open: seq<Op>, rest: seq<seq<Op>>, k: nat) {
    && p <= |a| && AllLegal(open) && LegalGroups(rest) && Grouped(rest)
    && a[p..] == Payload(open) + GroupsBytes(rest)
    && flags == FlagBits(open) + Pow2(k) && |open| <= k <= 8 && (rest != [] ==> |open| == k)
  }

  /** At the marker the group is used up, and what follows is the next group. */
  lemma ReadFlags(a: seq<nat>, p: nat, flags: nat, open: seq<Op>, rest: seq<seq<Op>>, k: nat)
    requires Reading(a, p, flags, open, rest, k) && p < |a| && flags == 1
    ensures open == [] && rest != [] && rest[0] != []
    ensures Reading(a, p + 1, a[p] + 256, rest[0], rest[1..], 8)
  {
    hide Pow2, FlagBits, Payload, GroupsBytes;
    assert |a[p..]| > 0;
    if open != [] {
      NextFlag(flags, open, k);
    }
    NoneOpen();
    Pow2Values();
    UnfoldGroups(rest);
    TakeFront(a, p, [], [FlagBits(rest[0])] + Payload(rest[0]), GroupsBytes(rest[1..]));
    TakeFront(a, p, [FlagBits(rest[0])], Payload(rest[0]), GroupsBytes(rest[1..]));
  }

  lemma UnfoldGroups(rest: seq<seq<Op>>)
    requires LegalGroups(rest) && rest != []
    ensures GroupsBytes(rest) == [FlagBits(rest[0])] + Payload(rest[0]) + GroupsBytes(rest[1..])
  {
    hide FlagBits, Payload;
  }

  /** Off the marker there is an operation left in the group. */
  lemma InGroup(a: seq<nat>, p: nat, flags: nat, open: seq<Op>, rest: seq<seq<Op>>, k: nat)
    requires Reading(a, p, flags, open, rest, k) && p < |a| && flags != 1
    ensures open != []
  {
    assert Pow2(0) == 1 && |a[p..]| > 0;
    NoneOpen();
  }

  lemma NoneOpen()
    ensures Payload([]) == [] && FlagBits([]) == 0 && GroupsBytes([]) == []
  {}

  /** Inside a group the lowest flag tells what comes next, and the marker is not reached. */
  lemma ReadOp(a: seq<nat>, p: nat, flags: nat, open: seq<Op>, rest: seq<seq<Op>>, k: nat)
    requires Reading(a, p, flags, open, rest, k) && open != []
    ensures Legal(open[0]) && k >= 1 && flags > 1 && flags % 2 == Flag(open[0]) && p + |OpBytes(open[0])| <= |a|
    ensures a[p..p + |OpBytes(open[0])|] == OpBytes(open[0])
    ensures Reading(a, p + |OpBytes(open[0])|, flags / 2, open[1..], rest, k - 1)
  {
    hide Pow2, FlagBits, OpBytes, GroupsBytes, Payload;
    NextFlag(flags, open, k);
    UnfoldPayload(open);
    TakeFront(a, p, OpBytes(open[0]), Payload(open[1..]), GroupsBytes(rest));
  }

  lemma UnfoldPayload(open: seq<Op>)
    requires open != [] && AllLegal(open)
    ensures AllLegal(open[1..]) && Payload(open) == OpBytes(open[0]) + Payload(open[1..])
  {
    hide OpBytes;
  }

  lemma TakeFront(a: seq<nat>, p: nat, x: seq<nat>, y: seq<nat>, z: seq<nat>)
    requires p <= |a| && a[p..] == x + y + z
    ensures p + |x| <= |a| && a[p..p + |x|] == x && a[p + |x|..] == y + z
  {
    assert x + y + z == x + (y + z);
    assert a[p..p + |x|] == a[p..][..|x|] && a[p + |x|..] == a[p..][|x|..];
  }

  /** What the loop of tdefl_compress_lz_codes keeps: `ops` are still to be read and written. */
  ghost predicate Writing(fields: seq<Field>, target: seq<Field>, ops: seq<Op>, lit: seq<nat>, dist: seq<nat>) {
    Covers(lit, dist, ops) && fields + OpsFields(ops, lit, dist) == target
  }

  lemma WroteOp(fields: seq<Field>, target: seq<Field>, ops: seq<Op>, lit: seq<nat>, dist: seq<nat>)
    requires Writing(fields, target, ops, lit, dist) && ops != []
    ensures Covers(lit, dist, [ops[0]]) && Writing(fields + OpFields(ops[0], lit, dist), target, ops[1..], lit, dist)
  {
    hide OpFields, LitSymbol, DistSymbol;
    assert OpsFields(ops, lit, dist) == OpFields(ops[0], lit, dist) + OpsFields(ops[1..], lit, dist);
    Advance(fields, OpFields(ops[0], lit, dist), OpsFields(ops[1..], lit, dist), target);
  }

  lemma WroteAll(fields: seq<Field>, target: seq<Field>, lit: seq<nat>, dist: seq<nat>)
    requires Writing(fields, target, [], lit, dist)
    ensures fields + [CodeField(lit, END_OF_BLOCK)] == target && lit[END_OF_BLOCK] > 0
  {}

  lemma FrontOp(open: seq<Op>, rest: seq<seq<Op>>)
    requires open != []
    ensures (open + Flat(rest))[0] == open[0] && (open + Flat(rest))[1..] == open[1..] + Flat(rest)
  {
    hide Flat;
  }

  lemma FrontGroup(rest: seq<seq<Op>>)
    requires rest != []
    ensures [] + Flat(rest) == rest[0] + Flat(rest[1..])
  {}

  /** tdefl_compress_lz_codes: every recorded operation goes into the stream, then the end of the block. */
  method CompressLzCodes(buf: LzCodeBuffer, t: CodeTables, w: BitWriter, ghost gs: seq<seq<Op>>) returns (fits: bool)
    requires w.Valid() && t.Ready() && w.outBuf !in t.Arrays() && w.outBuf != buf.codeBuf
    requires buf.codePos <= buf.codeBuf.Length && LegalGroups(gs) && Grouped(gs) && buf.codeBuf[..buf.codePos] == GroupsBytes(gs)
    requires Covers(t.litSizes[..], t.distSizes[..], Flat(gs))
    modifies w, w.outBuf
    ensures w.Valid() && w.fields == old(w.fields) + OpsFields(Flat(gs), t.litSizes[..], t.distSizes[..])
    ensures w.end == old(w.end) && w.base == old(w.base) && old(w.sent) <= w.sent
    ensures fits <==> w.ofs < w.end
  {
    hide BitWriter.Valid, InStream, CodeField, OpsFields, Flat, Covers, Reading, Writing, GroupsBytes;
    ghost var a, lit, dist := buf.codeBuf[..buf.codePos], t.litSizes[..], t.distSizes[..];
    CoveredShape(lit, dist, Flat(gs));
    ghost var target := w.fields + OpsFields(Flat(gs), lit, dist);
    ghost var open: seq<Op>, rest: seq<seq<Op>>, k: nat := [], gs, 0;
    var flags: nat, p: nat := 1, 0;
    StartReading(a, gs);
    StartWriting(w.fields, gs, lit, dist);
    while p < buf.codePos
      invariant w.Valid() && w.end == old(w.end) && w.base == old(w.base) && old(w.sent) <= w.sent
      invariant a == buf.codeBuf[..buf.codePos] && Reading(a, p, flags, open, rest, k) && p <= |a|
      invariant Writing(w.fields, target, open + Flat(rest), lit, dist)
      decreases |a| - p
    {
      if flags == 1 {
        ReadFlags(a, p, flags, open, rest, k);
        FrontGroup(rest);
        flags := buf.codeBuf[p] + 256;
        p := p + 1;
        open, rest, k := rest[0], rest[1..], 8;
      } else {
        InGroup(a, p, flags, open, rest, k);
      }
      ReadOp(a, p, flags, open, rest, k);
      WroteOp(w.fields, target, open + Flat(rest), lit, dist);
      FrontOp(open, rest);
      SliceOf(buf.codeBuf, buf.codePos, p, p + |OpBytes(open[0])|);
      p := CompressOp(buf, t, w, p, flags % 2 == 1, open[0]);
      flags := flags / 2;
      open, k := open[1..], k - 1;
    }
    EndReading(a, p, flags, open, rest, k);
    WroteAll(w.fields, target, lit, dist);
    PutCode(w, t.litCodes, t.litSizes, END_OF_BLOCK);
    fits := w.ofs < w.end;
  }

  lemma SliceOf(b: array<nat>, n: nat, p: nat, q: nat)
    requires p <= q <= n <= b.Length
    ensures b[..n][p..q] == b[p..q]
  {}

  lemma StartReading(a: seq<nat>, gs: seq<seq<Op>>)
    requires LegalGroups(gs) && Grouped(gs) && a == GroupsBytes(gs)
    ensures Reading(a, 0, 1, [], gs, 0)
  {
    hide GroupsBytes;
    NoneOpen();
    assert a[0..] == [] + GroupsBytes(gs);
    assert Pow2(0) == 1;
  }

  lemma StartWriting(fields: seq<Field>, gs: seq<seq<Op>>, lit: seq<nat>, dist: seq<nat>)
    requires Covers(lit, dist, Flat(gs))
    ensures [] + Flat(gs) == Flat(gs)
    ensures Writing(fields, fields + OpsFields(Flat(gs), lit, dist), Flat(gs), lit, dist)
  {
    hide Covers, OpsFields, Flat;
  }

  lemma EndReading(a: seq<nat>, p: nat, flags: nat, open: seq<Op>, rest: seq<seq<Op>>, k: nat)
    requires Reading(a, p, flags, open, rest, k) && p == |a|
    ensures open + Flat(rest) == []
  {
    hide Pow2;
    assert |a[p..]| == 0;
    if open != [] {
      OpBytesFit(open[0]);
      UnfoldPayload(open);
    }
    if rest != [] {
      UnfoldGroups(rest);
    }
  }

  /** The bytes of one operation, turned into its fields. */
  method CompressOp(buf: LzCodeBuffer, t: CodeTables, w: BitWriter, p0: nat, isMatch: bool, ghost op: Op) returns (p: nat)
    requires w.Valid() && t.Ready() && w.outBuf !in t.Arrays() && w.outBuf != buf.codeBuf
    requires Legal(op) && isMatch == op.Match? && Covers(t.litSizes[..], t.distSizes[..], [op])
    requires p0 + |OpBytes(op)| <= buf.codeBuf.Length && buf.codeBuf[p0..p0 + |OpBytes(op)|] == OpBytes(op)
    modifies w, w.outBuf
    ensures w.Valid() && p == p0 + |OpBytes(op)|
    ensures w.fields == old(w.fields) + OpFields(op, t.litSizes[..], t.distSizes[..])
    ensures w.end == old(w.end) && w.base == old(w.base) && old(w.sent) <= w.sent
  {
    hide BitWriter.Valid, InStream, CodeField, LenSym, LenExtra, DistSym, DistExtra;
    ghost var bytes := buf.codeBuf[p0..p0 + |OpBytes(op)|];
    assert [op][0] == op;
    assert buf.codeBuf[p0] == bytes[0];
    if isMatch {
      assert buf.codeBuf[p0 + 1] == bytes[1] && buf.codeBuf[p0 + 2] == bytes[2];
      DistanceBytes(op.dist);
      var matchLen, matchDist := buf.codeBuf[p0], buf.codeBuf[p0 + 1] + buf.codeBuf[p0 + 2] * 256;
      p := p0 + 3;
      assert op == Match(matchLen + MIN_MATCH, matchDist + 1);
      PutMatch(w, t, matchLen, matchDist);
    } else {
      var lit := buf.codeBuf[p0];
      p := p0 + 1;
      assert op == Literal(lit);
      PutCode(w, t.litCodes, t.litSizes, lit);
    }
  }

  // ---------- fixed codes ----------

  method SetSizes(sizes: array<nat>, from: nat, to: nat, size: nat)
    requires from <= to <= sizes.Length
    modifies sizes
    ensures forall i :: 0 <= i < sizes.Length ==> sizes[i] == if from <= i < to then size else old(sizes[i])
  {
    var i := from;
    while i < to
      invariant from <= i <= to
      invariant forall k :: 0 <= k < sizes.Length ==> sizes[k] == if from <= k < i then size else old(sizes[k])
    {
      sizes[i] := size;
      i := i + 1;
    }
  }

  /** The literal and distance counts play no part, since the lengths are given. */
  method FixedCodes(t: CodeTables, buf: LzCodeBuffer)
    requires t.Shaped() && buf.litCount.Length == LIT_SYMBOLS && buf.distCount.Length == DIST_SYMBOLS
    requires buf.litCount !in t.Arrays() && buf.distCount !in t.Arrays()
    modifies t.litSizes, t.litCodes, t.distSizes, t.distCodes
    ensures t.Ready() && FixedLit(t.litSizes[..]) && FixedDist(t.distSizes[..])
  {
    hide Fits, Full, RevCode, Along, Listing, CodeLengths;
    SetSizes(t.litSizes, 0, 144, 8);
    SetSizes(t.litSizes, 144, 256, 9);
    SetSizes(t.litSizes, 256, 280, 7);
    SetSizes(t.litSizes, 280, 288, 8);
    SetSizes(t.distSizes, 0, 32, 5);
    FixedFits(t.litSizes[..], t.distSizes[..]);
    Pow2Values();
    var _, _ := OptimizeHuffmanTable(buf.litCount, t.litSizes, t.litCodes, MAX_CODE_SIZE, true);
    var _, _ := OptimizeHuffmanTable(buf.distCount, t.distSizes, t.distCodes, MAX_CODE_SIZE, true);
  }

  lemma FixedFits(lit: seq<nat>, dist: seq<nat>)
    requires FixedLit(lit) && FixedDist(dist)
    ensures Fits(lit, MAX_CODE_SIZE) && Fits(dist, MAX_CODE_SIZE)
  {
    FixedLitFull(lit);
    FixedDistFull(dist);
  }

  method StartStaticBlock(t: CodeTables, buf: LzCodeBuffer, w: BitWriter)
    requires t.Shaped() && buf.litCount.Length == LIT_SYMBOLS && buf.distCount.Length == DIST_SYMBOLS
    requires buf.litCount !in t.Arrays() && buf.distCount !in t.Arrays()
    requires w.Valid() && w.outBuf !in t.Arrays()
    modifies t.litSizes, t.litCodes, t.distSizes, t.distCodes, w, w.outBuf
    ensures t.Ready() && FixedLit(t.litSizes[..]) && FixedDist(t.distSizes[..])
    ensures w.Valid() && w.fields == old(w.fields) + [Field(1, 2)]
    ensures w.end == old(w.end) && w.base == old(w.base) && old(w.sent) <= w.sent
  {
    hide BitWriter.Valid, InStream, FixedLit, FixedDist;
    FixedCodes(t, buf);
    assert Pow2(2) == 4;
    w.PutBits(1, 2);
  }

  // ---------- dynamic codes ----------

  lemma {:induction false} UsedSymbol(ops: seq<Op>, i: nat)
    requires AllLegal(ops) && i < |ops|
    ensures LitUses(ops, LitSymbol(ops[i])) > 0 && (ops[i].Match? ==> DistUses(ops, DistSymbol(ops[i])) > 0)
  {
    hide LitSymbol, DistSymbol;
    if i < |ops| - 1 { UsedSymbol(ops[..|ops| - 1], i); }
  }

  lemma {:induction false} NeverCounted(ops: seq<Op>, sym: nat)
    requires AllLegal(ops)
    ensures sym == END_OF_BLOCK || sym >= 286 ==> LitUses(ops, sym) == 0
    ensures sym >= 30 ==> DistUses(ops, sym) == 0
  {
    hide LitSymbol, DistSymbol;
    if ops != [] { NeverCounted(ops[..|ops| - 1], sym); }
  }

  /** Codes that serve the counts cover the operations counted. */
  lemma CountedCovers(lit: seq<nat>, dist: seq<nat>, litCount: seq<nat>, distCount: seq<nat>, ops: seq<Op>)
    requires AllLegal(ops) && |lit| == |litCount| == LIT_SYMBOLS && |dist| == |distCount| == DIST_SYMBOLS
    requires Serves(lit, litCount, MAX_CODE_SIZE) && Serves(dist, distCount, MAX_CODE_SIZE)
    requires forall s :: 0 <= s < LIT_SYMBOLS ==> litCount[s] == if s == END_OF_BLOCK then 1 else LitUses(ops, s)
    requires forall s :: 0 <= s < DIST_SYMBOLS ==> distCount[s] == DistUses(ops, s)
    ensures Covers(lit, dist, ops) && ZeroFrom(lit, 286) && ZeroFrom(dist, 30)
  {
    hide Fits, Full, LitSymbol, DistSymbol, LitUses, DistUses;
    forall i | 0 <= i < |ops| ensures lit[LitSymbol(ops[i])] > 0 && (ops[i].Match? ==> dist[DistSymbol(ops[i])] > 0) {
      UsedSymbol(ops, i);
    }
    forall s | 286 <= s < LIT_SYMBOLS ensures lit[s] == 0 { NeverCounted(ops, s); }
    forall s | 30 <= s < DIST_SYMBOLS ensures dist[s] == 0 { NeverCounted(ops, s); }
  }

  /** The end of the block is used once. */
  method CountEnd(buf: LzCodeBuffer)
    requires buf.Counted() && |buf.Ops()| < 65535 && buf.litCount != buf.distCount
    modifies buf.litCount
    ensures Sum(buf.litCount[..]) == |buf.Ops()| + 1 < 65536 && Sum(buf.distCount[..]) <= |buf.Ops()| && AllLegal(buf.Ops())
    ensures forall s :: 0 <= s < LIT_SYMBOLS ==> buf.litCount[s] == if s == END_OF_BLOCK then 1 else LitUses(buf.Ops(), s)
    ensures forall s :: 0 <= s < DIST_SYMBOLS ==> buf.distCount[s] == DistUses(buf.Ops(), s)
  {
    hide LitUses, DistUses, Sum, Flat, Total, AllLegal;
    NeverCounted(buf.Ops(), END_OF_BLOCK);
    SumIncrement(buf.litCount[..], LIT_SYMBOLS, END_OF_BLOCK);
    SumIsTo(buf.litCount[..][END_OF_BLOCK := 1]);
    SumIsTo(buf.litCount[..]);
    buf.litCount[END_OF_BLOCK] := 1;
    assert buf.litCount[..] == old(buf.litCount[..])[END_OF_BLOCK := 1];
  }

  method DynamicCodes(t: CodeTables, buf: LzCodeBuffer)
    requires t.Shaped() && buf.Counted() && |buf.Ops()| < 65535 && buf.litCount != buf.distCount
    requires buf.litCount !in t.Arrays() && buf.distCount !in t.Arrays()
    modifies t.litSizes, t.litCodes, t.distSizes, t.distCodes, buf.litCount
    ensures t.Ready() && Covers(t.litSizes[..], t.distSizes[..], buf.Ops())
    ensures ZeroFrom(t.litSizes[..], 286) && ZeroFrom(t.distSizes[..], 30)
    ensures Serves(t.litSizes[..], buf.litCount[..], MAX_CODE_SIZE) && Serves(t.distSizes[..], buf.distCount[..], MAX_CODE_SIZE)
    ensures Thrifty(buf.Ops(), t.litSizes[..], t.distSizes[..])
  {
    hide Fits, Full, RevCode, Along, Listing, CodeLengths, Covers, Serves, LitUses, DistUses, Sum, ZeroFrom, Flat, Total, NearlyOptimal,
         Optimal, Thrifty;
    ghost var ops := buf.Ops();
    CountEnd(buf);
    Pow2Values();
    ghost var ls, lw, ds, dw;
    ls, lw := OptimizeHuffmanTable(buf.litCount, t.litSizes, t.litCodes, MAX_CODE_SIZE, false);
    ds, dw := OptimizeHuffmanTable(buf.distCount, t.distSizes, t.distCodes, MAX_CODE_SIZE, false);
    CountedCovers(t.litSizes[..], t.distSizes[..], buf.litCount[..], buf.distCount[..], ops);
    FewSymbols(ops, buf.litCount[..], buf.distCount[..], ls, lw, ds, dw);
    MadeFromCounts(ops, t.litSizes[..], t.distSizes[..], ls, lw, ds, dw);
  }

  /** The counts are those of the operations, of which no more than 286 and 30 symbols are in use. */
  lemma FewSymbols(ops: seq<Op>, litCount: seq<nat>, distCount: seq<nat>, ls: seq<nat>, lw: seq<nat>, ds: seq<nat>, dw: seq<nat>)
    requires AllLegal(ops) && |litCount| == LIT_SYMBOLS && |distCount| == DIST_SYMBOLS
    requires forall s :: 0 <= s < LIT_SYMBOLS ==> litCount[s] == if s == END_OF_BLOCK then 1 else LitUses(ops, s)
    requires forall s :: 0 <= s < DIST_SYMBOLS ==> distCount[s] == DistUses(ops, s)
    requires Listing(ls, lw, litCount) && Listing(ds, dw, distCount)
    ensures litCount == LitCounts(ops) && distCount == DistCounts(ops) && |lw| == |ls| <= 286 && |dw| == |ds| <= 286
  {
    hide LitUses, DistUses;
    forall s | 286 <= s < LIT_SYMBOLS ensures litCount[s] == 0 { NeverCounted(ops, s); }
    forall s | 30 <= s < DIST_SYMBOLS ensures distCount[s] == 0 { NeverCounted(ops, s); }
    NeverCounted(ops, END_OF_BLOCK);
    ListedBelow(ls, lw, litCount, 286);
    ListedBelow(ds, dw, distCount, 30);
  }

  lemma SumIsTo(s: seq<nat>)
    ensures Sum(s) == SumTo(s, |s|)
  {}

  // ---------- the header of a dynamic block ----------

  /** The smallest number of leading lengths, but at least `least`, after which all lengths are zero. */
  method Trim(sizes: array<nat>, most: nat, least: nat) returns (n: nat)
    requires least <= most <= sizes.Length && ZeroFrom(sizes[..], most)
    ensures least <= n <= most && ZeroFrom(sizes[..], n) && (n > least ==> sizes[n - 1] != 0)
  {
    n := most;
    while n > least && sizes[n - 1] == 0
      invariant least <= n <= most && ZeroFrom(sizes[..], n)
    {
      n := n - 1;
    }
  }

  method JoinSizes(t: CodeTables, litCodes: nat, distCodes: nat) returns (joined: array<nat>)
    requires t.Shaped() && litCodes <= LIT_SYMBOLS && distCodes <= DIST_SYMBOLS
    ensures fresh(joined) && joined.Length == LIT_SYMBOLS + DIST_SYMBOLS
    ensures joined[..litCodes + distCodes] == t.litSizes[..litCodes] + t.distSizes[..distCodes]
  {
    joined := new nat[LIT_SYMBOLS + DIST_SYMBOLS](i => 0);
    var i := 0;
    while i < litCodes
      invariant 0 <= i <= litCodes && joined[..i] == t.litSizes[..i]
    {
      joined[i] := t.litSizes[i];
      i := i + 1;
    }
    i := 0;
    while i < distCodes
      invariant 0 <= i <= distCodes && joined[..litCodes + i] == t.litSizes[..litCodes] + t.distSizes[..i]
    {
      joined[litCodes + i] := t.distSizes[i];
      i := i + 1;
    }
  }

  lemma {:induction false} TokenUses(ts: seq<Token>, sym: nat)
    requires AllSound(ts)
    ensures Uses(ts, sym) <= |ts| <= |StoredAll(ts)|
  {
    hide Symbol;
    if ts != [] { TokenUses(ts[..|ts| - 1], sym); }
  }

  lemma {:induction false} UsedToken(ts: seq<Token>, i: nat)
    requires i < |ts|
    ensures Uses(ts, Symbol(ts[i])) > 0
  {
    hide Symbol;
    if i < |ts| - 1 { UsedToken(ts[..|ts| - 1], i); }
  }

  lemma {:induction false} SumBound(s: seq<nat>, n: nat, b: nat)
    requires n <= |s| && forall i :: 0 <= i < |s| ==> s[i] <= b
    ensures SumTo(s, n) <= n * b
  {
    if n > 0 { SumBound(s, n - 1, b); }
  }

  lemma TokensServed(ts: seq<Token>, len: seq<nat>, lenCount: seq<nat>)
    requires AllSound(ts) && |len| == |lenCount| == LEN_SYMBOLS && Serves(len, lenCount, 7)
    requires forall sym :: 0 <= sym < LEN_SYMBOLS ==> lenCount[sym] == Uses(ts, sym)
    ensures TokensCovered(ts, len)
  {
    hide Fits, Full, Uses;
    forall i | 0 <= i < |ts| ensures len[Symbol(ts[i])] > 0 { UsedToken(ts, i); }
  }

  lemma LenCountFits(ts: seq<Token>, lenCount: seq<nat>, total: nat)
    requires AllSound(ts) && |lenCount| == LEN_SYMBOLS && |StoredAll(ts)| <= total <= 320
    requires forall sym :: 0 <= sym < LEN_SYMBOLS ==> lenCount[sym] == Uses(ts, sym)
    ensures Sum(lenCount) < 65536
  {
    hide Uses, StoredAll;
    forall i | 0 <= i < |lenCount| ensures lenCount[i] <= 320 { TokenUses(ts, i); }
    SumBound(lenCount, LEN_SYMBOLS, 320);
  }

  method LengthCodes(t: CodeTables, ghost ts: seq<Token>, ghost total: nat)
    requires t.Shaped() && AllSound(ts) && |StoredAll(ts)| <= total <= 320
    requires forall sym :: 0 <= sym < LEN_SYMBOLS ==> t.lenCount[sym] == Uses(ts, sym)
    modifies t.lenSizes, t.lenCodes
    ensures Fits(t.lenSizes[..], 7) && TokensCovered(ts, t.lenSizes[..])
    ensures forall i :: 0 <= i < LEN_SYMBOLS && t.lenSizes[i] > 0 ==> t.lenCodes[i] == RevCode(t.lenSizes[..], i)
    ensures Serves(t.lenSizes[..], t.lenCount[..], 7)
  {
    hide Fits, Full, RevCode, Along, Listing, CodeLengths, Serves, Uses, Sum, TokensCovered, StoredAll;
    LenCountFits(ts, t.lenCount[..], total);
    Pow2Values();
    var _, _ := OptimizeHuffmanTable(t.lenCount, t.lenSizes, t.lenCodes, 7, false);
    TokensServed(ts, t.lenSizes[..], t.lenCount[..]);
  }

  /** The entries of the code length code from the first unneeded one on are zero. */
  method TrimOrdered(lenSizes: array<nat>) returns (bitLengths: nat)
    requires lenSizes.Length == LEN_SYMBOLS
    ensures 4 <= bitLengths <= LEN_SYMBOLS
    ensures forall i :: bitLengths <= i < LEN_SYMBOLS ==> lenSizes[LEN_ORDER[i]] == 0
  {
    var n := 18;
    while n >= 0
      invariant -1 <= n <= 18 && forall i :: n < i < LEN_SYMBOLS ==> lenSizes[LEN_ORDER[i]] == 0
    {
      if lenSizes[LEN_ORDER[n]] != 0 {
        break;
      }
      n := n - 1;
    }
    bitLengths := if 4 > n + 1 then 4 else n + 1;
  }

  lemma UnfoldOrdered(len: seq<nat>, i: nat, n: nat)
    requires |len| == LEN_SYMBOLS && i < n <= LEN_SYMBOLS
    ensures OrderedFields(len, i, n) == [Field(len[LEN_ORDER[i]], 3)] + OrderedFields(len, i + 1, n)
  {}

  lemma SmallSizes(len: seq<nat>)
    requires SizesAtMost(len, 7)
    ensures forall i :: 0 <= i < |len| ==> len[i] < Pow2(3)
  {
    assert Pow2(3) == 8;
  }

  method PutOrdered(t: CodeTables, w: BitWriter, bitLengths: nat)
    requires t.Shaped() && SizesAtMost(t.lenSizes[..], 7) && 4 <= bitLengths <= LEN_SYMBOLS
    requires w.Valid() && w.outBuf !in t.Arrays()
    modifies w, w.outBuf
    ensures w.Valid() && w.fields == old(w.fields) + OrderedFields(t.lenSizes[..], 0, bitLengths)
    ensures w.end == old(w.end) && w.base == old(w.base) && old(w.sent) <= w.sent
  {
    hide BitWriter.Valid, SizesAtMost, OrderedFields, Pow2;
    ghost var len := t.lenSizes[..];
    ghost var target := w.fields + OrderedFields(len, 0, bitLengths);
    SmallSizes(len);
    var i := 0;
    while i < bitLengths
      invariant 0 <= i <= bitLengths && w.Valid() && w.fields + OrderedFields(len, i, bitLengths) == target
      invariant w.end == old(w.end) && w.base == old(w.base) && old(w.sent) <= w.sent
    {
      UnfoldOrdered(len, i, bitLengths);
      Advance(w.fields, [Field(len[LEN_ORDER[i]], 3)], OrderedFields(len, i + 1, bitLengths), target);
      w.PutBits(t.lenSizes[LEN_ORDER[i]], 3);
      i := i + 1;
    }
    NoneOrdered(len, bitLengths);
  }

  lemma NoneOrdered(len: seq<nat>, n: nat)
    requires |len| == LEN_SYMBOLS && n <= LEN_SYMBOLS
    ensures OrderedFields(len, n, n) == []
  {}

  lemma {:induction false} StoredFront(ts: seq<Token>)
    requires AllSound(ts) && ts != []
    ensures StoredAll(ts) == Stored(ts[0]) + StoredAll(ts[1..])
  {
    var n := |ts| - 1;
    if n == 0 {
      assert ts[..0] == [] && ts[1..] == [];
    } else {
      StoredFront(ts[..n]);
      assert ts[..n][1..] == ts[1..][..n - 1] && ts[1..][n - 1] == ts[n];
    }
  }

  lemma SymbolKinds(t: Token)
    requires Sound(t)
    ensures Symbol(t) < 19 && (Symbol(t) >= 16 <==> !t.Length?) && |Stored(t)| >= 1 && Stored(t)[0] == Symbol(t)
    ensures !t.Length? ==> |Stored(t)| == 2 && Stored(t)[1] == Extra(t) < Pow2(ExtraBits(Symbol(t))) && ExtraBits(Symbol(t)) <= 7
    ensures t.Length? ==> |Stored(t)| == 1
  {
    hide Pow2;
    if !t.Length? { ExtraFits(t); }
  }

  lemma TakeStored(packed: seq<nat>, p: nat, ts: seq<Token>)
    requires AllSound(ts) && ts != [] && p <= |packed| && packed[p..] == StoredAll(ts)
    ensures p + |Stored(ts[0])| <= |packed| && packed[p + |Stored(ts[0])|..] == StoredAll(ts[1..])
    ensures forall i :: 0 <= i < |Stored(ts[0])| ==> packed[p + i] == Stored(ts[0])[i]
  {
    hide StoredAll, Stored, Sound;
    StoredFront(ts);
    var x := Stored(ts[0]);
    assert packed[p..][|x|..] == packed[p + |x|..];
    forall i | 0 <= i < |x| ensures packed[p + i] == x[i] {
      assert packed[p + i] == packed[p..][i];
    }
  }

  lemma UnfoldTokens(ts: seq<Token>, len: seq<nat>)
    requires TokensCovered(ts, len) && ts != []
    ensures TokensCovered(ts[1..], len) && len[Symbol(ts[0])] > 0 && Sound(ts[0])
    ensures TokensFields(ts, len) == TokenFields(ts[0], len) + TokensFields(ts[1..], len)
  {
    hide TokenFields, Sound;
  }

  method PutToken(t: CodeTables, w: BitWriter, packed: array<nat>, p0: nat, ghost tok: Token) returns (p: nat)
    requires t.Shaped() && InStream(t.lenCodes[..], t.lenSizes[..]) && w.Valid() && w.outBuf !in t.Arrays() && w.outBuf != packed
    requires Sound(tok) && t.lenSizes[Symbol(tok)] > 0 && p0 + |Stored(tok)| <= packed.Length
    requires forall i :: 0 <= i < |Stored(tok)| ==> packed[p0 + i] == Stored(tok)[i]
    modifies w, w.outBuf
    ensures w.Valid() && w.fields == old(w.fields) + TokenFields(tok, t.lenSizes[..]) && p == p0 + |Stored(tok)|
    ensures w.end == old(w.end) && w.base == old(w.base) && old(w.sent) <= w.sent
  {
    hide BitWriter.Valid, InStream, Pow2, CodeField, Symbol, Extra;
    SymbolKinds(tok);
    assert packed[p0 + 0] == Stored(tok)[0];
    var code := packed[p0];
    PutCode(w, t.lenCodes, t.lenSizes, code);
    p := p0 + 1;
    if code >= 16 {
      assert packed[p0 + 1] == Stored(tok)[1];
      w.PutBits(packed[p], ExtraBits(code));
      p := p + 1;
    }
  }

  lemma NoTokens(len: seq<nat>)
    requires |len| == LEN_SYMBOLS
    ensures TokensFields([], len) == [] && StoredAll([]) == []
  {}

  method PutTokens(t: CodeTables, w: BitWriter, packed: array<nat>, count: nat, ghost ts: seq<Token>)
    requires t.Shaped() && InStream(t.lenCodes[..], t.lenSizes[..]) && w.Valid() && w.outBuf !in t.Arrays() && w.outBuf != packed
    requires count <= packed.Length && TokensCovered(ts, t.lenSizes[..]) && packed[..count] == StoredAll(ts)
    modifies w, w.outBuf
    ensures w.Valid() && w.fields == old(w.fields) + TokensFields(ts, t.lenSizes[..])
    ensures w.end == old(w.end) && w.base == old(w.base) && old(w.sent) <= w.sent
  {
    hide BitWriter.Valid, InStream, Pow2, CodeField, Symbol, TokensFields, StoredAll, Stored, TokenFields, Sound;
    ghost var len, a := t.lenSizes[..], packed[..count];
    ghost var target, rest := w.fields + TokensFields(ts, len), ts;
    var p := 0;
    NoTokens(len);
    while p < count
      invariant 0 <= p <= count && w.Valid() && TokensCovered(rest, len) && a[p..] == StoredAll(rest)
      invariant w.fields + TokensFields(rest, len) == target
      invariant w.end == old(w.end) && w.base == old(w.base) && old(w.sent) <= w.sent
      decreases count - p
    {
      TokenLeft(rest, a, p);
      TakeStored(a, p, rest);
      UnfoldTokens(rest, len);
      Advance(w.fields, TokenFields(rest[0], len), TokensFields(rest[1..], len), target);
      TokenStored(rest[0]);
      p := PutToken(t, w, packed, p, rest[0]);
      rest := rest[1..];
    }
    AllTaken(rest);
  }

  lemma TokenStored(t: Token)
    requires Sound(t)
    ensures |Stored(t)| >= 1
  {}

  lemma TokenLeft(ts: seq<Token>, a: seq<nat>, p: nat)
    requires AllSound(ts) && p < |a| && a[p..] == StoredAll(ts)
    ensures ts != []
  {
    assert |a[p..]| > 0;
  }

  lemma AllTaken(ts: seq<Token>)
    requires AllSound(ts) && StoredAll(ts) == []
    ensures ts == []
  {
    if ts != [] {
      StoredFront(ts);
      TokenStored(ts[0]);
    }
  }

  /** tdefl_start_dynamic_block: new codes from the counts, and their lengths in front of the block. */
  method StartDynamicBlock(t: CodeTables, buf: LzCodeBuffer, w: BitWriter)
      returns (ghost litCodes: nat, ghost distCodes: nat, ghost bitLengths: nat, ghost ts: seq<Token>)
    requires t.Shaped() && buf.Counted() && |buf.Ops()| < 65535 && buf.litCount != buf.distCount
    requires buf.litCount !in t.Arrays() && buf.distCount !in t.Arrays()
    requires w.Valid() && w.outBuf !in t.Arrays() && w.outBuf != buf.litCount && w.outBuf != buf.distCount
    modifies t.Arrays(), buf.litCount, w, w.outBuf
    ensures t.Ready() && Covers(t.litSizes[..], t.distSizes[..], buf.Ops())
    ensures Describes(t.litSizes[..], t.distSizes[..], t.lenSizes[..], litCodes, distCodes, bitLengths, ts)
    ensures w.Valid() && w.fields == old(w.fields) + HeaderFields(litCodes, distCodes, bitLengths, t.lenSizes[..], ts)
    ensures w.end == old(w.end) && w.base == old(w.base) && old(w.sent) <= w.sent
    ensures Serves(t.litSizes[..], buf.litCount[..], MAX_CODE_SIZE) && Serves(t.distSizes[..], buf.distCount[..], MAX_CODE_SIZE)
    ensures Serves(t.lenSizes[..], t.lenCount[..], 7) && Thrifty(buf.Ops(), t.litSizes[..], t.distSizes[..])
  {
    hide Thrifty, BitWriter.Valid, InStream, Pow2, Covers, Serves, Fits, TokensFields, OrderedFields, StoredAll, TokensCovered, LitUses, DistUses,
         Describes, Flat, ZeroFrom, HeaderFields;
    DynamicCodes(t, buf);
    ServesAcceptable(t.litSizes[..], buf.litCount[..], MAX_CODE_SIZE);
    ServesAcceptable(t.distSizes[..], buf.distCount[..], MAX_CODE_SIZE);
    var numLit, numDist, num, packer := PackHeader(t);
    litCodes, distCodes, bitLengths, ts := numLit, numDist, num, packer.tokens;
    PutHeader(t, w, numLit, numDist, num, packer.packed, packer.count, ts);
  }

  /** The lengths that matter, packed. */
  method PackSizes(t: CodeTables) returns (numLit: nat, numDist: nat, packer: Packer)
    requires t.Shaped() && t.Ready() && ZeroFrom(t.litSizes[..], 286) && ZeroFrom(t.distSizes[..], 30)
    modifies t.lenCount
    ensures fresh(packer) && fresh(packer.packed) && packer.huffCount == t.lenCount && packer.Room() && packer.Written()
    ensures 257 <= numLit <= 286 && ZeroFrom(t.litSizes[..], numLit) && 1 <= numDist <= 30 && ZeroFrom(t.distSizes[..], numDist)
    ensures packer.count <= numLit + numDist
    ensures Unpack(packer.tokens) == Some(t.litSizes[..numLit] + t.distSizes[..numDist])
  {
    hide StoredAll, Unpack, Uses, RevCode, Fits;
    numLit := Trim(t.litSizes, 286, 257);
    numDist := Trim(t.distSizes, 30, 1);
    var joined := JoinSizes(t, numLit, numDist);
    SizesShort(t.litCodes[..], t.litSizes[..]);
    SizesShort(t.distCodes[..], t.distSizes[..]);
    JoinedShort(t.litSizes[..numLit], t.distSizes[..numDist], joined[..numLit + numDist]);
    assert forall i :: 0 <= i < numLit + numDist ==> joined[i] == joined[..numLit + numDist][i];
    packer := PackCodeSizes(joined, numLit + numDist, t.lenCount);
  }

  /** The code lengths packed, the code for them chosen, and both trimmed. */
  method PackHeader(t: CodeTables) returns (numLit: nat, numDist: nat, num: nat, packer: Packer)
    requires t.Shaped() && t.Ready() && ZeroFrom(t.litSizes[..], 286) && ZeroFrom(t.distSizes[..], 30)
    requires Acceptable(t.litSizes[..]) && Acceptable(t.distSizes[..])
    modifies t.lenCount, t.lenSizes, t.lenCodes
    ensures fresh(packer) && fresh(packer.packed)
    ensures Describes(t.litSizes[..], t.distSizes[..], t.lenSizes[..], numLit, numDist, num, packer.tokens)
    ensures packer.count <= packer.packed.Length && packer.packed[..packer.count] == StoredAll(packer.tokens)
    ensures InStream(t.lenCodes[..], t.lenSizes[..]) && Serves(t.lenSizes[..], t.lenCount[..], 7)
    ensures t.litSizes[..] == old(t.litSizes[..]) && t.litCodes[..] == old(t.litCodes[..])
    ensures t.distSizes[..] == old(t.distSizes[..]) && t.distCodes[..] == old(t.distCodes[..])
  {
    hide Serves, Fits, StoredAll, Unpack, Uses, TokensCovered, Acceptable, RevCode, ZeroFrom;
    numLit, numDist, packer := PackSizes(t);
    LengthCodes(t, packer.tokens, numLit + numDist);
    LenCoded(t.lenCodes[..], t.lenSizes[..]);
    ServesAcceptable(t.lenSizes[..], t.lenCount[..], 7);
    num := TrimOrdered(t.lenSizes);
  }

  /** Codes that serve any counts pass the decoder's test. */
  lemma ServesAcceptable(sizes: seq<nat>, counts: seq<nat>, limit: nat)
    requires Serves(sizes, counts, limit) && limit <= MAX_CODE
    ensures Acceptable(sizes) && SizesAtMost(sizes, limit)
  {
    hide Used;
    if a, b :| 0 <= a < b < |sizes| && counts[a] > 0 && counts[b] > 0 {
      assert Full(sizes, limit);
      FullExtends(sizes, limit, MAX_CODE);
    }
  }

  lemma JoinedShort(a: seq<nat>, b: seq<nat>, joined: seq<nat>)
    requires joined == a + b
    requires (forall i :: 0 <= i < |a| ==> a[i] <= 15) && (forall i :: 0 <= i < |b| ==> b[i] <= 15)
    ensures forall i :: 0 <= i < |joined| ==> joined[i] <= 15
  {}

  lemma SizesShort(codes: seq<nat>, sizes: seq<nat>)
    requires InStream(codes, sizes)
    ensures forall i :: 0 <= i < |sizes| ==> sizes[i] <= 15
  {
    hide Used, RevCode;
  }

  lemma LenCoded(codes: seq<nat>, sizes: seq<nat>)
    requires |codes| == |sizes| && Fits(sizes, 7)
    requires forall i :: 0 <= i < |sizes| && sizes[i] > 0 ==> codes[i] == RevCode(sizes, i)
    ensures InStream(codes, sizes)
  {
    hide RevCode;
    FitsLonger(sizes, 7, MAX_CODE_SIZE);
  }

  /** A longer limit leaves the same codes room. */
  lemma {:induction false} FitsLonger(sizes: seq<nat>, a: nat, b: nat)
    requires Fits(sizes, a) && a <= b
    ensures Fits(sizes, b)
  {
    if a < b {
      FitsLonger(sizes, a, b - 1);
      NoneOfSize(sizes, |sizes|, b);
    }
  }

  method PutHeader(t: CodeTables, w: BitWriter, numLit: nat, numDist: nat, num: nat, packed: array<nat>, count: nat, ghost ts: seq<Token>)
    requires t.Shaped() && InStream(t.lenCodes[..], t.lenSizes[..])
    requires Describes(t.litSizes[..], t.distSizes[..], t.lenSizes[..], numLit, numDist, num, ts)
    requires w.Valid() && w.outBuf !in t.Arrays() && w.outBuf != packed
    requires count <= packed.Length && packed[..count] == StoredAll(ts)
    modifies w, w.outBuf
    ensures w.Valid() && w.fields == old(w.fields) + HeaderFields(numLit, numDist, num, t.lenSizes[..], ts)
    ensures w.end == old(w.end) && w.base == old(w.base) && old(w.sent) <= w.sent
  {
    hide BitWriter.Valid, InStream, Pow2, SizesAtMost, TokensFields, OrderedFields, StoredAll, TokensCovered, Describes;
    SmallPowers();
    DescribedTokens(t.litSizes[..], t.distSizes[..], t.lenSizes[..], numLit, numDist, num, ts);
    ghost var f := w.fields;
    w.PutBits(2, 2);
    w.PutBits(numLit - 257, 5);
    w.PutBits(numDist - 1, 5);
    w.PutBits(num - 4, 4);
    ghost var g := w.fields;
    PutOrdered(t, w, num);
    PutTokens(t, w, packed, count, ts);
    HeaderJoins(f, g, [Field(2, 2), Field(numLit - 257, 5), Field(numDist - 1, 5), Field(num - 4, 4)],
                OrderedFields(t.lenSizes[..], 0, num), TokensFields(ts, t.lenSizes[..]));
  }

  lemma DescribedTokens(lit: seq<nat>, dist: seq<nat>, len: seq<nat>, litCodes: nat, distCodes: nat, bitLengths: nat, ts: seq<Token>)
    requires Describes(lit, dist, len, litCodes, distCodes, bitLengths, ts)
    ensures 257 <= litCodes <= 286 && 1 <= distCodes <= 30 && 4 <= bitLengths <= LEN_SYMBOLS
    ensures SizesAtMost(len, 7) && |len| == LEN_SYMBOLS && AllSound(ts) && TokensCovered(ts, len)
  {
    hide Unpack, Fits, Sound, Acceptable;
  }

  lemma SmallPowers()
    ensures Pow2(2) == 4 && Pow2(4) == 16 && Pow2(5) == 32
  {
    Pow2Values();
    assert Pow2(4) == 2 * Pow2(3);
  }

  lemma HeaderJoins(f: seq<Field>, g: seq<Field>, h: seq<Field>, o: seq<Field>, ts: seq<Field>)
    requires |h| == 4 && g == f + [h[0]] + [h[1]] + [h[2]] + [h[3]]
    ensures g + o + ts == f + (h + o + ts)
  {
    assert g == f + h;
    assert f + h + o == f + (h + o);
    assert f + (h + o) + ts == f + (h + o + ts);
  }
}
