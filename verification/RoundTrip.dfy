/** tinfl_decompress over a whole stream, and what it makes of a stream that tdefl_compress has written. */
module RoundTrip {
  import opened Wrappers
  import opened Powers
  import opened HuffmanTree
  import opened Canonical
  import opened HuffmanTrie
  import opened BitStream
  import opened BitReader
  import opened BitWriter
  import opened LzOps
  import opened LzCodes
  import opened CodeLengthPacking
  import opened BlockFormat
  import opened BlockSize
  import opened Deflated
  import opened BlockReader
  import opened Inflater
  import opened Compressor
  import opened LzParser
  import Adler32

  // ---------- the fields of a stream fit ----------

  lemma FittingConcat(f: seq<Field>, g: seq<Field>)
    requires Fitting(f) && Fitting(g)
    ensures Fitting(f + g)
  {
    hide Pow2;
  }

  lemma FittingOne(f: Field)
    requires f.value < Pow2(f.bits)
    ensures Fitting([f])
  {
    hide Pow2;
  }

  lemma FittingOp(op: Op, lit: seq<nat>, dist: seq<nat>)
    requires Legal(op) && |lit| == LIT_SYMBOLS && |dist| == DIST_SYMBOLS
    ensures Fitting(OpFields(op, lit, dist))
  {
    hide Pow2, RevCode, LenSym, LenExtra, DistSym, DistExtra, Low;
    CodeFieldFits(lit, LitSymbol(op));
    if op.Match? {
      CodeFieldFits(dist, DistSymbol(op));
      LowBound(op.len - MIN_MATCH, LenExtra(op.len - MIN_MATCH));
      LowBound(op.dist - 1, DistExtra(op.dist - 1));
    }
  }

  lemma {:induction false} FittingOps(ops: seq<Op>, lit: seq<nat>, dist: seq<nat>)
    requires AllLegal(ops) && |lit| == LIT_SYMBOLS && |dist| == DIST_SYMBOLS
    ensures Fitting(OpsFields(ops, lit, dist))
  {
    hide Pow2, RevCode, OpFields, Fitting;
    if ops == [] {
      CodeFieldFits(lit, END_OF_BLOCK);
      FittingOne(CodeField(lit, END_OF_BLOCK));
    } else {
      FittingOp(ops[0], lit, dist);
      FittingOps(ops[1..], lit, dist);
      FittingConcat(OpFields(ops[0], lit, dist), OpsFields(ops[1..], lit, dist));
    }
  }

  lemma {:induction false} FittingTokens(ts: seq<Token>, len: seq<nat>)
    requires AllSound(ts) && |len| == LEN_SYMBOLS
    ensures Fitting(TokensFields(ts, len))
  {
    hide Pow2, RevCode, Fitting;
    if ts == [] {
      assert Fitting([]) by { FittingNone(); }
    } else {
      var t := ts[0];
      CodeFieldFits(len, Symbol(t));
      FittingOne(CodeField(len, Symbol(t)));
      if t.Length? {
        assert TokenFields(t, len) == [CodeField(len, Symbol(t))];
      } else {
        ExtraFits(t);
        FittingOne(Field(Extra(t), ExtraBits(Symbol(t))));
        FittingConcat([CodeField(len, Symbol(t))], [Field(Extra(t), ExtraBits(Symbol(t)))]);
      }
      FittingTokens(ts[1..], len);
      FittingConcat(TokenFields(t, len), TokensFields(ts[1..], len));
    }
  }

  lemma FittingNone()
    ensures Fitting([])
  {}

  lemma {:induction false} FittingOrdered(len: seq<nat>, i: nat, n: nat)
    requires |len| == LEN_SYMBOLS && n <= LEN_SYMBOLS && SizesAtMost(len, 7)
    ensures Fitting(OrderedFields(len, i, n))
    decreases n - i
  {
    hide Fitting;
    if i < n {
      assert Pow2(3) == 8;
      FittingOne(Field(len[LEN_ORDER[i]], 3));
      FittingOrdered(len, i + 1, n);
      FittingConcat([Field(len[LEN_ORDER[i]], 3)], OrderedFields(len, i + 1, n));
    } else {
      FittingNone();
    }
  }

  lemma {:induction false} FittingBytes(bytes: seq<nat>)
    requires forall i :: 0 <= i < |bytes| ==> bytes[i] < 256
    ensures Fitting(BytesFields(bytes))
  {
    hide Fitting, Pow2;
    Pow2Values();
    if bytes == [] {
      FittingNone();
    } else {
      FittingOne(Field(bytes[0], 8));
      FittingBytes(bytes[1..]);
      FittingConcat([Field(bytes[0], 8)], BytesFields(bytes[1..]));
    }
  }

  lemma FittingCodes(c: Codes)
    requires Consistent(c)
    ensures Fitting(CodesFields(c))
  {
    hide OrderedFields, TokensFields, Acceptable, Fits, Unpack, TokensCovered, SizesAtMost, FixedLit, FixedDist, ZeroFrom;
    assert Pow2(2) == 4 && Pow2(4) == 16;
    Pow2Values();
    match c
    case FixedCodes(_, _) =>
    case DynamicCodes(lit, dist, len, litCodes, distCodes, bitLengths, ts) =>
      HeaderParts(c, []);
      FittingOrdered(len, 0, bitLengths);
      FittingTokens(ts, len);
      var h := [Field(2, 2), Field(litCodes - 257, 5), Field(distCodes - 1, 5), Field(bitLengths - 4, 4)];
      FittingConcat(h, OrderedFields(len, 0, bitLengths));
      FittingConcat(h + OrderedFields(len, 0, bitLengths), TokensFields(ts, len));
  }

  lemma FittingPad(used: nat)
    ensures Fitting(PadFields(used))
  {}

  lemma FittingBlock(b: Block, used: nat)
    requires BlockFormat.WellFormed(b)
    ensures Fitting(BlockFields(b, used))
  {
    hide OpsFields, CodesFields, BytesFields, PadFields, Fitting, Consistent, Pow2;
    match b
    case StoredBlock(bytes) =>
      FittingBytes(bytes);
      FittingPad(used + 2);
      FittingStored(bytes, used);
      FittingConcat([Field(0, 2)] + PadFields(used + 2), [Field(|bytes|, 16), Field(65535 - |bytes|, 16)]);
      FittingConcat([Field(0, 2)] + PadFields(used + 2) + [Field(|bytes|, 16), Field(65535 - |bytes|, 16)], BytesFields(bytes));
    case CompressedBlock(codes, ops) =>
      FittingCodes(codes);
      CoveredShape(codes.lit, codes.dist, ops);
      FittingOps(ops, codes.lit, codes.dist);
      FittingConcat(CodesFields(codes), OpsFields(ops, codes.lit, codes.dist));
  }

  lemma FittingStored(bytes: seq<nat>, used: nat)
    requires |bytes| < 65536
    ensures Fitting([Field(0, 2)] + PadFields(used + 2))
    ensures Fitting([Field(|bytes|, 16), Field(65535 - |bytes|, 16)])
  {
    hide PadFields, Pow2;
    Pow2Values();
    FittingPad(used + 2);
    FittingConcat([Field(0, 2)], PadFields(used + 2));
  }

  lemma {:induction false} FittingStream(start: seq<Field>, bs: seq<Flagged>)
    requires AllWellFormed(bs) && Fitting(start)
    ensures Fitting(StreamFields(start, bs))
  {
    hide Fitting, BlockFields, BlockFormat.WellFormed, FieldsBits, Pow2;
    if bs != [] {
      var before, b := StreamFields(start, bs[..|bs| - 1]), bs[|bs| - 1];
      FittingStream(start, bs[..|bs| - 1]);
      FittingBlock(b.block, FieldsBits(before) + 1);
      Pow2Unfold(1);
      FittingOne(Field(if b.final then 1 else 0, 1));
      FittingConcat([Field(if b.final then 1 else 0, 1)], BlockFields(b.block, FieldsBits(before) + 1));
      FittingConcat(before, FlaggedFields(b, FieldsBits(before)));
    }
  }

  // ---------- block by block ----------

  lemma {:induction false} StreamPrefix(start: seq<Field>, bs: seq<Flagged>, k: nat)
    requires AllWellFormed(bs) && k <= |bs|
    ensures AllWellFormed(bs[..k]) && StreamFields(start, bs[..k]) <= StreamFields(start, bs)
  {
    hide FlaggedFields, BlockFormat.WellFormed, FieldsBits;
    if k == |bs| {
      assert bs[..k] == bs;
    } else {
      StreamPrefix(start, bs[..|bs| - 1], k);
      assert bs[..|bs| - 1][..k] == bs[..k];
    }
  }

  /** What is left of the stream `all` after the first `k` blocks starts with the next one. */
  lemma NextInStream(start: seq<Field>, bs: seq<Flagged>, k: nat, all: seq<Field>)
    requires AllWellFormed(bs) && k < |bs| && StreamFields(start, bs) <= all
    ensures AllWellFormed(bs[..k]) && AllWellFormed(bs[..k + 1]) && BlockFormat.WellFormed(bs[k].block)
    ensures StreamFields(start, bs[..k]) <= all && StreamFields(start, bs[..k + 1]) <= all
    ensures all[|StreamFields(start, bs[..k])|..] ==
            FlaggedFields(bs[k], FieldsBits(StreamFields(start, bs[..k]))) + all[|StreamFields(start, bs[..k + 1])|..]
  {
    hide FlaggedFields, BlockFormat.WellFormed, FieldsBits, StreamFields;
    StreamPrefix(start, bs, k);
    StreamPrefix(start, bs, k + 1);
    assert bs[..k + 1] == bs[..k] + [bs[k]];
    OneMore(start, bs[..k], bs[k]);
    CutAgain(StreamFields(start, bs[..k]), FlaggedFields(bs[k], FieldsBits(StreamFields(start, bs[..k]))), all);
  }

  lemma CutAgain(a: seq<Field>, b: seq<Field>, all: seq<Field>)
    requires a <= all && a + b <= all
    ensures all[|a|..] == b + all[|a + b|..]
  {
    assert all == (a + b) + all[|a + b|..];
  }

  lemma {:induction false} MeaningPrefix(bs: seq<Flagged>, k: nat)
    requires AllWellFormed(bs) && MeaningAll(bs).Some? && k < |bs|
    ensures MeaningAll(bs[..k]).Some? && MeaningAll(bs[..k + 1]).Some?
    ensures Meaning(bs[k].block, MeaningAll(bs[..k]).value) == MeaningAll(bs[..k + 1])
    ensures |MeaningAll(bs[..k + 1]).value| <= |MeaningAll(bs).value|
  {
    hide BlockFormat.WellFormed, Meaning;
    var n := |bs| - 1;
    assert bs[..k + 1][..k] == bs[..k] && bs[..k + 1][k] == bs[k];
    if k < n {
      MeaningPrefix(bs[..n], k);
      assert bs[..n][..k] == bs[..k] && bs[..n][..k + 1] == bs[..k + 1];
      MeaningGrows(bs[n].block, MeaningAll(bs[..n]).value);
    } else {
      assert bs[..k + 1] == bs;
    }
  }

  lemma MeaningGrows(b: Block, out: seq<nat>)
    requires Meaning(b, out).Some?
    ensures |out| <= |Meaning(b, out).value|
  {
    if b.CompressedBlock? { ExpandLength(out, b.ops); }
  }

  /** The blocks of a stream mean `promised` together. Only the last one of a closed stream is final. */
  ghost predicate Promises(bs: seq<Flagged>, closed: bool, promised: seq<nat>) {
    && AllWellFormed(bs) && (closed ==> bs != []) && (forall i :: 0 <= i < |bs| ==> bs[i].final == (closed && i == |bs| - 1))
    && MeaningAll(bs) == Some(promised)
  }

  /** The stream `all` has been read up to block `k`. */
  ghost predicate Reached(r: BitReader, start: seq<Field>, bs: seq<Flagged>, all: seq<Field>, k: nat, out: seq<nat>)
    reads r
  {
    && AllWellFormed(bs) && k <= |bs| && AllWellFormed(bs[..k]) && StreamFields(start, bs[..k]) <= all && StreamFields(start, bs) <= all
    && Ahead(r, all[|StreamFields(start, bs[..k])|..], Rest(0, 0)) && FieldsBits(all) == 8 * |r.input|
    && MeaningAll(bs[..k]) == Some(out)
  }

  lemma BitsOfPrefix(a: seq<Field>, all: seq<Field>)
    requires a <= all
    ensures FieldsBits(a) + FieldsBits(all[|a|..]) == FieldsBits(all)
  {
    FieldsConcat(a, all[|a|..], 0);
    assert a + all[|a|..] == all;
  }

  /** From there the next block is what comes. */
  lemma BlockComes(r: BitReader, start: seq<Field>, bs: seq<Flagged>, all: seq<Field>, k: nat, out: seq<nat>,
                   closed: bool, promised: seq<nat>, maxOut: nat)
    returns (used: nat, fs: seq<Field>, next: seq<nat>)
    requires Reached(r, start, bs, all, k, out) && k < |bs| && Promises(bs, closed, promised) && |promised| <= maxOut
    ensures AllWellFormed(bs) && StreamFields(start, bs) <= all && FieldsBits(all) == 8 * |r.input|
    ensures AllWellFormed(bs[..k + 1]) && StreamFields(start, bs[..k + 1]) <= all && fs == all[|StreamFields(start, bs[..k + 1])|..]
    ensures MeaningAll(bs[..k + 1]) == Some(next) && |next| <= maxOut
    ensures Coming(r, bs[k].block, bs[k].final, used, fs, Rest(0, 0), out, next, maxOut)
  {
    hide BlockFields, BlockFormat.WellFormed, FieldsBits, FieldsValue, StreamFields, MeaningAll, Meaning, Fitting;
    NextInStream(start, bs, k, all);
    MeaningPrefix(bs, k);
    used, fs := FieldsBits(StreamFields(start, bs[..k])), all[|StreamFields(start, bs[..k + 1])|..];
    next := MeaningAll(bs[..k + 1]).value;
    BitsOfPrefix(StreamFields(start, bs[..k]), all);
    assert FlaggedFields(bs[k], used) + fs == [Field(if bs[k].final then 1 else 0, 1)] + (BlockFields(bs[k].block, used + 1) + fs);
  }

  lemma AllRead(r: BitReader, start: seq<Field>, bs: seq<Flagged>, all: seq<Field>, out: seq<nat>)
    requires Reached(r, start, bs, all, |bs|, out)
    ensures MeaningAll(bs) == Some(out) && (all == StreamFields(start, bs) ==> r.Bits() == 0)
  {
    hide BlockFormat.WellFormed, FieldsBits, FieldsValue, StreamFields, MeaningAll, Fitting;
    assert bs[..|bs|] == bs;
    if all == StreamFields(start, bs) {
      assert all[|all|..] == [];
      NoBits();
    }
  }

  lemma NoBlocks(a: Rest)
    ensures TookBlocks(0, a, a, [])
  {}

  lemma NextTaken(n: nat, a: Rest, m: Rest, mid: seq<nat>, final: bool, b: Rest, out: seq<nat>)
    requires TookBlocks(n, a, m, mid) && TookBlock(m, mid, final, b, out)
    ensures if final then TookAllBlocks(a, b, out) else TookBlocks(n + 1, a, b, out)
  {
    hide TookBlock;
    if !final {
      assert TookBlocks(n + 1 - 1, a, m, mid) && TookBlock(m, mid, false, b, out);
    }
  }

  /** All blocks up to the final one. If `good`, they are `bs`: all there are if the stream is `closed`, those written so far if not. */
  method InflateBlocks(d: Decompressor, r: BitReader, maxOut: nat, ghost good: bool, ghost closed: bool,
                       ghost start: seq<Field>, ghost bs: seq<Flagged>, ghost all: seq<Field>, ghost promised: seq<nat>)
      returns (status: Status, out: seq<nat>)
    requires r.Valid() && d.Shaped()
    requires good ==> Reached(r, start, bs, all, 0, []) && Promises(bs, closed, promised) && |promised| <= maxOut
    requires good && !closed ==> AllWellFormed(bs) && all == StreamFields(start, bs)
    modifies r, d.Parts()
    ensures r.Valid() && |out| <= maxOut && AllBytes(out)
    ensures status == Done ==> TookAllBlocks(old(Left(r)), Left(r), out)
    ensures good ==> out == promised && status == if closed then Done else NeedsMoreInput
    ensures good && closed ==> Reached(r, start, bs, all, |bs|, promised)
  {
    hide TookBlock, TookBlocks, TookAllBlocks, Reached, Ahead, BlockFields, BlockFormat.WellFormed, FieldsBits, StreamFields, MeaningAll, AllWellFormed, Coming, BitReader.Valid, Decompressor.Shaped;
    out, status := [], Done;
    ghost var k: nat, from := 0, Left(r);
    NoBlocks(from);
    var isFinal := false;
    while !isFinal
      invariant r.Valid() && d.Shaped() && |out| <= maxOut && status == Done && AllBytes(out)
      invariant if isFinal then TookAllBlocks(from, Left(r), out) else TookBlocks(k, from, Left(r), out)
      invariant good ==> k <= |bs| && Reached(r, start, bs, all, k, out) && isFinal == (closed && k == |bs|)
      decreases !isFinal, r.Bits()
    {
      ghost var coming, b, final, used, fs, next := good && k < |bs|, StoredBlock([]), false, 0, [], [];
      if coming {
        used, fs, next := BlockComes(r, start, bs, all, k, out, closed, promised, maxOut);
        b, final := bs[k].block, bs[k].final;
      } else if good {
        AllRead(r, start, bs, all, out);
      }
      ghost var m, mid := Left(r), out;
      status, out, isFinal := InflateBlock(d, r, out, maxOut, coming, b, final, used, fs, Rest(0, 0), next);
      if status != Done {
        return;
      }
      NextTaken(k, from, m, mid, isFinal, Left(r), out);
      if coming { NextReached(r, start, bs, all, k, fs, out); }
      k := k + 1;
    }
    if good { AllRead(r, start, bs, all, out); }
  }

  lemma NextReached(r: BitReader, start: seq<Field>, bs: seq<Flagged>, all: seq<Field>, k: nat, fs: seq<Field>, out: seq<nat>)
    requires AllWellFormed(bs) && k < |bs| && StreamFields(start, bs) <= all && FieldsBits(all) == 8 * |r.input|
    requires AllWellFormed(bs[..k + 1]) && StreamFields(start, bs[..k + 1]) <= all && fs == all[|StreamFields(start, bs[..k + 1])|..]
    requires MeaningAll(bs[..k + 1]) == Some(out) && Ahead(r, fs, Rest(0, 0))
    ensures Reached(r, start, bs, all, k + 1, out)
  {
    hide Ahead, BlockFormat.WellFormed, FieldsBits, StreamFields, MeaningAll;
  }

  // ---------- header and trailer ----------

  /** The fields of a whole stream with blocks `bs`, whose checksum is `sum`. */
  ghost function WholeStream(zlib: bool, bs: seq<Flagged>, sum: nat): seq<Field>
    requires AllWellFormed(bs)
  {
    var blocks := StreamFields(HeaderOf(zlib), bs);
    blocks + PadFields(FieldsBits(blocks)) + if zlib then BytesFields(ChecksumBytes(sum)) else []
  }

  /** The same, or, if it is not `closed`, the fields up to the last block. */
  ghost function AllFields(zlib: bool, closed: bool, bs: seq<Flagged>, sum: nat): seq<Field>
    requires AllWellFormed(bs)
  {
    if closed then WholeStream(zlib, bs, sum) else StreamFields(HeaderOf(zlib), bs)
  }

  function HeaderOf(zlib: bool): seq<Field> {
    if zlib then [Field(0x78, 8), Field(1, 8)] else []
  }

  /** The whole stream is still to be read. */
  ghost predicate Whole(r: BitReader, zlib: bool, closed: bool, bs: seq<Flagged>, sum: nat, promised: seq<nat>, maxOut: nat)
    reads r
  {
    && Promises(bs, closed, promised) && |promised| <= maxOut && sum < WORD
    && Ahead(r, AllFields(zlib, closed, bs, sum), Rest(0, 0)) && FieldsBits(AllFields(zlib, closed, bs, sum)) == 8 * |r.input|
  }

  lemma HeaderFirst(zlib: bool, closed: bool, bs: seq<Flagged>, sum: nat)
    requires AllWellFormed(bs)
    ensures StreamFields(HeaderOf(zlib), bs) <= AllFields(zlib, closed, bs, sum)
    ensures AllWellFormed(bs[..0]) && StreamFields(HeaderOf(zlib), bs[..0]) == HeaderOf(zlib) <= AllFields(zlib, closed, bs, sum)
    ensures MeaningAll(bs[..0]) == Some([])
  {
    hide FlaggedFields, BlockFormat.WellFormed, FieldsBits, PadFields, BytesFields, Meaning;
    StreamPrefix(HeaderOf(zlib), bs, 0);
    assert bs[..0] == [];
  }

  /** The zlib header: compression method 8, no preset dictionary, and the two bytes a multiple of 31. */
  method ReadHeader(r: BitReader, ghost good: bool, ghost fs: seq<Field>, ghost rest: Rest) returns (status: Status)
    requires r.Valid() && (good ==> Ahead(r, HeaderOf(true) + fs, rest))
    modifies r
    ensures r.Valid() && r.Bits() <= old(r.Bits())
    ensures status == Done ==> TookHeader(old(Left(r)), Left(r))
    ensures good ==> status == Done && Ahead(r, fs, rest)
  {
    hide Ahead, TookBits;
    status := NeedsMoreInput;
    ghost var a := Left(r);
    if good { assert HeaderOf(true) + fs == [Field(0x78, 8)] + ([Field(1, 8)] + fs); }
    var ok, cmf, flg;
    ok, cmf := ReadNumber(r, 8, good, Field(0x78, 8), [Field(1, 8)] + fs, rest);
    if !ok { return; }
    ghost var m := Left(r);
    ok, flg := ReadNumber(r, 8, good, Field(1, 8), fs, rest);
    if !ok { return; }
    status := if (cmf * 256 + flg) % 31 != 0 || flg / 32 % 2 == 1 || cmf % 16 != 8 then Failed else Done;
    assert ok ==> TookBits(a, 8, cmf, m) && TookBits(m, 8, flg, Left(r));
  }

  method ReadChecksum(r: BitReader, ghost good: bool, ghost sum: nat) returns (ok: bool, z: nat)
    requires r.Valid() && (good ==> sum < WORD && Ahead(r, BytesFields(ChecksumBytes(sum)), Rest(0, 0)))
    modifies r
    ensures r.Valid() && (good ==> ok && z == sum)
    ensures ok ==> TookWord(old(Left(r)), z)
  {
    hide Ahead, BytesFields, WordOf, TookBits, Pow2;
    Pow2Values();
    ghost var bytes, got, marks := if good then ChecksumBytes(sum) else [0, 0, 0, 0], [], [Left(r)];
    var counter := 0;
    z, ok := 1, true;
    if good {
      FourBytes(sum);
      assert bytes[0..] == bytes;
    }
    ghost var c := [0, 0, 0, 1];
    WordOne();
    while counter < 4
      invariant 0 <= counter <= 4 && ok && r.Valid() && |got| == counter && |marks| == counter + 1 && c == [0, 0, 0, 1] + got && AllBytes(c)
      invariant z == WordOf(c[counter], c[counter + 1], c[counter + 2], c[counter + 3])
      invariant marks[0] == old(Left(r)) && marks[counter] == Left(r)
      invariant forall i :: 0 <= i < counter ==> TookBits(marks[i], 8, got[i], marks[i + 1])
      invariant good ==> got == bytes[..counter] && Ahead(r, BytesFields(bytes[counter..]), Rest(0, 0))
    {
      if good {
        UnfoldBytes(bytes, counter);
      }
      var s;
      ok, s := ReadNumber(r, 8, good, if good then Field(bytes[counter], 8) else Field(0, 0),
                          if good then BytesFields(bytes[counter + 1..]) else [], Rest(0, 0));
      if !ok { return; }
      WordGrows(c[counter], c[counter + 1], c[counter + 2], c[counter + 3], s);
      z := z * 256 % WORD + s;
      counter := counter + 1;
      got, marks, c := got + [s], marks + [Left(r)], c + [s];
    }
    WordTaken(marks, got, z);
    if good {
      assert got == bytes;
      FourBytes(sum);
    }
  }

  lemma WordTaken(marks: seq<Rest>, got: seq<nat>, z: nat)
    requires |got| == 4 && |marks| == 5 && z == WordOf(got[0], got[1], got[2], got[3])
    requires forall i :: 0 <= i < 4 ==> TookBits(marks[i], 8, got[i], marks[i + 1])
    ensures TookWord(marks[0], z)
  {
    hide TookBits;
    assert TookBits(marks[0], 8, got[0], marks[1]) && TookBits(marks[1], 8, got[1], marks[2]);
    assert TookBits(marks[2], 8, got[2], marks[3]) && TookBits(marks[3], 8, got[3], marks[4]);
  }

  lemma WordOne()
    ensures WordOf(0, 0, 0, 1) == 1
  {}

  lemma WordGrows(c0: nat, c1: nat, c2: nat, c3: nat, b: nat)
    requires c0 < 256 && c1 < 256 && c2 < 256 && c3 < 256 && b < 256
    ensures WordOf(c0, c1, c2, c3) * 256 % WORD + b == WordOf(c1, c2, c3, b)
  {
    ShiftByte(c0, c1, c2, c3);
  }

  /** Behind the last block: padding, and the checksum if there is one. */
  lemma TrailerComes(r: BitReader, zlib: bool, bs: seq<Flagged>, sum: nat, out: seq<nat>)
    requires AllWellFormed(bs) && Reached(r, HeaderOf(zlib), bs, WholeStream(zlib, bs, sum), |bs|, out)
    ensures Shr(r.Stream(), r.numBits % 8) == FieldsValue(if zlib then BytesFields(ChecksumBytes(sum)) else [], 0)
    ensures r.Bits() - r.numBits % 8 == FieldsBits(if zlib then BytesFields(ChecksumBytes(sum)) else [])
    ensures Fitting(if zlib then BytesFields(ChecksumBytes(sum)) else [])
  {
    hide BlockFormat.WellFormed, FieldsBits, FieldsValue, PadFields, BytesFields, Meaning, StreamFields, MeaningAll, Fitting, Shr, ChecksumBytes;
    assert bs[..|bs|] == bs;
    var blocks, t := StreamFields(HeaderOf(zlib), bs), if zlib then BytesFields(ChecksumBytes(sum)) else [];
    assert WholeStream(zlib, bs, sum)[|blocks|..] == PadFields(FieldsBits(blocks)) + t;
    BitsOfPrefix(blocks, WholeStream(zlib, bs, sum));
    SkipPad(r, FieldsBits(blocks), t, Rest(0, 0));
  }

  /** tinfl_decompress from the first byte to the last. Whatever the input, it succeeds only with what the input stands for.
      If `good`, the stream is the one that `bs` make up: it does succeed then, or asks for more where the stream is not `closed`. */
  method Inflate(d: Decompressor, r: BitReader, maxOut: nat, zlib: bool,
                 ghost good: bool, ghost closed: bool, ghost bs: seq<Flagged>, ghost sum: nat, ghost promised: seq<nat>)
      returns (status: Status, out: seq<nat>)
    requires r.Valid() && d.Shaped()
    requires good ==> Whole(r, zlib, closed, bs, sum, promised, maxOut) && (zlib && closed ==> sum == Adler32.Checksum(1, promised))
    modifies r, d.Parts()
    ensures |out| <= maxOut && (status == Done ==> Encodes(old(Left(r)), zlib, out))
    ensures good ==> out == promised && status == if closed then Done else NeedsMoreInput
  {
    hide TookHeader, TookAllBlocks, Closes, Ahead, StreamFields, MeaningAll, AllWellFormed, Reached, WholeStream, BytesFields, ChecksumBytes, BitReader.Valid, Decompressor.Shaped,
         Adler32.Checksum, FieldsBits;
    out, status := [], Done;
    ghost var all: seq<Field> := [];
    if good {
      all := AllFields(zlib, closed, bs, sum);
      HeaderFirst(zlib, closed, bs, sum);
    }
    ghost var a := Left(r);
    if zlib {
      if good { WholeFrom(all, HeaderOf(true)); }
      status := ReadHeader(r, good, if good then all[|HeaderOf(true)|..] else [], Rest(0, 0));
      if status != Done { return; }
    }
    if good { AtFirstBlock(r, zlib, closed, bs, sum); }
    ghost var m := Left(r);
    status, out := InflateBlocks(d, r, maxOut, good, closed, HeaderOf(zlib), bs, all, promised);
    if status != Done { return; }
    ghost var b := Left(r);
    status := EndStream(r, out, zlib, good, bs, sum);
    assert (if zlib then TookHeader(a, m) else m == a) && TookAllBlocks(m, b, out);
  }

  lemma WholeFrom(all: seq<Field>, start: seq<Field>)
    requires start <= all
    ensures all == start + all[|start|..]
  {}

  lemma AtFirstBlock(r: BitReader, zlib: bool, closed: bool, bs: seq<Flagged>, sum: nat)
    requires AllWellFormed(bs) && HeaderOf(zlib) <= AllFields(zlib, closed, bs, sum)
    requires Ahead(r, AllFields(zlib, closed, bs, sum)[|HeaderOf(zlib)|..], Rest(0, 0))
    requires FieldsBits(AllFields(zlib, closed, bs, sum)) == 8 * |r.input|
    ensures Reached(r, HeaderOf(zlib), bs, AllFields(zlib, closed, bs, sum), 0, [])
  {
    hide Ahead, BlockFormat.WellFormed, FieldsBits, StreamFields, AllFields, HeaderOf;
    HeaderFirst(zlib, closed, bs, sum);
  }

  /** Alignment, and the comparison of the stream's checksum with that of the output. */
  method EndStream(r: BitReader, out: seq<nat>, zlib: bool, ghost good: bool, ghost bs: seq<Flagged>, ghost sum: nat)
      returns (status: Status)
    requires r.Valid() && AllBytes(out) && (good ==> AllWellFormed(bs) && Reached(r, HeaderOf(zlib), bs, WholeStream(zlib, bs, sum), |bs|, out))
    requires good && zlib ==> sum == Adler32.Checksum(1, out) < WORD
    modifies r
    ensures good ==> status == Done
    ensures status == Done ==> Closes(old(Left(r)), zlib, Adler32.Checksum(1, out))
  {
    hide TookWord, FieldsValue, FieldsBits, Fitting, StreamFields, MeaningAll, AllWellFormed, Reached, WholeStream, BytesFields, ChecksumBytes, HeaderOf,
         Adler32.Checksum, Shr, Pow2;
    if good { TrailerComes(r, zlib, bs, sum, out); }
    ByteBoundary(r);
    r.Take(r.numBits % 8);
    status := Done;
    if zlib {
      var ok, z := ReadChecksum(r, good, sum);
      if !ok {
        status := NeedsMoreInput;
        return;
      }
      var check := Adler32.Adler(1, out);
      if check != z {
        status := AdlerMismatch;
      }
    }
  }

  // ---------- what was compressed comes back ----------

  lemma WholeBytes(zlib: bool, bs: seq<Flagged>, sum: nat)
    requires AllWellFormed(bs) && sum < WORD
    ensures FieldsBits(WholeStream(zlib, bs, sum)) % 8 == 0 && Fitting(WholeStream(zlib, bs, sum))
  {
    hide FieldsValue, FieldsBits, StreamFields, AllWellFormed, BytesFields, PadFields, Fitting, Pow2, ChecksumBytes, HeaderOf;
    HeaderFits(zlib);
    FittingStream(HeaderOf(zlib), bs);
    TrailerFits(zlib, sum);
    PaddedWhole(StreamFields(HeaderOf(zlib), bs), if zlib then BytesFields(ChecksumBytes(sum)) else []);
  }

  lemma PaddedWhole(blocks: seq<Field>, t: seq<Field>)
    requires Fitting(blocks) && Fitting(t) && FieldsBits(t) % 8 == 0
    ensures FieldsBits(blocks + PadFields(FieldsBits(blocks)) + t) % 8 == 0 && Fitting(blocks + PadFields(FieldsBits(blocks)) + t)
  {
    hide FieldsValue, FieldsBits, PadFields, Fitting, Pow2;
    FittingPad(FieldsBits(blocks));
    FittingConcat(blocks, PadFields(FieldsBits(blocks)));
    FittingConcat(blocks + PadFields(FieldsBits(blocks)), t);
    FieldsConcat(blocks, PadFields(FieldsBits(blocks)), 0);
    FieldsConcat(blocks + PadFields(FieldsBits(blocks)), t, 0);
    PaddedBits(FieldsBits(blocks));
  }

  lemma HeaderFits(zlib: bool)
    ensures Fitting(HeaderOf(zlib))
  {
    Pow2Values();
  }

  lemma TrailerFits(zlib: bool, sum: nat)
    requires sum < WORD
    ensures Fitting(if zlib then BytesFields(ChecksumBytes(sum)) else [])
    ensures FieldsBits(if zlib then BytesFields(ChecksumBytes(sum)) else []) % 8 == 0
  {
    hide BytesFields, Fitting, Pow2, FieldsBits;
    SumBytes(sum);
    if zlib {
      FittingBytes(ChecksumBytes(sum));
      BytesBits(ChecksumBytes(sum));
    } else {
      FittingNone();
      NoBits();
    }
  }

  lemma NoBits()
    ensures FieldsBits([]) == 0
  {}

  lemma SumBytes(sum: nat)
    requires sum < WORD
    ensures forall i :: 0 <= i < 4 ==> ChecksumBytes(sum)[i] < 256
  {
    FourBytes(sum);
  }

  lemma PaddedBits(used: nat)
    ensures (used + FieldsBits(PadFields(used))) % 8 == 0
  {
    if used % 8 != 0 {
      FieldsOne(Field(0, 8 - used % 8), 0);
      PadArithmetic(used);
    }
  }

  lemma PadArithmetic(used: nat)
    ensures (used + (8 - used % 8)) % 8 == 0
  {}

  /** The bytes a finished encoder has sent are the whole stream. */
  lemma SentIsStream(e: Encoder)
    requires e.Finished() && e.out.Valid() && e.adler < WORD
    ensures AllWellFormed(e.blocks) && AllBytes(e.out.sent)
    ensures BytesValue(e.out.sent, 0) == FieldsValue(WholeStream(e.zlib, e.blocks, e.adler), 0)
    ensures 8 * |e.out.sent| == FieldsBits(WholeStream(e.zlib, e.blocks, e.adler))
  {
    hide FieldsValue, FieldsBits, StreamFields, AllWellFormed, BytesFields, PadFields, Fitting, Pow2, ChecksumBytes, MeaningAll, SentValue;
    WholeBytes(e.zlib, e.blocks, e.adler);
    AlignedAtEnd(e.out);
    e.out.AlignedBytes();
  }

  lemma AlignedAtEnd(w: BitWriter)
    requires w.Valid() && FieldsBits(w.fields) % 8 == 0
    ensures w.bitsIn == 0
  {
    hide FieldsValue, FieldsBits, Fitting, Pow2, SentValue;
  }

  lemma FinishedPromises(e: Encoder)
    requires e.Finished() && e.parser.lzPos == |e.parser.fed|
    ensures Promises(e.blocks, true, e.parser.fed)
  {
    hide AllWellFormed, MeaningAll, SameBits, StreamFields;
    assert e.parser.fed[..e.parser.lzPos] == e.parser.fed;
  }

  lemma ClosedFields(zlib: bool, bs: seq<Flagged>, sum: nat)
    requires AllWellFormed(bs)
    ensures AllFields(zlib, true, bs, sum) == WholeStream(zlib, bs, sum)
  {
    hide WholeStream, StreamFields, AllWellFormed;
  }

  lemma AheadAll(r: BitReader, all: seq<Field>)
    requires r.Valid() && r.Stream() == FieldsValue(all, 0) && r.Bits() == FieldsBits(all) && Fitting(all)
    ensures Ahead(r, all, Rest(0, 0))
  {
    hide FieldsValue, FieldsBits, Fitting;
  }

  /** Whatever input was compressed, in whatever pieces and with whatever flags: its stream decompresses to it. */
  method DecodesWhatWasEncoded(e: Encoder, d: Decompressor, input: seq<nat>, maxOut: nat) returns (status: Status, out: seq<nat>)
    requires e.Finished() && e.Summed() && e.out.Valid() && e.adler < WORD && e.parser.lzPos == |e.parser.fed|
    requires e.Handed() && d.Shaped() && input == e.output && |e.parser.fed| <= maxOut
    modifies d.Parts()
    ensures status == Done && out == e.parser.fed
  {
    hide AllWellFormed, Fitting, FieldsBits, FieldsValue, BytesValue, BitWriter.Valid, Encoder.Finished, Decompressor.Shaped, Adler32.Checksum,
         AllFields, WholeStream, Promises, Ahead, BitReader.Valid, Encodes;
    SentIsStream(e);
    WholeBytes(e.zlib, e.blocks, e.adler);
    ClosedFields(e.zlib, e.blocks, e.adler);
    FinishedPromises(e);
    var r := new BitReader(input);
    AheadAll(r, WholeStream(e.zlib, e.blocks, e.adler));
    status, out := Inflate(d, r, maxOut, e.zlib, true, true, e.blocks, e.adler, e.parser.fed);
  }

  /** After a sync flush the bytes sent are the blocks so far, whole. */
  lemma SyncedIsStream(e: Encoder)
    requires e.Ready() && e.Synced()
    ensures AllWellFormed(e.blocks) && Promises(e.blocks, false, e.parser.fed) && AllBytes(e.out.sent)
    ensures BytesValue(e.out.sent, 0) == FieldsValue(AllFields(e.zlib, false, e.blocks, 0), 0)
    ensures 8 * |e.out.sent| == FieldsBits(AllFields(e.zlib, false, e.blocks, 0)) && Fitting(AllFields(e.zlib, false, e.blocks, 0))
  {
    hide FieldsValue, FieldsBits, StreamFields, AllWellFormed, Fitting, Pow2, MeaningAll, BitWriter.Valid, Parser.Valid, Encoder.Apart;
    assert e.parser.fed[..e.parser.lzPos] == e.parser.fed;
    HeaderFits(e.zlib);
    FittingStream(HeaderOf(e.zlib), e.blocks);
    WholeBytesSent(e.out);
  }

  lemma WholeBytesSent(w: BitWriter)
    requires w.Valid() && 8 * |w.sent| == FieldsBits(w.fields)
    ensures AllBytes(w.sent) && BytesValue(w.sent, 0) == FieldsValue(w.fields, 0)
  {
    hide FieldsValue, FieldsBits, BytesValue, Fitting, Pow2, SentValue;
    AlignedAtEnd(w);
    w.AlignedBytes();
  }

  /** After a sync flush, what has been handed on decompresses to all input given so far; then the decoder asks for more. */
  method DecodesSoFar(e: Encoder, d: Decompressor, input: seq<nat>, maxOut: nat) returns (status: Status, out: seq<nat>)
    requires e.Ready() && e.Synced() && d.Shaped() && input == e.output && |e.parser.fed| <= maxOut
    modifies d.Parts()
    ensures status == NeedsMoreInput && out == e.parser.fed
  {
    hide AllWellFormed, Fitting, FieldsBits, FieldsValue, BytesValue, BitWriter.Valid, Encoder.Ready, Decompressor.Shaped, Adler32.Checksum,
         AllFields, Promises, Ahead, BitReader.Valid, Encodes, Encoder.Marked;
    SyncedIsStream(e);
    var r := new BitReader(input);
    AheadAll(r, AllFields(e.zlib, false, e.blocks, 0));
    status, out := Inflate(d, r, maxOut, e.zlib, true, false, e.blocks, 0, e.parser.fed);
  }

  // ---------- a whole session ----------

  /** How many of the calls flush. */
  function Flushes(modes: seq<Flush>): nat {
    if modes == [] then 0 else Flushes(modes[..|modes| - 1]) + if modes[|modes| - 1] == NoFlush then 0 else 1
  }

  function Together(chunks: seq<seq<nat>>): seq<nat> {
    if chunks == [] then [] else Together(chunks[..|chunks| - 1]) + chunks[|chunks| - 1]
  }

  /** One piece of input, offered again until it has been taken and, with a flush, written. */
  method GiveChunk(e: Encoder, src: seq<nat>, mode: Flush) returns (ok: bool, done: bool)
    requires e.Ready() && e.Summed() && AllBytes(src)
    modifies e.State()
    ensures ok ==> e.parser.fed == old(e.parser.fed) + src && done == (mode == Flush.Finish)
    ensures ok && !done ==> e.Ready() && e.Summed()
    ensures ok && done ==> e.Finished() && e.parser.lzPos == |e.parser.fed| && e.Summed() && e.Handed() && e.out.Valid() && e.adler < WORD
    ensures ok && mode == SyncFlush ==> e.Synced()
    ensures e.short <= old(e.short) + if mode == NoFlush then 0 else 1
    ensures !ok ==> exists k: nat :: e.receiver(k) == Refused
  {
    hide Encoder.Ready, Encoder.Finished, Encoder.Summed, Encoder.Synced, BitWriter.Valid;
    var left, output := src, Pending;
    done := false;
    while output != Clear
      invariant output != Refused && (output == Clear ==> left == [] && done == (mode == Flush.Finish)) && (output == Pending ==> !done)
      invariant e.parser.fed + left == old(e.parser.fed) + src && AllBytes(left)
      invariant !done ==> e.Ready() && e.Summed()
      invariant e.short <= old(e.short) + if output == Clear && mode != NoFlush then 1 else 0
      invariant output == Clear && mode == SyncFlush ==> e.Synced()
      invariant done ==> e.Finished() && e.parser.lzPos == |e.parser.fed| && e.Summed() && e.Handed() && e.out.Valid() && e.adler < WORD
      decreases if output == Clear then 0 else 1, |left| + e.parser.lookaheadSize
    {
      var consumed;
      ghost var fed := e.parser.fed;
      consumed, output, done := e.Compress(left, mode);
      if output == Refused {
        return false, false;
      }
      assert fed + left == fed + left[..consumed] + left[consumed..];
      left := left[consumed..];
    }
    ok := true;
  }

  /** Whatever is compressed, with whatever flags, in whatever pieces, flushed or not, decompresses to what it was, unless
      output has been refused. And it has not become much longer: by 42 percent, and 600 bytes for every flush. */
  method CompressAndInflate(parsing: Flags, probes: nat, useStatic: bool, zlib: bool, receiver: nat -> Output,
                            chunks: seq<seq<nat>>, modes: seq<Flush>, maxOut: nat)
      returns (ok: bool, packed: seq<nat>, status: Status, out: seq<nat>)
    requires |modes| == |chunks| && (forall i :: 0 <= i < |chunks| ==> AllBytes(chunks[i]) && modes[i] != Flush.Finish)
    requires |Together(chunks)| <= maxOut
    ensures ok ==> status == Done && out == Together(chunks)
    ensures ok ==> 50 * |packed| <= 71 * |Together(chunks)| + 30000 * (Flushes(modes) + 1)
    ensures !ok ==> exists k: nat :: receiver(k) == Refused
  {
    hide Encoder.Ready, Encoder.Finished, Encoder.Valid, Encoder.Summed, Encoder.Handed, BitWriter.Valid, Decompressor.Shaped, Together, Flushes;
    status, out, packed := Failed, [], [];
    var e := new Encoder(parsing, probes, useStatic, zlib, receiver);
    FreshReady(e);
    ok := CompressAll(e, chunks, modes);
    if ok {
      packed := e.output;
      var d := new Decompressor();
      status, out := DecodesWhatWasEncoded(e, d, packed, maxOut);
    }
  }

  /** If the last piece is flushed, what has been handed on until then decompresses to all of them, without the end of the stream. */
  method SyncAndInflate(parsing: Flags, probes: nat, useStatic: bool, zlib: bool, receiver: nat -> Output,
                        chunks: seq<seq<nat>>, modes: seq<Flush>, maxOut: nat)
      returns (ok: bool, packed: seq<nat>, status: Status, out: seq<nat>)
    requires |modes| == |chunks| > 0 && (forall i :: 0 <= i < |chunks| ==> AllBytes(chunks[i]) && modes[i] != Flush.Finish)
    requires modes[|modes| - 1] == SyncFlush && |Together(chunks)| <= maxOut
    ensures ok ==> status == NeedsMoreInput && out == Together(chunks)
    ensures ok ==> |packed| >= 4 && packed[|packed| - 4..] == [0, 0, 255, 255]
    ensures ok ==> 50 * |packed| <= 71 * |Together(chunks)| + 30000 * Flushes(modes)
    ensures !ok ==> exists k: nat :: receiver(k) == Refused
  {
    hide Encoder.Ready, Encoder.Valid, Encoder.Summed, BitWriter.Valid, Decompressor.Shaped, Together, Flushes, FieldsBits;
    status, out, packed := Failed, [], [];
    var e := new Encoder(parsing, probes, useStatic, zlib, receiver);
    FreshReady(e);
    ok := GiveChunks(e, chunks, modes);
    if ok {
      packed := e.output;
      var d := new Decompressor();
      status, out := DecodesSoFar(e, d, packed, maxOut);
    }
  }

  /** Every piece, then the end of the stream. */
  method CompressAll(e: Encoder, chunks: seq<seq<nat>>, modes: seq<Flush>) returns (ok: bool)
    requires e.Ready() && e.Summed() && e.parser.fed == [] && e.short == 0
    requires |modes| == |chunks| && forall i :: 0 <= i < |chunks| ==> AllBytes(chunks[i]) && modes[i] != Flush.Finish
    modifies e.State()
    ensures ok ==> e.Finished() && e.parser.lzPos == |e.parser.fed| && e.Summed() && e.Handed() && e.out.Valid() && e.adler < WORD
    ensures ok ==> e.parser.fed == Together(chunks)
    ensures ok ==> 50 * |e.output| <= 71 * |Together(chunks)| + 30000 * (Flushes(modes) + 1)
    ensures !ok ==> exists k: nat :: e.receiver(k) == Refused
  {
    hide Encoder.Ready, Encoder.Finished, Encoder.Summed, BitWriter.Valid, Together, Flushes;
    ok := GiveChunks(e, chunks, modes);
    if ok {
      var done;
      ok, done := GiveChunk(e, [], Flush.Finish);
      assert Together(chunks) + [] == Together(chunks);
    }
  }

  lemma FreshReady(e: Encoder)
    requires e.Valid() && e.Handed() && e.blocks == [] && e.parser.fed == [] && e.adler == 1 && e.parser.codes.codePos == 1
    ensures e.Ready() && e.Summed()
  {
    hide Encoder.Valid;
    assert Adler32.Checksum(1, []) == 1;
  }

  method GiveChunks(e: Encoder, chunks: seq<seq<nat>>, modes: seq<Flush>) returns (ok: bool)
    requires e.Ready() && e.Summed() && e.parser.fed == [] && e.short == 0
    requires |modes| == |chunks| && forall i :: 0 <= i < |chunks| ==> AllBytes(chunks[i]) && modes[i] != Flush.Finish
    modifies e.State()
    ensures ok ==> e.Ready() && e.Summed() && e.parser.fed == Together(chunks) && e.short <= Flushes(modes)
    ensures ok && |chunks| > 0 && modes[|modes| - 1] == SyncFlush ==> e.Synced()
    ensures !ok ==> exists k: nat :: e.receiver(k) == Refused
  {
    hide Encoder.Ready, Encoder.Finished, Encoder.Summed, Encoder.Synced, AllBytes;
    ok := true;
    var i := 0;
    while i < |chunks|
      invariant 0 <= i <= |chunks| && e.Ready() && e.Summed() && e.parser.fed == Together(chunks[..i]) && e.short <= Flushes(modes[..i])
      invariant i > 0 && modes[i - 1] == SyncFlush ==> e.Synced()
    {
      var done;
      ok, done := GiveChunk(e, chunks[i], modes[i]);
      if !ok {
        return;
      }
      assert chunks[..i + 1][..i] == chunks[..i] && modes[..i + 1][..i] == modes[..i];
      i := i + 1;
    }
    assert chunks[..|chunks|] == chunks && modes[..|modes|] == modes;
  }
}
