/** tdefl_flush_block and the outer loop of tdefl_compress_normal: parsed input leaves as blocks. */
module Compressor {
  import opened Wrappers
  import opened Powers
  import opened TwoQueue
  import opened BitStream
  import opened Canonical
  import opened HuffmanTable
  import opened LzOps
  import opened LzDictionary
  import opened LzCodes
  import opened LzParser
  import opened CodeLengthPacking
  import opened BlockFormat
  import opened BlockSize
  import opened BitWriter
  import opened BlockWriter
  import Adler32

  const OUT_BUF_SIZE: nat := 85196

  /** No block takes more bytes, with what comes before it in the output buffer. */
  const MOST_BLOCK_BYTES: nat := 83000

  datatype Flush = NoFlush | SyncFlush | Finish

  /** Whether output has been handed on, waits to be handed on first, or has been refused. */
  datatype Output = Clear | Pending | Refused

  /** A compressed block of these operations, with codes made for them unless it is to have the fixed ones. */
  ghost predicate Compresses(b: Block, ops: seq<Op>, isStatic: bool) {
    && BlockFormat.WellFormed(b) && b.CompressedBlock? && b.ops == ops && b.codes.FixedCodes? == isStatic
    && (!isStatic ==> Thrifty(ops, b.codes.lit, b.codes.dist))
  }

  /** How the block is chosen for `n` bytes parsed into the operations `ops`, which take `size` bytes of the operation buffer.
      `alt` is the compressed block, which is written unless a raw block is asked for, or it takes no fewer bytes than it
      means, but for one; and a stored block needs the dictionary to have these still. */
  ghost predicate Chosen(isStatic: bool, useRaw: bool, kept: bool, n: nat, ops: seq<Op>, size: nat, b: Block, alt: Block, used: nat) {
    && BlockFormat.WellFormed(b) && (b.StoredBlock? ==> kept)
    && (useRaw ==> b.StoredBlock?)
    && (!useRaw ==>
          && Compresses(alt, ops, isStatic || n < 48) && (b == alt || b.StoredBlock?)
          && (b.StoredBlock? ==> n > 0 && BlockBytes(alt, used) >= n - 1))
    && (if kept then BlockBytes(b, used) <= n + 6
        else b.CompressedBlock? && FieldsBits(BlockFields(b, used)) <= 10 * size + 4505)
  }

  /** How many bytes more the stream has with the block, its final flag being among the `used` bits before. */
  ghost function BlockBytes(b: Block, used: nat): int
    requires BlockFormat.WellFormed(b)
  {
    (used + FieldsBits(BlockFields(b, used))) / 8 - used / 8
  }

  /** A sync flush ends with an empty stored block. */
  ghost function Closing(mode: Flush): seq<Flagged> {
    if mode == SyncFlush then [Flagged(StoredBlock([]), false)] else []
  }

  class Encoder {
    const parser: Parser
    const tables: CodeTables
    const out: BitWriter
    const forceStatic: bool
    /** TDEFL_WRITE_ZLIB_HEADER: two bytes in front of the first block, the checksum after the last. */
    const zlib: bool
    /** What happens to the n-th buffer handed on. */
    const receiver: nat -> Output
    var lzDictPos: nat
    var blockIndex: nat
    var adler: nat
    /** What has been handed on, buffer by buffer. */
    var output: seq<nat>
    ghost var blocks: seq<Flagged>
    /** How many of the blocks stand for 31 KiB at most. */
    ghost var short: nat

    constructor (parsing: Flags, probes: nat, useStatic: bool, useZlib: bool, answers: nat -> Output)
      ensures Valid() && blocks == [] && parser.fed == [] && parser.savedLen == 0 && adler == 1 && parser.codes.codePos == 1 && Handed()
      ensures forceStatic == useStatic && zlib == useZlib && receiver == answers && blockIndex == 0 && short == 0
      ensures fresh(parser) && fresh(parser.codes) && fresh({parser.codes.codeBuf, parser.codes.litCount, parser.codes.distCount})
      ensures fresh(parser.Arrays()) && fresh(tables.Arrays()) && fresh(out) && fresh(out.outBuf)
    {
      hide LzCodeBuffer.Valid, LzCodeBuffer.Ops, BitWriter.Valid, Window, Parser.Chained, CodeTables.Shaped, Parser.Valid, FieldsBits, Valid, Apart;
      forceStatic, zlib, receiver := useStatic, useZlib, answers;
      lzDictPos, blockIndex, adler, blocks, output, short := 0, 0, 1, [], [], 0;
      var p := new Parser(parsing, probes);
      ghost var mine := p.Arrays() + {p.codes.codeBuf, p.codes.litCount, p.codes.distCount};
      var t := new CodeTables();
      assert t.Arrays() !! mine;
      var buf := new nat[OUT_BUF_SIZE](i => 0);
      assert buf !in mine && buf !in t.Arrays();
      out := new BitWriter(buf, OUT_BUF_SIZE - 16);
      parser, tables := p, t;
      new;
      CodesApart();
      PartsApart();
      FreshValid();
    }

    lemma PartsApart()
      requires parser.Arrays() !! {parser.codes.codeBuf, parser.codes.litCount, parser.codes.distCount}
      requires tables.Arrays() !! parser.Arrays() + {parser.codes.codeBuf, parser.codes.litCount, parser.codes.distCount}
      requires out.outBuf !in parser.Arrays() + {parser.codes.codeBuf, parser.codes.litCount, parser.codes.distCount}
      requires out.outBuf !in tables.Arrays() && out.outBuf.Length == OUT_BUF_SIZE
      requires parser.codes.codeBuf != parser.codes.litCount && parser.codes.codeBuf != parser.codes.distCount
      requires parser.codes.codeBuf.Length == LZ_CODE_BUF_SIZE && parser.codes.litCount.Length == LIT_SYMBOLS
      requires parser.codes.distCount.Length == DIST_SYMBOLS && parser.codes.litCount != parser.codes.distCount
      ensures Apart()
    {
      hide Parser.Arrays, CodeTables.Arrays;
    }

    lemma FreshValid()
      requires Apart() && tables.Shaped() && out.Valid() && parser.Valid() && parser.codes.codePos == 1
      requires lzDictPos == 0 && parser.lzPos == 0 && adler == 1 && blocks == [] && out.fields == [] && blockIndex == 0
      ensures Valid()
    {
      hide BitWriter.Valid, Parser.Valid, CodeTables.Shaped, Apart, FieldsBits, FieldsValue;
    }

    lemma CodesApart()
      requires parser.Valid()
      ensures parser.codes.codeBuf != parser.codes.litCount && parser.codes.codeBuf != parser.codes.distCount
      ensures parser.codes.codeBuf.Length == LZ_CODE_BUF_SIZE && parser.codes.litCount.Length == LIT_SYMBOLS
      ensures parser.codes.distCount.Length == DIST_SYMBOLS
      ensures parser.codes.litCount != parser.codes.distCount && parser.Arrays() !! {parser.codes.codeBuf, parser.codes.litCount, parser.codes.distCount}
    {
      hide LzCodeBuffer.Layout, LzCodeBuffer.Ops, LitUses, DistUses, Total, Sum, Window, Parser.Chained;
    }

    /** The zlib header, if there is one. */
    ghost function Opened(): seq<Field> {
      if zlib then [Field(0x78, 8), Field(1, 8)] else []
    }

    /** The zlib header is part of the stream once a block has been written. */
    ghost function Start(): seq<Field>
      reads this`blockIndex
    {
      if blockIndex > 0 then Opened() else []
    }

    /** Between blocks: the stream written so far is the blocks so far, and they mean the input parsed before. */
    ghost predicate Valid()
      reads this, parser, parser.dict, parser.nextTab, parser.hashTab, out, out.outBuf
      reads parser.codes, parser.codes.codeBuf, parser.codes.litCount, parser.codes.distCount
    {
      && Apart() && tables.Shaped() && out.Valid() && parser.Valid() && parser.codes.codePos <= LZ_CODE_BUF_SIZE - 2
      && lzDictPos == parser.lzPos % WORD && adler < WORD && Streamed()
    }

    ghost predicate Streamed()
      reads this`blockIndex, this`blocks, parser`fed, parser`lzPos, out`fields
    {
      && AllWellFormed(blocks) && SameBits(out.fields, StreamFields(Start(), blocks))
      && parser.lzPos <= |parser.fed| && MeaningAll(blocks) == Some(parser.fed[..parser.lzPos])
      && (blockIndex == 0 ==> blocks == [])
    }

    /** What has been handed on is everything that was sent: nothing was ever too much for the output buffer. And it is not
        much more than what has been turned into blocks. */
    ghost predicate Handed()
      reads this`output, this`short, out`sent, parser`lzPos
    {
      AllBytes(output) && output == out.sent && 50 * |output| <= 71 * parser.lzPos + 30000 * short
    }

    /** Every array belongs to one part only. */
    ghost predicate Apart() {
      && parser.Arrays() !! {parser.codes.codeBuf, parser.codes.litCount, parser.codes.distCount} !! tables.Arrays() !! {out.outBuf}
      && parser.codes.codeBuf != parser.codes.litCount && parser.codes.codeBuf != parser.codes.distCount
      && parser.codes.litCount != parser.codes.distCount && out.outBuf.Length == OUT_BUF_SIZE
      && parser.codes.codeBuf.Length == LZ_CODE_BUF_SIZE && parser.codes.litCount.Length == LIT_SYMBOLS
      && parser.codes.distCount.Length == DIST_SYMBOLS
    }

    /** The waiting operations as a block with new or fixed codes. */
    method CompressBlock(isStatic: bool, ghost gs: seq<seq<Op>>) returns (fits: bool, ghost c: Codes)
      requires Apart() && tables.Shaped() && out.Valid()
      requires parser.codes.litCount.Length == LIT_SYMBOLS && parser.codes.distCount.Length == DIST_SYMBOLS
      requires isStatic || (parser.codes.Counted() && |parser.codes.Ops()| < 65535)
      requires parser.codes.codePos <= parser.codes.codeBuf.Length && LegalGroups(gs) && Grouped(gs)
      requires parser.codes.codeBuf[..parser.codes.codePos] == GroupsBytes(gs) && Flat(gs) == parser.codes.Ops()
      requires AllLegal(Flat(gs))
      modifies tables.Arrays(), parser.codes.litCount, out, out.outBuf
      ensures out.Valid() && out.end == old(out.end) && out.base == old(out.base) && old(out.sent) <= out.sent
      ensures Consistent(c) && Covers(c.lit, c.dist, Flat(gs)) && (c.DynamicCodes? ==> Thrifty(Flat(gs), c.lit, c.dist))
      ensures c.FixedCodes? == isStatic
      ensures out.fields == old(out.fields) + (CodesFields(c) + OpsFields(Flat(gs), c.lit, c.dist))
      ensures fits <==> out.ofs < out.end
    {
      hide Thrifty, BitWriter.Valid, LzCodeBuffer.Counted, InStream, Covers, Describes, OpsFields, Flat, FixedLit, FixedDist, GroupsBytes, Serves;
      if isStatic {
        StartStaticBlock(tables, parser.codes, out);
        c := FixedCodes(tables.litSizes[..], tables.distSizes[..]);
        FixedCovers(c.lit, c.dist, Flat(gs));
      } else {
        ghost var litCodes, distCodes, bitLengths, ts;
        litCodes, distCodes, bitLengths, ts := StartDynamicBlock(tables, parser.codes, out);
        c := DynamicCodes(tables.litSizes[..], tables.distSizes[..], tables.lenSizes[..], litCodes, distCodes, bitLengths, ts);
      }
      ghost var f := out.fields;
      fits := CompressLzCodes(parser.codes, tables, out, gs);
      assert old(out.fields) + CodesFields(c) + OpsFields(Flat(gs), c.lit, c.dist)
          == old(out.fields) + (CodesFields(c) + OpsFields(Flat(gs), c.lit, c.dist));
    }

    /** The input from position `from` on, taken from the dictionary, goes into the stream byte by byte. */
    method PutBytes(ghost from: nat, lzDictPos: nat, n: nat)
      requires Apart() && parser.Shaped() && parser.Placed() && out.Valid()
      requires parser.pos - parser.dictSize <= from && from + n <= |parser.fed| && lzDictPos == from % WORD
      requires parser.dictSize + parser.lookaheadSize <= DICT_SIZE
      modifies out, out.outBuf
      ensures out.Valid() && out.fields == old(out.fields) + BytesFields(parser.fed[from..from + n])
      ensures out.end == old(out.end) && out.base == old(out.base) && old(out.sent) <= out.sent
    {
      hide BitWriter.Valid, Window, Parser.Chained, BytesFields, Pow2;
      ghost var bytes := parser.fed[from..from + n];
      ghost var target := out.fields + BytesFields(bytes);
      Pow2Values();
      var i := 0;
      assert bytes[0..] == bytes;
      while i < n
        invariant 0 <= i <= n && out.Valid() && out.fields + BytesFields(bytes[i..]) == target
        invariant out.end == old(out.end) && out.base == old(out.base) && old(out.sent) <= out.sent
      {
        UnfoldBytes(bytes, i);
        WordSlot(from, i);
        ReadAhead(parser.dict[..], parser.fed, parser.Low(), from + i, 0);
        Advance(out.fields, [Field(bytes[i], 8)], BytesFields(bytes[i + 1..]), target);
        out.PutBits(parser.dict[(lzDictPos + i) % WORD % DICT_SIZE], 8);
        i := i + 1;
      }
      UnfoldBytes(bytes, n);
    }

    /** A stored block behind its final flag, for `n` bytes from position `from` on. */
    method WriteStored(ghost from: nat, lzDictPos: nat, n: nat)
      requires Apart() && parser.Shaped() && parser.Placed() && out.Valid()
      requires parser.pos - parser.dictSize <= from && from + n <= |parser.fed| && lzDictPos == from % WORD && n < 65536
      requires parser.dictSize + parser.lookaheadSize <= DICT_SIZE
      modifies out, out.outBuf
      ensures out.Valid()
      ensures BlockFormat.WellFormed(StoredBlock(parser.fed[from..from + n]))
      ensures out.fields == old(out.fields) + BlockFields(StoredBlock(parser.fed[from..from + n]), FieldsBits(old(out.fields)))
      ensures out.end == old(out.end) && out.base == old(out.base) && old(out.sent) <= out.sent
    {
      hide BitWriter.Valid, Parser.Placed, Parser.Chained, Parser.Shaped, BytesFields, Pow2, PadFields, FieldsBits, FieldsValue, BlockFormat.WellFormed;
      ghost var f, bytes := out.fields, parser.fed[from..from + n];
      StoredWellFormed(from, n);
      PutStoredType();
      var left := PutLength(n);
      PutBytes(from, lzDictPos, left);
      JoinStored(f, PadFields(FieldsBits(f) + 2), Field(n, 16), Field(65535 - n, 16), BytesFields(bytes));
    }

    lemma StoredWellFormed(from: nat, n: nat)
      requires parser.Placed() && from + n <= |parser.fed| && n < 65536
      ensures BlockFormat.WellFormed(StoredBlock(parser.fed[from..from + n]))
    {
      hide Window, Parser.Chained;
    }

    /** Block type 0, and the padding that puts what follows on a byte boundary. */
    method PutStoredType()
      requires out.Valid()
      modifies out, out.outBuf
      ensures out.Valid() && out.fields == old(out.fields) + [Field(0, 2)] + PadFields(FieldsBits(old(out.fields)) + 2)
      ensures out.end == old(out.end) && out.base == old(out.base) && old(out.sent) <= out.sent
    {
      hide BitWriter.Valid, Pow2, PadFields, FieldsBits, FieldsValue;
      PutField(out.fields, 0, 2);
      out.PutBits(0, 2);
      PadNext();
      out.Align();
    }

    /** The length and its complement; complementing twice leaves the length as it was. */
    method PutLength(n: nat) returns (left: nat)
      requires out.Valid() && n < 65536
      modifies out, out.outBuf
      ensures out.Valid() && out.fields == old(out.fields) + [Field(n, 16), Field(65535 - n, 16)] && left == n
      ensures out.end == old(out.end) && out.base == old(out.base) && old(out.sent) <= out.sent
    {
      hide BitWriter.Valid, Pow2;
      Pow2Values();
      left := n;
      var i := 2;
      while i > 0
        invariant 0 <= i <= 2 && out.Valid() && left == (if i == 1 then 65535 - n else n)
        invariant out.fields == old(out.fields) + [Field(n, 16), Field(65535 - n, 16)][..2 - i]
        invariant out.end == old(out.end) && out.base == old(out.base) && old(out.sent) <= out.sent
      {
        out.PutBits(left, 16);
        left := 65535 - left;
        i := i - 1;
      }
    }

    /** Aligning appends exactly the padding of the block format. */
    lemma PadNext()
      requires out.Valid()
      ensures PadFields(FieldsBits(out.fields)) == if out.bitsIn == 0 then [] else [Field(0, 8 - out.bitsIn)]
    {
      hide Pow2, FieldsValue, FieldsBits, SentValue, Fitting;
    }

    /** `n` parsed bytes wait to be written, as the groups `gs` of operations. */
    ghost predicate Waiting(n: nat, gs: seq<seq<Op>>)
      reads parser, parser.dict, parser.nextTab, parser.hashTab, parser.codes, parser.codes.codeBuf
    {
      && parser.Shaped() && parser.Placed() && parser.dictSize + parser.lookaheadSize <= DICT_SIZE
      && parser.codes.litCount.Length == LIT_SYMBOLS && parser.codes.distCount.Length == DIST_SYMBOLS
      && parser.codes.codePos <= parser.codes.codeBuf.Length == LZ_CODE_BUF_SIZE && LegalGroups(gs) && Grouped(gs)
      && parser.codes.codeBuf[..parser.codes.codePos] == GroupsBytes(gs) && Flat(gs) == parser.codes.Ops()
      && AllLegal(Flat(gs)) && |Flat(gs)| < 65535 && n == Total(Flat(gs))
      && parser.lzPos + n <= parser.pos <= parser.lzPos + n + 1
      && Expand(parser.fed[..parser.lzPos], Flat(gs)) == Some(parser.fed[..parser.lzPos + n])
    }

    lemma {:induction false} TotalBound(ops: seq<Op>)
      requires AllLegal(ops)
      ensures Total(ops) <= MAX_MATCH * |ops|
    {
      if ops != [] { TotalBound(ops[..|ops| - 1]); }
    }

    /** The distance test on wrapped positions is the test on the positions. */
    lemma WrappedDistance(n: nat, gs: seq<seq<Op>>, lzDictPos: nat)
      requires Waiting(n, gs) && lzDictPos == parser.lzPos % WORD
      ensures (parser.lookaheadPos - lzDictPos) % WORD == parser.pos - parser.lzPos
    {
      hide Window, Parser.Chained, GroupsBytes, LzCodeBuffer.Ops, Flat, Total, Expand;
      TotalBound(Flat(gs));
      WrapDifference(parser.pos, parser.lzPos);
    }

    /** What a block has to be: its fields have been written, and it means the waiting bytes. */
    ghost predicate Wrote(b: Block, n: nat, before: seq<Field>)
      reads out, parser
      requires n + parser.lzPos <= |parser.fed|
    {
      && BlockFormat.WellFormed(b) && out.fields == before + BlockFields(b, FieldsBits(before))
      && Meaning(b, parser.fed[..parser.lzPos]) == Some(parser.fed[..parser.lzPos + n])
    }

    /** The waiting bytes as a compressed block. */
    method WriteCompressed(isStatic: bool, n: nat, ghost gs: seq<seq<Op>>) returns (fits: bool, ghost b: Block)
      requires Apart() && tables.Shaped() && out.Valid() && Waiting(n, gs) && (isStatic || parser.codes.Counted())
      modifies tables.Arrays(), parser.codes.litCount, out, out.outBuf
      ensures out.Valid() && out.end == old(out.end) && out.base == old(out.base) && old(out.sent) <= out.sent
      ensures Waiting(n, gs) && Wrote(b, n, old(out.fields)) && (fits <==> out.ofs < out.end)
      ensures FieldsBits(BlockFields(b, FieldsBits(old(out.fields)))) <= 10 * parser.codes.codePos + 4505 <= MOST_BLOCK_BITS
      ensures Compresses(b, Flat(gs), isStatic)
    {
      hide Thrifty, BitWriter.Valid, LzCodeBuffer.Counted, Parser.Placed, Parser.Chained, Parser.Shaped, OpsFields, GroupsBytes, Flat, FieldsBits, FieldsValue,
           FixedLit, FixedDist, Describes, Covers, CodesFields, Total, Expand;
      ghost var c;
      fits, c := CompressBlock(isStatic, gs);
      b := CompressedBlock(c, Flat(gs));
      CompressedBits(c, gs);
    }

    /** A writer that has sent little enough has lost nothing. */
    lemma NothingLost(before: seq<Field>, fs: seq<Field>, sent0: nat)
      requires out.Valid() && out.fields == before + fs && FieldsBits(fs) <= MOST_BLOCK_BITS && FieldsBits(before) <= 8 * sent0 + 7
      requires out.base <= sent0 <= out.base + 4 && out.end == OUT_BUF_SIZE - 16
      ensures out.ofs < out.end && |out.sent| - out.base <= MOST_BLOCK_BYTES
    {
      hide FieldsBits, FieldsValue, Pow2, SentValue, Fitting;
      FieldsConcat(before, fs, 0);
    }

    lemma SentBits()
      requires out.Valid()
      ensures FieldsBits(out.fields) <= 8 * |out.sent| + 7 && out.base <= |out.sent| && |out.sent| == FieldsBits(out.fields) / 8
      ensures out.ofs == if |out.sent| - out.base <= out.end then |out.sent| - out.base else out.end
    {
      hide FieldsBits, FieldsValue, Pow2, SentValue, Fitting;
    }

    /** So many bits are so many bytes. */
    lemma SentMore(before: seq<Field>, fs: seq<Field>, sent0: nat, bits: nat)
      requires out.Valid() && out.fields == before + fs && FieldsBits(fs) <= bits && FieldsBits(before) <= 8 * sent0 + 7
      ensures 8 * |out.sent| <= 8 * sent0 + 7 + bits
    {
      hide FieldsBits, FieldsValue, Pow2, SentValue, Fitting;
      FieldsConcat(before, fs, 0);
    }

    lemma TrailerBits(used: nat)
      ensures FieldsBits(PadFields(used) + Trailer()) <= 40
    {
      hide PadFields, BytesFields, FieldsBits, FieldsValue, ChecksumBytes;
      PadBits(used);
      BytesBits(ChecksumBytes(adler));
      BytesBits([]);
      assert BytesFields([]) == [] by { NoBytes(); }
      FieldsConcat(PadFields(used), Trailer(), 0);
    }

    lemma WaitingFacts(n: nat, gs: seq<seq<Op>>)
      requires Waiting(n, gs)
      ensures parser.lzPos + n <= parser.pos <= |parser.fed| && parser.dictSize <= DICT_SIZE && parser.pos <= parser.lzPos + n + 1
      ensures parser.dictSize == parser.pos || parser.dictSize + MAX_MATCH >= DICT_SIZE
      ensures parser.codes.codePos <= LZ_CODE_BUF_SIZE
    {
      hide Window, Parser.Chained, GroupsBytes, LzCodeBuffer.Ops, Flat, Total, Expand, Parser.Shaped;
    }

    /** The waiting bytes as they are. */
    method WriteShortStored(n: nat, lzDictPos: nat, ghost gs: seq<seq<Op>>) returns (ghost b: Block)
      requires Apart() && out.Valid() && Waiting(n, gs)
      requires lzDictPos == parser.lzPos % WORD && parser.pos - parser.lzPos <= parser.dictSize
      requires out.end == OUT_BUF_SIZE - 16 && |out.sent| <= out.base + 4
      modifies out, out.outBuf
      ensures out.Valid() && out.end == old(out.end) && out.base == old(out.base) && old(out.sent) <= out.sent
      ensures Waiting(n, gs) && parser.lzPos + n <= |parser.fed| && Wrote(b, n, old(out.fields))
      ensures out.ofs < out.end && |out.sent| - out.base <= MOST_BLOCK_BYTES
      ensures b.StoredBlock? && BlockBytes(b, FieldsBits(old(out.fields))) <= n + 6
    {
      hide BitWriter.Valid, LzCodeBuffer.Ops, GroupsBytes, Flat, FieldsBits, FieldsValue, Total, Expand, Window, Parser.Chained, BlockFormat.WellFormed;
      ghost var before, sent0 := out.fields, |out.sent|;
      WaitingFacts(n, gs);
      SentBits();
      WriteStored(parser.lzPos, lzDictPos, n);
      b := StoredBlock(parser.fed[parser.lzPos..parser.lzPos + n]);
      assert parser.fed[..parser.lzPos] + parser.fed[parser.lzPos..parser.lzPos + n] == parser.fed[..parser.lzPos + n];
      StoredBits(b.bytes, FieldsBits(before));
      NothingLost(before, BlockFields(b, FieldsBits(before)), sent0);
    }

    /** The waiting bytes as a compressed block always fit the output buffer. */
    method WriteFitting(isStatic: bool, n: nat, ghost gs: seq<seq<Op>>) returns (fits: bool, ghost b: Block)
      requires Apart() && tables.Shaped() && out.Valid() && Waiting(n, gs) && (isStatic || parser.codes.Counted())
      requires out.end == OUT_BUF_SIZE - 16 && |out.sent| <= out.base + 4
      modifies tables.Arrays(), parser.codes.litCount, out, out.outBuf
      ensures out.Valid() && out.end == old(out.end) && out.base == old(out.base) && old(out.sent) <= out.sent
      ensures Waiting(n, gs) && parser.lzPos + n <= |parser.fed| && Wrote(b, n, old(out.fields))
      ensures fits && out.ofs < out.end && |out.sent| - out.base <= MOST_BLOCK_BYTES
      ensures Compresses(b, Flat(gs), isStatic) && out.ofs - old(out.ofs) == BlockBytes(b, FieldsBits(old(out.fields)))
      ensures FieldsBits(BlockFields(b, FieldsBits(old(out.fields)))) <= 10 * parser.codes.codePos + 4505
    {
      hide Compresses, BitWriter.Valid, Waiting, FieldsBits, FieldsValue, BlockFields, Parser.Placed, Parser.Chained, Parser.Shaped, BlockFormat.WellFormed, Meaning;
      ghost var before, sent0 := out.fields, |out.sent|;
      WaitingFacts(n, gs);
      SentBits();
      fits, b := WriteCompressed(isStatic, n, gs);
      NothingLost(before, BlockFields(b, FieldsBits(before)), sent0);
      SentBits();
      FieldsConcat(before, BlockFields(b, FieldsBits(before)), 0);
    }

    /** The dictionary still has the waiting bytes. */
    ghost predicate Kept()
      reads parser
    {
      parser.pos - parser.lzPos <= parser.dictSize
    }

    /** The waiting bytes as a block: compressed, or else stored if that is no longer and the dictionary still has them.
        The source goes on to the fixed codes if the output buffer has been too small for the block, and wonders whether
        that can happen at all: it cannot. */
    method WriteBlock(useRaw: bool, n: nat, lzDictPos: nat, ghost gs: seq<seq<Op>>) returns (ghost b: Block, ghost alt: Block)
      requires Apart() && tables.Shaped() && out.Valid() && Waiting(n, gs) && parser.codes.Counted()
      requires lzDictPos == parser.lzPos % WORD && (useRaw ==> Kept())
      requires out.end == OUT_BUF_SIZE - 16 && |out.sent| <= out.base + 4
      modifies tables.Arrays(), parser.codes.litCount, out, out.outBuf
      ensures out.Valid() && out.end == old(out.end) && out.base == old(out.base) && old(out.sent) <= out.sent
      ensures Waiting(n, gs) && Wrote(b, n, old(out.fields))
      ensures out.ofs < out.end && |out.sent| - out.base <= MOST_BLOCK_BYTES
      ensures Chosen(forceStatic, useRaw, Kept(), n, parser.codes.Ops(), parser.codes.codePos, b, alt, FieldsBits(old(out.fields)))
    {
      hide BitWriter.Valid, LzCodeBuffer.Counted, Waiting, Wrote, FieldsBits, BlockFields, Carries, Parser.Placed, Parser.Chained, Parser.Shaped,
           LzCodeBuffer.Ops, Compresses, BlockBytes, BlockFormat.WellFormed;
      WrappedDistance(n, gs, lzDictPos);
      WaitingFacts(n, gs);
      SentBits();
      ghost var before, sent0 := out.fields, out.sent;
      var ofs, bitBuffer, bitsIn := out.ofs, out.bitBuffer, out.bitsIn;
      out.CanRestore();
      var succeeded := false;
      alt := StoredBlock([]);
      if !useRaw {
        succeeded, b := WriteFitting(forceStatic || n < 48, n, gs);
        alt := b;
        WaitingOps(n, gs);
        CompressesForm(alt, Flat(gs), forceStatic || n < 48);
        if n == 0 {
          NothingWaiting(n, gs, alt, FieldsBits(before));
        }
      }
      if (useRaw || (n > 0 && out.ofs - ofs + 1 >= n)) && (parser.lookaheadPos - lzDictPos) % WORD <= parser.dictSize {
        out.Restore(ofs, bitBuffer, bitsIn, before, sent0);
        b := WriteShortStored(n, lzDictPos, gs);
        WroteWellFormed(b, n, before);
      } else if !succeeded {
        assert false;
      }
    }

    lemma WroteWellFormed(b: Block, n: nat, before: seq<Field>)
      requires n + parser.lzPos <= |parser.fed| && Wrote(b, n, before)
      ensures BlockFormat.WellFormed(b)
    {
      hide BlockFormat.WellFormed;
    }

    lemma WaitingOps(n: nat, gs: seq<seq<Op>>)
      requires Waiting(n, gs)
      ensures Flat(gs) == parser.codes.Ops()
    {
      hide Window, GroupsBytes, LzCodeBuffer.Ops, Flat, Total, Expand, Parser.Shaped, Parser.Placed, Parser.Chained;
    }

    /** Without waiting bytes the block has no operations. */
    lemma NothingWaiting(n: nat, gs: seq<seq<Op>>, b: Block, used: nat)
      requires Waiting(n, gs) && n == 0 && Compresses(b, Flat(gs), true)
      ensures BlockFormat.WellFormed(b) && BlockBytes(b, used) <= 6
    {
      hide Window, GroupsBytes, LzCodeBuffer.Ops, Flat, Expand, Parser.Shaped, Parser.Placed, Parser.Chained, FieldsBits, FieldsValue, BlockFields, Total;
      NoTotal(Flat(gs));
      EmptyCompressed(b, used);
    }

    // ---------- before and after the block itself ----------

    /** The output buffer starts over; the zlib header comes first of all; then the final flag. */
    method BeginBlock(final: bool)
      requires Apart() && out.Valid() && Streamed()
      modifies out, out.outBuf
      ensures out.Valid() && out.end == OUT_BUF_SIZE - 16 && |out.sent| <= out.base + 4
      ensures out.base == |old(out.sent)| && old(out.sent) <= out.sent
      ensures exists f :: BegunAs(f, final)
    {
      hide BitWriter.Valid, FieldsBits, FieldsValue, StreamFields, MeaningAll, BlockFormat.WellFormed, Pow2, AllWellFormed, SameBits;
      Pow2Values();
      SentBits();
      out.Rewind(OUT_BUF_SIZE - 16);
      ghost var f, g := out.fields, [];
      if zlib && blockIndex == 0 {
        out.PutBits(0x78, 8);
        out.PutBits(1, 8);
        g := [Field(0x78, 8), Field(1, 8)];
        assert out.fields == f + g;
      } else {
        assert out.fields == f + g;
      }
      HeaderWritten(f, g);
      out.PutBits(if final then 1 else 0, 1);
      assert BegunAs(f + g, final);
      FewSent(f, g, Field(if final then 1 else 0, 1));
    }

    /** The stream so far, then the final flag of a block. */
    ghost predicate BegunAs(f: seq<Field>, final: bool)
      reads out`fields, this`blocks, this`blockIndex
    {
      && AllWellFormed(blocks) && SameBits(f, StreamFields(Opened(), blocks))
      && out.fields == f + [Field(if final then 1 else 0, 1)]
    }

    lemma HeaderWritten(f: seq<Field>, g: seq<Field>)
      requires Streamed0(f) && g == if blockIndex == 0 then Opened() else []
      ensures AllWellFormed(blocks) && SameBits(f + g, StreamFields(Opened(), blocks))
    {
      hide BlockFormat.WellFormed, FlaggedFields, FieldsBits, FieldsValue;
      if g == [] {
        assert f + g == f;
      } else {
        assert StreamFields([], []) == [] && StreamFields(g, []) == g;
        assert SameBits(g, g) && [] + g == g;
        SameBitsAppend(f, [], g, g);
      }
    }

    ghost predicate Streamed0(f: seq<Field>)
      reads this`blockIndex, this`blocks
    {
      AllWellFormed(blocks) && SameBits(f, StreamFields(Start(), blocks)) && (blockIndex == 0 ==> blocks == [])
    }

    lemma FewSent(f: seq<Field>, g: seq<Field>, h: Field)
      requires out.Valid() && out.fields == f + g + [h] && |g| <= 2 && h.bits == 1 && FieldsBits(f) <= 8 * out.base + 7
      requires forall i :: 0 <= i < |g| ==> g[i].bits == 8
      ensures |out.sent| <= out.base + 4
    {
      hide FieldsValue, Pow2, SentValue, Fitting;
      FieldsConcat(f + g, [h], 0);
      FieldsConcat(f, g, 0);
      FieldsOne(h, 0);
      if |g| == 2 {
        assert g[1..][0] == g[1] && g[1..][1..] == [];
      } else if |g| == 1 {
        assert g[1..] == [];
      }
    }

    // ---------- tdefl_flush_block ----------

    lemma NowWaiting(n: nat, gs: seq<seq<Op>>)
      requires parser.Shaped() && parser.Placed() && parser.Chained() && parser.Sound() && parser.dictSize + parser.lookaheadSize <= DICT_SIZE
      requires parser.codes.litCount.Length == LIT_SYMBOLS && parser.codes.distCount.Length == DIST_SYMBOLS
      requires parser.codes.codePos <= parser.codes.codeBuf.Length == LZ_CODE_BUF_SIZE && LegalGroups(gs) && Grouped(gs)
      requires parser.codes.codeBuf[..parser.codes.codePos] == GroupsBytes(gs) && Flat(gs) == parser.codes.Ops()
      requires n == Total(parser.codes.Ops()) && |parser.codes.Ops()| < 65535
      ensures Waiting(n, gs) && parser.lzPos + n == parser.Parsed()
    {
      hide Window, Parser.Chained, SavedMatch, GroupsBytes, LzCodeBuffer.Ops, Flat;
      ExpandLength(parser.fed[..parser.lzPos], Flat(gs));
    }

    /** The parser once its operations have become a block. */
    lemma ParsedOn()
      requires parser.Shaped() && parser.Placed() && parser.Chained() && parser.dictSize + parser.lookaheadSize <= DICT_SIZE && parser.codes.Valid()
      requires SavedMatch(parser.fed, parser.pos, parser.lookaheadSize, parser.savedLen, parser.savedDist, parser.savedLit)
      requires parser.codes.Ops() == [] && parser.pos <= |parser.fed| && parser.lzPos == parser.Parsed()
      ensures parser.Valid()
    {
      hide Window, Parser.Chained, SavedMatch, LzCodeBuffer.Valid, LzCodeBuffer.Ops;
    }

    /** The stream with one block more. */
    lemma OneBlockMore(f: seq<Field>, final: bool, b: Block, n: nat)
      requires AllWellFormed(blocks) && SameBits(f, StreamFields(Opened(), blocks))
      requires parser.lzPos + n <= |parser.fed| && Wrote(b, n, f + [Field(if final then 1 else 0, 1)])
      requires MeaningAll(blocks) == Some(parser.fed[..parser.lzPos])
      ensures AllWellFormed(blocks + [Flagged(b, final)])
      ensures SameBits(out.fields, StreamFields(Opened(), blocks + [Flagged(b, final)]))
      ensures MeaningAll(blocks + [Flagged(b, final)]) == Some(parser.fed[..parser.lzPos + n])
    {
      hide FieldsValue, BlockFields, BlockFormat.WellFormed, AllWellFormed, Meaning, MeaningAll, StreamFields, FieldsBits;
      var start, x := Opened(), Flagged(b, final);
      OneMore(start, blocks, x);
      var h := [Field(if final then 1 else 0, 1)];
      FieldsConcat(f, h, 0);
      FieldsOne(h[0], 0);
      assert out.fields == f + FlaggedFields(x, FieldsBits(f));
      SameBitsAppend(f, StreamFields(start, blocks), FlaggedFields(x, FieldsBits(f)), FlaggedFields(x, FieldsBits(f)));
    }

    /** The blocks so far make up the stream so far. */
    ghost predicate AllWritten(upTo: nat)
      reads this`blocks, parser`fed, out`fields
    {
      && AllWellFormed(blocks) && SameBits(out.fields, StreamFields(Opened(), blocks))
      && upTo <= |parser.fed| && MeaningAll(blocks) == Some(parser.fed[..upTo])
    }

    /** A sync flush ends with an empty stored block, whose first three bits are written at once. */
    method EndSync(ghost upTo: nat)
      requires out.Valid() && AllWritten(upTo)
      modifies out, out.outBuf, this`blocks
      ensures out.Valid() && AllWritten(upTo) && blocks == old(blocks) + [Flagged(StoredBlock([]), false)]
      ensures |out.sent| <= |old(out.sent)| + 7 && Marked()
      ensures out.end == old(out.end) && out.base == old(out.base) && old(out.sent) <= out.sent
    {
      hide BitWriter.Valid, FieldsValue, FieldsBits, StreamFields, MeaningAll, Pow2, BlockFields, AllWellFormed;
      ghost var f, sent0 := out.fields, |out.sent|;
      SentBits();
      assert Pow2(3) > 0;
      out.PutBits(0, 3);
      PutField(f, 0, 3);
      PadNext();
      out.Align();
      AlignedFacts();
      ghost var aligned, sent1 := out.fields, out.sent;
      var left := PutLength(0);
      MarkerSent(aligned, sent1);
      EmptyBlock(f);
      OneMore(Opened(), blocks, Flagged(StoredBlock([]), false));
      ghost var pad := PadFields(FieldsBits(f) + 3);
      assert out.fields == f + ([Field(0, 3)] + pad + [Field(0, 16), Field(65535, 16)]);
      SyncBits(FieldsBits(f) + 3);
      SentMore(f, [Field(0, 3)] + pad + [Field(0, 16), Field(65535, 16)], sent0, 43);
      SameBitsAppend(f, StreamFields(Opened(), blocks), [Field(0, 3)] + pad + [Field(0, 16), Field(65535, 16)],
                     FlaggedFields(Flagged(StoredBlock([]), false), FieldsBits(f)));
      blocks := blocks + [Flagged(StoredBlock([]), false)];
      assert parser.fed[..upTo] + [] == parser.fed[..upTo];
    }

    /** The output ends on a byte boundary, with the bytes 0, 0, 255, 255. */
    ghost predicate Marked()
      reads out`fields, out`sent
    {
      8 * |out.sent| == FieldsBits(out.fields) && |out.sent| >= 4 && out.sent[|out.sent| - 4..] == [0, 0, 255, 255]
    }

    lemma AlignedFacts()
      requires out.Valid() && out.bitsIn == 0
      ensures AllBytes(out.sent) && FieldsBits(out.fields) == 8 * |out.sent| && FieldsValue(out.fields, 0) == BytesValue(out.sent, 0)
    {
      hide BitWriter.Stored, Pow2, BytesValue, FieldsValue, FieldsBits, Fitting;
      out.AlignedBytes();
    }

    lemma MarkerSent(aligned: seq<Field>, sent1: seq<nat>)
      requires out.Valid() && out.fields == aligned + [Field(0, 16), Field(65535, 16)] && sent1 <= out.sent
      requires AllBytes(sent1) && FieldsBits(aligned) == 8 * |sent1| && FieldsValue(aligned, 0) == BytesValue(sent1, 0)
      ensures Marked()
    {
      hide BitWriter.Stored, Pow2, BytesValue, FieldsValue, FieldsBits, Fitting;
      var tail := out.sent[|sent1|..];
      assert out.sent == sent1 + tail;
      MarkerFields();
      FieldsConcat(aligned, [Field(0, 16), Field(65535, 16)], 0);
      FieldsRest(aligned, FieldsValue([Field(0, 16), Field(65535, 16)], 0));
      assert |out.sent| == |sent1| + 4 && out.bitsIn == 0;
      assert Pow2(0) == 1 by { Pow2Values(); }
      BytesValueConcat(sent1, tail);
      MulCancel(BytesValue(tail, 0), 0xFFFF_0000, Pow2(8 * |sent1|));
      MarkerBytes(tail);
      assert out.sent[|out.sent| - 4..] == tail;
    }

    lemma EmptyBlock(f: seq<Field>)
      ensures BlockFormat.WellFormed(StoredBlock([]))
      ensures SameBits([Field(0, 3)] + PadFields(FieldsBits(f) + 3) + [Field(0, 16), Field(65535, 16)],
                       FlaggedFields(Flagged(StoredBlock([]), false), FieldsBits(f)))
    {
      hide FieldsValue, FieldsBits, PadFields, Pow2;
      var more := PadFields(FieldsBits(f) + 3) + [Field(0, 16), Field(65535, 16)];
      assert BytesFields([]) == [];
      assert [Field(0, 3)] + PadFields(FieldsBits(f) + 3) + [Field(0, 16), Field(65535, 16)] == [Field(0, 3)] + more;
      assert FlaggedFields(Flagged(StoredBlock([]), false), FieldsBits(f)) == [Field(0, 1)] + [Field(0, 2)] + more;
      ThreeZeros();
      SameBitsAppend([Field(0, 3)], [Field(0, 1)] + [Field(0, 2)], more, more);
    }

    lemma ThreeZeros()
      ensures SameBits([Field(0, 3)], [Field(0, 1)] + [Field(0, 2)])
    {
      assert ([Field(0, 1)] + [Field(0, 2)])[1..] == [Field(0, 2)];
      FieldsOne(Field(0, 3), 0);
      FieldsOne(Field(0, 2), 0);
    }

    ghost function Trailer(): seq<Field>
      reads this`adler
    {
      if zlib then BytesFields(ChecksumBytes(adler)) else []
    }

    /** The stream ends on a byte boundary, with the checksum behind it, high byte first. */
    method EndStream()
      requires out.Valid() && adler < WORD
      modifies out, out.outBuf
      ensures out.Valid() && out.fields == old(out.fields) + PadFields(FieldsBits(old(out.fields))) + Trailer()
      ensures out.end == old(out.end) && out.base == old(out.base) && old(out.sent) <= out.sent
    {
      hide BitWriter.Valid, FieldsBits, PadFields, BytesFields, ChecksumBytes;
      PadNext();
      out.Align();
      assert out.fields == old(out.fields) + PadFields(FieldsBits(old(out.fields)));
      if zlib {
        PutChecksum();
      }
    }

    method PutChecksum()
      requires out.Valid() && adler < WORD
      modifies out, out.outBuf
      ensures out.Valid() && out.fields == old(out.fields) + BytesFields(ChecksumBytes(adler))
      ensures out.end == old(out.end) && out.base == old(out.base) && old(out.sent) <= out.sent
    {
      hide BitWriter.Valid, BytesFields, Pow2, WordOf;
      ghost var bytes := ChecksumBytes(adler);
      ghost var target, c := out.fields + BytesFields(bytes), bytes + [0, 0, 0, 0];
      FourBytes(adler);
      Pow2Values();
      assert bytes[0..] == bytes;
      var a, i := adler, 0;
      while i < 4
        invariant 0 <= i <= 4 && out.Valid() && out.fields + BytesFields(bytes[i..]) == target
        invariant a == WordOf(c[i], c[i + 1], c[i + 2], c[i + 3])
        invariant out.end == old(out.end) && out.base == old(out.base) && old(out.sent) <= out.sent
      {
        ShiftByte(c[i], c[i + 1], c[i + 2], c[i + 3]);
        UnfoldBytes(bytes, i);
        Advance(out.fields, [Field(bytes[i], 8)], BytesFields(bytes[i + 1..]), target);
        out.PutBits(a / 0x100_0000 % 256, 8);
        a := a * 256 % WORD;
        i := i + 1;
      }
      UnfoldBytes(bytes, 4);
    }

    /** No block so far is the last one. */
    ghost predicate NoneFinal()
      reads this`blocks
    {
      forall i :: 0 <= i < |blocks| ==> !blocks[i].final
    }

    /** What a block is written from: the buffer is closed, and nothing else has changed. */
    ghost predicate Gathered(useRaw: bool, n: nat, gs: seq<seq<Op>>)
      reads parser, parser.dict, parser.nextTab, parser.hashTab
      reads parser.codes, parser.codes.codeBuf, parser.codes.litCount, parser.codes.distCount
    {
      && Waiting(n, gs) && parser.codes.Counted() && (useRaw ==> parser.pos - parser.lzPos <= parser.dictSize)
    }

    method Gather() returns (useRaw: bool, n: nat, ghost gs: seq<seq<Op>>)
      requires Valid()
      modifies parser.codes`codePos, parser.codes.codeBuf
      ensures parser.Shaped() && parser.Placed() && parser.Chained() && parser.Sound() && parser.lzPos + n == parser.Parsed()
      ensures Gathered(useRaw, n, gs) && n == parser.codes.totalBytes && parser.codes.Ops() == old(parser.codes.Ops())
      ensures useRaw == (parser.flags.forceRaw && Kept()) && parser.codes.codePos <= old(parser.codes.codePos)
      ensures forall i :: 0 <= i < LZ_CODE_BUF_SIZE ==> parser.codes.codeBuf[i] < 256
    {
      hide BitWriter.Valid, LzCodeBuffer.Layout, LzCodeBuffer.Ops, LzCodeBuffer.AllGroups, Window, Parser.Chained, SavedMatch, Waiting, Flat, GroupsBytes, Total,
           LitUses, DistUses, Sum, Expand, Grouped, LegalGroups, Streamed;
      gs := parser.codes.AllGroups();
      FewOps();
      n := parser.codes.totalBytes;
      useRaw := parser.flags.forceRaw && (parser.lookaheadPos - lzDictPos) % WORD <= parser.dictSize;
      parser.codes.FinishFlags();
      NowWaiting(n, gs);
      WrappedDistance(n, gs, lzDictPos);
    }

    /** The operation buffer is short, or not much larger than what it stands for. */
    ghost predicate Dense()
      reads parser, parser.codes
    {
      parser.codes.totalBytes <= 32400 || 115 * parser.codes.codePos <= 128 * parser.codes.totalBytes + 690
    }

    /** The block is the one chosen for the operations, and behind it the stream has grown by little more than what they mean. */
    lemma GrowthOfBlock(n: nat, gs: seq<seq<Op>>, size: nat, ops: seq<Op>, useRaw: bool, b: Block, alt: Block, before: seq<Field>, sent0: nat)
      requires out.Valid() && Waiting(n, gs) && n == parser.codes.totalBytes
      requires n <= 32400 || 115 * size <= 128 * n + 690
      requires Chosen(forceStatic, useRaw, Kept(), n, ops, size, b, alt, FieldsBits(before))
      requires out.fields == before + BlockFields(b, FieldsBits(before)) && FieldsBits(before) / 8 <= sent0 + 4
      ensures 5 * (|out.sent| - sent0) <= 7 * n + 2940
    {
      hide BitWriter.Valid, Waiting, FieldsBits, FieldsValue, BlockFields, Compresses, BlockFormat.WellFormed;
      WaitingFacts(n, gs);
      SentBits();
      FieldsConcat(before, BlockFields(b, FieldsBits(before)), 0);
    }

    /** The waiting operations as the next block of the stream. */
    method NextBlock(final: bool) returns (ghost b: Block, ghost alt: Block, ghost used: nat)
      requires Valid() && Dense()
      modifies this`blocks, parser.codes`codePos, parser.codes.codeBuf, parser.codes.litCount, tables.Arrays(), out, out.outBuf
      ensures Apart() && tables.Shaped() && out.Valid() && out.end == OUT_BUF_SIZE - 16 && |out.sent| - out.base <= MOST_BLOCK_BYTES
      ensures parser.Shaped() && parser.Placed() && parser.Chained() && parser.Sound() && AllWritten(parser.Parsed())
      ensures blocks == old(blocks) + [Flagged(b, final)]
      ensures Chosen(forceStatic, parser.flags.forceRaw && old(Kept()), old(Kept()), old(parser.codes.totalBytes), old(parser.codes.Ops()),
                     old(parser.codes.codePos), b, alt, used)
      ensures 5 * (|out.sent| - |old(out.sent)|) <= 7 * parser.codes.totalBytes + 2940
      ensures out.base == |old(out.sent)| && old(out.sent) <= out.sent
      ensures parser.codes.codeBuf.Length == LZ_CODE_BUF_SIZE && forall i :: 0 <= i < LZ_CODE_BUF_SIZE ==> parser.codes.codeBuf[i] < 256
      ensures parser.lzPos + parser.codes.totalBytes == parser.Parsed()
    {
      hide BitWriter.Valid, LzCodeBuffer.Counted, Parser.Sound, Parser.Placed, Parser.Chained, Parser.Shaped, Parser.Valid, Wrote, Waiting,
           FieldsBits, FieldsValue, StreamFields, MeaningAll, SameBits, AllWellFormed, Streamed, CodeTables.Shaped, Chosen, LzCodeBuffer.Ops;
      Split();
      StreamMeans();
      var useRaw, n;
      ghost var gs;
      useRaw, n, gs := Gather();
      b, alt, used := PutBlock(final, useRaw, n, gs, old(parser.codes.codePos));
    }

    /** The gathered operations, which took up to `size` bytes, as the next block. */
    method PutBlock(final: bool, useRaw: bool, n: nat, ghost gs: seq<seq<Op>>, ghost size: nat) returns (ghost b: Block, ghost alt: Block, ghost used: nat)
      requires Around() && Streamed() && Gathered(useRaw, n, gs) && n == parser.codes.totalBytes && parser.codes.codePos <= size
      requires n <= 32400 || 115 * size <= 128 * n + 690
      modifies this`blocks, parser.codes.litCount, tables.Arrays(), out, out.outBuf
      ensures out.Valid() && out.end == OUT_BUF_SIZE - 16 && |out.sent| - out.base <= MOST_BLOCK_BYTES
      ensures parser.lzPos + n <= |parser.fed| && AllWritten(parser.lzPos + n) && blocks == old(blocks) + [Flagged(b, final)]
      ensures Chosen(forceStatic, useRaw, Kept(), n, old(parser.codes.Ops()), size, b, alt, used)
      ensures 5 * (|out.sent| - |old(out.sent)|) <= 7 * n + 2940
      ensures out.base == |old(out.sent)| && old(out.sent) <= out.sent
    {
      hide BitWriter.Valid, LzCodeBuffer.Counted, Parser.Sound, Parser.Placed, Parser.Chained, Parser.Shaped, Parser.Valid, Wrote, Waiting,
           FieldsBits, FieldsValue, StreamFields, MeaningAll, SameBits, AllWellFormed, Streamed, CodeTables.Shaped, Chosen, LzCodeBuffer.Ops;
      StreamMeans();
      BeginBlock(final);
      SentBits();
      ghost var f :| BegunAs(f, final);
      ghost var before := out.fields;
      used := FieldsBits(before);
      b, alt := WriteBlock(useRaw, n, lzDictPos, gs);
      WaitingFacts(n, gs);
      BlockPut(f, final, b, alt, useRaw, n, gs, size, before, |old(out.sent)|);
      blocks := blocks + [Flagged(b, final)];
    }

    lemma BlockPut(f: seq<Field>, final: bool, b: Block, alt: Block, useRaw: bool, n: nat, gs: seq<seq<Op>>, size: nat, before: seq<Field>, sent0: nat)
      requires out.Valid() && Waiting(n, gs) && n == parser.codes.totalBytes && parser.codes.codePos <= size
      requires n <= 32400 || 115 * size <= 128 * n + 690
      requires before == f + [Field(if final then 1 else 0, 1)] && FieldsBits(before) / 8 <= sent0 + 4
      requires AllWellFormed(blocks) && SameBits(f, StreamFields(Opened(), blocks))
      requires parser.lzPos + n <= |parser.fed| && Wrote(b, n, before) && MeaningAll(blocks) == Some(parser.fed[..parser.lzPos])
      requires Chosen(forceStatic, useRaw, Kept(), n, parser.codes.Ops(), parser.codes.codePos, b, alt, FieldsBits(before))
      ensures Chosen(forceStatic, useRaw, Kept(), n, parser.codes.Ops(), size, b, alt, FieldsBits(before))
      ensures 5 * (|out.sent| - sent0) <= 7 * n + 2940
      ensures AllWellFormed(blocks + [Flagged(b, final)]) && SameBits(out.fields, StreamFields(Opened(), blocks + [Flagged(b, final)]))
      ensures MeaningAll(blocks + [Flagged(b, final)]) == Some(parser.fed[..parser.lzPos + n])
    {
      hide *;
      WroteFields(b, n, before);
      ChosenLarger(useRaw, Kept(), n, parser.codes.Ops(), parser.codes.codePos, size, b, alt, FieldsBits(before));
      GrowthOfBlock(n, gs, size, parser.codes.Ops(), useRaw, b, alt, before, sent0);
      OneBlockMore(f, final, b, n);
    }

    lemma WroteFields(b: Block, n: nat, before: seq<Field>)
      requires n + parser.lzPos <= |parser.fed| && Wrote(b, n, before)
      ensures BlockFormat.WellFormed(b) && out.fields == before + BlockFields(b, FieldsBits(before))
    {
      hide BlockFormat.WellFormed, BlockFields, Meaning, FieldsBits;
    }

    lemma ChosenLarger(useRaw: bool, kept: bool, n: nat, ops: seq<Op>, size: nat, more: nat, b: Block, alt: Block, used: nat)
      requires Chosen(forceStatic, useRaw, kept, n, ops, size, b, alt, used) && size <= more
      ensures Chosen(forceStatic, useRaw, kept, n, ops, more, b, alt, used)
    {
      hide BlockFormat.WellFormed, BlockBytes, BlockFields, Compresses, FieldsBits;
    }

    lemma StreamMeans()
      requires Streamed()
      ensures parser.lzPos <= |parser.fed| && MeaningAll(blocks) == Some(parser.fed[..parser.lzPos])
    {
      hide MeaningAll, SameBits, AllWellFormed, StreamFields;
    }

    lemma FewOps()
      requires parser.Valid() && parser.codes.codePos <= LZ_CODE_BUF_SIZE - 2
      ensures |parser.codes.Ops()| < 65535
    {
      hide Window, Parser.Chained;
      var c := parser.codes;
      FewerOpsThanBytes(c.codeBuf[..], c.flagsPos, c.codePos, c.numFlagsLeft, c.groups, c.cur);
    }

    /** The whole stream: blocks, padding, and the checksum if there is one. */
    ghost predicate Finished()
      reads this`blocks, this`adler, parser`fed, parser`lzPos, out`fields
    {
      OneFinal() && Ended(parser.lzPos)
    }

    /** The last block, and no other, is marked final. */
    ghost predicate OneFinal()
      reads this`blocks
    {
      blocks != [] && forall i :: 0 <= i < |blocks| ==> blocks[i].final == (i == |blocks| - 1)
    }

    /** The blocks, the padding and the trailer are what has been written, and the blocks mean the first `upTo` bytes. */
    ghost predicate Ended(upTo: nat)
      reads this`blocks, this`adler, parser`fed, out`fields
    {
      && AllWellFormed(blocks) && upTo <= |parser.fed| && MeaningAll(blocks) == Some(parser.fed[..upTo])
      && SameBits(out.fields, StreamFields(Opened(), blocks)
                              + PadFields(FieldsBits(StreamFields(Opened(), blocks))) + Trailer())
    }

    method EndFinal(ghost upTo: nat)
      requires out.Valid() && adler < WORD && AllWritten(upTo)
      modifies out, out.outBuf
      ensures out.Valid() && Ended(upTo) && out.end == old(out.end) && out.base == old(out.base) && old(out.sent) <= out.sent
      ensures |out.sent| <= |old(out.sent)| + 7
    {
      hide BitWriter.Valid, FieldsBits, PadFields, StreamFields, SameBits, AllWellFormed, MeaningAll, Trailer;
      ghost var f, sent0 := out.fields, |out.sent|;
      SentBits();
      WrittenParts(upTo);
      EndStream();
      assert out.fields == f + (PadFields(FieldsBits(f)) + Trailer());
      TrailerBits(FieldsBits(f));
      SentMore(f, PadFields(FieldsBits(f)) + Trailer(), sent0, 40);
      EndedSame(f, StreamFields(Opened(), blocks), Trailer());
    }

    /** The parser and its buffer, made ready for the next block. */
    method NewBuffer()
      requires Apart() && parser.Shaped() && parser.Placed() && parser.Chained() && parser.Sound() && parser.dictSize + parser.lookaheadSize <= DICT_SIZE
      requires forall i :: 0 <= i < LZ_CODE_BUF_SIZE ==> parser.codes.codeBuf[i] < 256
      requires parser.lzPos + parser.codes.totalBytes == parser.Parsed() && lzDictPos == parser.lzPos % WORD
      modifies this`lzDictPos, this`blockIndex, parser`lzPos, parser.codes, parser.codes.litCount, parser.codes.distCount
      ensures parser.Valid() && parser.codes.Ops() == [] && parser.codes.codePos == 1 && parser.lzPos == parser.Parsed()
      ensures parser.codes.totalBytes == 0
      ensures lzDictPos == parser.lzPos % WORD && blockIndex == old(blockIndex) + 1
    {
      hide Window, Parser.Chained, SavedMatch, LzCodeBuffer.Valid, LzCodeBuffer.Ops, Expand;
      var n := parser.codes.totalBytes;
      MoveWraps(parser.lzPos, n);
      parser.codes.Reset();
      parser.lzPos := parser.lzPos + n;
      lzDictPos := (lzDictPos + n) % WORD;
      blockIndex := blockIndex + 1;
      ParsedOn();
    }

    /** The waiting operations as a block, then what a flush or the end of the stream adds. */
    method NextBlocks(mode: Flush) returns (ghost b: Block, ghost alt: Block, ghost used: nat)
      requires Valid() && NoneFinal() && Dense()
      modifies this`blocks, parser.codes`codePos, parser.codes.codeBuf, parser.codes.litCount, tables.Arrays(), out, out.outBuf
      ensures Apart() && tables.Shaped() && out.Valid() && old(blocks) <= blocks && |out.sent| - out.base < out.end
      ensures out.base == |old(out.sent)| && old(out.sent) <= out.sent
      ensures blocks == old(blocks) + [Flagged(b, mode == Finish)] + Closing(mode) && (mode == SyncFlush ==> Marked())
      ensures Chosen(forceStatic, parser.flags.forceRaw && old(Kept()), old(Kept()), old(parser.codes.totalBytes), old(parser.codes.Ops()),
                     old(parser.codes.codePos), b, alt, used)
      ensures 5 * (|out.sent| - |old(out.sent)|) <= 7 * parser.codes.totalBytes + 3000
      ensures parser.Shaped() && parser.Placed() && parser.Chained() && parser.Sound()
      ensures if mode == Finish then OneFinal() && Ended(parser.Parsed()) else NoneFinal() && AllWritten(parser.Parsed())
      ensures parser.codes.codeBuf.Length == LZ_CODE_BUF_SIZE && forall i :: 0 <= i < LZ_CODE_BUF_SIZE ==> parser.codes.codeBuf[i] < 256
      ensures parser.lzPos + parser.codes.totalBytes == parser.Parsed()
    {
      hide BitWriter.Valid, LzCodeBuffer.Valid, Parser.Sound, Parser.Placed, Parser.Chained, Parser.Shaped, Valid, AllWritten, Ended, CodeTables.Shaped,
           Chosen, Dense, Marked, LzCodeBuffer.Ops, LzCodeBuffer.Counted;
      ValidParts();
      b, alt, used := NextBlock(mode == Finish);
      if mode == SyncFlush {
        EndSync(parser.Parsed());
      } else if mode == Finish {
        EndFinal(parser.Parsed());
      }
    }

    /** Behind the block: a new buffer, and the output handed on. */
    method NextRound(ghost before: seq<nat>)
      requires Apart() && parser.Shaped() && parser.Placed() && parser.Chained() && parser.Sound() && parser.dictSize + parser.lookaheadSize <= DICT_SIZE
      requires forall i :: 0 <= i < LZ_CODE_BUF_SIZE ==> parser.codes.codeBuf[i] < 256
      requires parser.lzPos + parser.codes.totalBytes == parser.Parsed() && lzDictPos == parser.lzPos % WORD
      requires out.Valid() && out.base == |before| && before <= out.sent && AllBytes(output) && output == before
      requires |out.sent| - out.base < out.end && 50 * |before| <= 71 * parser.lzPos + 30000 * short
      requires 5 * (|out.sent| - |before|) <= 7 * parser.codes.totalBytes + 3000
      modifies this`lzDictPos, this`blockIndex, this`output, this`short, parser`lzPos
      modifies parser.codes, parser.codes.litCount, parser.codes.distCount
      ensures parser.Valid() && parser.codes.Ops() == [] && parser.codes.codePos == 1 && parser.lzPos == parser.Parsed()
      ensures parser.codes.totalBytes == 0 && parser.lzPos == old(parser.lzPos) + old(parser.codes.totalBytes)
      ensures lzDictPos == parser.lzPos % WORD && blockIndex == old(blockIndex) + 1 && out.Valid()
      ensures short == old(short) + if old(parser.codes.totalBytes) <= 31 * 1024 then 1 else 0
      ensures out.ofs < out.end && Handed() && output == old(output) + out.Filled()
    {
      hide BitWriter.Valid, LzCodeBuffer.Valid, Parser.Sound, Parser.Placed, Parser.Chained, Parser.Shaped, Parser.Valid, LzCodeBuffer.Ops;
      ghost var n := parser.codes.totalBytes;
      short := short + if n <= 31 * 1024 then 1 else 0;
      NewBuffer();
      LittleGrowth(|out.sent|, |before|, old(parser.lzPos), n, old(short), short);
      HandOn(before);
    }

    /** tdefl_flush_block. The block and what comes after it have always had room. */
    method FlushBlock(mode: Flush) returns (ghost b: Block, ghost alt: Block, ghost used: nat)
      requires Valid() && NoneFinal() && Handed() && Dense()
      modifies this`blocks, this`lzDictPos, this`blockIndex, this`output, this`short, parser`lzPos
      modifies parser.codes, parser.codes.codeBuf, parser.codes.litCount, parser.codes.distCount, tables.Arrays(), out, out.outBuf
      ensures parser.Valid() && parser.codes.Ops() == [] && parser.codes.codePos == 1 && parser.lzPos == parser.Parsed()
      ensures parser.codes.totalBytes == 0
      ensures if mode == Finish then Finished() else Valid() && NoneFinal()
      ensures blocks == old(blocks) + [Flagged(b, mode == Finish)] + Closing(mode) && (mode == SyncFlush ==> Marked())
      ensures parser.lzPos == old(parser.lzPos) + old(parser.codes.totalBytes)
      ensures Chosen(forceStatic, parser.flags.forceRaw && old(Kept()), old(Kept()), old(parser.codes.totalBytes), old(parser.codes.Ops()),
                     old(parser.codes.codePos), b, alt, used)
      ensures adler == old(adler) < WORD && out.Valid() && blockIndex == old(blockIndex) + 1 && old(parser.lzPos) <= parser.lzPos
      ensures Handed() && out.ofs < out.end && short == old(short) + if old(parser.codes.totalBytes) <= 31 * 1024 then 1 else 0
      ensures output == old(output) + out.Filled()
    {
      hide BitWriter.Valid, LzCodeBuffer.Valid, Parser.Sound, Parser.Placed, Parser.Chained, Parser.Shaped, Valid, AllWritten, FieldsBits, PadFields, StreamFields,
           SameBits, AllWellFormed, MeaningAll, Parser.Valid, Trailer, Ended, CodeTables.Shaped, Chosen, Marked, LzCodeBuffer.Ops,
           LzCodeBuffer.Counted;
      ValidParts();
      b, alt, used := NextBlocks(mode);
      NextRound(old(out.sent));
      if mode != Finish {
        ValidAgain();
      }
    }

    lemma OnlyBytes()
      requires out.Valid()
      ensures AllBytes(out.sent)
    {
      hide FieldsValue, FieldsBits, SentValue, Fitting, Pow2;
    }

    /** The output buffer is handed on as far as it has been filled. */
    method HandOn(ghost before: seq<nat>)
      requires out.Valid() && out.base == |before| && before <= out.sent && AllBytes(output) && output == before
      requires |out.sent| - out.base < out.end && 50 * |out.sent| <= 71 * parser.lzPos + 30000 * short
      modifies this`output
      ensures out.ofs < out.end && Handed() && output == old(output) + out.Filled()
    {
      hide BitWriter.Buffered;
      OnlyBytes();
      output := output + out.Filled();
    }

    lemma ValidParts()
      requires Valid()
      ensures adler < WORD && lzDictPos == parser.lzPos % WORD && parser.dictSize + parser.lookaheadSize <= DICT_SIZE
    {
      hide BitWriter.Valid, LzCodeBuffer.Valid, Parser.Sound, Parser.Placed, Parser.Chained, Parser.Shaped, Apart;
    }

    lemma WrittenParts(upTo: nat)
      requires AllWritten(upTo)
      ensures AllWellFormed(blocks) && SameBits(out.fields, StreamFields(Opened(), blocks))
      ensures upTo <= |parser.fed| && MeaningAll(blocks) == Some(parser.fed[..upTo])
    {
      hide FieldsBits, StreamFields, SameBits, AllWellFormed, MeaningAll;
    }

    lemma ValidAgain()
      requires Apart() && tables.Shaped() && out.Valid() && parser.Valid() && parser.codes.codePos == 1
      requires lzDictPos == parser.lzPos % WORD && adler < WORD && AllWritten(parser.lzPos) && blockIndex > 0
      ensures Valid()
    {
      hide BitWriter.Valid, LzCodeBuffer.Valid, Parser.Valid, FieldsBits, StreamFields, SameBits, AllWellFormed, MeaningAll, Apart;
    }

    // ---------- tdefl_compress_normal and tdefl_compress ----------

    /** Everything the compressor changes. */
    ghost function State(): set<object> {
      {this, parser, parser.codes, parser.codes.codeBuf, parser.codes.litCount, parser.codes.distCount, out, out.outBuf}
      + parser.Arrays() + tables.Arrays()
    }

    /** Whether the operation buffer is nearly full, or long enough and compressing badly. */
    predicate TimeToFlush()
      reads parser, parser.codes
    {
      parser.codes.codePos > LZ_CODE_BUF_SIZE - 8
      || (parser.codes.totalBytes > 31 * 1024
          && (parser.codes.codePos * 115 / 128 >= parser.codes.totalBytes || parser.flags.forceRaw))
    }

    /** The parts of the state that parsing does not touch. */
    ghost predicate Around()
      reads this, parser`lzPos, out, out.outBuf
    {
      Apart() && tables.Shaped() && out.Valid() && lzDictPos == parser.lzPos % WORD && adler < WORD
    }

    lemma Split()
      requires Valid()
      ensures Around() && parser.Valid() && parser.codes.codePos <= LZ_CODE_BUF_SIZE - 2 && Streamed()
    {
      hide BitWriter.Valid, Parser.Valid, Apart, Streamed;
    }

    lemma Join()
      requires Around() && parser.Valid() && parser.codes.codePos <= LZ_CODE_BUF_SIZE - 2 && Streamed()
      ensures Valid()
    {
      hide BitWriter.Valid, Parser.Valid, Apart, Streamed;
    }

    method FeedSome(src: seq<nat>, from: nat) returns (to: nat)
      requires Valid() && from <= |src| && forall i :: 0 <= i < |src| ==> src[i] < 256
      modifies parser.dict, parser.nextTab, parser.hashTab, parser`fed, parser`lookaheadSize, parser`dictSize
      ensures Valid() && from <= to <= |src| && parser.fed == old(parser.fed) + src[from..to]
      ensures parser.lookaheadSize == old(parser.lookaheadSize) + (to - from) && (to == |src| || parser.lookaheadSize == MAX_MATCH)
    {
      hide Valid, Parser.Valid, BitWriter.Valid, CodeTables.Shaped, StreamFields, MeaningAll, SameBits, AllWellFormed;
      Split();
      to := parser.Feed(src, from);
      assert parser.fed[..parser.lzPos] == old(parser.fed[..parser.lzPos]);
      Join();
    }

    /** Ready for more input. */
    ghost predicate Ready()
      reads this, parser, parser.dict, parser.nextTab, parser.hashTab, out, out.outBuf
      reads parser.codes, parser.codes.codeBuf, parser.codes.litCount, parser.codes.distCount
    {
      Valid() && NoneFinal() && Handed() && parser.codes.codePos <= LZ_CODE_BUF_SIZE - 8 && Sparse()
    }

    /** As it is when there is no need for a block yet. */
    ghost predicate Sparse()
      reads parser, parser.codes
    {
      parser.codes.totalBytes <= 31 * 1024 || 115 * parser.codes.codePos < 128 * parser.codes.totalBytes
    }

    /** One step of the parser later it is still dense. */
    lemma StillDense(total0: nat, codePos0: nat, pos0: nat)
      requires parser.Valid() && parser.codes.codePos <= codePos0 + 6 && pos0 < parser.pos <= pos0 + MAX_MATCH
      requires (total0 <= 31 * 1024 || 115 * codePos0 < 128 * total0) && pos0 - 1 <= parser.lzPos + total0 <= pos0
      ensures Dense()
    {
      TotalParsed();
      hide Parser.Valid;
    }

    /** The bytes the operations stand for are those parsed. */
    lemma TotalParsed()
      requires parser.Valid()
      ensures (parser.savedLen > 0 ==> parser.pos > 0) && parser.lzPos + parser.codes.totalBytes == parser.Parsed()
    {
      hide Window, Parser.Chained, SavedMatch, LzCodeBuffer.Layout, LzCodeBuffer.Ops, LitUses, DistUses, Sum, Parser.Shaped;
      ExpandLength(parser.fed[..parser.lzPos], parser.codes.Ops());
    }

    lemma NoNeedYet()
      requires !TimeToFlush()
      ensures Sparse()
    {
      if parser.codes.totalBytes > 31 * 1024 {
        QuotientBelow(parser.codes.codePos * 115, parser.codes.totalBytes);
      }
    }

    method ParseSome() returns (output: Output)
      requires Ready() && parser.lookaheadSize >= 1
      modifies State()
      ensures Ready() && parser.fed == old(parser.fed) && adler == old(adler) && short == old(short)
      ensures parser.lookaheadSize < old(parser.lookaheadSize) && old(blockIndex) <= blockIndex
      ensures output == Clear || (old(blockIndex) < blockIndex && output == receiver(blockIndex - 1))
    {
      hide Valid, Parser.Valid, BitWriter.Valid, CodeTables.Shaped, Chosen, Handed, NoneFinal, Dense;
      StepOnce();
      output := Clear;
      if TimeToFlush() {
        LongBlock();
        ghost var b, alt, used := FlushBlock(NoFlush);
        output := receiver(blockIndex - 1);
        EmptyIsSparse();
      } else {
        NoNeedYet();
      }
    }

    /** Input alone makes no short blocks. */
    lemma LongBlock()
      requires Valid() && TimeToFlush()
      ensures parser.codes.totalBytes > 31 * 1024
    {
      hide Window, Parser.Chained, SavedMatch, BitWriter.Valid, Apart, Streamed, LitUses, DistUses, Sum, Total, LaidOut;
      var c := parser.codes;
      BufferShort(c.codeBuf[..], c.flagsPos, c.codePos, c.numFlagsLeft, c.groups, c.cur);
    }

    lemma EmptyIsSparse()
      requires parser.codes.totalBytes == 0
      ensures Sparse()
    {}

    /** One step of the parser, after which a block may be due. */
    method StepOnce()
      requires Ready() && parser.lookaheadSize >= 1
      modifies parser, parser.codes, parser.codes.codeBuf, parser.codes.litCount, parser.codes.distCount
      ensures Valid() && NoneFinal() && Handed() && Dense() && parser.codes.codePos <= LZ_CODE_BUF_SIZE - 2
      ensures parser.fed == old(parser.fed) && parser.lookaheadSize < old(parser.lookaheadSize)
    {
      hide Valid, Parser.Valid, BitWriter.Valid, CodeTables.Shaped, StreamFields, MeaningAll, SameBits, AllWellFormed, Dense;
      Split();
      TotalParsed();
      ShortAhead();
      ghost var dist, len, ops := parser.ParseStep();
      ShortAhead();
      Join();
      StillDense(old(parser.codes.totalBytes), old(parser.codes.codePos), old(parser.pos));
    }

    lemma ShortAhead()
      requires parser.Valid()
      ensures parser.pos + parser.lookaheadSize == |parser.fed| && parser.lookaheadSize <= MAX_MATCH
    {
      hide Window, Parser.Chained, LzCodeBuffer.Valid, Parser.Sound, Parser.Shaped;
    }

    /** Feeding, parsing and, now and then, a block. Stops early when the output cannot be handed on at once. */
    method CompressNormal(src: seq<nat>, mode: Flush) returns (consumed: nat, output: Output)
      requires Ready() && forall i :: 0 <= i < |src| ==> src[i] < 256
      modifies State()
      ensures Ready() && consumed <= |src| && parser.fed == old(parser.fed) + src[..consumed] && adler == old(adler) && short == old(short)
      ensures output == Clear ==> consumed == |src| && (mode != NoFlush ==> parser.lookaheadSize == 0)
      ensures output != Clear ==> |src| - consumed + parser.lookaheadSize < |src| + old(parser.lookaheadSize)
      ensures old(blockIndex) <= blockIndex && (output == Clear || (old(blockIndex) < blockIndex && output == receiver(blockIndex - 1)))
    {
      hide Ready, Parser.Valid;
      consumed, output := 0, Clear;
      assert src[..0] == [];
      while consumed < |src| || (mode != NoFlush && parser.lookaheadSize > 0)
        invariant Ready() && consumed <= |src| && output == Clear && old(blockIndex) <= blockIndex
        invariant parser.fed == old(parser.fed) + src[..consumed] && adler == old(adler) && short == old(short)
        invariant |src| - consumed + parser.lookaheadSize <= |src| + old(parser.lookaheadSize)
        decreases |src| - consumed + parser.lookaheadSize
      {
        ghost var before := consumed;
        consumed := FeedReady(src, consumed);
        assert src[..before] + src[before..consumed] == src[..consumed];
        if mode == NoFlush && parser.lookaheadSize < MAX_MATCH {
          break;
        }
        output := ParseSome();
        if output != Clear {
          return;
        }
      }
    }

    method FeedReady(src: seq<nat>, from: nat) returns (to: nat)
      requires Ready() && from <= |src| && forall i :: 0 <= i < |src| ==> src[i] < 256
      modifies parser.dict, parser.nextTab, parser.hashTab, parser`fed, parser`lookaheadSize, parser`dictSize
      ensures Ready() && from <= to <= |src| && parser.fed == old(parser.fed) + src[from..to]
      ensures parser.lookaheadSize == old(parser.lookaheadSize) + (to - from) && (to == |src| || parser.lookaheadSize == MAX_MATCH)
    {
      hide Valid;
      to := FeedSome(src, from);
    }

    /** With a zlib stream the checksum keeps up with the input taken. */
    ghost predicate Summed()
      reads this`adler, parser`fed
    {
      zlib ==> adler == Adler32.Checksum(1, parser.fed)
    }

    /** An empty lookahead leaves no match waiting: everything fed has been parsed. */
    lemma AllParsed()
      requires parser.Valid() && parser.lookaheadSize == 0
      ensures parser.Parsed() == |parser.fed|
    {
      hide LzCodeBuffer.Valid, Window, Parser.Chained, Expand;
    }

    /** tdefl_compress: with a flush, and once all input has been parsed and all output handed on, the last block is written.
        Unless the output has been refused, or the stream is complete, the compressor is ready for the next call. */
    method Compress(src: seq<nat>, mode: Flush) returns (consumed: nat, output: Output, done: bool)
      requires Ready() && Summed() && forall i :: 0 <= i < |src| ==> src[i] < 256
      modifies State()
      ensures consumed <= |src| && parser.fed == old(parser.fed) + src[..consumed]
      ensures output == Clear ==> consumed == |src| && done == (mode == Finish)
      ensures output == Pending ==> !done && |src| - consumed + parser.lookaheadSize < |src| + old(parser.lookaheadSize)
      ensures output != Refused && !done ==> Ready() && Summed()
      ensures output != Refused && done ==> Finished() && parser.lzPos == |parser.fed| && Summed() && Handed() && out.Valid() && adler < WORD
      ensures output == Clear && mode == SyncFlush ==> Synced()
      ensures old(blockIndex) <= blockIndex
      ensures old(short) <= short <= old(short) + if mode != NoFlush && output != Pending then 1 else 0
      ensures output == Refused ==> exists k: nat :: old(blockIndex) <= k < blockIndex && receiver(k) == Refused
    {
      hide Ready, Finished, Summed, Synced;
      done := false;
      NotedSum();
      consumed, output := CompressNormal(src, mode);
      if output == Refused {
        return;
      }
      UpdateSum(src[..consumed], old(parser.fed));
      if mode != NoFlush && output == Clear {
        done := EndInput(mode);
        if receiver(blockIndex - 1) == Refused {
          output := Refused;
        }
      }
    }

    /** All input has been written, the last block is the empty one of a sync flush, and no bit is still waiting. */
    ghost predicate Synced()
      reads this`blocks, this`output, this`short, out`fields, out`sent, parser`lzPos, parser`fed
    {
      && Handed() && Marked() && parser.lzPos == |parser.fed|
      && blocks != [] && blocks[|blocks| - 1] == Flagged(StoredBlock([]), false)
    }

    lemma NotedSum()
      requires Summed()
      ensures zlib ==> adler == Adler32.Checksum(1, parser.fed)
    {}

    /** The checksum of the input just taken. */
    method UpdateSum(taken: seq<nat>, ghost fed0: seq<nat>)
      requires Ready() && (zlib ==> adler == Adler32.Checksum(1, fed0)) && parser.fed == fed0 + taken
      requires forall i :: 0 <= i < |taken| ==> taken[i] < 256
      modifies this`adler
      ensures Ready() && Summed()
    {
      hide Valid, Parser.Valid, BitWriter.Valid, Streamed, Apart, CodeTables.Shaped;
      Split();
      if zlib {
        Adler32.ChecksumConcat(1, fed0, taken);
        AdlerIsSmall(fed0);
        adler := Adler32.Adler(adler, taken);
      }
      Join();
    }

    lemma EndsParsed()
      requires Valid() && parser.lookaheadSize == 0
      ensures parser.Parsed() == |parser.fed|
    {
      hide Parser.Valid, BitWriter.Valid, Streamed, Apart, CodeTables.Shaped;
      AllParsed();
    }

    method EndInput(mode: Flush) returns (done: bool)
      requires Ready() && Summed() && parser.lookaheadSize == 0
      modifies State()
      ensures parser.fed == old(parser.fed) && done == (mode == Finish)
      ensures if done then Finished() && parser.lzPos == |parser.fed| && Summed() && Handed() && out.Valid() && adler < WORD else Ready() && Summed()
      ensures blockIndex == old(blockIndex) + 1 && (mode == SyncFlush ==> Synced()) && old(short) <= short <= old(short) + 1
    {
      hide Valid, NoneFinal, Finished, Summed, Parser.Valid, BitWriter.Valid, Around, Streamed, Chosen, Marked;
      EndsParsed();
      ghost var b, alt, used := FlushBlock(mode);
      done := mode == Finish;
    }

    lemma AdlerIsSmall(fed: seq<nat>)
      ensures Adler32.Checksum(1, fed) < WORD
    {
      Adler32.ChecksumConcat(1, fed, []);
    }
  }

  /** A block for more than 31 KiB makes up for what it adds. */
  lemma LittleGrowth(sent: nat, sent0: nat, pos0: nat, n: nat, short0: nat, short: nat)
    requires 5 * (sent - sent0) <= 7 * n + 3000 && 50 * sent0 <= 71 * pos0 + 30000 * short0
    requires short == short0 + if n <= 31 * 1024 then 1 else 0
    ensures 50 * sent <= 71 * (pos0 + n) + 30000 * short
  {}

  lemma QuotientBelow(x: nat, y: nat)
    requires x / 128 < y
    ensures x < 128 * y
  {}

  /** The same ending keeps two ways to cut a stream the same. */
  lemma EndedSame(f: seq<Field>, g: seq<Field>, t: seq<Field>)
    requires SameBits(f, g)
    ensures SameBits(f + PadFields(FieldsBits(f)) + t, g + PadFields(FieldsBits(g)) + t)
  {
    hide FieldsValue, PadFields;
    SameBitsAppend(f, g, PadFields(FieldsBits(f)), PadFields(FieldsBits(g)));
    SameBitsAppend(f + PadFields(FieldsBits(f)), g + PadFields(FieldsBits(g)), t, t);
  }

  /** A word of four bytes, most significant first. */
  function WordOf(c0: nat, c1: nat, c2: nat, c3: nat): nat {
    c0 * 0x100_0000 + c1 * 0x1_0000 + c2 * 0x100 + c3
  }

  lemma FourBytes(a: nat)
    requires a < WORD
    ensures a == WordOf(a / 0x100_0000, a / 0x1_0000 % 256, a / 0x100 % 256, a % 256) && a / 0x100_0000 < 256
  {
    DivMod(a, 256);
    DivMod(a / 256, 256);
    DivMod(a / 256 / 256, 256);
    assert a / 256 / 256 == a / 0x1_0000 && a / 256 / 256 / 256 == a / 0x100_0000;
  }

  /** The top byte goes out and the others move up. */
  lemma ShiftByte(c0: nat, c1: nat, c2: nat, c3: nat)
    requires c0 < 256 && c1 < 256 && c2 < 256 && c3 < 256
    ensures WordOf(c0, c1, c2, c3) / 0x100_0000 % 256 == c0
    ensures WordOf(c0, c1, c2, c3) * 256 % WORD == WordOf(c1, c2, c3, 0)
  {
    DivModUnique(WordOf(c0, c1, c2, c3), c0, WordOf(0, c1, c2, c3), 0x100_0000);
    DivModUnique(WordOf(c0, c1, c2, c3) * 256, c0, WordOf(c1, c2, c3, 0), WORD);
  }

  /** The four bytes of a checksum, most significant first. */
  function ChecksumBytes(a: nat): (s: seq<nat>)
    ensures |s| == 4
  {
    [a / 0x100_0000, a / 0x1_0000 % 256, a / 0x100 % 256, a % 256]
  }

  lemma NoBytes()
    ensures BytesFields([]) == []
  {}

  lemma MarkerFields()
    ensures FieldsValue([Field(0, 16), Field(65535, 16)], 0) == 0xFFFF_0000 && FieldsBits([Field(0, 16), Field(65535, 16)]) == 32
  {
    hide Pow2, FieldsValue, FieldsBits;
    Pow2Values();
    assert [Field(0, 16), Field(65535, 16)] == [Field(0, 16)] + [Field(65535, 16)];
    FieldsConcat([Field(0, 16)], [Field(65535, 16)], 0);
    FieldsOne(Field(65535, 16), 0);
    FieldsOne(Field(0, 16), 65535);
  }

  lemma {:induction false} BytesValueTail(s: seq<nat>, t: seq<nat>, i: nat)
    requires i <= |s|
    ensures BytesValue(s + t, i) == BytesValue(s, i) + Pow2(8 * (|s| - i)) * BytesValue(s + t, |s|)
    decreases |s| - i
  {
    hide Pow2;
    if i == |s| {
      Pow2Values();
    } else {
      BytesValueTail(s, t, i + 1);
      Pow2Byte(8 * (|s| - i - 1));
      MulAssociates(256, Pow2(8 * (|s| - i - 1)), BytesValue(s + t, |s|));
    }
  }

  lemma {:induction false} BytesValueDrop(s: seq<nat>, t: seq<nat>, i: nat)
    requires i <= |t|
    ensures BytesValue(s + t, |s| + i) == BytesValue(t, i)
    decreases |t| - i
  {
    if i < |t| { BytesValueDrop(s, t, i + 1); }
  }

  lemma BytesValueConcat(s: seq<nat>, t: seq<nat>)
    ensures BytesValue(s + t, 0) == BytesValue(s, 0) + Pow2(8 * |s|) * BytesValue(t, 0)
  {
    hide Pow2, BytesValue;
    BytesValueTail(s, t, 0);
    BytesValueDrop(s, t, 0);
  }

  lemma MarkerBytes(t: seq<nat>)
    requires |t| == 4 && AllBytes(t) && BytesValue(t, 0) == 0xFFFF_0000
    ensures t == [0, 0, 255, 255]
  {
    assert BytesValue(t, 2) == t[2] + 256 * BytesValue(t, 3);
    assert BytesValue(t, 0) == t[0] + 256 * (t[1] + 256 * (t[2] + 256 * t[3]));
  }

  /** The first three bits, the padding and the lengths of an empty stored block. */
  lemma SyncBits(used: nat)
    ensures FieldsBits([Field(0, 3)] + PadFields(used) + [Field(0, 16), Field(65535, 16)]) <= 43
  {
    hide PadFields, FieldsBits, FieldsValue;
    PadBits(used);
    StoredParts(Field(0, 3), PadFields(used), Field(0, 16), Field(65535, 16), []);
    assert FieldsBits([]) == 0 by { NoFields(); }
    assert [Field(0, 3)] + PadFields(used) + [Field(0, 16), Field(65535, 16)] + [] == [Field(0, 3)] + PadFields(used) + [Field(0, 16), Field(65535, 16)];
  }

  lemma NoFields()
    ensures FieldsBits([]) == 0
  {}

  lemma CompressesForm(b: Block, ops: seq<Op>, isStatic: bool)
    requires Compresses(b, ops, isStatic)
    ensures BlockFormat.WellFormed(b) && b.CompressedBlock?
  {
    hide BlockFormat.WellFormed, Thrifty;
  }

  lemma SomeTotal(ops: seq<Op>)
    requires AllLegal(ops) && ops != []
    ensures Total(ops) >= 1
  {
    assert Legal(ops[|ops| - 1]) && OpLength(ops[|ops| - 1]) >= 1;
  }

  lemma NoTotal(ops: seq<Op>)
    requires AllLegal(ops) && Total(ops) == 0
    ensures ops == []
  {
    if ops != [] { SomeTotal(ops); }
  }

  /** Block type and end of block, with the fixed codes. */
  lemma EmptyCompressed(b: Block, used: nat)
    requires Compresses(b, [], true)
    ensures BlockFormat.WellFormed(b) && BlockBytes(b, used) <= 2
  {
    hide RevCode, FieldsBits, FieldsValue;
    var lit := b.codes.lit;
    assert lit[END_OF_BLOCK] == 7;
    FieldsOne(Field(1, 2), 0);
    FieldsOne(CodeField(lit, END_OF_BLOCK), 0);
    assert OpsFields([], lit, b.codes.dist) == [CodeField(lit, END_OF_BLOCK)];
    FieldsConcat([Field(1, 2)], [CodeField(lit, END_OF_BLOCK)], 0);
  }

  lemma WrapDifference(a: nat, b: nat)
    requires b <= a < b + WORD
    ensures (a % WORD - b % WORD) % WORD == a - b
  {
    var p, q := a / WORD, b / WORD;
    assert a - b == a % WORD - b % WORD + (p - q) * WORD;
  }

  lemma UnfoldBytes(bytes: seq<nat>, i: nat)
    requires i <= |bytes|
    ensures i < |bytes| ==> BytesFields(bytes[i..]) == [Field(bytes[i], 8)] + BytesFields(bytes[i + 1..])
    ensures i == |bytes| ==> BytesFields(bytes[i..]) == []
  {
    if i < |bytes| {
      assert bytes[i..][0] == bytes[i] && bytes[i..][1..] == bytes[i + 1..];
    }
  }

  lemma WordSlot(from: nat, i: nat)
    ensures (from % WORD + i) % WORD % DICT_SIZE == (from + i) % DICT_SIZE
  {
    SlotOf(from, i);
  }

  lemma JoinStored(f: seq<Field>, pad: seq<Field>, n: Field, m: Field, bytes: seq<Field>)
    ensures f + [Field(0, 2)] + pad + [n, m] + bytes == f + ([Field(0, 2)] + pad + [n, m] + bytes)
  {}

  lemma FixedCovers(lit: seq<nat>, dist: seq<nat>, ops: seq<Op>)
    requires FixedLit(lit) && FixedDist(dist) && AllLegal(ops)
    ensures Covers(lit, dist, ops)
  {
    hide LitSymbol, DistSymbol;
  }
}
