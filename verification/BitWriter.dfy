/** The compressor's end of the bit stream: TDEFL_PUT_BITS and the output buffer behind it. */
module BitWriter {
  import opened Powers
  import opened BitStream

  /** The bytes sent and, above them, the bits still buffered. */
  function SentValue(sent: seq<nat>, bitBuffer: nat): nat {
    BytesValue(sent, 0) + Pow2(8 * |sent|) * bitBuffer
  }

  lemma SendByte(sent: seq<nat>, bitBuffer: nat)
    ensures SentValue(sent + [bitBuffer % 256], bitBuffer / 256) == SentValue(sent, bitBuffer)
  {
    hide Pow2, BytesValue;
    var c, h, p := bitBuffer % 256, bitBuffer / 256, Pow2(8 * |sent|);
    BytesSame(sent, sent + [c], 0, c);
    Pow2Byte(8 * |sent|);
    MulAssociates(p, 256, h);
    MulDistributes(c, 256 * h, p);
  }

  /** `b << bitsIn | bitBuffer`: the bits of `b` go above the `bitsIn` buffered ones. */
  function Above(bitBuffer: nat, bitsIn: nat, b: nat): nat {
    bitBuffer + b * Pow2(bitsIn)
  }

  lemma PutAbove(sent: seq<nat>, bitBuffer: nat, bitsIn: nat, b: nat)
    ensures SentValue(sent, Above(bitBuffer, bitsIn, b)) ==
            SentValue(sent, bitBuffer) + Pow2(8 * |sent| + bitsIn) * b
  {
    hide Pow2, BytesValue;
    var p, q := Pow2(8 * |sent|), Pow2(bitsIn);
    Pow2Add(8 * |sent|, bitsIn);
    MulDistributes(bitBuffer, b * q, p);
    MulAssociates(p, q, b);
  }

  lemma PutField(fields: seq<Field>, b: nat, len: nat)
    ensures FieldsValue(fields + [Field(b, len)], 0) == FieldsValue(fields, 0) + Pow2(FieldsBits(fields)) * b
    ensures FieldsBits(fields + [Field(b, len)]) == FieldsBits(fields) + len
  {
    hide Pow2, FieldsValue, FieldsBits;
    FieldsConcat(fields, [Field(b, len)], 0);
    FieldsOne(Field(b, len), 0);
    FieldsRest(fields, b);
  }

  lemma PutFits(bitBuffer: nat, bitsIn: nat, b: nat, len: nat)
    requires bitBuffer < Pow2(bitsIn) && b < Pow2(len) && bitsIn + len <= 32
    ensures Above(bitBuffer, bitsIn, b) < Pow2(bitsIn + len)
    ensures Above(bitBuffer, bitsIn, b) % WORD == Above(bitBuffer, bitsIn, b)
  {
    hide Pow2;
    Pow2Monotone(bitsIn + len, 32);
    Pow2Values();
    Pow2Add(bitsIn, len);
    MulMonotone(b + 1, Pow2(len), Pow2(bitsIn));
    MulDistributes(b, 1, Pow2(bitsIn));
  }

  lemma ByteLeaves(bitBuffer: nat, bitsIn: nat)
    requires bitsIn >= 8 && bitBuffer < Pow2(bitsIn)
    ensures bitBuffer / 256 < Pow2(bitsIn - 8)
  {
    hide Pow2;
    Pow2Byte(bitsIn - 8);
    DivideAbove(bitBuffer, Pow2(bitsIn - 8), 256);
  }

  /** The fields are the bytes sent and the bits still buffered. */
  ghost predicate Carries(fs: seq<Field>, sent: seq<nat>, bitBuffer: nat, bitsIn: nat) {
    && bitBuffer < Pow2(bitsIn) && Fitting(fs)
    && FieldsValue(fs, 0) == SentValue(sent, bitBuffer) && FieldsBits(fs) == 8 * |sent| + bitsIn
    && forall i :: 0 <= i < |sent| ==> sent[i] < 256
  }

  class BitWriter {
    const outBuf: array<nat>
    /** Writing stops silently here. */
    var end: nat
    var ofs: nat
    var bitBuffer: nat
    var bitsIn: nat
    /** Everything put into the stream, and every byte that left the bit buffer, dropped or not. */
    ghost var fields: seq<Field>
    ghost var sent: seq<nat>
    /** How much had been sent before the output buffer was last reset. */
    ghost var base: nat

    ghost predicate Valid()
      reads this, outBuf
    {
      && bitsIn < 8 && Buffered(fields) && Stored()
    }

    ghost predicate Buffered(fs: seq<Field>)
      reads this`bitBuffer, this`bitsIn, this`sent
    {
      Carries(fs, sent, bitBuffer, bitsIn)
    }

    /** The output buffer holds what was sent since the reset, as far as it fits. */
    ghost predicate Stored()
      reads this, outBuf
    {
      && end <= outBuf.Length && base <= |sent|
      && ofs == (if |sent| - base <= end then |sent| - base else end)
      && forall i :: 0 <= i < ofs ==> outBuf[i] == sent[base + i]
    }

    /** The output buffer as far as it has been filled. */
    function Filled(): seq<nat>
      requires Valid()
      reads this, outBuf
    {
      outBuf[..ofs]
    }

    constructor (buf: array<nat>, limit: nat)
      requires limit <= buf.Length
      ensures Valid() && fields == [] && sent == [] && base == 0 && outBuf == buf && end == limit
    {
      outBuf, end, ofs, bitBuffer, bitsIn := buf, limit, 0, 0, 0;
      fields, sent, base := [], [], 0;
      assert Pow2(0) == 1;
    }

    /** Appends `len` bits; whole bytes go to the output buffer. */
    method PutBits(b: nat, len: nat)
      requires Valid() && len <= 16 && b < Pow2(len)
      modifies this, outBuf
      ensures Valid() && fields == old(fields) + [Field(b, len)]
      ensures end == old(end) && base == old(base) && old(sent) <= sent
    {
      hide Pow2, Buffered, Stored;
      Buffer(b, len);
      while bitsIn >= 8
        invariant Buffered(fields) && Stored()
        invariant fields == old(fields) + [Field(b, len)]
        invariant end == old(end) && base == old(base) && old(sent) <= sent
      {
        SendOne();
      }
    }

    /** The new bits go above the buffered ones. */
    method Buffer(b: nat, len: nat)
      requires Valid() && len <= 16 && b < Pow2(len)
      modifies this`bitBuffer, this`bitsIn, this`fields
      ensures Buffered(fields) && Stored() && fields == old(fields) + [Field(b, len)]
    {
      hide Pow2, FieldsValue, FieldsBits, SentValue, Above;
      PutField(fields, b, len);
      PutAbove(sent, bitBuffer, bitsIn, b);
      PutFits(bitBuffer, bitsIn, b, len);
      bitBuffer := Above(bitBuffer, bitsIn, b) % WORD;
      bitsIn := bitsIn + len;
      fields := fields + [Field(b, len)];
    }

    method SendOne()
      requires Buffered(fields) && Stored() && bitsIn >= 8
      modifies this, outBuf
      ensures Buffered(fields) && Stored() && fields == old(fields) && bitsIn == old(bitsIn) - 8
      ensures end == old(end) && base == old(base) && old(sent) <= sent
    {
      hide Pow2, FieldsValue, FieldsBits, SentValue;
      SendByte(sent, bitBuffer);
      ByteLeaves(bitBuffer, bitsIn);
      sent := sent + [bitBuffer % 256];
      if ofs < end {
        outBuf[ofs] := bitBuffer % 256;
        ofs := ofs + 1;
      }
      bitBuffer := bitBuffer / 256;
      bitsIn := bitsIn - 8;
    }

    /** Pads with zero bits to the next byte. */
    method Align()
      requires Valid()
      modifies this, outBuf
      ensures Valid() && bitsIn == 0 && end == old(end) && base == old(base) && old(sent) <= sent
      ensures fields == if old(bitsIn) == 0 then old(fields) else old(fields) + [Field(0, 8 - old(bitsIn))]
    {
      hide Pow2, FieldsBits, FieldsValue, SentValue;
      if bitsIn != 0 {
        ghost var before := fields;
        PutField(fields, 0, 8 - bitsIn);
        PutBits(0, 8 - bitsIn);
        WholeBytes(FieldsBits(before), |old(sent)|, old(bitsIn), |sent|, bitsIn);
      }
    }

    lemma WholeBytes(bits: nat, bytes: nat, extra: nat, bytes': nat, extra': nat)
      requires bits == 8 * bytes + extra && bits + (8 - extra) == 8 * bytes' + extra' && extra < 8 && extra' < 8
      ensures extra' == 0
    {}

    /** Once aligned, the bytes sent are the whole stream. */
    lemma AlignedBytes()
      requires Valid() && bitsIn == 0
      ensures BytesValue(sent, 0) == FieldsValue(fields, 0) && 8 * |sent| == FieldsBits(fields)
    {
      assert Pow2(0) == 1;
    }

    /** The output buffer starts over, having been handed on. */
    method Rewind(limit: nat)
      requires Valid() && limit <= outBuf.Length
      modifies this`ofs, this`end, this`base
      ensures Valid() && fields == old(fields) && sent == old(sent) && base == |sent| && ofs == 0 && end == limit
    {
      hide Buffered;
      ofs, end, base := 0, limit, |sent|;
    }

    /** A state the writer was in since the output buffer last started over. */
    ghost predicate Saved(ofs0: nat, bitBuffer0: nat, bitsIn0: nat, fields0: seq<Field>, sent0: seq<nat>)
      reads this`base, this`end, this`sent
    {
      && bitsIn0 < 8 && Carries(fields0, sent0, bitBuffer0, bitsIn0)
      && base <= |sent0| && sent0 <= sent && ofs0 == if |sent0| - base <= end then |sent0| - base else end
    }

    lemma CanRestore()
      requires Valid()
      ensures Saved(ofs, bitBuffer, bitsIn, fields, sent)
    {
      hide Carries;
    }

    /** Forgets everything put since. */
    method Restore(ofs0: nat, bitBuffer0: nat, bitsIn0: nat, ghost fields0: seq<Field>, ghost sent0: seq<nat>)
      requires Valid() && Saved(ofs0, bitBuffer0, bitsIn0, fields0, sent0)
      modifies this`ofs, this`bitBuffer, this`bitsIn, this`fields, this`sent
      ensures Valid() && fields == fields0 && sent == sent0 && ofs == ofs0 && bitsIn == bitsIn0 && bitBuffer == bitBuffer0
    {
      hide Carries;
      forall i | 0 <= i < ofs0 ensures outBuf[i] == sent0[base + i] {
        assert sent0[base + i] == sent[base + i];
      }
      ofs, bitBuffer, bitsIn, fields, sent := ofs0, bitBuffer0, bitsIn0, fields0, sent0;
    }
  }
}
