/** The decoder's end of the bit stream: bytes are read low bit first into a bit buffer, and codes
    and numbers are taken from its low end (section 3.1.1 of RFC 1951). */
module BitReader {
  import opened Powers
  import opened HuffmanTree
  import opened Canonical
  import opened BitStream
  import opened HuffmanTrie
  import opened HuffmanDecoder

  /** The bits still to come: `n` buffered ones in `b`, then the bytes from `i` on. */
  function Pending(b: nat, n: nat, s: seq<nat>, i: nat): nat
    requires i <= |s|
  {
    b + Pow2(n) * BytesValue(s, i)
  }

  lemma PendingLow(b: nat, n: nat, s: seq<nat>, i: nat)
    requires i <= |s| && b < Pow2(n)
    ensures Low(Pending(b, n, s, i), n) == b
  {
    var r := BytesValue(s, i);
    ModOfSum(b, r, Pow2(n));
    LowOfSmall(b, n);
  }

  lemma PendingByte(b: nat, n: nat, s: seq<nat>, i: nat)
    requires i < |s| && b < Pow2(n) && s[i] < 256
    ensures Pending(b + s[i] * Pow2(n), n + 8, s, i + 1) == Pending(b, n, s, i)
    ensures b + s[i] * Pow2(n) < Pow2(n + 8)
  {
    hide Pow2;
    Pow2Byte(n);
    PendingByteSum(b, Pow2(n), s[i], BytesValue(s, i + 1));
    MulMonotone(s[i], 255, Pow2(n));
  }

  lemma PendingByteSum(b: nat, p: nat, c: nat, r: nat)
    ensures b + c * p + p * 256 * r == b + p * (c + 256 * r)
  {
    MulAssociates(p, 256, r);
    MulDistributes(c, 256 * r, p);
  }

  lemma PendingShift(b: nat, n: nat, s: seq<nat>, i: nat, len: nat)
    requires i <= |s| && b < Pow2(n) && len <= n
    ensures Pending(Shr(b, len), n - len, s, i) == Shr(Pending(b, n, s, i), len)
    ensures Shr(b, len) < Pow2(n - len)
  {
    hide Pow2;
    var r := BytesValue(s, i);
    Pow2Add(n - len, len);
    ShiftSum(b, Pow2(n - len), r, Pow2(len));
    DivideAbove(b, Pow2(n - len), Pow2(len));
  }

  lemma ShiftSum(b: nat, p: nat, r: nat, d: nat)
    requires d > 0
    ensures (b + p * d * r) / d == b / d + p * r
  {
    MulAssociates(p, d, r);
    MulAssociates(p, r, d);
    ModOfSum(b, p * r, d);
  }

  class BitReader {
    const input: seq<nat>
    var pos: nat
    var bitBuf: nat
    var numBits: nat

    constructor (bytes: seq<nat>)
      requires forall i :: 0 <= i < |bytes| ==> bytes[i] < 256
      ensures Valid() && Stream() == BytesValue(bytes, 0) && Bits() == 8 * |bytes| && input == bytes
    {
      input, pos, bitBuf, numBits := bytes, 0, 0, 0;
    }

    ghost predicate Valid()
      reads this
    {
      && pos <= |input| && bitBuf < Pow2(numBits)
      && forall i :: 0 <= i < |input| ==> input[i] < 256
    }

    /** All bits not taken yet, as one number. */
    ghost function Stream(): nat
      reads this
      requires Valid()
    {
      Pending(bitBuf, numBits, input, pos)
    }

    /** How many there are. */
    ghost function Bits(): nat
      reads this
      requires Valid()
    {
      numBits + 8 * (|input| - pos)
    }

    method ReadByte()
      requires Valid() && pos < |input|
      modifies this
      ensures Valid() && Stream() == old(Stream()) && Bits() == old(Bits())
      ensures numBits == old(numBits) + 8 && pos == old(pos) + 1
    {
      hide Pow2, Pending;
      PendingByte(bitBuf, numBits, input, pos);
      bitBuf := bitBuf + input[pos] * Pow2(numBits);
      numBits := numBits + 8;
      pos := pos + 1;
    }

    method Take(len: nat)
      requires Valid() && len <= numBits
      modifies this
      ensures Valid() && Stream() == Shr(old(Stream()), len) && Bits() == old(Bits()) - len
      ensures numBits == old(numBits) - len && pos == old(pos)
    {
      hide Pow2, Pending, Shr;
      PendingShift(bitBuf, numBits, input, pos, len);
      bitBuf := Shr(bitBuf, len);
      numBits := numBits - len;
    }

    /** TINFL_GET_BITS: the next `n` bits, or a request for more input. */
    method GetBits(n: nat) returns (ok: bool, b: nat)
      requires Valid()
      modifies this
      ensures Valid() && (ok <==> n <= old(Bits()))
      ensures ok ==> b == Low(old(Stream()), n) && Stream() == Shr(old(Stream()), n) && Bits() == old(Bits()) - n
      ensures !ok ==> Stream() == old(Stream()) && Bits() == old(Bits()) && pos == |input|
      ensures ok && pos > old(pos) ==> numBits < 8
    {
      hide Pow2, Pending, Shr, Low;
      ok, b := true, 0;
      while numBits < n
        invariant Valid() && Stream() == old(Stream()) && Bits() == old(Bits())
        invariant old(pos) <= pos && (pos > old(pos) ==> numBits < n + 8)
        decreases |input| - pos
      {
        if pos >= |input| {
          ok := false;
          return;
        }
        ReadByte();
      }
      PendingLow(bitBuf, numBits, input, pos);
      LowLow(Stream(), numBits, n);
      b := Low(bitBuf, n);
      Take(n);
    }

    /** The buffer reaches to the end of whatever the table decodes it to. */
    ghost predicate EnoughBits(table: HuffTable)
      reads this, table, table.lookUp
    {
      table.lookUp.Length == FAST_SIZE &&
      (numBits >= 15 || exists len: nat :: len <= numBits && Stops(table.lookUp[..], table.trie, bitBuf, len))
    }

    /** Every byte read since `from` was needed by the code that comes next. */
    ghost predicate Thrifty(sizes: seq<nat>, from: nat)
      reads this
      requires Valid()
    {
      forall i :: Matches(sizes, Stream(), i) && pos > from ==> numBits < sizes[i] + 8
    }

    /** TINFL_HUFF_BITBUF_FILL: reads on until the buffered bits hold a whole code or 15 bits. */
    method Fill(table: HuffTable, ghost sizes: seq<nat>) returns (ok: bool)
      requires Valid() && table.Holds(sizes, |sizes|) && numBits < 15
      modifies this
      ensures Valid() && Stream() == old(Stream()) && Bits() == old(Bits()) && pos >= old(pos)
      ensures !ok ==> pos == |input| && forall i :: Matches(sizes, Stream(), i) ==> sizes[i] > Bits()
      ensures ok ==> EnoughBits(table) && forall i :: Matches(sizes, Stream(), i) ==> sizes[i] <= numBits
      ensures Thrifty(sizes, old(pos))
    {
      hide Pending, Pow2, Building, Stops, Matches;
      ok := true;
      table.HeldShapes(sizes);
      while true
        invariant Valid() && Stream() == old(Stream()) && Bits() == old(Bits()) && pos >= old(pos)
        invariant Thrifty(sizes, old(pos)) && numBits < 15
        decreases |input| - pos
      {
        var enough, len := table.Suffices(bitBuf, numBits, sizes);
        if enough {
          EnoughIsRight(table, sizes, len);
          return;
        }
        NeedMore(sizes);
        if pos >= |input| {
          ok := false;
          return;
        }
        ReadByte();
        if numBits >= 15 {
          CodesShort(table, sizes);
          return;
        }
      }
    }

    lemma CodesShort(table: HuffTable, sizes: seq<nat>)
      requires table.Holds(sizes, |sizes|)
      ensures table.lookUp.Length == FAST_SIZE
      ensures forall v, i :: Matches(sizes, v, i) ==> sizes[i] <= MAX_CODE
    {
      table.HeldShapes(sizes);
    }

    lemma EnoughIsRight(table: HuffTable, sizes: seq<nat>, len: nat)
      requires Valid() && table.Holds(sizes, |sizes|) && table.lookUp.Length == FAST_SIZE
      requires len <= numBits && Stops(table.lookUp[..], table.trie, bitBuf, len)
      requires table.lookUp[bitBuf % FAST_SIZE] >= 0 ==> len > 0
      ensures forall i :: Matches(sizes, Stream(), i) ==> sizes[i] <= numBits
    {
      hide Pending, Pow2, Building, Stops, Matches;
      PendingLow(bitBuf, numBits, input, pos);
      forall i | Matches(sizes, Stream(), i) ensures 0 <= i < |sizes| && sizes[i] <= numBits {
        MatchSize(sizes, Stream(), i);
        StopsEarly(table.lookUp[..], table.tree[..], table.trie, sizes, Stream(), numBits, len, i);
      }
    }

    lemma NeedMore(sizes: seq<nat>)
      requires Valid() && forall i :: Matches(sizes, bitBuf, i) ==> sizes[i] > numBits
      ensures forall i :: Matches(sizes, Stream(), i) ==> sizes[i] > numBits
    {
      hide Pending, Pow2, Matches;
      PendingLow(bitBuf, numBits, input, pos);
      forall i | Matches(sizes, Stream(), i) ensures 0 <= i < |sizes| && sizes[i] > numBits {
        MatchSize(sizes, Stream(), i);
        if sizes[i] <= numBits {
          MatchesLow(sizes, Stream(), numBits, i);
        }
      }
    }

    lemma EnoughFor(table: HuffTable, sizes: seq<nat>, len: nat)
      requires Valid() && table.Holds(sizes, |sizes|) && EnoughBits(table)
      requires Stops(table.lookUp[..], table.trie, bitBuf, len) && len <= MAX_CODE
      ensures len <= numBits
    {
      hide Building, LeavesAfter, Pow2;
      table.HeldShapes(sizes);
      if numBits < MAX_CODE {
        var k: nat :| k <= numBits && Stops(table.lookUp[..], table.trie, bitBuf, k);
        if table.lookUp[bitBuf % FAST_SIZE] < 0 {
          LeavesOnce(table.trie, bitBuf, k, len);
        }
      }
    }

    lemma DecodesStream(sizes: seq<nat>, sym: nat, len: nat)
      requires Valid() && Decodes(sizes, bitBuf, sym, len) && len <= numBits
      requires forall i :: Matches(sizes, Stream(), i) ==> sizes[i] <= numBits
      ensures Decodes(sizes, Stream(), sym, len)
    {
      hide Pending, Pow2, RevCode, Low;
      PendingLow(bitBuf, numBits, input, pos);
      forall i | Matches(sizes, Stream(), i) ensures sym == i && len == sizes[i] {
        MatchesLow(sizes, Stream(), numBits, i);
      }
      if sym > 0 {
        MatchesLow(sizes, Stream(), numBits, sym);
      }
    }

    /** TINFL_HUFF_DECODE: the next symbol of the stream, or a request for more input. */
    method HuffDecode(table: HuffTable, ghost sizes: seq<nat>) returns (ok: bool, sym: nat, ghost len: nat)
      requires Valid() && table.Holds(sizes, |sizes|)
      modifies this
      ensures Valid() && pos >= old(pos)
      ensures !ok ==> pos == |input| && Stream() == old(Stream()) && Bits() == old(Bits())
      ensures !ok ==> forall i :: Matches(sizes, old(Stream()), i) ==> sizes[i] > old(Bits())
      ensures ok ==> Decodes(sizes, old(Stream()), sym, len)
      ensures ok ==> len <= old(Bits()) && Stream() == Shr(old(Stream()), len) && Bits() == old(Bits()) - len
      ensures ok && |input| - old(pos) < 2 && (exists i :: Matches(sizes, old(Stream()), i)) ==> pos == old(pos) || numBits < 8
    {
      hide Pending, Pow2, Building, Stops, Matches, Shr, EnoughBits;
      ok, sym, len := true, 0, 0;
      CodesShort(table, sizes);
      if numBits < 15 {
        if |input| - pos < 2 {
          ok := Fill(table, sizes);
          if !ok {
            return;
          }
        } else {
          ReadByte();
          ReadByte();
          ManyBits(table, sizes);
        }
      } else {
        ManyBits(table, sizes);
      }
      var codeLen;
      sym, codeLen := table.Decode(bitBuf, sizes);
      EnoughFor(table, sizes, codeLen);
      DecodesStream(sizes, sym, codeLen);
      len := codeLen;
      Take(codeLen);
    }

    lemma ManyBits(table: HuffTable, sizes: seq<nat>)
      requires Valid() && table.Holds(sizes, |sizes|) && numBits >= 15
      ensures EnoughBits(table)
    {
      CodesShort(table, sizes);
    }
  }
}
