/** Bit strings as numbers, first bit lowest, the way section 3.1.1 of RFC 1951 packs them into bytes. */
module BitStream {
  import opened Powers
  import opened HuffmanTrie

  predicate AllBytes(s: seq<nat>) {
    forall i :: 0 <= i < |s| ==> s[i] < 256
  }

  /** The bytes from `i` on as one number, first byte lowest. */
  function BytesValue(s: seq<nat>, i: nat): nat
    requires i <= |s|
    decreases |s| - i
  {
    if i == |s| then 0 else s[i] + 256 * BytesValue(s, i + 1)
  }

  /** `bits` bits of the stream that were put there, or have to be taken, together. */
  datatype Field = Field(value: nat, bits: nat)

  /** The number whose low bits are the given fields, the first one lowest, and whose high bits are `rest`. */
  function FieldsValue(fs: seq<Field>, rest: nat): nat {
    if fs == [] then rest else fs[0].value + Pow2(fs[0].bits) * FieldsValue(fs[1..], rest)
  }

  function FieldsBits(fs: seq<Field>): nat {
    if fs == [] then 0 else fs[0].bits + FieldsBits(fs[1..])
  }

  /** Every value fits its field. */
  predicate Fitting(fs: seq<Field>) {
    forall i :: 0 <= i < |fs| ==> fs[i].value < Pow2(fs[i].bits)
  }

  lemma {:induction false} FieldsConcat(fs: seq<Field>, gs: seq<Field>, rest: nat)
    ensures FieldsValue(fs + gs, rest) == FieldsValue(fs, FieldsValue(gs, rest))
    ensures FieldsBits(fs + gs) == FieldsBits(fs) + FieldsBits(gs)
  {
    if fs == [] {
      assert fs + gs == gs;
    } else {
      assert (fs + gs)[1..] == fs[1..] + gs && (fs + gs)[0] == fs[0];
      FieldsConcat(fs[1..], gs, rest);
    }
  }

  lemma {:induction false} FieldsRest(fs: seq<Field>, rest: nat)
    ensures FieldsValue(fs, rest) == FieldsValue(fs, 0) + Pow2(FieldsBits(fs)) * rest
  {
    if fs == [] {
      assert Pow2(0) == 1;
    } else {
      FieldsRest(fs[1..], rest);
      Pow2Add(fs[0].bits, FieldsBits(fs[1..]));
      FieldsRestStep(Pow2(fs[0].bits), FieldsValue(fs[1..], 0), Pow2(FieldsBits(fs[1..])), rest);
    }
  }

  lemma FieldsRestStep(p: nat, x: nat, q: nat, rest: nat)
    ensures p * (x + q * rest) == p * x + p * q * rest
  {
    MulAssociates(p, q, rest);
    MulDistributes(x, q * rest, p);
  }

  lemma FieldsOne(f: Field, rest: nat)
    ensures FieldsValue([f], rest) == f.value + Pow2(f.bits) * rest && FieldsBits([f]) == f.bits
  {
    hide Pow2;
    assert [f][1..] == [];
  }

  /** Taking the first field off. */
  lemma TakeField(fs: seq<Field>, rest: nat)
    requires fs != [] && fs[0].value < Pow2(fs[0].bits)
    ensures Low(FieldsValue(fs, rest), fs[0].bits) == fs[0].value
    ensures Shr(FieldsValue(fs, rest), fs[0].bits) == FieldsValue(fs[1..], rest)
  {
    hide Pow2;
    DivModUnique(FieldsValue(fs, rest), FieldsValue(fs[1..], rest), fs[0].value, Pow2(fs[0].bits));
  }

  /** The first `n` bits. */
  function AsBits(v: nat, n: nat): seq<bool> {
    if n == 0 then [] else [v % 2 == 1] + AsBits(v / 2, n - 1)
  }

  lemma {:induction false} AsBitsConcat(a: nat, n: nat, b: nat, m: nat)
    requires a < Pow2(n)
    ensures AsBits(a + Pow2(n) * b, n + m) == AsBits(a, n) + AsBits(b, m)
  {
    if n == 0 {
      assert AsBits(a, 0) + AsBits(b, m) == AsBits(b, m);
    } else {
      AsBitsConcat(a / 2, n - 1, b, m);
      HalfOfSum(a, Pow2(n - 1), b);
    }
  }

  lemma HalfOfSum(a: nat, p: nat, b: nat)
    ensures (a + 2 * p * b) / 2 == a / 2 + p * b && (a + 2 * p * b) % 2 == a % 2
  {
    MulAssociates(2, p, b);
  }

  /** The bits of the fields, one after the other, each with its lowest bit first. */
  function FieldBits(fs: seq<Field>): seq<bool> {
    if fs == [] then [] else AsBits(fs[0].value, fs[0].bits) + FieldBits(fs[1..])
  }

  lemma {:induction false} FieldsAreBits(fs: seq<Field>)
    requires Fitting(fs)
    ensures AsBits(FieldsValue(fs, 0), FieldsBits(fs)) == FieldBits(fs)
  {
    if fs != [] {
      FieldsAreBits(fs[1..]);
      AsBitsConcat(fs[0].value, fs[0].bits, FieldsValue(fs[1..], 0), FieldsBits(fs[1..]));
    }
  }

  lemma {:induction false} BytesSame(s: seq<nat>, t: seq<nat>, i: nat, rest: nat)
    requires i <= |s| && t == s + [rest]
    ensures BytesValue(t, i) == BytesValue(s, i) + Pow2(8 * (|s| - i)) * rest
    decreases |s| - i
  {
    if i == |s| {
      assert BytesValue(t, i) == rest + 256 * BytesValue(t, i + 1);
      assert Pow2(0) == 1;
    } else {
      BytesSame(s, t, i + 1, rest);
      Pow2Byte(8 * (|s| - i - 1));
      assert t[i] == s[i];
      BytesSameStep(BytesValue(s, i + 1), Pow2(8 * (|s| - i - 1)), rest);
    }
  }

  lemma BytesSameStep(x: nat, p: nat, rest: nat)
    ensures 256 * (x + p * rest) == 256 * x + p * 256 * rest
  {
    MulAssociates(p, rest, 256);
    MulAssociates(p, 256, rest);
  }

  lemma {:induction false} BytesAreBits(s: seq<nat>, i: nat)
    requires i <= |s| && forall k :: 0 <= k < |s| ==> s[k] < 256
    ensures BytesValue(s, i) < Pow2(8 * (|s| - i))
    decreases |s| - i
  {
    if i < |s| {
      BytesAreBits(s, i + 1);
      Pow2Byte(8 * (|s| - i - 1));
    }
  }
}
