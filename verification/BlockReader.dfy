/** Reading blocks: the part of tinfl_decompress between the headers and the trailer. */
module BlockReader {
  import opened Wrappers
  import opened Powers
  import opened HuffmanTree
  import opened Canonical
  import opened HuffmanTrie
  import opened HuffmanDecoder
  import opened BitStream
  import opened BitReader
  import opened LzOps
  import opened LzCodes
  import opened CodeLengthPacking
  import opened BlockFormat
  import opened Deflated

  datatype Status = Done | NeedsMoreInput | HasMoreOutput | Failed | AdlerMismatch

  /** What the reader has still to read. */
  ghost function Left(r: BitReader): Rest
    reads r
    requires r.Valid()
  {
    Rest(r.Stream(), r.Bits())
  }

  /** The fields `fs` come next in the stream, and then the rest: any bits at all. */
  ghost predicate Ahead(r: BitReader, fs: seq<Field>, rest: Rest)
    reads r
  {
    r.Valid() && r.Stream() == FieldsValue(fs, rest.value) && r.Bits() == FieldsBits(fs) + rest.bits && Fitting(fs)
  }

  lemma FirstField(f: Field, fs: seq<Field>, rest: Rest)
    requires f.value < Pow2(f.bits)
    ensures Low(FieldsValue([f] + fs, rest.value), f.bits) == f.value
    ensures Shr(FieldsValue([f] + fs, rest.value), f.bits) == FieldsValue(fs, rest.value)
    ensures FieldsBits([f] + fs) == f.bits + FieldsBits(fs)
  {
    hide Pow2;
    assert ([f] + fs)[1..] == fs && ([f] + fs)[0] == f;
    TakeField([f] + fs, rest.value);
  }

  lemma FittingTail(f: Field, fs: seq<Field>)
    requires Fitting([f] + fs)
    ensures f.value < Pow2(f.bits) && Fitting(fs)
  {
    hide Pow2;
    assert ([f] + fs)[0] == f;
    forall i | 0 <= i < |fs| ensures fs[i].value < Pow2(fs[i].bits) {
      assert fs[i] == ([f] + fs)[i + 1];
    }
  }

  /** A number of `n` bits. If `good`, the field `f` is known to come next. */
  method ReadNumber(r: BitReader, n: nat, ghost good: bool, ghost f: Field, ghost fs: seq<Field>, ghost rest: Rest)
      returns (ok: bool, b: nat)
    requires r.Valid() && (good ==> Ahead(r, [f] + fs, rest) && f.bits == n)
    modifies r
    ensures r.Valid() && r.Bits() <= old(r.Bits()) && (ok ==> b < Pow2(n))
    ensures ok ==> TookBits(old(Left(r)), n, b, Left(r))
    ensures good ==> ok && b == f.value && Ahead(r, fs, rest)
  {
    hide Pow2, FieldsValue, FieldsBits, Shr, Low;
    if good {
      FittingTail(f, fs);
      FirstField(f, fs, rest);
    }
    ghost var v := r.Stream();
    ok, b := r.GetBits(n);
    LowIsSmall(v, n);
  }

  lemma LowIsSmall(v: nat, n: nat)
    ensures Low(v, n) < Pow2(n)
  {}

  /** A symbol. If `good`, the code of symbol `i` is known to come next. */
  method ReadSymbol(r: BitReader, table: HuffTable, ghost sizes: seq<nat>,
                    ghost good: bool, ghost i: nat, ghost fs: seq<Field>, ghost rest: Rest)
      returns (ok: bool, sym: nat)
    requires r.Valid() && table.Holds(sizes, |sizes|)
    requires good ==> i < |sizes| && sizes[i] > 0 && Ahead(r, [CodeField(sizes, i)] + fs, rest)
    modifies r
    ensures r.Valid() && r.Bits() <= old(r.Bits())
    ensures ok && sym > 0 ==> sym < |sizes| && r.Bits() < old(r.Bits())
    ensures ok ==> TookSymbol(sizes, old(Left(r)), sym, Left(r))
    ensures good ==> ok && sym == i && Ahead(r, fs, rest)
  {
    hide Pow2, FieldsValue, FieldsBits, Shr, Low, Building, RevCode;
    ghost var v := r.Stream();
    if good {
      FittingTail(CodeField(sizes, i), fs);
      FirstField(CodeField(sizes, i), fs, rest);
      assert Matches(sizes, v, i);
    }
    ghost var len, a := 0, Left(r);
    ok, sym, len := r.HuffDecode(table, sizes);
    assert ok ==> TookCode(sizes, a, sym, len, Left(r));
  }

  /** The decoder's list of lengths, without the trailing symbols nobody uses. */
  predicate Agrees(mine: seq<nat>, sizes: seq<nat>) {
    && |mine| <= |sizes| && (forall i :: |mine| <= i < |sizes| ==> sizes[i] == 0)
    && (forall i :: 0 <= i < |mine| ==> mine[i] == sizes[i] && CodeField(mine, i) == CodeField(sizes, i))
  }

  /** Extra bits, of which there may be none. */
  method ReadExtra(r: BitReader, n: nat, ghost good: bool, ghost f: Field, ghost fs: seq<Field>, ghost rest: Rest)
      returns (ok: bool, b: nat)
    requires r.Valid() && (good ==> Ahead(r, [f] + fs, rest) && f.bits == n)
    modifies r
    ensures r.Valid() && r.Bits() <= old(r.Bits()) && (ok ==> TookBits(old(Left(r)), n, b, Left(r)))
    ensures good ==> ok && b == f.value && Ahead(r, fs, rest)
  {
    hide Pow2, FieldsValue, FieldsBits, TookBits;
    ok, b := true, 0;
    NothingTaken(Left(r));
    if n != 0 {
      ok, b := ReadNumber(r, n, good, f, fs, rest);
    } else if good {
      FittingTail(f, fs);
      NoBits(f, fs, rest);
    }
  }

  lemma NothingTaken(a: Rest)
    ensures TookBits(a, 0, 0, a)
  {
    assert Pow2(0) == 1;
  }

  lemma NoBits(f: Field, fs: seq<Field>, rest: Rest)
    requires f.bits == 0 && f.value < Pow2(0)
    ensures f.value == 0 && FieldsValue([f] + fs, rest.value) == FieldsValue(fs, rest.value) && FieldsBits([f] + fs) == FieldsBits(fs)
  {
    assert ([f] + fs)[1..] == fs && Pow2(0) == 1;
  }

  /** Length and distance of a match whose first symbol has been read. */
  method ReadMatch(r: BitReader, distTable: HuffTable, ghost distSizes: seq<nat>, sym: nat,
                   ghost good: bool, ghost op: Op, ghost lit: seq<nat>, ghost dist: seq<nat>, ghost fs: seq<Field>, ghost rest: Rest)
      returns (ok: bool, len: nat, matchDist: nat)
    requires r.Valid() && distTable.Holds(distSizes, |distSizes|)
    requires good ==> Legal(op) && op.Match? && Covers(lit, dist, [op]) && sym == LitSymbol(op) && Agrees(distSizes, dist)
    requires good ==> Ahead(r, OpFields(op, lit, dist)[1..] + fs, rest)
    modifies r
    ensures r.Valid() && r.Bits() <= old(r.Bits()) && (ok ==> TookMatch(distSizes, sym, old(Left(r)), len, matchDist, Left(r)))
    ensures good ==> ok && len == op.len && matchDist == op.dist && Ahead(r, fs, rest)
  {
    hide TookBits, TookSymbol, Pow2, FieldsValue, FieldsBits, CodeField, LenSym, LenExtra, DistSym, DistExtra, LengthBase, LengthExtra, DistBase, DistanceExtra,
         Ahead, Building;
    ghost var f0, f1, f2, i: nat := Field(0, 0), Field(0, 0), Field(0, 0), 0;
    len, matchDist := LengthBase(sym), 0;
    if good {
      assert [op][0] == op;
      i := DistSymbol(op);
      LengthRoundTrip(op.len - MIN_MATCH);
      DistanceRoundTrip(op.dist - 1);
      f0, f2 := LowField(op.len - MIN_MATCH, LenExtra(op.len - MIN_MATCH)), LowField(op.dist - 1, DistExtra(op.dist - 1));
      f1 := CodeField(dist, i);
      assert OpFields(op, lit, dist)[1..] == [f0, f1, f2];
      assert [f0, f1, f2] + fs == [f0] + ([f1] + ([f2] + fs));
    }
    var b, dsym, c;
    ghost var a := Left(r);
    ok, b := ReadExtra(r, LengthExtra(sym), good, f0, [f1] + ([f2] + fs), rest);
    if !ok {
      return;
    }
    len := len + b;
    ghost var m := Left(r);
    ok, dsym := ReadSymbol(r, distTable, distSizes, good, i, [f2] + fs, rest);
    if !ok {
      return;
    }
    ghost var k := Left(r);
    ok, c := ReadExtra(r, DistanceExtra(dsym), good, f2, fs, rest);
    matchDist := DistBase(dsym) + c;
    assert ok ==> TookParts(distSizes, sym, a, b, m, dsym, k, c, Left(r));
  }

  /** The distance read is 0 exactly for the two distance symbols that no encoder uses. For every other symbol the
      distance, and with it the copy, is determined. */
  lemma ZeroDistance(sym: nat, extra: nat)
    requires extra < Pow2(DistanceExtra(sym))
    ensures DistBase(sym) + extra == 0 <==> sym >= 30
  {
    assert Pow2(0) == 1;
  }

  lemma CopiedMore(out: seq<nat>, len: nat, dist: nat)
    requires 1 <= dist <= |out| && len > 0
    ensures Copied(out, len, dist) == Copied(out + [out[|out| - dist]], len - 1, dist)
  {}

  /** How many bytes of a match there is room for. */
  function Room(out0: seq<nat>, len: nat, maxOut: nat): nat
    requires |out0| <= maxOut
  {
    if |out0| + len <= maxOut then len else maxOut - |out0|
  }

  /** Copies a match byte by byte, as far as the output has room. A distance of 0, which only the two unused
      distance symbols stand for, copies whatever the output buffer held before. */
  method CopyMatch(out0: seq<nat>, len: nat, dist: nat, maxOut: nat) returns (full: bool, out: seq<nat>)
    requires dist <= |out0| <= maxOut && AllBytes(out0)
    ensures AllBytes(out) && out0 <= out && |out| == |out0| + Room(out0, len, maxOut)
    ensures full <==> |out0| + len > maxOut
    ensures dist > 0 ==> out == Copied(out0, Room(out0, len, maxOut), dist)
  {
    hide Copied;
    out, full := out0, false;
    ghost var room := Room(out0, len, maxOut);
    var counter := len;
    while counter > 0
      invariant 0 <= counter <= len && AllBytes(out) && out0 <= out && |out| == |out0| + (len - counter) <= maxOut && !full
      invariant dist > 0 ==> Copied(out, room - (len - counter), dist) == Copied(out0, room, dist)
    {
      if |out| >= maxOut {
        full := true;
        NothingCopied(out, dist);
        return;
      }
      var c: nat := if dist > 0 then out[|out| - dist] else 0;
      if dist == 0 {
        c :| c < 256;
      } else {
        CopiedMore(out, room - (len - counter), dist);
      }
      out := out + [c];
      counter := counter - 1;
    }
    NothingCopied(out, dist);
  }

  lemma NothingCopied(out: seq<nat>, dist: nat)
    ensures 1 <= dist <= |out| ==> Copied(out, 0, dist) == out
  {}

  /** The operations still to come, given that they expand to what was promised. */
  ghost predicate Following(r: BitReader, ops: seq<Op>, lit: seq<nat>, dist: seq<nat>, more: seq<Field>, rest: Rest,
                            out: seq<nat>, promised: seq<nat>, maxOut: nat)
    reads r
  {
    && Covers(lit, dist, ops) && Ahead(r, OpsFields(ops, lit, dist) + more, rest)
    && Expand(out, ops) == Some(promised) && |promised| <= maxOut
  }

  /** The symbol that has to come next. */
  ghost function NextSymbol(ops: seq<Op>): nat
    requires AllLegal(ops)
  {
    if ops == [] then END_OF_BLOCK else LitSymbol(ops[0])
  }

  /** What comes after that symbol. */
  ghost function AfterSymbol(ops: seq<Op>, lit: seq<nat>, dist: seq<nat>, more: seq<Field>): seq<Field>
    requires AllLegal(ops) && |lit| == LIT_SYMBOLS && |dist| == DIST_SYMBOLS
  {
    if ops == [] then more else OpFields(ops[0], lit, dist)[1..] + (OpsFields(ops[1..], lit, dist) + more)
  }

  lemma NextFields(ops: seq<Op>, lit: seq<nat>, dist: seq<nat>, more: seq<Field>)
    requires AllLegal(ops) && |lit| == LIT_SYMBOLS && |dist| == DIST_SYMBOLS
    ensures OpsFields(ops, lit, dist) + more == [CodeField(lit, NextSymbol(ops))] + AfterSymbol(ops, lit, dist, more)
  {
    hide CodeField, LowField, LenSym, DistSym, LenExtra, DistExtra;
    if ops != [] {
      var f := OpFields(ops[0], lit, dist);
      JoinFields(f, OpsFields(ops[1..], lit, dist), more);
      assert f[0] == CodeField(lit, NextSymbol(ops));
    }
  }

  lemma JoinFields(f: seq<Field>, g: seq<Field>, more: seq<Field>)
    requires f != []
    ensures f + g + more == [f[0]] + (f[1..] + (g + more))
  {}

  lemma NextCovered(ops: seq<Op>, lit: seq<nat>, dist: seq<nat>, mine: seq<nat>)
    requires Covers(lit, dist, ops) && Agrees(mine, lit)
    ensures AllLegal(ops) && |lit| == LIT_SYMBOLS && |dist| == DIST_SYMBOLS
    ensures NextSymbol(ops) < |mine| && mine[NextSymbol(ops)] > 0
    ensures CodeField(mine, NextSymbol(ops)) == CodeField(lit, NextSymbol(ops))
  {
    hide CodeField, LitSymbol, DistSymbol;
  }

  lemma FollowingSymbol(r: BitReader, ops: seq<Op>, lit: seq<nat>, dist: seq<nat>, more: seq<Field>, rest: Rest,
                        out: seq<nat>, promised: seq<nat>, maxOut: nat, mine: seq<nat>)
    requires Following(r, ops, lit, dist, more, rest, out, promised, maxOut) && Agrees(mine, lit)
    ensures AllLegal(ops) && |lit| == LIT_SYMBOLS && |dist| == DIST_SYMBOLS
    ensures NextSymbol(ops) < |mine| && mine[NextSymbol(ops)] > 0
    ensures Ahead(r, [CodeField(mine, NextSymbol(ops))] + AfterSymbol(ops, lit, dist, more), rest)
  {
    hide *;
    FollowingParts(r, ops, lit, dist, more, rest, out, promised, maxOut);
    NextCovered(ops, lit, dist, mine);
    NextFields(ops, lit, dist, more);
  }

  lemma FollowingParts(r: BitReader, ops: seq<Op>, lit: seq<nat>, dist: seq<nat>, more: seq<Field>, rest: Rest,
                       out: seq<nat>, promised: seq<nat>, maxOut: nat)
    requires Following(r, ops, lit, dist, more, rest, out, promised, maxOut)
    ensures Covers(lit, dist, ops) && AllLegal(ops) && |lit| == LIT_SYMBOLS && |dist| == DIST_SYMBOLS
    ensures Expand(out, ops) == Some(promised) && |promised| <= maxOut
    ensures Ahead(r, OpsFields(ops, lit, dist) + more, rest)
  {
    hide CodeField, LitSymbol, DistSymbol, OpsFields, Ahead;
  }

  /** After the first operation has been applied, the others follow. */
  lemma FollowingRest(ops: seq<Op>, out: seq<nat>, promised: seq<nat>)
    requires ops != [] && Expand(out, ops) == Some(promised)
    ensures Applied(out, ops[0]).Some? && Expand(Applied(out, ops[0]).value, ops[1..]) == Some(promised)
    ensures |Applied(out, ops[0]).value| <= |promised|
  {
    assert ops == [ops[0]] + ops[1..];
    ExpandOne(out, ops[0]);
    if Applied(out, ops[0]).Some? {
      ExpandConcat(out, [ops[0]], ops[1..]);
      ExpandLength(Applied(out, ops[0]).value, ops[1..]);
    } else {
      ExpandFails(out, [ops[0]], ops[1..]);
    }
  }

  lemma ExpandOne(out: seq<nat>, op: Op)
    ensures Expand(out, [op]) == Applied(out, op)
  {
    assert [op][..0] == [];
  }

  lemma {:induction false} ExpandFails(out: seq<nat>, a: seq<Op>, b: seq<Op>)
    requires Expand(out, a).None?
    ensures Expand(out, a + b).None?
  {
    if b == [] {
      assert a + b == a;
    } else {
      var n := |b| - 1;
      assert (a + b)[..|a| + n] == a + b[..n];
      ExpandFails(out, a, b[..n]);
    }
  }

  /** The same after the first symbol has been read. */
  ghost predicate Within(r: BitReader, ops: seq<Op>, lit: seq<nat>, dist: seq<nat>, more: seq<Field>, rest: Rest,
                         out: seq<nat>, promised: seq<nat>, maxOut: nat)
    reads r
  {
    && Covers(lit, dist, ops) && Ahead(r, AfterSymbol(ops, lit, dist, more), rest)
    && Expand(out, ops) == Some(promised) && |promised| <= maxOut
  }

  lemma InsideBlock(r: BitReader, ops: seq<Op>, lit: seq<nat>, dist: seq<nat>, more: seq<Field>, rest: Rest,
                    out: seq<nat>, promised: seq<nat>, maxOut: nat)
    requires Covers(lit, dist, ops) && AllLegal(ops) && |lit| == LIT_SYMBOLS && |dist| == DIST_SYMBOLS
    requires Ahead(r, AfterSymbol(ops, lit, dist, more), rest) && Expand(out, ops) == Some(promised) && |promised| <= maxOut
    ensures Within(r, ops, lit, dist, more, rest, out, promised, maxOut)
  {
    hide Ahead, AfterSymbol, Covers, Expand;
  }

  lemma EndsHere(r: BitReader, ops: seq<Op>, lit: seq<nat>, dist: seq<nat>, more: seq<Field>, rest: Rest,
                 out: seq<nat>, promised: seq<nat>, maxOut: nat)
    requires Within(r, ops, lit, dist, more, rest, out, promised, maxOut) && AllLegal(ops) && NextSymbol(ops) == END_OF_BLOCK
    ensures Ahead(r, more, rest) && out == promised
  {
    hide Ahead, OpFields, OpsFields, LenSym;
  }

  lemma LiteralFollows(r: BitReader, ops: seq<Op>, lit: seq<nat>, dist: seq<nat>, more: seq<Field>, rest: Rest,
                       out: seq<nat>, promised: seq<nat>, maxOut: nat, sym: nat)
    requires Within(r, ops, lit, dist, more, rest, out, promised, maxOut) && AllLegal(ops) && NextSymbol(ops) == sym < END_OF_BLOCK
    ensures |out| < maxOut && ops != [] && Following(r, ops[1..], lit, dist, more, rest, out + [sym], promised, maxOut)
  {
    hide Ahead, OpsFields, LenSym, CodeField, LowField, DistSym, Expand, LenExtra, DistExtra;
    FollowingRest(ops, out, promised);
    assert OpFields(ops[0], lit, dist)[1..] == [];
    assert [] + (OpsFields(ops[1..], lit, dist) + more) == OpsFields(ops[1..], lit, dist) + more;
    CoversRest(lit, dist, ops);
  }

  lemma CoversRest(lit: seq<nat>, dist: seq<nat>, ops: seq<Op>)
    requires Covers(lit, dist, ops) && ops != []
    ensures Covers(lit, dist, ops[1..]) && Covers(lit, dist, [ops[0]])
  {
    hide LitSymbol, DistSymbol;
  }

  lemma MatchFollows(r: BitReader, ops: seq<Op>, lit: seq<nat>, dist: seq<nat>, more: seq<Field>, rest: Rest,
                     out: seq<nat>, promised: seq<nat>, maxOut: nat)
    requires Within(r, ops, lit, dist, more, rest, out, promised, maxOut) && AllLegal(ops) && NextSymbol(ops) > END_OF_BLOCK
    ensures ops != [] && Legal(ops[0]) && ops[0].Match? && Covers(lit, dist, [ops[0]]) && NextSymbol(ops) == LitSymbol(ops[0])
    ensures |lit| == LIT_SYMBOLS && |dist| == DIST_SYMBOLS
    ensures Ahead(r, OpFields(ops[0], lit, dist)[1..] + (OpsFields(ops[1..], lit, dist) + more), rest)
    ensures 1 <= ops[0].dist <= |out| && |out| + ops[0].len <= maxOut
    ensures Expand(Copied(out, ops[0].len, ops[0].dist), ops[1..]) == Some(promised)
  {
    hide Ahead, OpsFields, OpFields, LenSym, DistSym, Expand, Copied;
    FollowingRest(ops, out, promised);
    CoversRest(lit, dist, ops);
  }

  lemma FollowsAgain(r: BitReader, ops: seq<Op>, lit: seq<nat>, dist: seq<nat>, more: seq<Field>, rest: Rest,
                     out: seq<nat>, promised: seq<nat>, maxOut: nat)
    requires Covers(lit, dist, ops) && ops != [] && |promised| <= maxOut
    requires Ahead(r, OpsFields(ops[1..], lit, dist) + more, rest)
    requires Expand(out, ops[1..]) == Some(promised)
    ensures Following(r, ops[1..], lit, dist, more, rest, out, promised, maxOut)
  {
    hide Ahead, OpsFields, Expand;
    CoversRest(lit, dist, ops);
  }

  lemma WithinShape(r: BitReader, ops: seq<Op>, lit: seq<nat>, dist: seq<nat>, more: seq<Field>, rest: Rest,
                    out: seq<nat>, promised: seq<nat>, maxOut: nat)
    requires Within(r, ops, lit, dist, more, rest, out, promised, maxOut)
    ensures Covers(lit, dist, ops) && |promised| <= maxOut
  {
    hide Ahead, Covers, Expand;
  }

  /** A match: its length and distance, then the copy. */
  method InflateMatch(r: BitReader, distTable: HuffTable, ghost distSizes: seq<nat>, sym: nat, out0: seq<nat>, maxOut: nat,
                      ghost good: bool, ghost ops: seq<Op>, ghost lit: seq<nat>, ghost dist: seq<nat>, ghost more: seq<Field>,
                      ghost rest: Rest, ghost promised: seq<nat>)
      returns (status: Status, out: seq<nat>)
    requires r.Valid() && distTable.Holds(distSizes, |distSizes|) && |out0| <= maxOut && sym > END_OF_BLOCK && AllBytes(out0)
    requires good ==> AllLegal(ops) && Within(r, ops, lit, dist, more, rest, out0, promised, maxOut) && NextSymbol(ops) == sym
    requires good ==> Agrees(distSizes, dist)
    modifies r
    ensures r.Valid() && out0 <= out && |out| <= maxOut && r.Bits() <= old(r.Bits()) && AllBytes(out)
    ensures status == Done ==> Continues(distSizes, sym, old(Left(r)), out0, Left(r), out)
    ensures good ==> status == Done && ops != [] && Following(r, ops[1..], lit, dist, more, rest, out, promised, maxOut)
  {
    hide Ahead, OpsFields, OpFields, Within, Following, Agrees, Building, Copied, Covers, LitSymbol, Expand, TookMatch;
    out := out0;
    ghost var op, fs := Literal(0), [];
    if good {
      MatchFollows(r, ops, lit, dist, more, rest, out, promised, maxOut);
      WithinShape(r, ops, lit, dist, more, rest, out, promised, maxOut);
      op, fs := ops[0], OpsFields(ops[1..], lit, dist) + more;
    }
    var ok, len, matchDist := ReadMatch(r, distTable, distSizes, sym, good, op, lit, dist, fs, rest);
    if !ok {
      status := NeedsMoreInput;
      return;
    }
    if matchDist > |out| {
      status := Failed;
      return;
    }
    var full;
    full, out := CopyMatch(out, len, matchDist, maxOut);
    if full {
      status := HasMoreOutput;
      return;
    }
    status := Done;
    assert CopiedTo(out0, len, matchDist, out);
    if good {
      FollowsAgain(r, ops, lit, dist, more, rest, out, promised, maxOut);
    }
  }

  lemma NoOps(lit: seq<nat>, dist: seq<nat>, a: Rest, out: seq<nat>)
    ensures TookOps(lit, dist, 0, a, out, a, out)
  {}

  lemma OneMoreOp(lit: seq<nat>, dist: seq<nat>, n: nat, a: Rest, out0: seq<nat>, from: Rest, out: seq<nat>, sym: nat, m: Rest, b: Rest, more: seq<nat>)
    requires TookOps(lit, dist, n, a, out0, from, out) && TookSymbol(lit, from, sym, m) && Continues(dist, sym, m, out, b, more)
    ensures TookOps(lit, dist, n + 1, a, out0, b, more)
  {
    hide TookSymbol, Continues;
    assert TookOp(lit, dist, from, out, b, more);
  }

  /** The symbols of a block, from the first one to the end-of-block symbol. If `good`, the operations `ops` come next. */
  method InflateSymbols(r: BitReader, litTable: HuffTable, distTable: HuffTable, ghost litSizes: seq<nat>, ghost distSizes: seq<nat>,
                        out0: seq<nat>, maxOut: nat,
                        ghost good: bool, ghost ops: seq<Op>, ghost lit: seq<nat>, ghost dist: seq<nat>, ghost more: seq<Field>,
                        ghost rest: Rest, ghost promised: seq<nat>)
      returns (status: Status, out: seq<nat>)
    requires r.Valid() && litTable.Holds(litSizes, |litSizes|) && distTable.Holds(distSizes, |distSizes|) && |litSizes| <= LIT_SYMBOLS
    requires |out0| <= maxOut && AllBytes(out0)
    requires good ==> Following(r, ops, lit, dist, more, rest, out0, promised, maxOut) && Agrees(litSizes, lit) && Agrees(distSizes, dist)
    modifies r
    ensures r.Valid() && out0 <= out && |out| <= maxOut && r.Bits() <= old(r.Bits()) && AllBytes(out)
    ensures status == Done ==> TookSymbols(litSizes, distSizes, old(Left(r)), out0, Left(r), out)
    ensures good ==> status == Done && out == promised && Ahead(r, more, rest)
  {
    hide TookOps, TookSymbol, TookMatch, CopiedTo, CodeField, OpsFields, OpFields, Following, Within, Ahead, Building, LitSymbol, Expand, Covers, Agrees, AfterSymbol, NextSymbol;
    out := out0;
    ghost var todo := ops;
    ghost var a, n: nat := Left(r), 0;
    NoOps(litSizes, distSizes, a, out0);
    while true
      invariant r.Valid() && out0 <= out && |out| <= maxOut && r.Bits() <= old(r.Bits()) && AllBytes(out)
      invariant TookOps(litSizes, distSizes, n, a, out0, Left(r), out)
      invariant good ==> Following(r, todo, lit, dist, more, rest, out, promised, maxOut)
      decreases r.Bits() + (maxOut - |out|)
    {
      ghost var next, fs := 0, [];
      if good {
        FollowingSymbol(r, todo, lit, dist, more, rest, out, promised, maxOut, litSizes);
        FollowingParts(r, todo, lit, dist, more, rest, out, promised, maxOut);
        next, fs := NextSymbol(todo), AfterSymbol(todo, lit, dist, more);
      }
      ghost var from, sofar := Left(r), out;
      var ok, sym := ReadSymbol(r, litTable, litSizes, good, next, fs, rest);
      ghost var m := Left(r);
      if !ok {
        status := NeedsMoreInput;
        return;
      }
      if good {
        InsideBlock(r, todo, lit, dist, more, rest, out, promised, maxOut);
      }
      if sym == END_OF_BLOCK {
        if good { EndsHere(r, todo, lit, dist, more, rest, out, promised, maxOut); }
        status := Done;
        return;
      }
      if sym < END_OF_BLOCK {
        if good { LiteralFollows(r, todo, lit, dist, more, rest, out, promised, maxOut, sym); }
        if |out| >= maxOut {
          status := HasMoreOutput;
          return;
        }
        out := out + [sym];
      } else {
        status, out := InflateMatch(r, distTable, distSizes, sym, out, maxOut, good, todo, lit, dist, more, rest, promised);
        if status != Done {
          return;
        }
      }
      OneMoreOp(litSizes, distSizes, n, a, out0, from, sofar, sym, m, Left(r), out);
      n := n + 1;
      todo := if good then todo[1..] else [];
    }
  }
}
