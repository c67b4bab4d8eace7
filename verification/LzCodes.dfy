/** The byte format in which parsed literals and matches wait for their block: groups of up to eight,
    each behind a byte of flags that tell matches from literals. */
module LzCodes {
  import opened Powers
  import opened TwoQueue
  import opened LzOps

  const LZ_CODE_BUF_SIZE: nat := 65536
  const LIT_SYMBOLS: nat := 288
  const DIST_SYMBOLS: nat := 32
  const END_OF_BLOCK: nat := 256

  function Flag(op: Op): nat {
    if op.Match? then 1 else 0
  }

  /** Bit `i` tells what `ops[i]` is. */
  function FlagBits(ops: seq<Op>): nat {
    if ops == [] then 0 else Flag(ops[0]) + 2 * FlagBits(ops[1..])
  }

  function OpBytes(op: Op): seq<nat>
    requires Legal(op)
  {
    match op
    case Literal(c) => [c]
    case Match(len, dist) => [len - MIN_MATCH, (dist - 1) % 256, (dist - 1) / 256]
  }

  function Payload(ops: seq<Op>): seq<nat>
    requires AllLegal(ops)
  {
    if ops == [] then [] else OpBytes(ops[0]) + Payload(ops[1..])
  }

  function GroupBytes(g: seq<Op>): seq<nat>
    requires AllLegal(g)
  {
    [FlagBits(g)] + Payload(g)
  }

  predicate LegalGroups(gs: seq<seq<Op>>) {
    forall i :: 0 <= i < |gs| ==> AllLegal(gs[i])
  }

  function GroupsBytes(gs: seq<seq<Op>>): seq<nat>
    requires LegalGroups(gs)
  {
    if gs == [] then [] else GroupBytes(gs[0]) + GroupsBytes(gs[1..])
  }

  function Flat(gs: seq<seq<Op>>): seq<Op> {
    if gs == [] then [] else gs[0] + Flat(gs[1..])
  }

  lemma {:induction false} FlagBitsSnoc(ops: seq<Op>, op: Op)
    ensures FlagBits(ops + [op]) == FlagBits(ops) + Flag(op) * Pow2(|ops|)
  {
    if ops == [] {
      assert ops + [op] == [op];
      assert [op][1..] == [];
    } else {
      assert (ops + [op])[0] == ops[0] && (ops + [op])[1..] == ops[1..] + [op];
      FlagBitsSnoc(ops[1..], op);
    }
  }

  lemma {:induction false} FlagBitsFit(ops: seq<Op>)
    ensures FlagBits(ops) < Pow2(|ops|)
  {
    if ops != [] { FlagBitsFit(ops[1..]); }
  }

  lemma {:induction false} PayloadSnoc(ops: seq<Op>, op: Op)
    requires AllLegal(ops) && Legal(op)
    ensures AllLegal(ops + [op]) && Payload(ops + [op]) == Payload(ops) + OpBytes(op)
  {
    if ops == [] {
      assert ops + [op] == [op];
      assert [op][1..] == [];
    } else {
      assert (ops + [op])[0] == ops[0] && (ops + [op])[1..] == ops[1..] + [op];
      PayloadSnoc(ops[1..], op);
    }
  }

  lemma {:induction false} GroupsSnoc(gs: seq<seq<Op>>, g: seq<Op>)
    requires LegalGroups(gs) && AllLegal(g)
    ensures LegalGroups(gs + [g]) && GroupsBytes(gs + [g]) == GroupsBytes(gs) + GroupBytes(g)
    ensures Flat(gs + [g]) == Flat(gs) + g
  {
    if gs == [] {
      assert gs + [g] == [g];
      assert [g][1..] == [];
    } else {
      assert (gs + [g])[0] == gs[0] && (gs + [g])[1..] == gs[1..] + [g];
      GroupsSnoc(gs[1..], g);
    }
  }

  /** All groups but the last are full. */
  predicate Grouped(gs: seq<seq<Op>>) {
    forall i :: 0 <= i < |gs| ==> 1 <= |gs[i]| <= 8 && (i < |gs| - 1 ==> |gs[i]| == 8)
  }

  // ---------- one more flag ----------

  /** The flag byte after shifting in one more flag, its other bits being left over from before. */
  lemma ShiftFlag(b: nat, n: nat, cur: seq<Op>, op: Op)
    requires b < 256 && 1 <= n <= 8 && |cur| == 8 - n && Shr(b, n) == FlagBits(cur)
    ensures b / 2 + 128 * Flag(op) < 256
    ensures Shr(b / 2 + 128 * Flag(op), n - 1) == FlagBits(cur + [op])
  {
    hide Pow2, FlagBits;
    FlagBitsSnoc(cur, op);
    Pow2Unfold(n);
    Pow2Add(n - 1, 8 - n);
    Pow2Values();
    ShiftArithmetic(b, Pow2(n - 1), Pow2(8 - n), Flag(op));
  }

  lemma ShiftArithmetic(b: nat, p: nat, q: nat, m: nat)
    requires p > 0 && p * q == 128
    ensures (b / 2 + 128 * m) / p == b / (2 * p) + m * q
  {
    HalfFirst(b, p);
    MulAssociates(m, q, p);
    ModOfSum(b / 2, m * q, p);
  }

  /** Once all eight flags are in, nothing is left of the byte's former contents. */
  lemma ByteIsFlags(b: nat, ops: seq<Op>)
    requires Shr(b, 0) == FlagBits(ops)
    ensures b == FlagBits(ops)
  {
    assert Pow2(0) == 1;
  }

  lemma NoFlagsYet(b: nat)
    requires b < 256
    ensures Shr(b, 8) == FlagBits([])
  {
    Pow2Values();
  }

  // ---------- reading them back ----------

  /** Flags not used yet below a marker bit at position `k`. */
  lemma NextFlag(flags: nat, g: seq<Op>, k: nat)
    requires g != [] && flags == FlagBits(g) + Pow2(k) && |g| <= k
    ensures flags % 2 == Flag(g[0]) && flags / 2 == FlagBits(g[1..]) + Pow2(k - 1) && flags > 1
  {
    hide FlagBits;
    Pow2Unfold(k);
    UnfoldFlags(g);
  }

  lemma UnfoldFlags(g: seq<Op>)
    requires g != []
    ensures FlagBits(g) == Flag(g[0]) + 2 * FlagBits(g[1..])
  {}

  lemma DistanceBytes(dist: nat)
    requires 1 <= dist <= DICT_SIZE
    ensures (dist - 1) / 256 < 128 && (dist - 1) % 256 + (dist - 1) / 256 * 256 == dist - 1
  {}

  /** The closed groups, then the flag byte of the open group and what was recorded in it. */
  ghost predicate LaidOut(a: seq<nat>, flagsPos: nat, codePos: nat, left: nat, groups: seq<seq<Op>>, cur: seq<Op>) {
    && flagsPos < codePos <= |a|
    && LegalGroups(groups) && AllLegal(cur) && (forall i :: 0 <= i < |groups| ==> |groups[i]| == 8)
    && a[..flagsPos] == GroupsBytes(groups) && a[flagsPos + 1..codePos] == Payload(cur)
    && 1 <= left <= 8 && |cur| == 8 - left
    && (forall i :: 0 <= i < |a| ==> a[i] < 256)
    && Shr(a[flagsPos], left) == FlagBits(cur)
  }

  /** `b` is `a` after the bytes and the flag of `op` have been stored. */
  ghost predicate StoredOp(a: seq<nat>, b: seq<nat>, flagsPos: nat, codePos: nat, op: Op) {
    && Legal(op) && flagsPos < codePos && codePos + |OpBytes(op)| <= |a| == |b|
    && b[flagsPos] == a[flagsPos] / 2 + 128 * Flag(op)
    && b[codePos..codePos + |OpBytes(op)|] == OpBytes(op)
    && (forall i :: 0 <= i < |a| && i != flagsPos && !(codePos <= i < codePos + |OpBytes(op)|) ==> b[i] == a[i])
  }

  lemma OpBytesFit(op: Op)
    requires Legal(op)
    ensures 1 <= |OpBytes(op)| <= 3 && forall i :: 0 <= i < |OpBytes(op)| ==> OpBytes(op)[i] < 256
  {}

  lemma StoredBytes(a: seq<nat>, b: seq<nat>, flagsPos: nat, codePos: nat, left: nat, groups: seq<seq<Op>>, cur: seq<Op>, op: Op)
    requires LaidOut(a, flagsPos, codePos, left, groups, cur) && StoredOp(a, b, flagsPos, codePos, op)
    ensures AllLegal(cur + [op]) && b[flagsPos + 1..codePos + |OpBytes(op)|] == Payload(cur + [op])
    ensures b[..flagsPos] == a[..flagsPos] && b[flagsPos] < 256 && Shr(b[flagsPos], left - 1) == FlagBits(cur + [op])
    ensures forall i :: 0 <= i < |b| ==> b[i] < 256
  {
    hide Payload, GroupsBytes, FlagBits, Shr, OpBytes;
    var e := codePos + |OpBytes(op)|;
    OpBytesFit(op);
    PayloadSnoc(cur, op);
    ShiftFlag(a[flagsPos], left, cur, op);
    assert b[flagsPos + 1..e] == b[flagsPos + 1..codePos] + b[codePos..e];
    assert b[flagsPos + 1..codePos] == a[flagsPos + 1..codePos];
    forall i | 0 <= i < |b| ensures b[i] < 256 {
      if codePos <= i < e {
        assert b[i] == b[codePos..e][i - codePos];
      }
    }
  }

  lemma GroupStaysOpen(a: seq<nat>, b: seq<nat>, flagsPos: nat, codePos: nat, left: nat, groups: seq<seq<Op>>, cur: seq<Op>, op: Op)
    requires LaidOut(a, flagsPos, codePos, left, groups, cur) && StoredOp(a, b, flagsPos, codePos, op) && left > 1
    ensures LaidOut(b, flagsPos, codePos + |OpBytes(op)|, left - 1, groups, cur + [op])
  {
    hide Payload, GroupsBytes, FlagBits, Shr, OpBytes;
    StoredBytes(a, b, flagsPos, codePos, left, groups, cur, op);
  }

  lemma GroupCloses(a: seq<nat>, b: seq<nat>, flagsPos: nat, codePos: nat, groups: seq<seq<Op>>, cur: seq<Op>, op: Op)
    requires LaidOut(a, flagsPos, codePos, 1, groups, cur) && StoredOp(a, b, flagsPos, codePos, op)
    requires codePos + |OpBytes(op)| < |a|
    ensures LaidOut(b, codePos + |OpBytes(op)|, codePos + |OpBytes(op)| + 1, 8, groups + [cur + [op]], [])
    ensures Flat(groups + [cur + [op]]) + [] == Flat(groups) + cur + [op]
  {
    hide Payload, GroupsBytes, FlagBits, Shr, OpBytes, Flat;
    var e, g := codePos + |OpBytes(op)|, cur + [op];
    StoredBytes(a, b, flagsPos, codePos, 1, groups, cur, op);
    ByteIsFlags(b[flagsPos], g);
    NoFlagsYet(b[e]);
    GroupsSnoc(groups, g);
    assert b[..e] == b[..flagsPos] + ([b[flagsPos]] + b[flagsPos + 1..e]);
    assert b[e + 1..e + 1] == Payload([]) by { PayloadEmpty(); }
  }

  lemma PayloadEmpty()
    ensures Payload([]) == []
  {}

  // ---------- how often each symbol will be needed ----------

  function LitSymbol(op: Op): (r: nat)
    requires Legal(op)
    ensures r < 286 && if op.Literal? then r < END_OF_BLOCK else r > END_OF_BLOCK
  {
    match op
    case Literal(c) => c
    case Match(len, dist) => LengthRoundTrip(len - MIN_MATCH); LenSym(len - MIN_MATCH)
  }

  function DistSymbol(op: Op): (r: nat)
    requires Legal(op) && op.Match?
    ensures r < 30
  {
    DistanceRoundTrip(op.dist - 1); DistSym(op.dist - 1)
  }

  function LitUses(ops: seq<Op>, sym: nat): nat
    requires AllLegal(ops)
  {
    if ops == [] then 0 else LitUses(ops[..|ops| - 1], sym) + if LitSymbol(ops[|ops| - 1]) == sym then 1 else 0
  }

  function DistUses(ops: seq<Op>, sym: nat): nat
    requires AllLegal(ops)
  {
    if ops == [] then 0 else
      DistUses(ops[..|ops| - 1], sym) + if ops[|ops| - 1].Match? && DistSymbol(ops[|ops| - 1]) == sym then 1 else 0
  }

  lemma UsesSnoc(ops: seq<Op>, op: Op)
    requires AllLegal(ops) && Legal(op)
    ensures AllLegal(ops + [op])
    ensures forall sym :: LitUses(ops + [op], sym) == LitUses(ops, sym) + if LitSymbol(op) == sym then 1 else 0
    ensures forall sym :: DistUses(ops + [op], sym) ==
                          DistUses(ops, sym) + if op.Match? && DistSymbol(op) == sym then 1 else 0
    ensures Total(ops + [op]) == Total(ops) + OpLength(op)
  {
    hide LitSymbol, DistSymbol;
    assert (ops + [op])[..|ops|] == ops;
  }

  lemma {:induction false} SumIncrement(s: seq<nat>, n: nat, k: nat)
    requires n <= |s| && k < |s|
    ensures SumTo(s[k := s[k] + 1], n) == SumTo(s, n) + if k < n then 1 else 0
  {
    if n > 0 { SumIncrement(s, n - 1, k); }
  }

  lemma {:induction false} LegalFlat(gs: seq<seq<Op>>)
    requires LegalGroups(gs)
    ensures AllLegal(Flat(gs)) && |Flat(gs)| <= |GroupsBytes(gs)|
  {
    if gs != [] {
      LegalFlat(gs[1..]);
      PayloadLong(gs[0]);
    }
  }

  lemma {:induction false} PayloadLong(ops: seq<Op>)
    requires AllLegal(ops)
    ensures |ops| <= |Payload(ops)|
  {
    if ops != [] {
      OpBytesFit(ops[0]);
      PayloadLong(ops[1..]);
    }
  }

  lemma FewerOpsThanBytes(a: seq<nat>, flagsPos: nat, codePos: nat, left: nat, groups: seq<seq<Op>>, cur: seq<Op>)
    requires LaidOut(a, flagsPos, codePos, left, groups, cur)
    ensures AllLegal(Flat(groups) + cur) && |Flat(groups) + cur| < codePos <= |a|
  {
    hide Payload, GroupsBytes, FlagBits, Shr, Flat;
    LegalFlat(groups);
    PayloadLong(cur);
  }

  lemma {:induction false} TotalConcat(a: seq<Op>, b: seq<Op>)
    ensures Total(a + b) == Total(a) + Total(b)
  {
    if b == [] {
      assert a + b == a;
    } else {
      var n := |b| - 1;
      assert (a + b)[..|a| + n] == a + b[..n] && (a + b)[|a| + n] == b[n];
      TotalConcat(a, b[..n]);
    }
  }

  lemma TotalFirst(ops: seq<Op>)
    requires ops != []
    ensures Total(ops) == OpLength(ops[0]) + Total(ops[1..])
  {
    assert [ops[0]][..0] == [] && [ops[0]] + ops[1..] == ops;
    assert Total([ops[0]]) == OpLength(ops[0]);
    TotalConcat([ops[0]], ops[1..]);
  }

  /** No operation takes more bytes than it stands for. */
  lemma {:induction false} PayloadShort(ops: seq<Op>)
    requires AllLegal(ops)
    ensures |Payload(ops)| <= Total(ops) && |ops| <= Total(ops)
  {
    if ops != [] {
      TotalFirst(ops);
      PayloadShort(ops[1..]);
    }
  }

  /** With its flags, a full group takes at most an eighth more. */
  lemma {:induction false} GroupsShort(gs: seq<seq<Op>>)
    requires LegalGroups(gs) && forall i :: 0 <= i < |gs| ==> |gs[i]| == 8
    ensures 8 * |GroupsBytes(gs)| <= 9 * Total(Flat(gs))
  {
    hide Total, Payload, FlagBits;
    if gs == [] {
    } else {
      PayloadShort(gs[0]);
      GroupsShort(gs[1..]);
      TotalConcat(gs[0], Flat(gs[1..]));
    }
  }

  lemma BufferShort(a: seq<nat>, flagsPos: nat, codePos: nat, left: nat, groups: seq<seq<Op>>, cur: seq<Op>)
    requires LaidOut(a, flagsPos, codePos, left, groups, cur)
    ensures 8 * codePos <= 9 * Total(Flat(groups) + cur) + 8
  {
    hide Payload, GroupsBytes, FlagBits, Shr, Flat, Total;
    GroupsShort(groups);
    PayloadShort(cur);
    TotalConcat(Flat(groups), cur);
  }

  class LzCodeBuffer {
    const codeBuf: array<nat>
    /** m_pLZ_code_buf and m_pLZ_flags, as offsets. */
    var codePos: nat
    var flagsPos: nat
    var numFlagsLeft: nat
    var totalBytes: nat
    const litCount: array<nat>
    const distCount: array<nat>
    /** The closed groups, and the operations of the open one. */
    ghost var groups: seq<seq<Op>>
    ghost var cur: seq<Op>

    ghost function Ops(): seq<Op>
      reads this`groups, this`cur
    {
      Flat(groups) + cur
    }

    ghost predicate Layout()
      reads this, codeBuf
    {
      LaidOut(codeBuf[..], flagsPos, codePos, numFlagsLeft, groups, cur)
    }

    /** The flag of `op`, whose bytes have just been stored at `from`; after eight flags a new group begins. */
    method CloseOp(isMatch: bool, ghost op: Op, ghost a: seq<nat>, ghost from: nat)
      requires LaidOut(a, flagsPos, from, numFlagsLeft, groups, cur) && Legal(op)
      requires isMatch == op.Match? && codePos == from + |OpBytes(op)| && codePos < codeBuf.Length == |a|
      requires codeBuf[from..codePos] == OpBytes(op)
      requires forall i :: 0 <= i < |a| && !(from <= i < codePos) ==> codeBuf[i] == a[i]
      modifies this`codePos, this`flagsPos, this`numFlagsLeft, this`groups, this`cur, codeBuf
      ensures Layout() && Ops() == old(Ops()) + [op] && old(codePos) <= codePos <= old(codePos) + 1
    {
      hide Payload, GroupsBytes, FlagBits, Shr, OpBytes, Flat, LaidOut;
      InBounds(a, from);
      codeBuf[flagsPos] := codeBuf[flagsPos] / 2 + (if isMatch then 128 else 0);
      assert codeBuf[..][from..codePos] == OpBytes(op);
      numFlagsLeft := numFlagsLeft - 1;
      if numFlagsLeft == 0 {
        GroupCloses(a, codeBuf[..], flagsPos, from, groups, cur, op);
        numFlagsLeft := 8;
        flagsPos := codePos;
        codePos := codePos + 1;
        groups, cur := groups + [cur + [op]], [];
      } else {
        GroupStaysOpen(a, codeBuf[..], flagsPos, from, numFlagsLeft + 1, groups, cur, op);
        cur := cur + [op];
      }
    }

    lemma InBounds(a: seq<nat>, from: nat)
      requires LaidOut(a, flagsPos, from, numFlagsLeft, groups, cur)
      ensures flagsPos < from <= |a| && 1 <= numFlagsLeft <= 8
    {
      hide Payload, GroupsBytes, FlagBits, Shr;
    }

    ghost predicate Counted()
      reads this, litCount, distCount
    {
      && litCount.Length == LIT_SYMBOLS && distCount.Length == DIST_SYMBOLS && AllLegal(Ops())
      && (forall sym :: 0 <= sym < LIT_SYMBOLS ==> litCount[sym] == LitUses(Ops(), sym))
      && (forall sym :: 0 <= sym < DIST_SYMBOLS ==> distCount[sym] == DistUses(Ops(), sym))
      && Sum(litCount[..]) == |Ops()| && Sum(distCount[..]) <= |Ops()|
      && totalBytes == Total(Ops())
    }

    ghost predicate Valid()
      reads this, codeBuf, litCount, distCount
    {
      && codeBuf != litCount && codeBuf != distCount && litCount != distCount
      && codeBuf.Length == LZ_CODE_BUF_SIZE && Layout() && Counted()
    }

    constructor ()
      ensures Valid() && Ops() == [] && codePos == 1
      ensures fresh(codeBuf) && fresh(litCount) && fresh(distCount)
    {
      codeBuf := new nat[LZ_CODE_BUF_SIZE](i => 0);
      litCount, distCount := new nat[LIT_SYMBOLS](i => 0), new nat[DIST_SYMBOLS](i => 0);
      codePos, flagsPos, numFlagsLeft, totalBytes := 1, 0, 8, 0;
      groups, cur := [], [];
      new;
      NoFlagsYet(codeBuf[0]);
      SumZeros(litCount[..], LIT_SYMBOLS);
      SumZeros(distCount[..], DIST_SYMBOLS);
    }

    lemma {:induction false} SumZeros(s: seq<nat>, n: nat)
      requires n <= |s| && forall i :: 0 <= i < |s| ==> s[i] == 0
      ensures SumTo(s, n) == 0
    {
      if n > 0 { SumZeros(s, n - 1); }
    }

    method CountLit(sym: nat)
      requires sym < litCount.Length && litCount[sym] < 65535
      modifies litCount
      ensures litCount[..] == old(litCount[..])[sym := old(litCount[sym]) + 1]
      ensures Sum(litCount[..]) == old(Sum(litCount[..])) + 1
    {
      SumIncrement(litCount[..], litCount.Length, sym);
      litCount[sym] := (litCount[sym] + 1) % 65536;
      assert litCount[..] == old(litCount[..])[sym := old(litCount[sym]) + 1];
    }

    method CountDist(sym: nat)
      requires sym < distCount.Length && distCount[sym] < 65535
      modifies distCount
      ensures distCount[..] == old(distCount[..])[sym := old(distCount[sym]) + 1]
      ensures Sum(distCount[..]) == old(Sum(distCount[..])) + 1
    {
      SumIncrement(distCount[..], distCount.Length, sym);
      distCount[sym] := (distCount[sym] + 1) % 65536;
      assert distCount[..] == old(distCount[..])[sym := old(distCount[sym]) + 1];
    }

    method RecordLiteral(lit: nat)
      requires Valid() && lit < 256 && codePos + 4 <= LZ_CODE_BUF_SIZE
      modifies this, codeBuf, litCount
      ensures Valid() && Ops() == old(Ops()) + [Literal(lit)]
      ensures codePos <= old(codePos) + 2
    {
      hide LaidOut, LitUses, DistUses, Total, Flat, Sum;
      ghost var op := Literal(lit);
      ghost var a, from := codeBuf[..], codePos;
      FewerOpsThanBytes(a, flagsPos, from, numFlagsLeft, groups, cur);
      UsesSnoc(Ops(), op);
      UsesAtMost(Ops(), lit);
      totalBytes := totalBytes + 1;
      codeBuf[codePos] := lit;
      codePos := codePos + 1;
      assert codeBuf[from..codePos] == OpBytes(op);
      CloseOp(false, op, a, from);
      CountLit(lit);
    }

    lemma {:induction false} UsesAtMost(ops: seq<Op>, sym: nat)
      requires AllLegal(ops)
      ensures LitUses(ops, sym) <= |ops| && DistUses(ops, sym) <= |ops|
    {
      hide LitSymbol, DistSymbol;
      if ops != [] { UsesAtMost(ops[..|ops| - 1], sym); }
    }

    method RecordMatch(matchLen: nat, matchDist: nat)
      requires Valid() && Legal(Match(matchLen, matchDist)) && codePos + 4 <= LZ_CODE_BUF_SIZE
      modifies this, codeBuf, litCount, distCount
      ensures Valid() && Ops() == old(Ops()) + [Match(matchLen, matchDist)]
      ensures codePos <= old(codePos) + 4
    {
      hide LaidOut, LitUses, DistUses, Total, Flat, Sum, LenSym, DistSym, LenExtra, DistExtra;
      ghost var op := Match(matchLen, matchDist);
      ghost var a, from := codeBuf[..], codePos;
      FewerOpsThanBytes(a, flagsPos, from, numFlagsLeft, groups, cur);
      UsesSnoc(Ops(), op);
      UsesAtMost(Ops(), LitSymbol(op));
      UsesAtMost(Ops(), DistSymbol(op));
      totalBytes := totalBytes + matchLen;
      var d := matchDist - 1;
      codeBuf[codePos] := matchLen - MIN_MATCH;
      codeBuf[codePos + 1] := d % 256;
      codeBuf[codePos + 2] := d / 256;
      codePos := codePos + 3;
      assert codeBuf[from..codePos] == OpBytes(op);
      CloseOp(true, op, a, from);
      var s0, s1 := DistSym(d % 512), DistSym(d / 256 % 128 * 256);
      if d >= 512 {
        LargeDistance(d);
      }
      CountDist(if d < 512 then s0 else s1);
      CountLit(LenSym(matchLen - MIN_MATCH));
    }

    /** All groups, the open one too unless nothing was recorded in it. */
    ghost function AllGroups(): seq<seq<Op>>
      reads this`groups, this`cur
    {
      if cur == [] then groups else groups + [cur]
    }

    /** Before the block is written: the open group's flags move down to the low bits, and a flag byte
        without operations is dropped. */
    method FinishFlags()
      requires Valid()
      modifies this`codePos, codeBuf
      ensures codePos <= old(codePos) && codePos <= codeBuf.Length && LegalGroups(AllGroups()) && Grouped(AllGroups())
      ensures codeBuf[..codePos] == GroupsBytes(AllGroups()) && Flat(AllGroups()) == Ops()
      ensures forall i :: 0 <= i < codeBuf.Length ==> codeBuf[i] < 256
    {
      hide Payload, FlagBits, Shr, Flat, Counted, GroupsBytes;
      GroupsSnoc(groups, cur);
      ShrLess(codeBuf[flagsPos], numFlagsLeft);
      codeBuf[flagsPos] := Shr(codeBuf[flagsPos], numFlagsLeft);
      assert codeBuf[..flagsPos] == old(codeBuf[..flagsPos]);
      if numFlagsLeft == 8 {
        codePos := codePos - 1;
        PayloadLong(cur);
        NothingOpen(cur);
      } else {
        assert codeBuf[..codePos] == codeBuf[..flagsPos] + ([codeBuf[flagsPos]] + codeBuf[flagsPos + 1..codePos]);
        assert codeBuf[flagsPos + 1..codePos] == old(codeBuf[flagsPos + 1..codePos]);
      }
    }

    lemma ShrLess(b: nat, k: nat)
      ensures Shr(b, k) <= b
    {
      hide Pow2;
      DivMod(b, Pow2(k));
      MulMonotone(1, Pow2(k), b / Pow2(k));
    }

    lemma NothingOpen(open: seq<Op>)
      requires AllLegal(open) && open == []
      ensures Flat(groups) + open == Flat(groups) && Payload(open) == []
    {}

    /** The buffer as it is after a block has been written. */
    method Reset()
      requires codeBuf.Length == LZ_CODE_BUF_SIZE && litCount.Length == LIT_SYMBOLS && distCount.Length == DIST_SYMBOLS
      requires codeBuf != litCount && codeBuf != distCount && litCount != distCount
      requires forall i :: 0 <= i < codeBuf.Length ==> codeBuf[i] < 256
      modifies this, litCount, distCount
      ensures Valid() && Ops() == [] && codePos == 1 && totalBytes == 0
    {
      ClearCounts(litCount);
      ClearCounts(distCount);
      codePos, flagsPos, numFlagsLeft, totalBytes := 1, 0, 8, 0;
      groups, cur := [], [];
      NoFlagsYet(codeBuf[0]);
      SumZeros(litCount[..], LIT_SYMBOLS);
      SumZeros(distCount[..], DIST_SYMBOLS);
    }

    method ClearCounts(a: array<nat>)
      modifies a
      ensures forall i :: 0 <= i < a.Length ==> a[i] == 0
    {
      var i := 0;
      while i < a.Length
        invariant 0 <= i <= a.Length && forall k :: 0 <= k < i ==> a[k] == 0
      {
        a[i] := 0;
        i := i + 1;
      }
    }
  }
}
