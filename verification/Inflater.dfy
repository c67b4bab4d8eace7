/** tinfl_decompress, block by block: headers, tables, contents. */
module Inflater {
  import opened Wrappers
  import opened Powers
  import opened HuffmanTree
  import opened Canonical
  import opened HuffmanTrie
  import opened HuffmanDecoder
  import opened BitStream
  import opened BitReader
  import opened LzOps
  import opened LzCodes
  import opened CodeLengthPacking
  import opened BlockFormat
  import opened Deflated
  import opened BlockReader

  const LEN_CODES: nat := 457

  // ---------- code lengths ----------

  /** The lengths of the code length code, as far as they have been read. */
  ghost predicate OrderRead(codeSize: seq<nat>, len: seq<nat>, i: nat) {
    |codeSize| >= LEN_SYMBOLS && |len| == LEN_SYMBOLS &&
    forall k :: 0 <= k < LEN_SYMBOLS ==> codeSize[LEN_ORDER[k]] == if k < i then len[LEN_ORDER[k]] else 0
  }

  /** The order mentions every symbol of the code length alphabet. */
  lemma OrderComplete(s: nat) returns (k: nat)
    requires s < LEN_SYMBOLS
    ensures k < LEN_SYMBOLS && LEN_ORDER[k] == s
  {
    k := if s == 0 then 3 else if s == 16 then 0 else if s == 17 then 1 else if s == 18 then 2
         else if s == 8 then 4 else if s < 8 then 19 - 2 * s else 2 * s - 12;
  }

  lemma OrderAll(codeSize: seq<nat>, len: seq<nat>, n: nat)
    requires OrderRead(codeSize, len, n) && forall i :: n <= i < LEN_SYMBOLS ==> len[LEN_ORDER[i]] == 0
    ensures codeSize[..LEN_SYMBOLS] == len
  {
    forall s | 0 <= s < LEN_SYMBOLS ensures codeSize[s] == len[s] {
      var k := OrderComplete(s);
    }
  }

  lemma OrderDistinct(i: nat, k: nat)
    requires i < LEN_SYMBOLS && k < LEN_SYMBOLS && i != k
    ensures LEN_ORDER[i] != LEN_ORDER[k] && LEN_ORDER[i] < LEN_SYMBOLS
  {}

  lemma FirstOrdered(len: seq<nat>, i: nat, n: nat, fs: seq<Field>)
    requires |len| == LEN_SYMBOLS && n <= LEN_SYMBOLS
    ensures i < n ==> OrderedFields(len, i, n) + fs == [Field(len[LEN_ORDER[i]], 3)] + (OrderedFields(len, i + 1, n) + fs)
    ensures i >= n ==> OrderedFields(len, i, n) + fs == fs
  {}

  /** The three-bit lengths of the code length code. If `good`, those of `len` come next. */
  method ReadOrdered(r: BitReader, table: HuffTable, n: nat, ghost good: bool, ghost len: seq<nat>, ghost fs: seq<Field>, ghost rest: Rest)
      returns (ok: bool)
    requires r.Valid() && table.Shaped() && n <= LEN_SYMBOLS
    requires good ==> |len| == LEN_SYMBOLS && Ahead(r, OrderedFields(len, 0, n) + fs, rest)
    modifies r, table.codeSize
    ensures r.Valid() && r.Bits() <= old(r.Bits()) && (ok ==> forall s :: 0 <= s < LEN_SYMBOLS ==> table.codeSize[s] < 8)
    ensures ok ==> TookOrdered(n, old(Left(r)), table.codeSize[..LEN_SYMBOLS], Left(r))
    ensures good ==> ok && OrderRead(table.codeSize[..], len, n) && Ahead(r, fs, rest)
  {
    hide Ahead, OrderedFields, TookOrdered, TookBits;
    ghost var a := Left(r);
    ClearSizes(table.codeSize);
    NoneOrdered(a, table.codeSize[..LEN_SYMBOLS]);
    ok := true;
    assert Pow2(3) == 8;
    var i := 0;
    while i < n
      invariant 0 <= i <= n && r.Valid() && r.Bits() <= old(r.Bits()) && ok && forall s :: 0 <= s < LEN_SYMBOLS ==> table.codeSize[s] < 8
      invariant TookOrdered(i, a, table.codeSize[..LEN_SYMBOLS], Left(r))
      invariant good ==> OrderRead(table.codeSize[..], len, i) && Ahead(r, OrderedFields(len, i, n) + fs, rest)
    {
      ghost var m, before := Left(r), table.codeSize[..LEN_SYMBOLS];
      if good { FirstOrdered(len, i, n, fs); }
      var s;
      ok, s := ReadNumber(r, 3, good, if good then Field(len[LEN_ORDER[i]], 3) else Field(0, 0),
                          if good then OrderedFields(len, i + 1, n) + fs else [], rest);
      if !ok {
        return;
      }
      forall k | 0 <= k < LEN_SYMBOLS && k != i ensures LEN_ORDER[i] != LEN_ORDER[k] {
        OrderDistinct(i, k);
      }
      table.codeSize[LEN_ORDER[i]] := s;
      assert table.codeSize[..LEN_SYMBOLS] == before[LEN_ORDER[i] := s];
      NextOrdered(i, a, before, m, s, Left(r));
      i := i + 1;
    }
    if good { FirstOrdered(len, i, n, fs); }
  }

  lemma NoneOrdered(a: Rest, len: seq<nat>)
    requires |len| == LEN_SYMBOLS && forall k :: 0 <= k < LEN_SYMBOLS ==> len[k] == 0
    ensures TookOrdered(0, a, len, a)
  {
    assert len == seq(LEN_SYMBOLS, _ => 0);
  }

  lemma NextOrdered(i: nat, a: Rest, before: seq<nat>, m: Rest, x: nat, b: Rest)
    requires i < LEN_SYMBOLS && TookOrdered(i, a, before, m) && TookBits(m, 3, x, b) && |before| == LEN_SYMBOLS
    ensures LEN_ORDER[i] < LEN_SYMBOLS && TookOrdered(i + 1, a, before[LEN_ORDER[i] := x], b)
  {
    hide TookBits;
    var len := before[LEN_ORDER[i] := x];
    assert TookOrdered(i + 1 - 1, a, before, m) && TookBits(m, 3, x, b) && len == before[LEN_ORDER[i + 1 - 1] := x];
  }

  method ClearSizes(a: array<nat>)
    modifies a
    ensures forall i :: 0 <= i < a.Length ==> a[i] == 0
  {
    var i := 0;
    while i < a.Length
      invariant 0 <= i <= a.Length && forall k :: 0 <= k < i ==> a[k] == 0
    {
      a[i] := 0;
      i := i + 1;
    }
  }

  // ---------- the lengths of the two alphabets ----------

  lemma {:induction false} UnpackPrefix(ts: seq<Token>, k: nat)
    requires AllSound(ts) && Unpack(ts).Some? && k < |ts|
    ensures Unpack(ts[..k]).Some? && Unpack(ts[..k + 1]) == Unpacked(Unpack(ts[..k]).value, ts[k])
    ensures Unpacked(Unpack(ts[..k]).value, ts[k]).Some?
    ensures |Unpacked(Unpack(ts[..k]).value, ts[k]).value| <= |Unpack(ts).value|
    ensures |Unpack(ts[..k]).value| < |Unpack(ts).value|
  {
    var n := |ts| - 1;
    assert ts[..n + 1] == ts && ts[..k + 1][..k] == ts[..k];
    if k < n {
      UnpackPrefix(ts[..n], k);
      assert ts[..n][..k] == ts[..k] && ts[..n][..k + 1] == ts[..k + 1];
    }
    assert ts[..k + 1][k] == ts[k];
  }

  lemma FirstToken(ts: seq<Token>, len: seq<nat>, k: nat, fs: seq<Field>)
    requires TokensCovered(ts, len) && k < |ts|
    ensures AllSound(ts[k..]) && AllSound(ts[k + 1..]) && Sound(ts[k]) && Symbol(ts[k]) < LEN_SYMBOLS && len[Symbol(ts[k])] > 0
    ensures TokensFields(ts[k..], len) + fs == [CodeField(len, Symbol(ts[k]))] +
            ((if ts[k].Length? then [] else [Field(Extra(ts[k]), ExtraBits(Symbol(ts[k])))]) + (TokensFields(ts[k + 1..], len) + fs))
  {
    hide CodeField, Symbol, Extra;
    assert ts[k..][0] == ts[k] && ts[k..][1..] == ts[k + 1..];
  }

  lemma NoMoreTokens(len: seq<nat>, fs: seq<Field>)
    requires |len| == LEN_SYMBOLS
    ensures TokensFields([], len) + fs == fs
  {}

  /** The lengths read so far are the first `k` tokens unpacked, and the other tokens come next. */
  ghost predicate Unpacking(r: BitReader, done: seq<nat>, ts: seq<Token>, k: nat, len: seq<nat>, fs: seq<Field>, rest: Rest, total: nat)
    reads r
  {
    && TokensCovered(ts, len) && k <= |ts| && Unpack(ts).Some? && |Unpack(ts).value| == total
    && Unpack(ts[..k]) == Some(done) && AllSound(ts[k..]) && Ahead(r, TokensFields(ts[k..], len) + fs, rest)
  }

  lemma StartUnpacking(r: BitReader, ts: seq<Token>, len: seq<nat>, fs: seq<Field>, rest: Rest, total: nat)
    requires TokensCovered(ts, len) && Unpack(ts).Some? && |Unpack(ts).value| == total && Ahead(r, TokensFields(ts, len) + fs, rest)
    ensures Unpacking(r, [], ts, 0, len, fs, rest, total)
  {
    assert ts[0..] == ts && ts[..0] == [];
  }

  /** With lengths still missing there is a token left. */
  lemma NextToken(r: BitReader, done: seq<nat>, ts: seq<Token>, k: nat, len: seq<nat>, fs: seq<Field>, rest: Rest, total: nat)
    requires Unpacking(r, done, ts, k, len, fs, rest, total) && |done| < total
    ensures k < |ts| && Sound(ts[k]) && |len| == LEN_SYMBOLS && Symbol(ts[k]) < LEN_SYMBOLS && len[Symbol(ts[k])] > 0
    ensures AllSound(ts[k + 1..])
    ensures Ahead(r, [CodeField(len, Symbol(ts[k]))] + AfterToken(ts, k, len, fs), rest)
    ensures Unpack(ts[..k + 1]) == Unpacked(done, ts[k]) && Unpacked(done, ts[k]).Some? && |Unpacked(done, ts[k]).value| <= total
  {
    hide Ahead, CodeField, TokensFields, Unpack, Sound, Symbol;
    assert ts[..|ts|] == ts;
    UnpackPrefix(ts, k);
    FirstToken(ts, len, k, fs);
  }

  ghost function AfterToken(ts: seq<Token>, k: nat, len: seq<nat>, fs: seq<Field>): seq<Field>
    requires k < |ts| && Sound(ts[k]) && AllSound(ts[k + 1..]) && |len| == LEN_SYMBOLS
  {
    (if ts[k].Length? then [] else [Field(Extra(ts[k]), ExtraBits(Symbol(ts[k])))]) + (TokensFields(ts[k + 1..], len) + fs)
  }

  lemma EndUnpacking(r: BitReader, done: seq<nat>, ts: seq<Token>, k: nat, len: seq<nat>, fs: seq<Field>, rest: Rest, total: nat)
    requires Unpacking(r, done, ts, k, len, fs, rest, total) && |done| >= total
    ensures done == Unpack(ts).value && |done| == total && Ahead(r, fs, rest)
  {
    hide Ahead, Unpack, Sound;
    if k < |ts| {
      UnpackPrefix(ts, k);
      assert false;
    }
    assert ts[..k] == ts && ts[k..] == [];
    NoMoreTokens(len, fs);
  }

  /** After the token the next ones follow. */
  lemma StepUnpacking(r: BitReader, done: seq<nat>, done': seq<nat>, ts: seq<Token>, k: nat, len: seq<nat>, fs: seq<Field>, rest: Rest, total: nat)
    requires TokensCovered(ts, len) && k < |ts| && Unpack(ts).Some? && |Unpack(ts).value| == total && AllSound(ts[k + 1..])
    requires Unpack(ts[..k + 1]) == Some(done') && Ahead(r, TokensFields(ts[k + 1..], len) + fs, rest)
    ensures Unpacking(r, done', ts, k + 1, len, fs, rest, total)
  {
    hide Ahead, Unpack, Sound;
  }

  method FillRun(a: array<nat>, from: nat, n: nat, v: nat)
    requires from + n <= a.Length
    modifies a
    ensures a[..from + n] == old(a[..from]) + Run(n, v)
  {
    var i := 0;
    while i < n
      invariant 0 <= i <= n && a[..from + i] == old(a[..from]) + Run(i, v)
    {
      a[from + i] := v;
      i := i + 1;
      assert a[..from + i] == a[..from + i - 1] + [v];
      assert Run(i, v) == Run(i - 1, v) + [v];
    }
  }

  /** A run symbol's extra bits, and the run. */
  method ReadRun(r: BitReader, lenCodes: array<nat>, counter0: nat, sym: nat,
                 ghost good: bool, ghost ts: seq<Token>, ghost k: nat, ghost len: seq<nat>, ghost fs: seq<Field>, ghost rest: Rest)
      returns (status: Status, counter: nat)
    requires r.Valid() && lenCodes.Length == LEN_CODES && counter0 < 320 && 16 <= sym < LEN_SYMBOLS
    requires forall i :: 0 <= i < counter0 ==> lenCodes[i] <= 15
    requires good ==> k < |ts| && Sound(ts[k]) && AllSound(ts[k + 1..]) && |len| == LEN_SYMBOLS && Symbol(ts[k]) == sym
    requires good ==> Ahead(r, AfterToken(ts, k, len, fs), rest) && Unpacked(lenCodes[..counter0], ts[k]).Some?
    modifies r, lenCodes
    ensures r.Valid() && r.Bits() <= old(r.Bits()) && counter0 <= counter <= LEN_CODES
    ensures status == Done ==> counter > counter0 && forall i :: 0 <= i < counter ==> lenCodes[i] <= 15
    ensures good ==> status == Done && Ahead(r, TokensFields(ts[k + 1..], len) + fs, rest)
    ensures good ==> Unpacked(old(lenCodes[..counter0]), ts[k]) == Some(lenCodes[..counter])
    ensures status == Done ==> Lengthens(sym, old(Left(r)), old(lenCodes[..counter0]), Left(r), lenCodes[..counter])
  {
    hide TookBits, Ahead, TokensFields, AfterToken, Unpacked, Sound, Symbol, Extra, Pow2, CodeLengthPacking.Run;
    counter := counter0;
    if good {
      RunToken(lenCodes[..counter0], ts, k, len, fs, sym);
    }
    if sym == 16 && counter == 0 {
      status := Failed;
      return;
    }
    ExtraValues(sym);
    var ok, s := ReadNumber(r, ExtraBits(sym), good, if good then Field(Extra(ts[k]), ExtraBits(sym)) else Field(0, 0),
                            if good then TokensFields(ts[k + 1..], len) + fs else [], rest);
    if !ok {
      status := NeedsMoreInput;
      return;
    }
    ghost var e := s;
    s := s + LeastRun(sym);
    var v := if sym == 16 then lenCodes[counter - 1] else 0;
    FillRun(lenCodes, counter, s, v);
    assert lenCodes[..counter + s] == old(lenCodes[..counter0]) + RunOf(sym, e, old(lenCodes[..counter0]));
    RunShort(old(lenCodes[..counter0]), s, v);
    counter := counter + s;
    status := Done;
    forall i | 0 <= i < counter ensures lenCodes[i] <= 15 {
      assert lenCodes[i] == lenCodes[..counter][i];
    }
  }

  /** A run token: its extra bits come next, and the run they and the symbol stand for is what it unpacks to. */
  lemma RunToken(done: seq<nat>, ts: seq<Token>, k: nat, len: seq<nat>, fs: seq<Field>, sym: nat)
    requires k < |ts| && Sound(ts[k]) && AllSound(ts[k + 1..]) && |len| == LEN_SYMBOLS && Symbol(ts[k]) == sym >= 16
    requires Unpacked(done, ts[k]).Some?
    ensures !ts[k].Length? && Extra(ts[k]) < Pow2(ExtraBits(sym)) && (sym == 16 ==> done != [])
    ensures AfterToken(ts, k, len, fs) == [Field(Extra(ts[k]), ExtraBits(sym))] + (TokensFields(ts[k + 1..], len) + fs)
    ensures Unpacked(done, ts[k])
         == Some(done + Run(Extra(ts[k]) + LeastRun(sym), if sym == 16 then done[|done| - 1] else 0))
  {
    hide TokensFields, Pow2;
    ExtraFits(ts[k]);
  }

  lemma ExtraValues(sym: nat)
    requires 16 <= sym < LEN_SYMBOLS
    ensures Pow2(ExtraBits(sym)) + LeastRun(sym) <= 139 && ExtraBits(sym) <= 7
  {
    assert Pow2(2) == 4 && Pow2(3) == 8;
    Pow2Values();
  }

  lemma RunShort(done: seq<nat>, n: nat, v: nat)
    requires (forall i :: 0 <= i < |done| ==> done[i] <= 15) && v <= 15
    ensures forall i :: 0 <= i < |done + Run(n, v)| ==> (done + Run(n, v))[i] <= 15
    ensures |done + Run(n, v)| == |done| + n
  {}

  /** The code lengths of both alphabets. If `good`, the tokens `ts` come next. */
  method ReadLengths(r: BitReader, table: HuffTable, ghost len: seq<nat>, lenCodes: array<nat>, total: nat,
                     ghost good: bool, ghost ts: seq<Token>, ghost fs: seq<Field>, ghost rest: Rest)
      returns (status: Status)
    requires r.Valid() && table.Holds(len, |len|) && |len| == LEN_SYMBOLS && lenCodes.Length == LEN_CODES && total <= 320
    requires lenCodes != table.codeSize
    requires good ==> TokensCovered(ts, len) && Unpack(ts).Some? && |Unpack(ts).value| == total
    requires good ==> Ahead(r, TokensFields(ts, len) + fs, rest)
    modifies r, lenCodes
    ensures r.Valid() && r.Bits() <= old(r.Bits()) && (status == Done ==> forall i :: 0 <= i < total ==> lenCodes[i] <= 15)
    ensures status == Done ==> TookAllRuns(len, old(Left(r)), Left(r), lenCodes[..total])
    ensures good ==> status == Done && lenCodes[..total] == Unpack(ts).value && Ahead(r, fs, rest)
  {
    hide TookRuns, TookSymbol, Lengthens, Ahead, TokensFields, Building, Unpacking, Unpack, Unpacked, TokensCovered, AfterToken, CodeField;
    var counter: nat := 0;
    ghost var k: nat, from := 0, Left(r);
    if good { StartUnpacking(r, ts, len, fs, rest, total); }
    assert lenCodes[..0] == [];
    NoRuns(len, from);
    while counter < total
      invariant r.Valid() && r.Bits() <= old(r.Bits()) && counter <= LEN_CODES && forall i :: 0 <= i < counter ==> lenCodes[i] <= 15
      invariant good ==> Unpacking(r, lenCodes[..counter], ts, k, len, fs, rest, total)
      invariant TookRuns(len, k, from, Left(r), lenCodes[..counter])
      decreases total - counter
    {
      ghost var i, more, done, a := 0, [], lenCodes[..counter], Left(r);
      if good {
        NextToken(r, done, ts, k, len, fs, rest, total);
        i, more := Symbol(ts[k]), AfterToken(ts, k, len, fs);
      }
      var ok, sym := ReadSymbol(r, table, len, good, i, more, rest);
      if !ok {
        status := NeedsMoreInput;
        return;
      }
      ghost var m := Left(r);
      if sym < 16 {
        lenCodes[counter] := sym;
        counter := counter + 1;
        assert lenCodes[..counter] == done + [sym];
        OneLengthens(sym, m, done);
        if good { OneLength(r, done, ts, k, len, fs, rest, sym); }
      } else {
        status, counter := ReadRun(r, lenCodes, counter, sym, good, ts, k, len, fs, rest);
        if status != Done {
          return;
        }
      }
      if good { StepUnpacking(r, done, lenCodes[..counter], ts, k, len, fs, rest, total); }
      NextRun(len, k, from, a, done, sym, m, Left(r), lenCodes[..counter]);
      k := k + 1;
    }
    if good { EndUnpacking(r, lenCodes[..counter], ts, k, len, fs, rest, total); }
    status := if counter == total then Done else Failed;
  }

  lemma NoRuns(len: seq<nat>, a: Rest)
    ensures TookRuns(len, 0, a, a, [])
  {}

  lemma OneLengthens(sym: nat, m: Rest, done: seq<nat>)
    requires sym < 16
    ensures Lengthens(sym, m, done, m, done + [sym])
  {}

  lemma NextRun(len: seq<nat>, n: nat, from: Rest, a: Rest, done: seq<nat>, sym: nat, m: Rest, b: Rest, more: seq<nat>)
    requires TookRuns(len, n, from, a, done) && TookSymbol(len, a, sym, m) && Lengthens(sym, m, done, b, more)
    ensures TookRuns(len, n + 1, from, b, more)
  {
    hide TookSymbol, Lengthens;
    assert TookRun(len, a, done, b, more);
  }

  lemma OneLength(r: BitReader, done: seq<nat>, ts: seq<Token>, k: nat, len: seq<nat>, fs: seq<Field>, rest: Rest, sym: nat)
    requires k < |ts| && Sound(ts[k]) && AllSound(ts[k + 1..]) && |len| == LEN_SYMBOLS && Symbol(ts[k]) == sym < 16
    requires Ahead(r, AfterToken(ts, k, len, fs), rest)
    ensures Unpacked(done, ts[k]) == Some(done + [sym]) && Ahead(r, TokensFields(ts[k + 1..], len) + fs, rest)
  {
    hide Ahead, TokensFields;
    assert [] + (TokensFields(ts[k + 1..], len) + fs) == TokensFields(ts[k + 1..], len) + fs;
  }

  // ---------- trailing zero lengths do not matter ----------

  lemma {:induction false} CountZeroTail(s: seq<nat>, n: nat, m: nat, d: nat)
    requires ZeroFrom(s, n) && n <= m <= |s| && d > 0
    ensures CountTo(s, m, d) == CountTo(s, n, d)
  {
    if m > n { CountZeroTail(s, n, m - 1, d); }
  }

  lemma CountTrimmed(s: seq<nat>, n: nat, d: nat)
    requires ZeroFrom(s, n) && d > 0
    ensures Count(s[..n], d) == Count(s, d)
  {
    CountZeroTail(s, n, |s|, d);
    CountSame(s[..n], s, n, d);
  }

  lemma {:induction false} FirstTrimmed(s: seq<nat>, n: nat, l: nat)
    requires ZeroFrom(s, n)
    ensures First(s[..n], l) == First(s, l) && (l >= 1 ==> Used(s[..n], l) == Used(s, l))
  {
    hide Count;
    if l > 1 {
      FirstTrimmed(s, n, l - 1);
    }
    if l >= 1 {
      CountTrimmed(s, n, l);
    }
  }

  lemma TrimmedAgrees(s: seq<nat>, n: nat)
    requires ZeroFrom(s, n)
    ensures Agrees(s[..n], s)
  {
    hide First, Rev;
    forall i | 0 <= i < n ensures CodeField(s[..n], i) == CodeField(s, i) {
      FirstTrimmed(s, n, s[i]);
      CountSame(s[..n], s, i, s[i]);
    }
  }

  lemma TrimmedAcceptable(s: seq<nat>, n: nat)
    requires ZeroFrom(s, n) && Acceptable(s)
    ensures Acceptable(s[..n])
  {
    hide Used;
    if Full(s, MAX_CODE) {
      FirstTrimmed(s, n, MAX_CODE);
    }
  }

  /** The length code has `n` entries in its order, the others being zero. */
  predicate CutAfter(len: seq<nat>, n: nat) {
    |len| == LEN_SYMBOLS && n <= LEN_SYMBOLS && forall i :: n <= i < LEN_SYMBOLS ==> len[LEN_ORDER[i]] == 0
  }

  class Decompressor {
    const litTable: HuffTable
    const distTable: HuffTable
    const lenTable: HuffTable
    const lenCodes: array<nat>

    predicate Shaped() {
      && litTable.Shaped() && distTable.Shaped() && lenTable.Shaped() && lenCodes.Length == LEN_CODES
      && litTable != distTable && litTable != lenTable && distTable != lenTable
      && Apart(litTable, distTable) && Apart(litTable, lenTable) && Apart(distTable, lenTable)
      && lenCodes != litTable.codeSize && lenCodes != distTable.codeSize && lenCodes != lenTable.codeSize
    }

    predicate Apart(a: HuffTable, b: HuffTable) {
      a.codeSize != b.codeSize && a.lookUp != b.lookUp && a.tree != b.tree && a.lookUp != b.tree && a.tree != b.lookUp
    }

    constructor ()
      ensures Shaped() && fresh(Parts())
    {
      litTable := new HuffTable();
      distTable := new HuffTable();
      lenTable := new HuffTable();
      lenCodes := new nat[LEN_CODES](i => 0);
    }

    ghost function Parts(): set<object> {
      {litTable, litTable.codeSize, litTable.lookUp, litTable.tree, distTable, distTable.codeSize, distTable.lookUp, distTable.tree,
       lenTable, lenTable.codeSize, lenTable.lookUp, lenTable.tree, lenCodes}
    }

    /** The code length code: its own lengths, then its table. */
    method ReadLengthCode(r: BitReader, n: nat, ghost good: bool, ghost len: seq<nat>, ghost fs: seq<Field>, ghost rest: Rest)
        returns (status: Status)
      requires r.Valid() && Shaped() && n <= LEN_SYMBOLS
      requires good ==> CutAfter(len, n) && Acceptable(len) && Ahead(r, OrderedFields(len, 0, n) + fs, rest)
      modifies r, lenTable, lenTable.codeSize, lenTable.lookUp, lenTable.tree
      ensures r.Valid() && r.Bits() <= old(r.Bits())
      ensures status == Done ==> lenTable.Holds(lenTable.codeSize[..LEN_SYMBOLS], LEN_SYMBOLS)
      ensures status == Done ==> TookOrdered(n, old(Left(r)), lenTable.codeSize[..LEN_SYMBOLS], Left(r)) && Acceptable(lenTable.codeSize[..LEN_SYMBOLS])
      ensures good ==> status == Done && lenTable.codeSize[..LEN_SYMBOLS] == len && Ahead(r, fs, rest)
    {
      hide TookOrdered, Ahead, OrderedFields, Acceptable, Building;
      var ok := ReadOrdered(r, lenTable, n, good, len, fs, rest);
      if !ok {
        status := NeedsMoreInput;
        return;
      }
      if good { OrderAll(lenTable.codeSize[..], len, n); }
      assert lenTable.codeSize[..LEN_SYMBOLS] == lenTable.codeSize[..][..LEN_SYMBOLS];
      ok := lenTable.Build(LEN_SYMBOLS);
      status := if ok then Done else Failed;
    }

    /** The lengths of both alphabets, handed to their tables. */
    method SplitLengths(numLit: nat, numDist: nat)
      requires Shaped() && numLit <= MAX_SYMBOLS && numDist <= DIST_SYMBOLS
      modifies litTable.codeSize, distTable.codeSize
      ensures litTable.codeSize[..numLit] == lenCodes[..numLit]
      ensures distTable.codeSize[..numDist] == lenCodes[numLit..numLit + numDist]
    {
      var i := 0;
      while i < numLit
        invariant 0 <= i <= numLit && litTable.codeSize[..i] == lenCodes[..i] && lenCodes[..] == old(lenCodes[..])
      {
        litTable.codeSize[i] := lenCodes[i];
        i := i + 1;
      }
      i := 0;
      while i < numDist
        invariant 0 <= i <= numDist && distTable.codeSize[..i] == lenCodes[numLit..numLit + i]
        invariant litTable.codeSize[..numLit] == lenCodes[..numLit]
      {
        distTable.codeSize[i] := lenCodes[numLit + i];
        i := i + 1;
      }
    }

    /** Both tables, from lengths already in place. */
    method BuildTables(numLit: nat, numDist: nat) returns (status: Status)
      requires Shaped() && numLit <= MAX_SYMBOLS && numDist <= MAX_SYMBOLS
      requires SizesAtMost(litTable.codeSize[..numLit], MAX_CODE) && SizesAtMost(distTable.codeSize[..numDist], MAX_CODE)
      modifies litTable, litTable.lookUp, litTable.tree, distTable, distTable.lookUp, distTable.tree
      ensures status == Done <==> Acceptable(litTable.codeSize[..numLit]) && Acceptable(distTable.codeSize[..numDist])
      ensures status == Done ==> litTable.Holds(litTable.codeSize[..numLit], numLit)
      ensures status == Done ==> distTable.Holds(distTable.codeSize[..numDist], numDist)
    {
      hide Acceptable, Building, SizesAtMost;
      status := Failed;
      var ok := distTable.Build(numDist);
      if ok {
        ok := litTable.Build(numLit);
        status := if ok then Done else Failed;
      }
    }

    /** The three table sizes. */
    method ReadCounts(r: BitReader, ghost good: bool, ghost c: Codes, ghost fs: seq<Field>, ghost rest: Rest)
        returns (ok: bool, numLit: nat, numDist: nat, num: nat)
      requires r.Valid() && (good ==> c.DynamicCodes? && Consistent(c) && Ahead(r, CodesFields(c)[1..] + fs, rest))
      modifies r
      ensures r.Valid() && r.Bits() <= old(r.Bits()) && numLit <= MAX_SYMBOLS && numDist <= DIST_SYMBOLS && num <= LEN_SYMBOLS
      ensures ok ==> TookCounts(old(Left(r)), numLit, numDist, num, Left(r))
      ensures good ==> ok && numLit == c.litCodes && numDist == c.distCodes && num == c.bitLengths
      ensures good ==> Described(r, c, fs, rest)
    {
      hide TookBits, Ahead, OrderedFields, TokensFields, CodesFields, Consistent, CutAfter, TokensCovered;
      numLit, numDist, num := 0, 0, 0;
      ghost var f, g, a := [], Field(0, 0), Left(r);
      Pow2Values();
      assert Pow2(4) == 16;
      if good {
        HeaderParts(c, fs);
        f := [Field(c.distCodes - 1, 5)] + ([Field(c.bitLengths - 4, 4)] + (OrderedFields(c.len, 0, c.bitLengths) + (TokensFields(c.ts, c.len) + fs)));
        g := Field(c.litCodes - 257, 5);
      }
      var n;
      ok, n := ReadNumber(r, 5, good, g, f, rest);
      if !ok { return; }
      numLit := n + 257;
      ghost var m := Left(r);
      if good {
        f := [Field(c.bitLengths - 4, 4)] + (OrderedFields(c.len, 0, c.bitLengths) + (TokensFields(c.ts, c.len) + fs));
        g := Field(c.distCodes - 1, 5);
      }
      ok, n := ReadNumber(r, 5, good, g, f, rest);
      if !ok { return; }
      numDist := n + 1;
      ghost var k := Left(r);
      if good {
        f := OrderedFields(c.len, 0, c.bitLengths) + (TokensFields(c.ts, c.len) + fs);
        g := Field(c.bitLengths - 4, 4);
      }
      ok, n := ReadNumber(r, 4, good, g, f, rest);
      if !ok { return; }
      num := n + 4;
      assert TookThree(a, numLit, m, numDist, k, num, Left(r));
    }

    /** The tables, once the code lengths of both alphabets are known. */
    method ReadTables(r: BitReader, numLit: nat, numDist: nat, ghost good: bool, ghost c: Codes, ghost fs: seq<Field>, ghost rest: Rest)
        returns (status: Status)
      requires r.Valid() && Shaped() && lenTable.Holds(lenTable.codeSize[..LEN_SYMBOLS], LEN_SYMBOLS)
      requires numLit <= MAX_SYMBOLS && numDist <= DIST_SYMBOLS
      requires good ==> c.DynamicCodes? && Consistent(c) && numLit == c.litCodes && numDist == c.distCodes
      requires good ==> c.len == lenTable.codeSize[..LEN_SYMBOLS] && AllSound(c.ts) && Ahead(r, TokensFields(c.ts, c.len) + fs, rest)
      modifies r, Parts()
      ensures r.Valid() && r.Bits() <= old(r.Bits())
      ensures status == Done ==> litTable.Holds(litTable.codeSize[..numLit], numLit)
      ensures status == Done ==> distTable.Holds(distTable.codeSize[..numDist], numDist)
      ensures status == Done ==> Acceptable(litTable.codeSize[..numLit]) && Acceptable(distTable.codeSize[..numDist])
      ensures status == Done ==> TookAllRuns(old(lenTable.codeSize[..LEN_SYMBOLS]), old(Left(r)), Left(r),
                                             litTable.codeSize[..numLit] + distTable.codeSize[..numDist])
      ensures good ==> status == Done && Ahead(r, fs, rest)
      ensures good ==> Agrees(litTable.codeSize[..numLit], c.lit) && Agrees(distTable.codeSize[..numDist], c.dist)
    {
      hide TookAllRuns, Ahead, TokensFields, Consistent, TokensCovered, Acceptable, Building, Unpack, Agrees;
      status := ReadHalves(r, numLit, numDist, good, c, fs, rest);
      if status != Done {
        return;
      }
      if good { HeaderTables(c); }
      ghost var b, both := Left(r), litTable.codeSize[..numLit] + distTable.codeSize[..numDist];
      status := BuildTables(numLit, numDist);
      assert Left(r) == b && litTable.codeSize[..numLit] + distTable.codeSize[..numDist] == both;
    }

    /** The code lengths of both alphabets, in their places. */
    method ReadHalves(r: BitReader, numLit: nat, numDist: nat, ghost good: bool, ghost c: Codes, ghost fs: seq<Field>, ghost rest: Rest)
        returns (status: Status)
      requires r.Valid() && Shaped() && lenTable.Holds(lenTable.codeSize[..LEN_SYMBOLS], LEN_SYMBOLS)
      requires numLit <= MAX_SYMBOLS && numDist <= DIST_SYMBOLS
      requires good ==> c.DynamicCodes? && Consistent(c) && numLit == c.litCodes && numDist == c.distCodes
      requires good ==> c.len == lenTable.codeSize[..LEN_SYMBOLS] && AllSound(c.ts) && Ahead(r, TokensFields(c.ts, c.len) + fs, rest)
      modifies r, lenCodes, litTable.codeSize, distTable.codeSize
      ensures r.Valid() && r.Bits() <= old(r.Bits())
      ensures status == Done ==> SizesAtMost(litTable.codeSize[..numLit], MAX_CODE) && SizesAtMost(distTable.codeSize[..numDist], MAX_CODE)
      ensures status == Done ==> TookAllRuns(old(lenTable.codeSize[..LEN_SYMBOLS]), old(Left(r)), Left(r),
                                             litTable.codeSize[..numLit] + distTable.codeSize[..numDist])
      ensures good ==> status == Done && Ahead(r, fs, rest) && numLit <= |c.lit| && numDist <= |c.dist|
      ensures good ==> litTable.codeSize[..numLit] == c.lit[..numLit] && distTable.codeSize[..numDist] == c.dist[..numDist]
    {
      hide TookAllRuns, Ahead, TokensFields, Consistent, TokensCovered, Building, Unpack, SizesAtMost;
      status := ReadJoined(r, numLit, numDist, good, c, fs, rest);
      if status != Done {
        return;
      }
      HandOut(numLit, numDist);
      if good { HalvesOf(c.lit[..numLit], c.dist[..numDist], litTable.codeSize[..numLit], distTable.codeSize[..numDist]); }
    }

    /** The code lengths of both alphabets, one list behind the other. */
    method ReadJoined(r: BitReader, numLit: nat, numDist: nat, ghost good: bool, ghost c: Codes, ghost fs: seq<Field>, ghost rest: Rest)
        returns (status: Status)
      requires r.Valid() && Shaped() && lenTable.Holds(lenTable.codeSize[..LEN_SYMBOLS], LEN_SYMBOLS)
      requires numLit <= MAX_SYMBOLS && numDist <= DIST_SYMBOLS
      requires good ==> c.DynamicCodes? && Consistent(c) && numLit == c.litCodes && numDist == c.distCodes
      requires good ==> c.len == lenTable.codeSize[..LEN_SYMBOLS] && AllSound(c.ts) && Ahead(r, TokensFields(c.ts, c.len) + fs, rest)
      modifies r, lenCodes
      ensures r.Valid() && r.Bits() <= old(r.Bits()) && (status == Done ==> forall i :: 0 <= i < numLit + numDist ==> lenCodes[i] <= 15)
      ensures status == Done ==> TookAllRuns(old(lenTable.codeSize[..LEN_SYMBOLS]), old(Left(r)), Left(r), lenCodes[..numLit + numDist])
      ensures good ==> status == Done && Ahead(r, fs, rest) && numLit <= |c.lit| && numDist <= |c.dist|
      ensures good ==> lenCodes[..numLit + numDist] == c.lit[..numLit] + c.dist[..numDist]
    {
      hide TookAllRuns, Ahead, TokensFields, Consistent, TokensCovered, Building, Unpack;
      ghost var ts := [];
      if good {
        TokensOf(c);
        ts := c.ts;
      }
      status := ReadLengths(r, lenTable, lenTable.codeSize[..LEN_SYMBOLS], lenCodes, numLit + numDist, good, ts, fs, rest);
    }

    /** The lengths handed out are the lengths read. */
    method HandOut(numLit: nat, numDist: nat)
      requires Shaped() && numLit <= MAX_SYMBOLS && numDist <= DIST_SYMBOLS && forall i :: 0 <= i < numLit + numDist ==> lenCodes[i] <= 15
      modifies litTable.codeSize, distTable.codeSize
      ensures litTable.codeSize[..numLit] + distTable.codeSize[..numDist] == lenCodes[..numLit + numDist]
      ensures SizesAtMost(litTable.codeSize[..numLit], MAX_CODE) && SizesAtMost(distTable.codeSize[..numDist], MAX_CODE)
    {
      hide SizesAtMost;
      JoinHalves(lenCodes[..], numLit, numDist);
      assert lenCodes[..][..numLit + numDist] == lenCodes[..numLit + numDist];
      SplitLengths(numLit, numDist);
      ShortHalves(lenCodes[..], numLit, numDist);
      assert lenCodes[..][..numLit] == lenCodes[..numLit] && lenCodes[..][numLit..numLit + numDist] == lenCodes[numLit..numLit + numDist];
    }

    /** The header of a dynamic block behind its type, and the tables it describes. */
    method ReadDynamicHeader(r: BitReader, ghost good: bool, ghost c: Codes, ghost fs: seq<Field>, ghost rest: Rest)
        returns (status: Status, numLit: nat, numDist: nat)
      requires r.Valid() && Shaped()
      requires good ==> c.DynamicCodes? && Consistent(c) && Ahead(r, CodesFields(c)[1..] + fs, rest)
      modifies r, Parts()
      ensures r.Valid() && r.Bits() <= old(r.Bits()) && numLit <= MAX_SYMBOLS && numDist <= DIST_SYMBOLS
      ensures status == Done ==> litTable.Holds(litTable.codeSize[..numLit], numLit)
      ensures status == Done ==> distTable.Holds(distTable.codeSize[..numDist], numDist)
      ensures status == Done ==> TookTables(old(Left(r)), litTable.codeSize[..numLit], distTable.codeSize[..numDist], Left(r))
      ensures good ==> status == Done && Ahead(r, fs, rest)
      ensures good ==> Agrees(litTable.codeSize[..numLit], c.lit) && Agrees(distTable.codeSize[..numDist], c.dist)
    {
      hide TookOrdered, TookCounts, TookAllRuns, TookTables, Ahead, TokensFields, OrderedFields, CodesFields, Consistent, TokensCovered, CutAfter, Acceptable, Building, Agrees;
      var ok, num;
      ghost var len, f, a := [], [], Left(r);
      ok, numLit, numDist, num := ReadCounts(r, good, c, fs, rest);
      ghost var m := Left(r);
      if !ok {
        status := NeedsMoreInput;
        return;
      }
      if good {
        HeaderParts(c, fs);
        HeaderTables(c);
        len, f := c.len, TokensFields(c.ts, c.len) + fs;
      }
      status := ReadLengthCode(r, num, good, len, f, rest);
      if status != Done {
        return;
      }
      ghost var k, sizes := Left(r), lenTable.codeSize[..LEN_SYMBOLS];
      status := ReadTables(r, numLit, numDist, good, c, fs, rest);
      if status == Done {
        TablesTaken(a, numLit, numDist, num, m, sizes, k, litTable.codeSize[..numLit], distTable.codeSize[..numDist], Left(r));
      }
    }

    /** The fixed lengths of both alphabets, and their tables. */
    method FixedTables() returns (status: Status)
      requires Shaped()
      modifies litTable, litTable.codeSize, litTable.lookUp, litTable.tree
      modifies distTable, distTable.codeSize, distTable.lookUp, distTable.tree
      ensures status == Done
      ensures litTable.Holds(litTable.codeSize[..LIT_SYMBOLS], LIT_SYMBOLS) && FixedLit(litTable.codeSize[..LIT_SYMBOLS])
      ensures distTable.Holds(distTable.codeSize[..DIST_SYMBOLS], DIST_SYMBOLS) && FixedDist(distTable.codeSize[..DIST_SYMBOLS])
    {
      hide Building, Full;
      var p := 0;
      while p < LIT_SYMBOLS
        invariant 0 <= p <= LIT_SYMBOLS && forall i :: 0 <= i < p ==> litTable.codeSize[i] == FixedLitSize(i)
      {
        litTable.codeSize[p] := if p <= 143 then 8 else if p <= 255 then 9 else if p <= 279 then 7 else 8;
        p := p + 1;
      }
      FixedDistances();
      FixedLitFull(litTable.codeSize[..LIT_SYMBOLS]);
      FixedDistFull(distTable.codeSize[..DIST_SYMBOLS]);
      FullSizes(litTable.codeSize[..LIT_SYMBOLS]);
      FullSizes(distTable.codeSize[..DIST_SYMBOLS]);
      status := BuildTables(LIT_SYMBOLS, DIST_SYMBOLS);
    }

    method FixedDistances()
      requires Shaped()
      modifies distTable.codeSize
      ensures FixedDist(distTable.codeSize[..DIST_SYMBOLS])
    {
      var p := 0;
      while p < DIST_SYMBOLS
        invariant 0 <= p <= DIST_SYMBOLS && forall i :: 0 <= i < p ==> distTable.codeSize[i] == 5
      {
        distTable.codeSize[p] := 5;
        p := p + 1;
      }
    }
  }

  lemma TablesTaken(a: Rest, l: nat, d: nat, o: nat, m: Rest, len: seq<nat>, k: Rest, lit: seq<nat>, dist: seq<nat>, b: Rest)
    requires TookCounts(a, l, d, o, m) && o <= LEN_SYMBOLS && TookOrdered(o, m, len, k) && Acceptable(len) && |lit| == l && |dist| == d
    requires Acceptable(lit) && Acceptable(dist) && TookAllRuns(len, k, b, lit + dist)
    ensures TookTables(a, lit, dist, b)
  {
    hide TookCounts, TookOrdered, TookAllRuns, Acceptable;
    assert TookLengths(m, l, d, o, len, k, lit, dist, b);
  }

  lemma FullSizes(s: seq<nat>)
    requires Full(s, MAX_CODE)
    ensures SizesAtMost(s, MAX_CODE) && Acceptable(s)
  {
    hide Used;
  }

  lemma FixedSame(a: seq<nat>, b: seq<nat>)
    requires (FixedLit(a) && FixedLit(b)) || (FixedDist(a) && FixedDist(b))
    ensures a == b && Agrees(a, b)
  {
    assert a == b;
  }

  /** The table sizes have been read, the lengths not yet. */
  ghost predicate Described(r: BitReader, c: Codes, fs: seq<Field>, rest: Rest)
    reads r
  {
    && c.DynamicCodes? && CutAfter(c.len, c.bitLengths) && AllSound(c.ts)
    && Ahead(r, OrderedFields(c.len, 0, c.bitLengths) + (TokensFields(c.ts, c.len) + fs), rest)
  }

  lemma HalvesOf(a: seq<nat>, b: seq<nat>, x: seq<nat>, y: seq<nat>)
    requires a + b == x + y && |a| == |x|
    ensures a == x && b == y
  {
    assert a == (a + b)[..|a|] && x == (x + y)[..|a|] && b == (a + b)[|a|..] && y == (x + y)[|a|..];
  }

  lemma JoinHalves(s: seq<nat>, n: nat, m: nat)
    requires n + m <= |s|
    ensures s[..n] + s[n..n + m] == s[..n + m]
  {}

  lemma ShortHalves(s: seq<nat>, n: nat, m: nat)
    requires n + m <= |s| && forall i :: 0 <= i < n + m ==> s[i] <= 15
    ensures SizesAtMost(s[..n], MAX_CODE) && SizesAtMost(s[n..n + m], MAX_CODE)
  {}

  /** The parts of a dynamic header behind its type. */
  lemma HeaderParts(c: Codes, fs: seq<Field>)
    requires c.DynamicCodes? && Consistent(c)
    ensures 257 <= c.litCodes <= 286 && 1 <= c.distCodes <= 30 && 4 <= c.bitLengths <= LEN_SYMBOLS == |c.len|
    ensures CutAfter(c.len, c.bitLengths)
    ensures AllSound(c.ts) && TokensCovered(c.ts, c.len)
    ensures CodesFields(c)[1..] + fs ==
            [Field(c.litCodes - 257, 5)] + ([Field(c.distCodes - 1, 5)] + ([Field(c.bitLengths - 4, 4)] +
            (OrderedFields(c.len, 0, c.bitLengths) + (TokensFields(c.ts, c.len) + fs))))
  {
    hide Acceptable, Fits, SizesAtMost, OrderedFields, TokensFields, Unpack, Sound;
    HeaderSplit([Field(2, 2), Field(c.litCodes - 257, 5), Field(c.distCodes - 1, 5), Field(c.bitLengths - 4, 4)],
                OrderedFields(c.len, 0, c.bitLengths), TokensFields(c.ts, c.len), fs);
  }

  lemma HeaderSplit(h: seq<Field>, o: seq<Field>, t: seq<Field>, fs: seq<Field>)
    requires |h| == 4
    ensures (h + o + t)[1..] + fs == [h[1]] + ([h[2]] + ([h[3]] + (o + (t + fs))))
  {
    assert h == [h[0]] + ([h[1]] + ([h[2]] + [h[3]]));
  }

  /** What the tables of a dynamic block have to be, given that its description is consistent. */
  lemma HeaderTables(c: Codes)
    requires c.DynamicCodes? && Consistent(c)
    ensures Acceptable(c.len) && Unpack(c.ts).Some? && c.litCodes <= |c.lit| && c.distCodes <= |c.dist|
    ensures Unpack(c.ts).value == c.lit[..c.litCodes] + c.dist[..c.distCodes]
    ensures |Unpack(c.ts).value| == c.litCodes + c.distCodes
    ensures Acceptable(c.lit[..c.litCodes]) && Acceptable(c.dist[..c.distCodes])
    ensures Agrees(c.lit[..c.litCodes], c.lit) && Agrees(c.dist[..c.distCodes], c.dist)
  {
    hide Acceptable, Fits, SizesAtMost, OrderedFields, TokensFields, Unpack, Sound, Agrees, ZeroFrom;
    TrimmedAcceptable(c.lit, c.litCodes);
    TrimmedAcceptable(c.dist, c.distCodes);
    TrimmedAgrees(c.lit, c.litCodes);
    TrimmedAgrees(c.dist, c.distCodes);
  }

  /** The tokens stand for the lengths of both alphabets. */
  lemma TokensOf(c: Codes)
    requires c.DynamicCodes? && Consistent(c)
    ensures AllSound(c.ts) && TokensCovered(c.ts, c.len) && Unpack(c.ts).Some? && c.litCodes <= |c.lit| && c.distCodes <= |c.dist|
    ensures Unpack(c.ts).value == c.lit[..c.litCodes] + c.dist[..c.distCodes] && |Unpack(c.ts).value| == c.litCodes + c.distCodes
  {
    hide *;
    HeaderParts(c, []);
    HeaderTables(c);
  }

  // ---------- stored blocks ----------

  /** A 16-bit number is two bytes. */
  lemma TwoBytes(n: nat, fs: seq<Field>, rest: Rest)
    requires n < 65536
    ensures FieldsValue([Field(n, 16)] + fs, rest.value) == FieldsValue([Field(n % 256, 8)] + ([Field(n / 256, 8)] + fs), rest.value)
    ensures FieldsBits([Field(n, 16)] + fs) == FieldsBits([Field(n % 256, 8)] + ([Field(n / 256, 8)] + fs))
  {
    var x := FieldsValue(fs, rest.value);
    Pow2Values();
    OneField(Field(n, 16), fs, rest);
    OneField(Field(n / 256, 8), fs, rest);
    OneField(Field(n % 256, 8), [Field(n / 256, 8)] + fs, rest);
  }

  lemma OneField(f: Field, fs: seq<Field>, rest: Rest)
    ensures FieldsValue([f] + fs, rest.value) == f.value + Pow2(f.bits) * FieldsValue(fs, rest.value)
    ensures FieldsBits([f] + fs) == f.bits + FieldsBits(fs)
  {
    hide Pow2;
    assert ([f] + fs)[1..] == fs && ([f] + fs)[0] == f;
  }

  lemma AheadTwoBytes(r: BitReader, n: nat, fs: seq<Field>, rest: Rest)
    requires n < 65536 && Ahead(r, [Field(n, 16)] + fs, rest)
    ensures Ahead(r, [Field(n % 256, 8)] + ([Field(n / 256, 8)] + fs), rest)
  {
    hide FieldsValue, FieldsBits, Pow2;
    Pow2Values();
    TwoBytes(n, fs, rest);
    FittingTail(Field(n, 16), fs);
  }

  /** Two bytes, low one first. */
  method ReadWord(r: BitReader, ghost good: bool, ghost n: nat, ghost fs: seq<Field>, ghost rest: Rest) returns (ok: bool, x: nat)
    requires r.Valid() && (good ==> n < 65536 && Ahead(r, [Field(n, 16)] + fs, rest))
    modifies r
    ensures r.Valid() && r.Bits() <= old(r.Bits()) && x < 65536 && (good ==> ok && x == n && Ahead(r, fs, rest))
    ensures ok ==> TookBits(old(Left(r)), 16, x, Left(r))
  {
    hide Ahead, TookBits;
    x := 0;
    ghost var a := Left(r);
    Pow2Values();
    if good { AheadTwoBytes(r, n, fs, rest); }
    var b0, b1;
    ok, b0 := ReadNumber(r, 8, good, Field(n % 256, 8), [Field(n / 256, 8)] + fs, rest);
    if !ok { return; }
    ghost var m := Left(r);
    ok, b1 := ReadNumber(r, 8, good, Field(n / 256, 8), fs, rest);
    if !ok { return; }
    x := b0 + b1 * 256;
    TookTwo(a, 8, b0, m, 8, b1, Left(r));
  }

  /** Bits taken one time after the other are bits taken together. */
  lemma TookTwo(a: Rest, n: nat, x: nat, m: Rest, k: nat, y: nat, b: Rest)
    requires TookBits(a, n, x, m) && TookBits(m, k, y, b)
    ensures TookBits(a, n + k, x + y * Pow2(n), b)
  {
    hide Pow2;
    var v, p, q := a.value, Pow2(n), Pow2(k);
    Pow2Add(n, k);
    DivMod(v, p);
    DivMod(v / p, q);
    TwoParts(v, p, q, v / p, v % p, v / p / q, v / p % q);
  }

  lemma TwoParts(v: nat, p: nat, q: nat, d: nat, r: nat, e: nat, s: nat)
    requires p > 0 && q > 0 && v == d * p + r && r < p && d == e * q + s && s < q && p * q > 0
    ensures v / (p * q) == e && v % (p * q) == r + s * p
  {
    MulDistributes(e * q, s, p);
    MulAssociates(e, q, p);
    MulMonotone(s + 1, q, p);
    MulDistributes(s, 1, p);
    DivModUnique(v, e, r + s * p, p * q);
  }

  lemma FirstByte(bytes: seq<nat>, k: nat, fs: seq<Field>)
    requires k <= |bytes|
    ensures k < |bytes| ==> BytesFields(bytes[k..]) + fs == [Field(bytes[k], 8)] + (BytesFields(bytes[k + 1..]) + fs)
    ensures k == |bytes| ==> BytesFields(bytes[k..]) + fs == fs
  {
    if k < |bytes| {
      assert bytes[k..][0] == bytes[k] && bytes[k..][1..] == bytes[k + 1..];
    }
  }

  method CopyStored(r: BitReader, counter: nat, out0: seq<nat>, maxOut: nat,
                    ghost good: bool, ghost bytes: seq<nat>, ghost fs: seq<Field>, ghost rest: Rest)
      returns (status: Status, out: seq<nat>)
    requires r.Valid() && |out0| <= maxOut && AllBytes(out0)
    requires good ==> |bytes| == counter && |out0| + counter <= maxOut && Ahead(r, BytesFields(bytes) + fs, rest)
    modifies r
    ensures r.Valid() && r.Bits() <= old(r.Bits()) && out0 <= out && |out| <= maxOut && AllBytes(out)
    ensures status == Done ==> TookBytes(counter, old(Left(r)), out0, Left(r), out)
    ensures good ==> status == Done && out == out0 + bytes && Ahead(r, fs, rest)
  {
    hide Ahead, BytesFields, TookBytes, TookBits;
    out := out0;
    status := Done;
    Pow2Values();
    var k := 0;
    ghost var a := Left(r);
    NoBytes(a, out0);
    if good { assert bytes[0..] == bytes; }
    while k < counter
      invariant 0 <= k <= counter && r.Valid() && r.Bits() <= old(r.Bits()) && out0 <= out && |out| <= maxOut && status == Done && AllBytes(out)
      invariant TookBytes(k, a, out0, Left(r), out)
      invariant good ==> out == out0 + bytes[..k] && Ahead(r, BytesFields(bytes[k..]) + fs, rest)
    {
      ghost var m := Left(r);
      if good { FirstByte(bytes, k, fs); }
      var ok, b := ReadNumber(r, 8, good, if good then Field(bytes[k], 8) else Field(0, 0),
                              if good then BytesFields(bytes[k + 1..]) + fs else [], rest);
      if !ok {
        status := NeedsMoreInput;
        return;
      }
      if |out| >= maxOut {
        status := HasMoreOutput;
        return;
      }
      NextByte(k, a, out0, m, out, b, Left(r));
      out := out + [b];
      k := k + 1;
    }
    if good {
      FirstByte(bytes, k, fs);
      assert bytes[..k] == bytes;
    }
  }

  lemma NoBytes(a: Rest, out: seq<nat>)
    ensures TookBytes(0, a, out, a, out)
  {}

  lemma NextByte(n: nat, a: Rest, out0: seq<nat>, m: Rest, mid: seq<nat>, c: nat, b: Rest)
    requires TookBytes(n, a, out0, m, mid) && TookBits(m, 8, c, b)
    ensures TookBytes(n + 1, a, out0, b, mid + [c])
  {
    hide TookBits;
    assert TookBytes(n + 1 - 1, a, out0, m, mid) && TookBits(m, 8, c, b) && mid + [c] == mid + [c];
  }

  lemma NumBitsAligned(r: BitReader, used: nat)
    requires r.Valid() && r.Bits() + used == 8 * |r.input|
    ensures r.numBits % 8 == if used % 8 == 0 then 0 else 8 - used % 8
  {
    AlignArithmetic(r.numBits, used, |r.input| - r.pos, |r.input|);
  }

  lemma AlignArithmetic(n: nat, used: nat, left: nat, all: nat)
    requires n + 8 * left + used == 8 * all
    ensures n % 8 == if used % 8 == 0 then 0 else 8 - used % 8
  {}

  lemma SkipPad(r: BitReader, used: nat, fs: seq<Field>, rest: Rest)
    requires Ahead(r, PadFields(used) + fs, rest) && r.Bits() + used == 8 * |r.input|
    ensures Shr(r.Stream(), r.numBits % 8) == FieldsValue(fs, rest.value) && r.Bits() - r.numBits % 8 == FieldsBits(fs) + rest.bits && Fitting(fs)
  {
    hide FieldsValue, FieldsBits, Pow2;
    NumBitsAligned(r, used);
    if used % 8 == 0 {
      assert PadFields(used) + fs == fs;
      ShrNone(r.Stream());
    } else {
      FittingTail(Field(0, 8 - used % 8), fs);
      FirstField(Field(0, 8 - used % 8), fs, rest);
    }
  }

  lemma ShrNone(v: nat)
    ensures Shr(v, 0) == v
  {
    assert Pow2(0) == 1;
  }

  /** A stored block behind its type: alignment, length and its complement, bytes. */
  method ReadStored(r: BitReader, out0: seq<nat>, maxOut: nat,
                    ghost good: bool, ghost bytes: seq<nat>, ghost used: nat, ghost fs: seq<Field>, ghost rest: Rest)
      returns (status: Status, out: seq<nat>)
    requires r.Valid() && |out0| <= maxOut && AllBytes(out0)
    requires good ==> |bytes| < 65536 && |out0| + |bytes| <= maxOut && r.Bits() + used == 8 * |r.input|
    requires good ==> Ahead(r, PadFields(used) + ([Field(|bytes|, 16)] + ([Field(65535 - |bytes|, 16)] + (BytesFields(bytes) + fs))), rest)
    modifies r
    ensures r.Valid() && r.Bits() <= old(r.Bits()) && out0 <= out && |out| <= maxOut && AllBytes(out)
    ensures status == Done ==> TookStored(old(Left(r)), out0, Left(r), out)
    ensures good ==> status == Done && out == out0 + bytes && Ahead(r, fs, rest)
  {
    hide FieldsValue, FieldsBits, BytesFields, PadFields, Pow2, Fitting, Shr, TookBits, TookBytes;
    ghost var a := Left(r);
    ByteBoundary(r);
    out := out0;
    status := NeedsMoreInput;
    ghost var complement, more := 0, [];
    if good {
      complement := 65535 - |bytes|;
      more := [Field(complement, 16)] + (BytesFields(bytes) + fs);
      SkipPad(r, used, [Field(|bytes|, 16)] + more, rest);
    }
    r.Take(r.numBits % 8);
    ghost var b := Left(r);
    var ok, n, m;
    ok, n := ReadWord(r, good, |bytes|, more, rest);
    if !ok { return; }
    ghost var k := Left(r);
    ok, m := ReadWord(r, good, complement, BytesFields(bytes) + fs, rest);
    if !ok { return; }
    if n != 65535 - m {
      status := Failed;
      return;
    }
    ghost var l := Left(r);
    assert TookLength(a, n, b, k, l);
    status, out := CopyStored(r, n, out0, maxOut, good, bytes, fs, rest);
  }

  /** The buffered bits beyond whole bytes are those up to the next byte boundary of the stream. */
  lemma ByteBoundary(r: BitReader)
    requires r.Valid()
    ensures AtByte(Left(r)) == Rest(Shr(r.Stream(), r.numBits % 8), r.Bits() - r.numBits % 8)
  {
    hide Shr, Pow2;
    BoundaryArithmetic(r.numBits, |r.input| - r.pos);
  }

  lemma BoundaryArithmetic(n: nat, left: nat)
    ensures (n + 8 * left) % 8 == n % 8 && (n + 8 * left) / 8 * 8 == n + 8 * left - n % 8
  {}

  // ---------- blocks ----------

  /** The final flag and the block type are read as one number. */
  lemma TwoFields(f: Field, g: Field, fs: seq<Field>, rest: Rest)
    requires f.bits == 1 && g.bits == 2
    ensures FieldsValue([f] + ([g] + fs), rest.value) == FieldsValue([Field(f.value + 2 * g.value, 3)] + fs, rest.value)
    ensures FieldsBits([f] + ([g] + fs)) == FieldsBits([Field(f.value + 2 * g.value, 3)] + fs)
  {
    var x := FieldsValue(fs, rest.value);
    assert Pow2(1) == 2 && Pow2(2) == 4 && Pow2(3) == 8;
    OneField(f, [g] + fs, rest);
    OneField(g, fs, rest);
    OneField(Field(f.value + 2 * g.value, 3), fs, rest);
  }

  lemma AheadTwoFields(r: BitReader, f: Field, g: Field, fs: seq<Field>, rest: Rest)
    requires f.bits == 1 && g.bits == 2 && Ahead(r, [f] + ([g] + fs), rest)
    ensures f.value < 2 && g.value < 4 && Ahead(r, [Field(f.value + 2 * g.value, 3)] + fs, rest)
  {
    hide FieldsValue, FieldsBits;
    assert Pow2(1) == 2 && Pow2(2) == 4 && Pow2(3) == 8;
    TwoFields(f, g, fs, rest);
    FittingTail(f, [g] + fs);
    FittingTail(g, fs);
  }

  /** A block type and what follows it. */
  ghost function TypeOf(b: Block): nat {
    match b
    case StoredBlock(_) => 0
    case CompressedBlock(codes, _) => if codes.FixedCodes? then 1 else 2
  }

  ghost function AfterType(b: Block, used: nat, fs: seq<Field>): seq<Field>
    requires BlockFormat.WellFormed(b)
  {
    match b
    case StoredBlock(bytes) =>
      PadFields(used + 2) + ([Field(|bytes|, 16)] + ([Field(65535 - |bytes|, 16)] + (BytesFields(bytes) + fs)))
    case CompressedBlock(codes, ops) => CodesFields(codes)[1..] + (OpsFields(ops, codes.lit, codes.dist) + fs)
  }

  lemma TypeFirst(b: Block, used: nat, fs: seq<Field>)
    requires BlockFormat.WellFormed(b)
    ensures BlockFields(b, used) + fs == [Field(TypeOf(b), 2)] + (BlockFields(b, used)[1..] + fs)
    ensures BlockFields(b, used) != []
    ensures BlockFields(b, used)[1..] + fs == AfterType(b, used, fs)
  {
    hide PadFields, BytesFields, OpsFields, Consistent, Covers, OrderedFields, TokensFields;
    match b
    case StoredBlock(bytes) =>
      StoredSplit(PadFields(used + 2), Field(|bytes|, 16), Field(65535 - |bytes|, 16), BytesFields(bytes), fs);
    case CompressedBlock(codes, ops) =>
      CodesFirst(codes);
      CoveredShape(codes.lit, codes.dist, ops);
      FrontSplit(CodesFields(codes), OpsFields(ops, codes.lit, codes.dist), fs);
  }

  lemma CodesFirst(c: Codes)
    requires Consistent(c)
    ensures CodesFields(c) != [] && CodesFields(c)[0] == Field(if c.FixedCodes? then 1 else 2, 2)
    ensures c.FixedCodes? ==> CodesFields(c)[1..] == []
  {
    hide Describes, OrderedFields, TokensFields;
    if c.DynamicCodes? {
      HeaderParts(c, []);
    }
  }

  lemma FrontSplit(h: seq<Field>, o: seq<Field>, fs: seq<Field>)
    requires h != []
    ensures h + o + fs == [h[0]] + ((h + o)[1..] + fs) && (h + o)[1..] + fs == h[1..] + (o + fs)
  {}

  lemma StoredSplit(pad: seq<Field>, n: Field, m: Field, bytes: seq<Field>, fs: seq<Field>)
    ensures [Field(0, 2)] + pad + [n, m] + bytes + fs == [Field(0, 2)] + (([Field(0, 2)] + pad + [n, m] + bytes)[1..] + fs)
    ensures ([Field(0, 2)] + pad + [n, m] + bytes)[1..] + fs == pad + ([n] + ([m] + (bytes + fs)))
  {}

  /** The block `b` comes next, behind its final flag, and the output has room for it. */
  ghost predicate Coming(r: BitReader, b: Block, final: bool, used: nat, fs: seq<Field>, rest: Rest,
                         out: seq<nat>, promised: seq<nat>, maxOut: nat)
    reads r
  {
    && BlockFormat.WellFormed(b) && Ahead(r, [Field(if final then 1 else 0, 1)] + (BlockFields(b, used + 1) + fs), rest)
    && r.Bits() + used == 8 * |r.input| && Meaning(b, out) == Some(promised) && |promised| <= maxOut
  }

  /** Final flag and type. */
  method ReadType(r: BitReader, ghost good: bool, ghost b: Block, ghost final: bool, ghost used: nat, ghost fs: seq<Field>,
                  ghost rest: Rest, ghost out: seq<nat>, ghost promised: seq<nat>, ghost maxOut: nat)
      returns (ok: bool, isFinal: bool, kind: nat)
    requires r.Valid() && (good ==> Coming(r, b, final, used, fs, rest, out, promised, maxOut))
    modifies r
    ensures r.Valid() && r.Bits() <= old(r.Bits()) && (ok ==> r.Bits() + 3 == old(r.Bits())) && (ok <==> old(r.Bits()) >= 3)
    ensures ok ==> kind < 4 && TookType(old(Left(r)), isFinal, kind, Left(r))
    ensures good ==> ok && isFinal == final && kind == TypeOf(b)
    ensures good ==> BlockFormat.WellFormed(b) && Ahead(r, AfterType(b, used + 1, fs), rest) && r.Bits() + used + 3 == 8 * |r.input|
    ensures good ==> Meaning(b, out) == Some(promised) && |promised| <= maxOut
  {
    hide BlockFields, AfterType, BlockFormat.WellFormed, FieldsValue, FieldsBits, Shr, Low, Pow2, Fitting, Meaning, TookBits, TookType;
    ghost var f, g, more, a := Field(0, 1), Field(0, 2), [], Left(r);
    if good {
      TypeFirst(b, used + 1, fs);
      f, g, more := Field(if final then 1 else 0, 1), Field(TypeOf(b), 2), AfterType(b, used + 1, fs);
      AheadTwoFields(r, f, g, more, rest);
    }
    var n;
    ok, n := ReadThree(r, good, Field(f.value + 2 * g.value, 3), more, rest);
    isFinal, kind := n % 2 == 1, n / 2;
    if ok { FlagAndType(a, n, Left(r)); }
  }

  /** Three bits are one bit and two bits. */
  lemma FlagAndType(a: Rest, n: nat, b: Rest)
    requires TookBits(a, 3, n, b)
    ensures n < 8 && TookType(a, n % 2 == 1, n / 2, b)
  {
    var m := Dropped(a, 1);
    assert Pow2(1) == 2 && Pow2(2) == 4 && Pow2(3) == 8;
    SplitThree(a.value);
    assert TookBits(a, 1, n % 2, m) && TookBits(m, 2, n / 2, b);
  }

  lemma SplitThree(v: nat)
    ensures v % 8 % 2 == v % 2 && v % 8 / 2 == v / 2 % 4 && v / 2 / 4 == v / 8 && v % 8 < 8
  {}

  method ReadThree(r: BitReader, ghost good: bool, ghost f: Field, ghost fs: seq<Field>, ghost rest: Rest) returns (ok: bool, b: nat)
    requires r.Valid() && (good ==> Ahead(r, [f] + fs, rest) && f.bits == 3)
    modifies r
    ensures r.Valid() && r.Bits() <= old(r.Bits()) && (ok ==> r.Bits() + 3 == old(r.Bits())) && (ok <==> old(r.Bits()) >= 3)
    ensures ok ==> TookBits(old(Left(r)), 3, b, Left(r))
    ensures good ==> ok && b == f.value && Ahead(r, fs, rest)
  {
    hide FieldsValue, FieldsBits, Shr, Low, Pow2;
    if good {
      FittingTail(f, fs);
      FirstField(f, fs, rest);
    }
    ok, b := r.GetBits(3);
  }

  /** The tables of a compressed block of type `kind`. */
  method PrepareTables(d: Decompressor, r: BitReader, kind: nat, ghost good: bool, ghost c: Codes, ghost fs: seq<Field>, ghost rest: Rest)
      returns (status: Status, numLit: nat, numDist: nat)
    requires r.Valid() && d.Shaped() && 1 <= kind <= 2
    requires good ==> Consistent(c) && Ahead(r, CodesFields(c)[1..] + fs, rest) && kind == if c.FixedCodes? then 1 else 2
    modifies r, d.Parts()
    ensures r.Valid() && r.Bits() <= old(r.Bits()) && numLit <= LIT_SYMBOLS && numDist <= DIST_SYMBOLS
    ensures status == Done ==> d.litTable.Holds(d.litTable.codeSize[..numLit], numLit)
    ensures status == Done ==> d.distTable.Holds(d.distTable.codeSize[..numDist], numDist)
    ensures status == Done ==> TookCodes(kind, old(Left(r)), d.litTable.codeSize[..numLit], d.distTable.codeSize[..numDist], Left(r))
    ensures good ==> status == Done && Ahead(r, fs, rest)
    ensures good ==> Agrees(d.litTable.codeSize[..numLit], c.lit) && Agrees(d.distTable.codeSize[..numDist], c.dist)
  {
    hide TookTables, Ahead, Building, Describes, Agrees, FixedLit, FixedDist, HeaderFields;
    if kind == 1 {
      numLit, numDist := LIT_SYMBOLS, DIST_SYMBOLS;
      status := d.FixedTables();
      if good {
        assert [] + fs == fs;
        CodesFirst(c);
        FixedSame(d.litTable.codeSize[..numLit], c.lit);
        FixedSame(d.distTable.codeSize[..numDist], c.dist);
      }
    } else {
      status, numLit, numDist := d.ReadDynamicHeader(r, good, c, fs, rest);
    }
  }

  method InflateCompressed(d: Decompressor, r: BitReader, kind: nat, out0: seq<nat>, maxOut: nat,
                           ghost good: bool, ghost c: Codes, ghost ops: seq<Op>, ghost fs: seq<Field>, ghost rest: Rest, ghost promised: seq<nat>)
      returns (status: Status, out: seq<nat>)
    requires r.Valid() && d.Shaped() && |out0| <= maxOut && AllBytes(out0) && 1 <= kind <= 2
    requires good ==> Consistent(c) && Covers(c.lit, c.dist, ops) && kind == if c.FixedCodes? then 1 else 2
    requires good ==> Ahead(r, CodesFields(c)[1..] + (OpsFields(ops, c.lit, c.dist) + fs), rest)
    requires good ==> Expand(out0, ops) == Some(promised) && |promised| <= maxOut
    modifies r, d.Parts()
    ensures r.Valid() && out0 <= out && |out| <= maxOut && r.Bits() <= old(r.Bits()) && AllBytes(out)
    ensures status == Done ==> TookContents(kind, old(Left(r)), out0, Left(r), out)
    ensures good ==> status == Done && out == promised && Ahead(r, fs, rest)
  {
    hide TookCodes, TookSymbols, Ahead, Building, Consistent, Covers, Agrees, OpsFields, CodesFields, Expand;
    out := out0;
    ghost var more := [];
    if good {
      CoveredShape(c.lit, c.dist, ops);
      more := OpsFields(ops, c.lit, c.dist) + fs;
    }
    var numLit, numDist;
    status, numLit, numDist := PrepareTables(d, r, kind, good, c, more, rest);
    if status != Done {
      return;
    }
    status, out := InflateSymbols(r, d.litTable, d.distTable, d.litTable.codeSize[..numLit], d.distTable.codeSize[..numDist],
                                  out0, maxOut, good, ops, if good then c.lit else [], if good then c.dist else [], fs, rest, promised);
  }

  /** One block. If `good`, the block `b` comes next, and its meaning is what the output grows to. */
  method InflateBlock(d: Decompressor, r: BitReader, out0: seq<nat>, maxOut: nat,
                      ghost good: bool, ghost b: Block, ghost final: bool, ghost used: nat, ghost fs: seq<Field>, ghost rest: Rest,
                      ghost promised: seq<nat>)
      returns (status: Status, out: seq<nat>, isFinal: bool)
    requires r.Valid() && d.Shaped() && |out0| <= maxOut && AllBytes(out0)
    requires good ==> Coming(r, b, final, used, fs, rest, out0, promised, maxOut)
    modifies r, d.Parts()
    ensures r.Valid() && out0 <= out && |out| <= maxOut && AllBytes(out) && (status == Done ==> r.Bits() < old(r.Bits()))
    ensures status == Done ==> TookBlock(old(Left(r)), out0, isFinal, Left(r), out)
    ensures old(r.Bits()) < 3 ==> status == NeedsMoreInput && out == out0
    ensures good ==> status == Done && out == promised && isFinal == final && Ahead(r, fs, rest)
  {
    hide TookType, TookSymbols, TookCodes, TookStored, Ahead, BlockFields, Coming, PadFields, BytesFields, OpsFields, CodesFields, Consistent, Covers, Expand;
    out, status := out0, NeedsMoreInput;
    var ok, kind;
    ok, isFinal, kind := ReadType(r, good, b, final, used, fs, rest, out, promised, maxOut);
    if !ok {
      return;
    }
    ghost var k := Left(r);
    if kind == 0 {
      status, out := ReadStored(r, out0, maxOut, good, if good then b.bytes else [], used + 3, fs, rest);
    } else if kind == 3 {
      status := Failed;
    } else {
      status, out := InflateCompressed(d, r, kind, out0, maxOut, good, if good then b.codes else FixedCodes([], []),
                                       if good then b.ops else [], fs, rest, promised);
    }
    assert status == Done ==> TookContents(kind, k, out0, Left(r), out);
  }
}
