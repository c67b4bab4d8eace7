/** Run-length packing of the code lengths in front of a dynamic block, and the decoder's unpacking
    (section 3.2.7 of RFC 1951). */
module CodeLengthPacking {
  import opened Wrappers
  import opened Powers

  /** One length, a run of the length before it, or a run of zeros. */
  datatype Token = Length(c: nat) | Repeat(n: nat) | Zeros(n: nat)

  predicate Sound(t: Token) {
    match t
    case Length(c) => c <= 15
    case Repeat(n) => 3 <= n <= 6
    case Zeros(n) => 3 <= n <= 138
  }

  /** The symbol of the code length alphabet. */
  function Symbol(t: Token): (c: nat)
    ensures Sound(t) ==> c < 19
  {
    match t
    case Length(c) => c
    case Repeat(n) => 16
    case Zeros(n) => if n <= 10 then 17 else 18
  }

  /** Extra bits behind a symbol, and the run length they count up from. */
  function ExtraBits(sym: nat): nat {
    if sym < 16 then 0 else if sym == 16 then 2 else if sym == 17 then 3 else 7
  }

  function LeastRun(sym: nat): nat {
    if sym == 18 then 11 else 3
  }

  function Extra(t: Token): nat
    requires Sound(t) && !t.Length?
  {
    t.n - LeastRun(Symbol(t))
  }

  lemma ExtraFits(t: Token)
    requires Sound(t) && !t.Length?
    ensures Extra(t) < Pow2(ExtraBits(Symbol(t)))
  {
    Pow2Values();
    assert Pow2(3) == 8 && Pow2(2) == 4;
  }

  /** The token as the packer stores it. */
  function Stored(t: Token): seq<nat>
    requires Sound(t)
  {
    if t.Length? then [t.c] else [Symbol(t), Extra(t)]
  }

  predicate AllSound(ts: seq<Token>) {
    forall i :: 0 <= i < |ts| ==> Sound(ts[i])
  }

  function StoredAll(ts: seq<Token>): seq<nat>
    requires AllSound(ts)
  {
    if ts == [] then [] else StoredAll(ts[..|ts| - 1]) + Stored(ts[|ts| - 1])
  }

  function Run(n: nat, v: nat): seq<nat> {
    seq(n, i => v)
  }

  /** What the decoder makes of one more token. */
  function Unpacked(done: seq<nat>, t: Token): Option<seq<nat>> {
    match t
    case Length(c) => Some(done + [c])
    case Repeat(n) => if done == [] then None else Some(done + Run(n, done[|done| - 1]))
    case Zeros(n) => Some(done + Run(n, 0))
  }

  function Unpack(ts: seq<Token>): Option<seq<nat>> {
    if ts == [] then Some([]) else
      match Unpack(ts[..|ts| - 1])
      case None => None
      case Some(done) => Unpacked(done, ts[|ts| - 1])
  }

  function Uses(ts: seq<Token>, sym: nat): nat {
    if ts == [] then 0 else Uses(ts[..|ts| - 1], sym) + if Symbol(ts[|ts| - 1]) == sym then 1 else 0
  }

  lemma Snoc(ts: seq<Token>, t: Token)
    requires AllSound(ts) && Sound(t)
    ensures AllSound(ts + [t]) && StoredAll(ts + [t]) == StoredAll(ts) + Stored(t)
    ensures Unpack(ts).Some? ==> Unpack(ts + [t]) == Unpacked(Unpack(ts).value, t)
    ensures forall sym :: Uses(ts + [t], sym) == Uses(ts, sym) + if Symbol(t) == sym then 1 else 0
  {
    assert (ts + [t])[..|ts|] == ts;
  }

  /** Tokens that can be unpacked do not begin with a repetition: there is nothing to repeat yet. */
  lemma {:induction false} NeverRepeatsFirst(ts: seq<Token>)
    requires Unpack(ts).Some? && ts != []
    ensures !ts[0].Repeat?
  {
    if |ts| > 1 {
      NeverRepeatsFirst(ts[..|ts| - 1]);
    } else {
      assert Unpack(ts[..0]) == Some([]);
    }
  }

  class Packer {
    const packed: array<nat>
    const huffCount: array<nat>
    var count: nat
    var zeros: nat
    var repeats: nat
    var prev: nat
    ghost var tokens: seq<Token>

    constructor (size: nat, counts: array<nat>)
      requires counts.Length == 19 && forall i :: 0 <= i < 19 ==> counts[i] == 0
      ensures Holds([]) && huffCount == counts && fresh(packed) && packed.Length == size
    {
      packed, huffCount := new nat[size](i => 0), counts;
      count, zeros, repeats, prev, tokens := 0, 0, 0, 255, [];
    }

    /** The lengths `s` have been read; the last `zeros + repeats` of them are not packed yet. */
    ghost predicate Holds(s: seq<nat>)
      reads this, packed, huffCount
    {
      && Room() && Written() && Runs(s)
      && Unpack(tokens) == Some(s[..|s| - zeros - repeats])
      && count <= |s| - zeros - repeats
    }

    predicate Room() {
      packed != huffCount && huffCount.Length == 19
    }

    ghost predicate Written()
      reads this`count, this`tokens, packed, huffCount
      requires Room()
    {
      && AllSound(tokens) && count <= packed.Length && packed[..count] == StoredAll(tokens)
      && forall sym :: 0 <= sym < 19 ==> huffCount[sym] == Uses(tokens, sym)
    }

    ghost predicate Runs(s: seq<nat>)
      reads this
    {
      && zeros + repeats <= |s| <= packed.Length && (zeros == 0 || repeats == 0) && zeros <= 138 && repeats <= 6
      && (forall i :: 0 <= i < |s| ==> s[i] <= 15)
      && prev == (if |s| == 0 then 255 else s[|s| - 1])
      && (forall i :: |s| - zeros <= i < |s| ==> s[i] == 0)
      && (repeats > 0 ==> repeats < |s| && prev != 0 && forall i :: |s| - repeats - 1 <= i < |s| ==> s[i] == prev)
    }

    /** One token more. */
    method Put(t: Token)
      requires Room() && Written() && Sound(t) && count + |Stored(t)| <= packed.Length
      modifies this`count, this`tokens, packed, huffCount
      ensures Written() && tokens == old(tokens) + [t] && count == old(count) + |Stored(t)|
    {
      hide Uses, StoredAll, Sound;
      Snoc(tokens, t);
      PutSymbol(t);
      tokens := tokens + [t];
    }

    method PutSymbol(t: Token)
      requires Room() && Sound(t) && count + |Stored(t)| <= packed.Length
      modifies this`count, packed, huffCount
      ensures count == old(count) + |Stored(t)| && packed[..count] == old(packed[..count]) + Stored(t)
      ensures forall sym :: 0 <= sym < 19 ==>
        huffCount[sym] == old(huffCount[sym]) + if Symbol(t) == sym then 1 else 0
    {
      huffCount[Symbol(t)] := huffCount[Symbol(t)] + 1;
      packed[count] := Symbol(t);
      count := count + 1;
      if !t.Length? {
        packed[count] := Extra(t);
        count := count + 1;
      }
    }

    /** One token for the first `z + r` of the pending lengths: `z` zeros or `r` repeats. */
    method PutPending(ghost s: seq<nat>, t: Token, z: nat, r: nat)
      requires Holds(s) && z <= zeros && r <= repeats && Sound(t) && |Stored(t)| <= z + r
      requires Unpacked(s[..|s| - zeros - repeats], t) == Some(s[..|s| - zeros - repeats + z + r])
      modifies this`count, this`tokens, this`zeros, this`repeats, packed, huffCount
      ensures Holds(s) && zeros == old(zeros) - z && repeats == old(repeats) - r
    {
      hide Uses, StoredAll, Sound, Unpack;
      Snoc(tokens, t);
      Put(t);
      zeros, repeats := zeros - z, repeats - r;
    }

    /** TDEFL_RLE_PREV_CODE_SIZE: packs the pending repeats. */
    method FlushRepeats(ghost s: seq<nat>)
      requires Holds(s)
      modifies this`count, this`tokens, this`repeats, this`zeros, packed, huffCount
      ensures Holds(s) && repeats == 0 && zeros == old(zeros) && (old(repeats) == 0 ==> count == old(count))
    {
      hide Uses, StoredAll, Unpack, Written;
      if repeats >= 3 {
        PendingRepeats(s);
        PutPending(s, Repeat(repeats), 0, repeats);
      }
      while repeats != 0
        invariant Holds(s) && repeats < 3 && zeros == old(zeros) && (old(repeats) == 0 ==> count == old(count) && repeats == 0)
        decreases repeats
      {
        PendingRepeats(s);
        PutPending(s, Length(prev), 0, 1);
      }
    }

    lemma PendingRepeats(s: seq<nat>)
      requires Holds(s) && repeats > 0
      ensures zeros == 0 && prev <= 15
      ensures Unpacked(s[..|s| - repeats], Length(prev)) == Some(s[..|s| - repeats + 1])
      ensures Unpacked(s[..|s| - repeats], Repeat(repeats)) == Some(s[..|s| - repeats + repeats])
    {
      hide Uses, StoredAll, Unpack, Written;
      ExtendRun(s, |s| - repeats, 1, prev);
      ExtendRun(s, |s| - repeats, repeats, prev);
    }

    /** TDEFL_RLE_ZERO_CODE_SIZE: packs the pending zeros. */
    method FlushZeros(ghost s: seq<nat>)
      requires Holds(s)
      modifies this`count, this`tokens, this`zeros, this`repeats, packed, huffCount
      ensures Holds(s) && zeros == 0 && repeats == old(repeats)
    {
      hide Uses, StoredAll, Unpack, Written;
      if zeros >= 3 {
        PendingZeros(s);
        PutPending(s, Zeros(zeros), zeros, 0);
      }
      while zeros != 0
        invariant Holds(s) && zeros < 3 && repeats == old(repeats)
        decreases zeros
      {
        PendingZeros(s);
        PutPending(s, Length(0), 1, 0);
      }
    }

    lemma PendingZeros(s: seq<nat>)
      requires Holds(s) && zeros > 0
      ensures repeats == 0 && zeros <= 138
      ensures Unpacked(s[..|s| - zeros], Length(0)) == Some(s[..|s| - zeros + 1])
      ensures Unpacked(s[..|s| - zeros], Zeros(zeros)) == Some(s[..|s| - zeros + zeros])
    {
      hide Uses, StoredAll, Unpack, Written;
      ExtendRun(s, |s| - zeros, 1, 0);
      ExtendRun(s, |s| - zeros, zeros, 0);
    }

    /** One length more: it starts, continues or ends a run. */
    method Next(ghost s: seq<nat>, codeSize: nat)
      requires Holds(s) && codeSize <= 15 && |s| < packed.Length && zeros < 138 && repeats < 6
      modifies this, packed, huffCount
      ensures Holds(s + [codeSize]) && zeros < 138 && repeats < 6
    {
      hide Uses, StoredAll, Unpack, Written;
      ghost var s' := s + [codeSize];
      if codeSize == 0 {
        FlushRepeats(s);
        NoRepeats(s, codeSize);
        zeros, prev := zeros + 1, 0;
        if zeros == 138 {
          FlushZeros(s');
        }
      } else {
        FlushZeros(s);
        if codeSize != prev {
          FlushRepeats(s);
          LiteralNext(s, codeSize);
          Put(Length(codeSize));
          prev := codeSize;
          assert s'[..|s'|] == s';
        } else {
          assert s'[..|s| - repeats] == s[..|s| - repeats];
          repeats := repeats + 1;
          if repeats == 6 {
            FlushRepeats(s');
          }
        }
      }
    }

    lemma NoRepeats(s: seq<nat>, codeSize: nat)
      requires Holds(s) && repeats == 0
      ensures (s + [codeSize])[..|s| - zeros] == s[..|s| - zeros]
    {}

    lemma LiteralNext(s: seq<nat>, codeSize: nat)
      requires Holds(s) && repeats == 0 && zeros == 0 && codeSize <= 15
      ensures AllSound(tokens + [Length(codeSize)]) && Unpack(tokens + [Length(codeSize)]) == Some(s + [codeSize])
    {
      hide StoredAll, Uses;
      Snoc(tokens, Length(codeSize));
      assert s[..|s|] == s;
    }
  }

  /** tdefl_start_dynamic_block, packing the code lengths of both alphabets. */
  method PackCodeSizes(codeSizes: array<nat>, total: nat, huffCount: array<nat>) returns (packer: Packer)
    requires total <= codeSizes.Length && huffCount.Length == 19 && codeSizes != huffCount
    requires forall i :: 0 <= i < total ==> codeSizes[i] <= 15
    modifies huffCount
    ensures fresh(packer) && fresh(packer.packed) && packer.huffCount == huffCount && packer.Room() && packer.Written()
    ensures Unpack(packer.tokens) == Some(codeSizes[..total]) && packer.count <= total
  {
    hide Unpack, StoredAll, Uses;
    var i := 0;
    while i < 19
      invariant 0 <= i <= 19 && forall k :: 0 <= k < i ==> huffCount[k] == 0
    {
      huffCount[i] := 0;
      i := i + 1;
    }
    packer := new Packer(total, huffCount);
    PackAll(codeSizes, total, packer);
    assert codeSizes[..total][..total] == codeSizes[..total];
  }

  method PackAll(codeSizes: array<nat>, total: nat, packer: Packer)
    requires total <= codeSizes.Length && codeSizes != packer.huffCount && codeSizes != packer.packed
    requires forall i :: 0 <= i < total ==> codeSizes[i] <= 15
    requires packer.Holds([]) && packer.packed.Length == total
    modifies packer, packer.packed, packer.huffCount
    ensures packer.Holds(codeSizes[..total]) && packer.zeros == 0 && packer.repeats == 0
  {
    hide Unpack, StoredAll, Uses;
    var i := 0;
    while i < total
      invariant 0 <= i <= total && codeSizes[..] == old(codeSizes[..])
      invariant packer.Holds(codeSizes[..i]) && packer.zeros < 138 && packer.repeats < 6
    {
      assert codeSizes[..i + 1] == codeSizes[..i] + [codeSizes[i]];
      packer.Next(codeSizes[..i], codeSizes[i]);
      i := i + 1;
    }
    if packer.repeats != 0 {
      packer.FlushRepeats(codeSizes[..total]);
    } else {
      packer.FlushZeros(codeSizes[..total]);
    }
  }

  lemma ExtendRun(s: seq<nat>, k: nat, n: nat, v: nat)
    requires k + n <= |s| && forall i :: k <= i < k + n ==> s[i] == v
    ensures s[..k] + Run(n, v) == s[..k + n]
    ensures n == 1 ==> s[..k] + [v] == s[..k + 1]
  {}
}
