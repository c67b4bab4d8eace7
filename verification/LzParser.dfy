/** tdefl_compress_normal, the parsing loop: bytes move into the dictionary, matches are chosen lazily
    or greedily, and literals and matches are recorded. */
module LzParser {
  import opened Powers
  import opened Wrappers
  import opened LzOps
  import opened LzDictionary
  import opened LzChains
  import opened BitStream
  import opened LzCodes

  /** The flags the parser looks at. */
  datatype Flags = Flags(greedy: bool, rleMatches: bool, filterMatches: bool, forceRaw: bool)

  ghost predicate SavedMatch(fed: seq<nat>, pos: nat, ahead: nat, len: nat, dist: nat, lit: nat) {
    len > 0 ==>
      && 1 <= pos <= |fed| && lit == fed[pos - 1] && Legal(Match(len, dist)) && len < 128 && len - 1 <= ahead
      && Repeats(fed, pos - 1, len, dist)
  }

  /** A match put aside, with the byte it starts at; none if its length is 0. */
  datatype Saved = Saved(len: nat, dist: nat, lit: nat)

  /** What one round records, `dist` and `len` being the match found at the current byte `c`, if any. A saved match gives way to a
      longer one only. Short matches are saved, unless the parsing is greedy. */
  ghost predicate Records(greedy: bool, before: Saved, dist: nat, len: nat, c: nat, ops: seq<Op>, after: Saved) {
    if before.len > 0 then
      if len <= before.len then ops == [Match(before.len, before.dist)] && after.len == 0
      else if len < 128 then ops == [Literal(before.lit)] && after == Saved(len, dist, c)
      else ops == [Literal(before.lit), Match(len, dist)] && after.len == 0
    else if dist == 0 then ops == [Literal(c)] && after.len == 0
    else if len < 128 && !greedy then ops == [] && after == Saved(len, dist, c)
    else ops == [Match(len, dist)] && after.len == 0
  }

  /** Matches that are not worth it. */
  predicate Dropped(curPos: nat, dist: nat, len: nat, filtering: bool) {
    (len == MIN_MATCH && dist >= 8192) || curPos == dist || (filtering && len <= 5)
  }

  lemma SavedGrows(fed: seq<nat>, more: seq<nat>, pos: nat, ahead: nat, ahead': nat, len: nat, dist: nat, lit: nat)
    requires SavedMatch(fed, pos, ahead, len, dist, lit) && ahead <= ahead' && pos <= |fed|
    ensures SavedMatch(fed + more, pos, ahead', len, dist, lit)
  {}

  class Parser {
    const flags: Flags
    const maxProbes: nat
    const maxProbesLong: nat
    const dict: array<nat>
    const nextTab: array<nat>
    const hashTab: array<nat>
    const codes: LzCodeBuffer
    var lookaheadPos: nat
    var lookaheadSize: nat
    var dictSize: nat
    var savedLit: nat
    var savedDist: nat
    var savedLen: nat
    /** Every byte moved into the dictionary so far, and the position the lookahead starts at. */
    ghost var fed: seq<nat>
    ghost var pos: nat
    /** Where the operations waiting in the buffer begin. */
    ghost var lzPos: nat

    /** tdefl_init. `probes` are the flag bits that limit the search. */
    constructor (parsing: Flags, probes: nat)
      ensures Valid() && fed == [] && pos == 0 && lzPos == 0 && savedLen == 0 && codes.Ops() == [] && codes.codePos == 1
      ensures maxProbes == 1 + (probes + 2) / 3 && maxProbesLong == 1 + (probes / 4 + 2) / 3
      ensures flags == parsing && fresh(codes) && fresh(codes.codeBuf) && fresh(codes.litCount) && fresh(codes.distCount)
      ensures fresh(Arrays())
    {
      hide LzCodeBuffer.Valid, LzCodeBuffer.Ops, Valid;
      flags, maxProbes, maxProbesLong := parsing, 1 + (probes + 2) / 3, 1 + (probes / 4 + 2) / 3;
      dict, nextTab := new nat[DICT_LENGTH](i => 0), new nat[DICT_SIZE](i => 0);
      hashTab := new nat[HASH_SIZE](i => 0);
      codes := new LzCodeBuffer();
      lookaheadPos, lookaheadSize, dictSize, savedLit, savedDist, savedLen := 0, 0, 0, 0, 0, 0;
      fed, pos, lzPos := [], 0, 0;
      new;
      FreshValid();
    }

    lemma FreshValid()
      requires dict.Length == DICT_LENGTH && nextTab.Length == DICT_SIZE && hashTab.Length == HASH_SIZE
      requires dict != nextTab && dict != hashTab && nextTab != hashTab && Arrays() !! {codes.codeBuf, codes.litCount, codes.distCount}
      requires 1 <= maxProbes && 1 <= maxProbesLong
      requires (forall i :: 0 <= i < DICT_SIZE ==> nextTab[i] == 0) && (forall i :: 0 <= i < HASH_SIZE ==> hashTab[i] == 0)
      requires lookaheadPos == lookaheadSize == dictSize == savedLen == 0 && fed == [] && pos == lzPos == 0
      requires codes.Valid() && codes.Ops() == []
      ensures Valid()
    {
      hide LzCodeBuffer.Valid, LzCodeBuffer.Ops, Window, Linked;
      EmptyWindow(dict[..]);
      NothingLinked(nextTab[..], hashTab[..]);
    }

    ghost function Arrays(): set<object> {
      {dict, nextTab, hashTab}
    }

    ghost predicate Shaped()
      reads nextTab, hashTab
    {
      && dict.Length == DICT_LENGTH && nextTab.Length == DICT_SIZE && hashTab.Length == HASH_SIZE
      && dict != nextTab && dict != hashTab && nextTab != hashTab
      && Arrays() !! {codes.codeBuf, codes.litCount, codes.distCount} && 1 <= maxProbes && 1 <= maxProbesLong
      && (forall i :: 0 <= i < DICT_SIZE ==> nextTab[i] < 65536) && (forall i :: 0 <= i < HASH_SIZE ==> hashTab[i] < 65536)
    }

    /** The dictionary holds the lookahead and the `dictSize` bytes before it. */
    ghost predicate Placed()
      reads this, dict
    {
      && pos + lookaheadSize == |fed| && dictSize <= pos && lookaheadSize <= MAX_MATCH && lookaheadPos == pos % WORD
      && dictSize <= DICT_SIZE && (dictSize == pos || dictSize + MAX_MATCH >= DICT_SIZE) && Window(dict[..], fed, Low())
      && forall i :: 0 <= i < |fed| ==> fed[i] < 256
    }

    /** The oldest position still in the dictionary. */
    ghost function Low(): nat
      reads this
      requires dictSize <= pos
    {
      if |fed| - DICT_SIZE > pos - dictSize then |fed| - DICT_SIZE else pos - dictSize
    }

    /** What has been turned into operations: one byte less while a match is saved. */
    ghost function Parsed(): nat
      reads this
      requires savedLen > 0 ==> pos > 0
    {
      if savedLen > 0 then pos - 1 else pos
    }

    /** The recorded operations expand to exactly the parsed bytes. */
    ghost predicate Sound()
      reads this, codes
    {
      && SavedMatch(fed, pos, lookaheadSize, savedLen, savedDist, savedLit)
      && pos <= |fed| && lzPos <= Parsed() && AllLegal(codes.Ops())
      && Expand(fed[..lzPos], codes.Ops()) == Some(fed[..Parsed()])
    }

    ghost predicate Valid()
      reads this, dict, nextTab, hashTab, codes, codes.codeBuf, codes.litCount, codes.distCount
    {
      Shaped() && Placed() && Chained() && Sound() && dictSize + lookaheadSize <= DICT_SIZE && codes.Valid()
    }

    /** Every position that three bytes have been fed for is on its hash chain. */
    ghost predicate Chained()
      reads this`fed, nextTab, hashTab
    {
      Linked(nextTab[..], hashTab[..], fed, Entered(|fed|))
    }

    // ---------- filling the lookahead ----------

    /** How many positions have three bytes. */
    static function Entered(n: nat): nat {
      if n < 2 then 0 else n - 2
    }

    /** One more byte at the end of the lookahead, and its mirror image. */
    method PushByte(c: nat, dstPos: nat)
      requires Shaped() && Placed() && lookaheadSize < MAX_MATCH && c < 256 && dstPos == |fed| % DICT_SIZE
      modifies dict, this`fed, this`lookaheadSize
      ensures Shaped() && Placed() && fed == old(fed) + [c] && lookaheadSize == old(lookaheadSize) + 1
    {
      hide Window, Chained;
      ghost var lo, before := Low(), dict[..];
      dict[dstPos] := c;
      if dstPos < MAX_MATCH - 1 {
        dict[DICT_SIZE + dstPos] := c;
      }
      assert dict[..] == Pushed(before, |fed|, c);
      fed := fed + [c];
      lookaheadSize := lookaheadSize + 1;
      WindowFits(before, old(fed), lo);
      PushKeepsWindow(before, old(fed), lo, Low(), c);
    }

    lemma EmptyWindow(d: seq<nat>)
      requires |d| == DICT_LENGTH
      ensures Window(d, [], 0)
    {}

    lemma WindowFits(d: seq<nat>, f: seq<nat>, lo: nat)
      requires Window(d, f, lo)
      ensures lo <= |f| <= lo + DICT_SIZE
    {}

    /** The hash chains take position `m`. */
    method InsertHash(insPos: int, hash: bv15, ghost m: nat)
      requires Shaped() && Linked(nextTab[..], hashTab[..], fed, m) && m + 2 < |fed| && hash as nat == HashAt(fed, m)
      requires insPos % DICT_SIZE == m % DICT_SIZE && insPos % 65536 == m % 65536
      modifies nextTab, hashTab
      ensures Shaped() && Linked(nextTab[..], hashTab[..], fed, m + 1)
    {
      hide HashAt, Linked, Shaped;
      ghost var next, last := nextTab[..], hashTab[..];
      SetLinks(insPos % DICT_SIZE, hash as nat, insPos % 65536);
      LinkedNext(next, last, fed, m, nextTab[..], hashTab[..]);
    }

    method SetLinks(slot: nat, hash: nat, low: nat)
      requires Shaped() && slot < DICT_SIZE && hash < HASH_SIZE && low < 65536
      modifies nextTab, hashTab
      ensures Shaped() && nextTab[..] == old(nextTab[..])[slot := old(hashTab[hash])] && hashTab[..] == old(hashTab[..])[hash := low]
    {
      nextTab[slot] := hashTab[hash];
      hashTab[hash] := low;
    }

    /** After one byte more, with the position that it completes not entered yet. */
    method PushUnchained(c: nat, dstPos: nat)
      requires Shaped() && Placed() && Chained() && lookaheadSize < MAX_MATCH && c < 256 && dstPos == |fed| % DICT_SIZE
      modifies dict, this`fed, this`lookaheadSize
      ensures Shaped() && Placed() && fed == old(fed) + [c] && lookaheadSize == old(lookaheadSize) + 1
      ensures Linked(nextTab[..], hashTab[..], fed, Entered(|old(fed)|))
    {
      hide Window, Linked;
      PushByte(c, dstPos);
      LinkedGrows(nextTab[..], hashTab[..], old(fed), Entered(|old(fed)|), c);
    }

    /** What the dictionary has at the position `back` bytes before the end. */
    lemma RecentByte(back: nat)
      requires Placed() && 1 <= back <= 2 && back <= |fed| && dictSize + lookaheadSize >= back
      ensures (lookaheadPos + lookaheadSize - back) % DICT_SIZE == (|fed| - back) % DICT_SIZE
      ensures dict.Length == DICT_LENGTH && dict[(lookaheadPos + lookaheadSize - back) % DICT_SIZE] == fed[|fed| - back] < 256
    {
      hide Window, Chained;
      LowEnd(pos, lookaheadSize, back);
      DictLength(dict[..], fed, Low());
      ReadAhead(dict[..], fed, Low(), |fed| - back, 0);
    }

    lemma NextSlot()
      requires Placed()
      ensures (lookaheadPos + lookaheadSize) % WORD % DICT_SIZE == |fed| % DICT_SIZE
    {
      hide Window, Chained;
      SlotOf(pos, lookaheadSize);
    }

    method PushFirst(c: nat)
      requires Shaped() && Placed() && Chained() && lookaheadSize < MAX_MATCH && c < 256 && dictSize == pos
      modifies dict, nextTab, hashTab, this`fed, this`lookaheadSize
      ensures Shaped() && Placed() && Chained() && fed == old(fed) + [c] && lookaheadSize == old(lookaheadSize) + 1
    {
      hide Placed, Shaped, Linked;
      FedSoFar();
      NextSlot();
      PushUnchained(c, (lookaheadPos + lookaheadSize) % WORD % DICT_SIZE);
      if lookaheadSize + dictSize >= MIN_MATCH {
        EnterOne(c);
      }
    }

    /** Bytes that go in one by one, with a hash chain entry for each once three bytes are there. */
    method FeedFirst(src: seq<nat>, from: nat) returns (to: nat)
      requires Shaped() && Placed() && Chained() && lookaheadSize + dictSize < MIN_MATCH - 1 && from <= |src| && forall i :: 0 <= i < |src| ==> src[i] < 256
      modifies dict, nextTab, hashTab, this`fed, this`lookaheadSize
      ensures Shaped() && Placed() && Chained() && from <= to <= |src| && fed == old(fed) + src[from..to]
      ensures lookaheadSize == old(lookaheadSize) + (to - from) && (to == |src| || lookaheadSize == MAX_MATCH)
    {
      hide Placed, Shaped, Chained;
      FedSoFar();
      to := from;
      while to < |src| && lookaheadSize < MAX_MATCH
        invariant Shaped() && Placed() && Chained() && from <= to <= |src| && fed == old(fed) + src[from..to] && dictSize == pos
        invariant lookaheadSize == old(lookaheadSize) + (to - from) <= MAX_MATCH
      {
        PushFirst(src[to]);
        to := to + 1;
      }
    }

    /** The hash of the last three bytes, and the position they begin at entered. */
    method EnterOne(c: nat)
      requires Shaped() && Placed() && dictSize == pos && |fed| >= 3 && c == fed[|fed| - 1] && Linked(nextTab[..], hashTab[..], fed, |fed| - 3)
      modifies nextTab, hashTab
      ensures Shaped() && Placed() && Chained()
    {
      hide Window, Linked, Hash;
      var insPos := lookaheadPos + (lookaheadSize - 1) - 2;
      EarlierBytes();
      LowEnd(pos, lookaheadSize, 3);
      var hash := Hash(dict[insPos % DICT_SIZE], dict[(insPos + 1) % DICT_SIZE], c);
      HashIs(hash, |fed| - 3);
      InsertHash(insPos, hash, |fed| - 3);
    }

    lemma FedSoFar()
      requires Placed()
      ensures pos + lookaheadSize == |fed| && dictSize <= pos && lookaheadSize <= MAX_MATCH && lookaheadPos == pos % WORD
      ensures dictSize == pos || dictSize + MAX_MATCH >= DICT_SIZE
    {
      hide Window;
    }

    lemma EarlierBytes()
      requires Placed() && dictSize == pos && |fed| >= 3
      ensures AllBytes(fed) && dict.Length == DICT_LENGTH
      ensures dict[(lookaheadPos + lookaheadSize - 3) % DICT_SIZE] == fed[|fed| - 3]
      ensures dict[(lookaheadPos + lookaheadSize - 2) % DICT_SIZE] == fed[|fed| - 2]
    {
      hide Window, Chained;
      RecentByte(2);
      LowEnd(pos, lookaheadSize, 3);
      ReadAhead(dict[..], fed, Low(), |fed| - 3, 0);
    }

    lemma HashIs(hash: bv15, q: nat)
      requires AllBytes(fed) && q + 2 < |fed| && hash == Hash(fed[q], fed[q + 1], fed[q + 2])
      ensures hash as nat == HashAt(fed, q)
    {
      hide Hash;
    }

    /** Where the next byte goes, which position it completes, and the hash of the two bytes before. */
    ghost predicate Rolling(dstPos: nat, insPos: int, hash: bv15)
      reads this`fed
    {
      && |fed| >= 2 && dstPos == |fed| % DICT_SIZE
      && insPos % DICT_SIZE == (|fed| - 2) % DICT_SIZE && insPos % 65536 == (|fed| - 2) % 65536
      && fed[|fed| - 2] < 256 && fed[|fed| - 1] < 256 && Ripe(hash, fed[|fed| - 2], fed[|fed| - 1])
    }

    lemma StartRolling(insPos: int, hash: bv15)
      requires Placed() && lookaheadSize + dictSize >= 2 && insPos == lookaheadPos + lookaheadSize - 2
      requires dict.Length == DICT_LENGTH && dict[insPos % DICT_SIZE] < 256 && dict[(insPos + 1) % DICT_SIZE] < 256
      requires hash == ((dict[insPos % DICT_SIZE] as bv15) << 5) ^ (dict[(insPos + 1) % DICT_SIZE] as bv15)
      ensures Rolling((lookaheadPos + lookaheadSize) % WORD % DICT_SIZE, insPos, hash)
    {
      hide Window, Rolled, Hash;
      NextSlot();
      RecentByte(2);
      RecentByte(1);
      RollStarts(hash, fed[|fed| - 2], fed[|fed| - 1]);
      LowEnd(pos, lookaheadSize, 2);
    }

    /** One more byte, and the position it completes entered under the rolling hash. */
    method PushHashed(c: nat, dstPos: nat, insPos: int, hash0: bv15) returns (hash: bv15)
      requires Shaped() && Placed() && Chained() && lookaheadSize < MAX_MATCH && c < 256 && Rolling(dstPos, insPos, hash0)
      modifies dict, nextTab, hashTab, this`fed, this`lookaheadSize
      ensures Shaped() && Placed() && Chained() && fed == old(fed) + [c] && lookaheadSize == old(lookaheadSize) + 1
      ensures Rolling((dstPos + 1) % DICT_SIZE, insPos + 1, hash)
    {
      hide Window, Linked, HashAt, Hash, Rolled;
      ghost var m := |fed| - 2;
      NextDst(|fed|);
      NextIns(insPos, m);
      PushUnchained(c, dstPos);
      hash := Rolled(hash0, c);
      HashIs(hash, m);
      RollGoesOn(hash, fed[m], fed[m + 1], fed[m + 2]);
      InsertHash(insPos, hash, m);
    }

    /** Bytes that go in together, once there are two bytes to start the rolling hash with. */
    method FeedMany(src: seq<nat>, from: nat) returns (to: nat)
      requires Shaped() && Placed() && Chained() && lookaheadSize + dictSize >= MIN_MATCH - 1 && from <= |src| && forall i :: 0 <= i < |src| ==> src[i] < 256
      modifies dict, nextTab, hashTab, this`fed, this`lookaheadSize
      ensures Shaped() && Placed() && Chained() && from <= to <= |src| && fed == old(fed) + src[from..to]
      ensures lookaheadSize == old(lookaheadSize) + (to - from) && (to == |src| || lookaheadSize == MAX_MATCH)
    {
      hide Placed, Shaped, Chained, Rolling;
      FedSoFar();
      RecentByte(2);
      RecentByte(1);
      var dstPos: nat := (lookaheadPos + lookaheadSize) % WORD % DICT_SIZE;
      var insPos: int := lookaheadPos + lookaheadSize - 2;
      var hash := ((dict[insPos % DICT_SIZE] as bv15) << 5) ^ (dict[(insPos + 1) % DICT_SIZE] as bv15);
      StartRolling(insPos, hash);
      var end: nat := if |src| - from < MAX_MATCH - lookaheadSize then |src| else from + (MAX_MATCH - lookaheadSize);
      to := from;
      while to != end
        invariant Shaped() && Placed() && Chained() && from <= to <= end && fed == old(fed) + src[from..to]
        invariant lookaheadSize == old(lookaheadSize) + (to - from) && Rolling(dstPos, insPos, hash)
        decreases end - to
      {
        hash := PushHashed(src[to], dstPos, insPos, hash);
        dstPos := (dstPos + 1) % DICT_SIZE;
        insPos := insPos + 1;
        to := to + 1;
      }
    }

    /** The dictionary gives up what the lookahead has overwritten. */
    method GiveUp()
      requires Placed()
      modifies this`dictSize
      ensures Placed() && dictSize + lookaheadSize <= DICT_SIZE
    {
      hide Window, Chained;
      ghost var lo := Low();
      if DICT_SIZE - lookaheadSize < dictSize {
        dictSize := DICT_SIZE - lookaheadSize;
      }
    }

    /** Operations stay as sound as they were when the lookahead grows. */
    lemma SoundStill(fed0: seq<nat>, more: seq<nat>, ahead0: nat)
      requires fed == fed0 + more && lookaheadSize >= ahead0 && (savedLen > 0 ==> pos > 0)
      requires SavedMatch(fed0, pos, ahead0, savedLen, savedDist, savedLit)
      requires pos <= |fed0| && lzPos <= Parsed() && AllLegal(codes.Ops())
      requires Expand(fed0[..lzPos], codes.Ops()) == Some(fed0[..Parsed()])
      ensures Sound()
    {
      hide SavedMatch, Expand, AllLegal, LzCodeBuffer.Ops;
      SavedGrows(fed0, more, pos, ahead0, lookaheadSize, savedLen, savedDist, savedLit);
      assert fed[..lzPos] == fed0[..lzPos] && fed[..Parsed()] == fed0[..Parsed()];
    }

    /** As many bytes as the lookahead takes. */
    method Feed(src: seq<nat>, from: nat) returns (to: nat)
      requires Valid() && from <= |src| && forall i :: 0 <= i < |src| ==> src[i] < 256
      modifies dict, nextTab, hashTab, this`fed, this`lookaheadSize, this`dictSize
      ensures Valid() && from <= to <= |src| && fed == old(fed) + src[from..to]
      ensures lookaheadSize == old(lookaheadSize) + (to - from) && (to == |src| || lookaheadSize == MAX_MATCH)
    {
      hide Window, Chained, LzCodeBuffer.Valid, SavedMatch, Placed, Shaped, Expand, AllLegal;
      SavedPlace();
      if lookaheadSize + dictSize >= MIN_MATCH - 1 {
        to := FeedMany(src, from);
      } else {
        to := FeedFirst(src, from);
      }
      GiveUp();
      SoundStill(old(fed), src[from..to], old(lookaheadSize));
    }

    lemma SavedPlace()
      requires Shaped() && Sound()
      ensures (savedLen > 0 ==> pos > 0) && Arrays() !! {codes.codeBuf, codes.litCount, codes.distCount}
    {
      hide Expand, AllLegal;
    }

    // ---------- choosing a match ----------

    ghost function Aside(): Saved
      reads this
    {
      Saved(savedLen, savedDist, savedLit)
    }

    /** The least length a match has to exceed. */
    function Least(): nat
      reads this
    {
      if savedLen > 0 then savedLen else MIN_MATCH - 1
    }

    /** What the search comes to: the longest run of the last byte, or the longest match on the chain, if there is one. */
    ghost predicate Best(dist: nat, len: nat)
      reads this, nextTab
      requires nextTab.Length == DICT_SIZE
    {
      if flags.forceRaw || (flags.rleMatches && dictSize == 0) then dist == 0 && len == Least()
      else if flags.rleMatches then dist <= 1 && (dist == 0 ==> len == 0) && NoLonger(fed, pos, lookaheadSize, 1, if dist == 0 then MIN_MATCH - 1 else len)
      else len >= Least() && (len == Least() ==> dist == 0)
           && (lookaheadSize > Least() ==>
                 Exhausted(nextTab[..], lookaheadPos, dictSize, if Least() >= 32 then maxProbesLong else maxProbes, fed, pos, lookaheadSize, len))
    }

    /** No match of three bytes and more anywhere in the dictionary is longer, provided that the probes allowed reach as far, and that
        no position divisible by 65536 with the same hash is in the way. */
    lemma BestIsLongest(dist: nat, len: nat, d: nat, l: nat)
      requires Valid() && !flags.forceRaw && !flags.rleMatches && Best(dist, len)
      requires 1 <= d <= dictSize && MIN_MATCH <= l <= lookaheadSize && Repeats(fed, pos, l, d) && AllBytes(fed)
      requires Rivals(fed, HashAt(fed, pos), pos - d, pos) < if Least() >= 32 then maxProbesLong else maxProbes
      requires Unbroken(fed, HashAt(fed, pos), pos - d, pos)
      ensures l <= len
    {
      hide Window, LzCodeBuffer.Valid, Sound, Linked, HashAt, Rivals, Unbroken, Exhausted, Repeats;
      if lookaheadSize > Least() {
        LongestFound(nextTab[..], hashTab[..], fed, pos, lookaheadPos, dictSize, if Least() >= 32 then maxProbesLong else maxProbes,
                     lookaheadSize, len, d, l);
      }
    }

    /** The match taken is the best one, or none if that is not worth it. */
    ghost predicate Picked(dist: nat, len: nat)
      reads this, nextTab
      requires nextTab.Length == DICT_SIZE
    {
      exists d: nat, l: nat :: Best(d, l) && if Dropped(pos % DICT_SIZE, d, l, flags.filterMatches) then dist == 0 && len == 0 else dist == d && len == l
    }

    /** A candidate is no match at all or one that holds at the current position. */
    ghost predicate Candidate(dist: nat, len: nat)
      reads this
    {
      && (savedLen > 0 && len > savedLen ==> dist > 0)
      && (dist > 0 ==> dist <= DICT_SIZE && MIN_MATCH <= len <= lookaheadSize && Repeats(fed, pos, len, dist))
    }

    /** TDEFL_RLE_MATCHES: only runs of the last byte. */
    method RunLength(curPos: nat) returns (dist: nat, len: nat)
      requires Valid() && curPos == pos % DICT_SIZE && dictSize > 0
      ensures Candidate(dist, len) && dist <= 1 && (dist == 0 ==> len == 0)
      ensures NoLonger(fed, pos, lookaheadSize, 1, if dist == 0 then MIN_MATCH - 1 else len)
    {
      hide Window, Chained, LzCodeBuffer.Valid, SavedMatch, Shaped, Sound, InDict;
      DictShape();
      PreviousSlot(pos);
      ReadAhead(dict[..], fed, pos - dictSize, pos - 1, 0);
      var c := dict[(curPos + DICT_SIZE - 1) % DICT_SIZE];
      dist, len := 0, 0;
      while len < lookaheadSize
        invariant 0 <= len <= lookaheadSize && Repeats(fed, pos, len, 1) && (len == 0 || fed[pos + len - 1] == c)
        invariant fed[pos - 1] == c
      {
        ReadAhead(dict[..], fed, pos - dictSize, pos, len);
        if dict[curPos + len] != c {
          break;
        }
        len := len + 1;
      }
      assert len < lookaheadSize ==> fed[pos + len] != fed[pos + len - 1];
      if len < MIN_MATCH {
        len := 0;
      } else {
        dist := 1;
      }
    }

    lemma DictShape()
      requires Valid()
      ensures dict.Length == DICT_LENGTH && dictSize <= pos && pos + lookaheadSize == |fed|
      ensures Window(dict[..], fed, pos - dictSize) && dictSize + lookaheadSize <= DICT_SIZE && lookaheadSize <= MAX_MATCH
      ensures lookaheadPos == pos % WORD
    {
      hide Window, Chained, LzCodeBuffer.Valid, Sound;
    }

    method ChooseMatch(curPos: nat) returns (dist: nat, len: nat)
      requires Valid() && curPos == pos % DICT_SIZE
      ensures Candidate(dist, len) && Picked(dist, len)
    {
      hide Window, Chained, LzCodeBuffer.Valid, Sound, Exhausted, NoLonger;
      DictShape();
      SavedShort();
      dist, len := 0, if savedLen > 0 then savedLen else MIN_MATCH - 1;
      if flags.rleMatches || flags.forceRaw {
        if dictSize > 0 && !flags.forceRaw {
          dist, len := RunLength(curPos);
        }
      } else {
        dist, len := FindMatch(dict, nextTab, if len >= 32 then maxProbesLong else maxProbes, lookaheadPos, dictSize, lookaheadSize, len,
                               fed, pos);
      }
      ghost var d, l := dist, len;
      assert Best(d, l);
      if (len == MIN_MATCH && dist >= 8192) || curPos == dist || (flags.filterMatches && len <= 5) {
        dist, len := 0, 0;
      }
      assert Best(d, l) && if Dropped(pos % DICT_SIZE, d, l, flags.filterMatches) then dist == 0 && len == 0 else dist == d && len == l;
    }

    lemma SavedShort()
      requires Valid()
      ensures savedLen < 128 && (savedLen > 0 ==> savedLen >= MIN_MATCH)
    {
      hide Window, Chained, LzCodeBuffer.Valid, Placed;
    }

    // ---------- recording ----------

    /** The operations account for everything before `n`. */
    ghost predicate Accounts(n: nat)
      reads this`fed, this`lzPos, codes, codes.codeBuf, codes.litCount, codes.distCount
    {
      && codes.Valid() && lzPos <= n <= |fed| && AllLegal(codes.Ops())
      && Expand(fed[..lzPos], codes.Ops()) == Some(fed[..n])
    }

    method AddLiteral(lit: nat, ghost n: nat)
      requires Accounts(n) && n < |fed| && lit == fed[n] < 256 && codes.codePos + 4 <= LZ_CODE_BUF_SIZE
      modifies codes, codes.codeBuf, codes.litCount
      ensures Accounts(n + 1) && codes.codePos <= old(codes.codePos) + 2 && codes.Ops() == old(codes.Ops()) + [Literal(lit)]
    {
      hide LzCodeBuffer.Valid, Expand, LzCodeBuffer.Ops;
      ghost var ops := codes.Ops();
      codes.RecordLiteral(lit);
      ExpandSnoc(fed[..lzPos], ops, Literal(lit));
      assert fed[..n] + [fed[n]] == fed[..n + 1];
    }

    method AddMatch(len: nat, dist: nat, ghost n: nat)
      requires Accounts(n) && Repeats(fed, n, len, dist) && Legal(Match(len, dist)) && codes.codePos + 4 <= LZ_CODE_BUF_SIZE
      modifies codes, codes.codeBuf, codes.litCount, codes.distCount
      ensures Accounts(n + len) && codes.codePos <= old(codes.codePos) + 4 && codes.Ops() == old(codes.Ops()) + [Match(len, dist)]
    {
      hide LzCodeBuffer.Valid, Expand, LzCodeBuffer.Ops, Copied;
      ghost var ops := codes.Ops();
      codes.RecordMatch(len, dist);
      ExpandSnoc(fed[..lzPos], ops, Match(len, dist));
      MatchCopies(fed, n, len, dist);
    }

    /** The state between recording and moving on by `move` bytes. */
    ghost predicate Decided(move: nat)
      reads this, codes, codes.codeBuf, codes.litCount, codes.distCount
    {
      && 1 <= move <= lookaheadSize && SavedMatch(fed, pos + move, lookaheadSize - move, savedLen, savedDist, savedLit)
      && Accounts(if savedLen > 0 then pos + move - 1 else pos + move)
    }

    /** What a decision needs to know of the parser. */
    ghost predicate Deciding(curPos: nat, dist: nat, len: nat)
      reads this, dict, codes, codes.codeBuf, codes.litCount, codes.distCount
    {
      && 1 <= lookaheadSize <= MAX_MATCH && pos + lookaheadSize == |fed| && Candidate(dist, len) && dict !in {codes.codeBuf, codes.litCount, codes.distCount}
      && SavedMatch(fed, pos, lookaheadSize, savedLen, savedDist, savedLit) && (savedLen > 0 ==> pos > 0) && Accounts(Parsed())
      && curPos < dict.Length == DICT_LENGTH && dict[curPos] == fed[pos] < 256 && (pos > 0 ==> fed[pos - 1] < 256)
    }

    lemma CandidateFacts(curPos: nat, dist: nat, len: nat)
      requires Deciding(curPos, dist, len) && if savedLen > 0 then len > savedLen else dist > 0
      ensures Legal(Match(len, dist)) && Repeats(fed, pos, len, dist) && len <= lookaheadSize
      ensures len < 128 ==> SavedMatch(fed, pos + 1, lookaheadSize - 1, len, dist, dict[curPos])
    {
      hide Accounts;
    }

    lemma SavedFacts(curPos: nat, dist: nat, len: nat)
      requires Deciding(curPos, dist, len) && savedLen > 0
      ensures pos > 0 && savedLit == fed[pos - 1] < 256 && Legal(Match(savedLen, savedDist)) && savedLen - 1 <= lookaheadSize
      ensures Repeats(fed, pos - 1, savedLen, savedDist)
    {
      hide Accounts;
    }

    lemma NothingSaved(p: nat, ahead: nat, dist: nat, lit: nat)
      ensures SavedMatch(fed, p, ahead, 0, dist, lit)
    {}

    /** With a match saved: the new one wins only if it is longer, and then the saved byte becomes a literal. */
    method DecideSaved(curPos: nat, dist: nat, len: nat) returns (move: nat, ghost ops: seq<Op>)
      requires savedLen > 0 && Deciding(curPos, dist, len) && codes.codePos + 8 <= LZ_CODE_BUF_SIZE
      modifies this`savedLen, this`savedDist, this`savedLit, codes, codes.codeBuf, codes.litCount, codes.distCount
      ensures Decided(move) && codes.codePos <= old(codes.codePos) + 6
      ensures codes.Ops() == old(codes.Ops()) + ops && Records(flags.greedy || flags.rleMatches, old(Aside()), dist, len, fed[pos], ops, Aside())
    {
      hide Accounts, Repeats, SavedMatch, Candidate, LzCodeBuffer.Valid, LzCodeBuffer.Layout, LzCodeBuffer.Counted, LzCodeBuffer.Ops, LaidOut;
      CodesOf(Parsed());
      SavedFacts(curPos, dist, len);
      move := 1;
      if len > savedLen {
        CandidateFacts(curPos, dist, len);
        AddLiteral(savedLit, pos - 1);
        ops := [Literal(savedLit)];
        if len >= 128 {
          AddMatch(len, dist, pos);
          ops := [Literal(savedLit), Match(len, dist)];
          NothingSaved(pos + len, lookaheadSize - len, savedDist, savedLit);
          savedLen := 0;
          move := len;
        } else {
          savedLit, savedDist, savedLen := dict[curPos], dist, len;
        }
      } else {
        AddMatch(savedLen, savedDist, pos - 1);
        ops := [Match(savedLen, savedDist)];
        move := savedLen - 1;
        NothingSaved(pos + move, lookaheadSize - move, savedDist, savedLit);
        savedLen := 0;
      }
    }

    /** Without one: a literal, a match at once, or a match put aside in case the next one is longer. */
    method DecideFresh(curPos: nat, dist: nat, len: nat) returns (move: nat, ghost ops: seq<Op>)
      requires savedLen == 0 && Deciding(curPos, dist, len) && codes.codePos + 8 <= LZ_CODE_BUF_SIZE
      modifies this`savedLen, this`savedDist, this`savedLit, codes, codes.codeBuf, codes.litCount, codes.distCount
      ensures Decided(move) && codes.codePos <= old(codes.codePos) + 6
      ensures codes.Ops() == old(codes.Ops()) + ops && Records(flags.greedy || flags.rleMatches, old(Aside()), dist, len, fed[pos], ops, Aside())
    {
      hide Accounts, Repeats, SavedMatch, Candidate, LzCodeBuffer.Valid, LzCodeBuffer.Layout, LzCodeBuffer.Counted, LzCodeBuffer.Ops, LaidOut;
      CodesOf(Parsed());
      if dist > 0 { CandidateFacts(curPos, dist, len); }
      move := 1;
      var lit := dict[if curPos < DICT_LENGTH - 1 then curPos else DICT_LENGTH - 1];
      ops := [];
      if dist == 0 {
        AddLiteral(lit, pos);
        ops := [Literal(lit)];
        NothingSaved(pos + 1, lookaheadSize - 1, savedDist, savedLit);
      } else if flags.greedy || flags.rleMatches || len >= 128 {
        AddMatch(len, dist, pos);
        ops := [Match(len, dist)];
        NothingSaved(pos + len, lookaheadSize - len, savedDist, savedLit);
        move := len;
      } else {
        savedLit, savedDist, savedLen := lit, dist, len;
      }
    }

    lemma CodesOf(n: nat)
      requires Accounts(n)
      ensures codes.Valid()
    {
      hide LzCodeBuffer.Valid, Expand, LzCodeBuffer.Ops;
    }

    /** Moves the lookahead forward. */
    method Move(move: nat)
      requires Shaped() && Placed() && Chained() && dictSize + lookaheadSize <= DICT_SIZE && Decided(move)
      modifies this`pos, this`lookaheadPos, this`lookaheadSize, this`dictSize
      ensures Valid() && pos == old(pos) + move && lookaheadSize == old(lookaheadSize) - move
    {
      hide Window, Chained, LzCodeBuffer.Valid, Expand, LzCodeBuffer.Ops, SavedMatch, Repeats;
      ghost var lo := Low();
      MoveWraps(pos, move);
      lookaheadPos := (lookaheadPos + move) % WORD;
      pos := pos + move;
      lookaheadSize := lookaheadSize - move;
      dictSize := if dictSize + move < DICT_SIZE then dictSize + move else DICT_SIZE;
      WindowShrinks(dict[..], fed, lo, Low());
    }

    /** One round of the parsing loop, from choosing a match to moving on. */
    method ParseStep() returns (ghost dist: nat, ghost len: nat, ghost ops: seq<Op>)
      requires Valid() && 1 <= lookaheadSize && codes.codePos + 8 <= LZ_CODE_BUF_SIZE
      modifies this`savedLen, this`savedDist, this`savedLit, this`pos, this`lookaheadPos, this`lookaheadSize, this`dictSize
      modifies codes, codes.codeBuf, codes.litCount, codes.distCount
      ensures Valid() && pos + lookaheadSize == |fed| && lookaheadSize < old(lookaheadSize)
      ensures (savedLen > 0 ==> pos > 0) && lzPos <= Parsed() <= |fed| && Expand(fed[..lzPos], codes.Ops()) == Some(fed[..Parsed()])
      ensures codes.codePos <= old(codes.codePos) + 6 && old(Picked(dist, len))
      ensures codes.Ops() == old(codes.Ops()) + ops
      ensures Records(flags.greedy || flags.rleMatches, old(Aside()), dist, len, fed[old(pos)], ops, Aside())
    {
      hide Window, Chained, SavedMatch, Candidate, Accounts, LzCodeBuffer.Valid, LzCodeBuffer.Ops, Expand, Repeats, Picked, Records;
      var curPos: nat := lookaheadPos % DICT_SIZE;
      DictShape();
      LowPosition(pos);
      var matchDist, matchLen := ChooseMatch(curPos);
      dist, len := matchDist, matchLen;
      ReadyToDecide(curPos, dist, len);
      var move;
      if savedLen > 0 {
        move, ops := DecideSaved(curPos, matchDist, matchLen);
      } else {
        move, ops := DecideFresh(curPos, matchDist, matchLen);
      }
      MoveShort(move);
      Move(move);
      OpsMeanInput();
    }

    lemma OpsMeanInput()
      requires Valid()
      ensures (savedLen > 0 ==> pos > 0) && lzPos <= Parsed() <= |fed| && Expand(fed[..lzPos], codes.Ops()) == Some(fed[..Parsed()])
    {
      hide Window, Chained, LzCodeBuffer.Valid, LzCodeBuffer.Ops, Expand;
    }

    lemma MoveShort(move: nat)
      requires Decided(move)
      ensures 1 <= move <= lookaheadSize
    {
      hide SavedMatch, Accounts;
    }

    lemma ReadyToDecide(curPos: nat, dist: nat, len: nat)
      requires Valid() && 1 <= lookaheadSize && Candidate(dist, len) && curPos == pos % DICT_SIZE
      ensures Deciding(curPos, dist, len)
    {
      hide Window, Chained, Candidate, LzCodeBuffer.Valid, LzCodeBuffer.Ops, Expand, Repeats;
      ReadAhead(dict[..], fed, pos - dictSize, pos, 0);
    }
  }

  /** The hash so far becomes that of three bytes with the next one. */
  ghost predicate Ripe(hash: bv15, b0: nat, b1: nat)
    requires b0 < 256 && b1 < 256
  {
    forall c: nat :: c < 256 ==> Rolled(hash, c) == Hash(b0, b1, c)
  }

  lemma RollStarts(hash: bv15, b0: nat, b1: nat)
    requires b0 < 256 && b1 < 256 && hash == ((b0 as bv15) << 5) ^ (b1 as bv15)
    ensures Ripe(hash, b0, b1)
  {
    hide Rolled, Hash;
    forall c: nat | c < 256 ensures Rolled(hash, c) == Hash(b0, b1, c) {
      HashStarts(b0, b1, c);
    }
  }

  lemma RollGoesOn(hash: bv15, b0: nat, b1: nat, b2: nat)
    requires b0 < 256 && b1 < 256 && b2 < 256 && hash == Hash(b0, b1, b2)
    ensures Ripe(hash, b1, b2)
  {
    hide Rolled, Hash;
    forall c: nat | c < 256 ensures Rolled(hash, c) == Hash(b1, b2, c) {
      HashRolls(b0, b1, b2, c);
    }
  }

  lemma LowEnd(pos: nat, ahead: nat, back: nat)
    requires back <= pos + ahead
    ensures (pos % WORD + ahead - back) % DICT_SIZE == (pos + ahead - back) % DICT_SIZE
    ensures (pos % WORD + ahead - back) % 65536 == (pos + ahead - back) % 65536
  {
    var a := pos / WORD;
    assert pos + ahead - back == pos % WORD + ahead - back + a * 131072 * DICT_SIZE;
    assert pos + ahead - back == pos % WORD + ahead - back + a * 65536 * 65536;
  }

  lemma NextIns(insPos: int, q: nat)
    requires insPos % DICT_SIZE == q % DICT_SIZE && insPos % 65536 == q % 65536
    ensures (insPos + 1) % DICT_SIZE == (q + 1) % DICT_SIZE && (insPos + 1) % 65536 == (q + 1) % 65536
  {
    NextSlotOf(insPos);
    NextSlotOf(q);
    NextLow(insPos);
    NextLow(q);
  }

  lemma NextSlotOf(x: int)
    ensures (x % DICT_SIZE + 1) % DICT_SIZE == (x + 1) % DICT_SIZE
  {}

  lemma NextLow(x: int)
    ensures (x % 65536 + 1) % 65536 == (x + 1) % 65536
  {}

  lemma MoveWraps(pos: nat, move: nat)
    ensures (pos % WORD + move) % WORD == (pos + move) % WORD
  {}

  lemma PreviousSlot(pos: nat)
    requires pos > 0
    ensures (pos % DICT_SIZE + DICT_SIZE - 1) % DICT_SIZE == (pos - 1) % DICT_SIZE
  {}

  lemma SlotOf(pos: nat, ahead: nat)
    ensures (pos % WORD + ahead) % WORD % DICT_SIZE == (pos + ahead) % DICT_SIZE
  {
    var a, b := pos / WORD, (pos % WORD + ahead) / WORD;
    ModPlus((pos % WORD + ahead) % WORD, (a + b) * 131072, pos + ahead);
  }

  lemma NextDst(n: nat)
    ensures (n % DICT_SIZE + 1) % DICT_SIZE == (n + 1) % DICT_SIZE
  {}
}
