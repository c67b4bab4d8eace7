/** The hash chains of the compressor: for every hash the last position that has it, for every position the one before it
    with the same hash. What they hold decides which matches the search can find. */
module LzChains {
  import opened Powers
  import opened BitStream
  import opened LzOps
  import opened LzDictionary

  const HASH_SIZE: nat := 32768

  /** One more byte. With 15 bits and shifts by 5 a byte has no effect any longer after three others. */
  function Rolled(h: bv15, c: nat): bv15
    requires c < 256
  {
    (h << 5) ^ (c as bv15)
  }

  function Hash(b0: nat, b1: nat, b2: nat): bv15
    requires b0 < 256 && b1 < 256 && b2 < 256
  {
    ((b0 as bv15) << 10) ^ ((b1 as bv15) << 5) ^ (b2 as bv15)
  }

  lemma HashRolls(b0: nat, b1: nat, b2: nat, c: nat)
    requires b0 < 256 && b1 < 256 && b2 < 256 && c < 256
    ensures Rolled(Hash(b0, b1, b2), c) == Hash(b1, b2, c)
  {
    RollAway(b0 as bv15, b1 as bv15, b2 as bv15, c as bv15);
  }

  lemma RollAway(x: bv15, y: bv15, z: bv15, c: bv15)
    ensures (((x << 10) ^ (y << 5) ^ z) << 5) ^ c == (y << 10) ^ (z << 5) ^ c
  {}

  lemma HashStarts(b0: nat, b1: nat, c: nat)
    requires b0 < 256 && b1 < 256 && c < 256
    ensures Rolled(((b0 as bv15) << 5) ^ (b1 as bv15), c) == Hash(b0, b1, c)
  {
    RollOn(b0 as bv15, b1 as bv15, c as bv15);
  }

  lemma RollOn(x: bv15, y: bv15, c: bv15)
    ensures (((x << 5) ^ y) << 5) ^ c == (x << 10) ^ (y << 5) ^ c
  {}

  /** The hash of the three bytes at position `q`. */
  function HashAt(fed: seq<nat>, q: nat): (h: nat)
    requires AllBytes(fed) && q + 2 < |fed|
    ensures h < HASH_SIZE
  {
    Hash(fed[q], fed[q + 1], fed[q + 2]) as nat
  }

  /** The low bits of the last position before `m` with hash `h`, or 0. */
  function LastLink(fed: seq<nat>, m: nat, h: nat): (r: nat)
    requires AllBytes(fed) && m + 2 <= |fed|
    ensures r < 65536
  {
    if m == 0 then 0 else if HashAt(fed, m - 1) == h then (m - 1) % 65536 else LastLink(fed, m - 1, h)
  }

  /** Both tables, the first `m` positions having been entered. */
  ghost predicate Linked(next: seq<nat>, last: seq<nat>, fed: seq<nat>, m: nat) {
    && |next| == DICT_SIZE && |last| == HASH_SIZE && AllBytes(fed) && (m == 0 || m + 2 <= |fed|)
    && (forall h :: 0 <= h < HASH_SIZE ==> last[h] == if m == 0 then 0 else LastLink(fed, m, h))
    && (forall q :: 0 <= q < m && m <= q + DICT_SIZE ==> next[q % DICT_SIZE] == LastLink(fed, q, HashAt(fed, q)))
  }

  lemma NothingLinked(next: seq<nat>, last: seq<nat>)
    requires |next| == DICT_SIZE && |last| == HASH_SIZE && forall h :: 0 <= h < HASH_SIZE ==> last[h] == 0
    ensures Linked(next, last, [], 0)
  {}

  lemma {:induction false} LastLinkGrows(fed: seq<nat>, c: nat, m: nat, h: nat)
    requires AllBytes(fed) && c < 256 && m + 2 <= |fed|
    ensures LastLink(fed + [c], m, h) == LastLink(fed, m, h)
  {
    if m > 0 { LastLinkGrows(fed, c, m - 1, h); }
  }

  /** More bytes do not change what has been entered. */
  lemma LinkedGrows(next: seq<nat>, last: seq<nat>, fed: seq<nat>, m: nat, c: nat)
    requires Linked(next, last, fed, m) && c < 256
    ensures Linked(next, last, fed + [c], m)
  {
    hide LastLink;
    if m > 0 {
      forall h | 0 <= h < HASH_SIZE ensures last[h] == LastLink(fed + [c], m, h) {
        LastLinkGrows(fed, c, m, h);
      }
      forall q | 0 <= q < m && m <= q + DICT_SIZE ensures next[q % DICT_SIZE] == LastLink(fed + [c], q, HashAt(fed + [c], q)) {
        LastLinkGrows(fed, c, q, HashAt(fed, q));
      }
    }
  }

  /** Entering the next position. */
  lemma LinkedNext(next: seq<nat>, last: seq<nat>, fed: seq<nat>, m: nat, next': seq<nat>, last': seq<nat>)
    requires Linked(next, last, fed, m) && m + 2 < |fed|
    requires next' == next[m % DICT_SIZE := last[HashAt(fed, m)]] && last' == last[HashAt(fed, m) := m % 65536]
    ensures Linked(next', last', fed, m + 1)
  {
    hide HashAt;
    var h0 := HashAt(fed, m);
    forall h | 0 <= h < HASH_SIZE ensures last'[h] == LastLink(fed, m + 1, h) {
    }
    forall q | 0 <= q < m + 1 && m + 1 <= q + DICT_SIZE ensures next'[q % DICT_SIZE] == LastLink(fed, q, HashAt(fed, q)) {
      if q < m { ModApart(q, m); }
    }
  }

  // ---------- the chain leads to every position with the same hash ----------

  /** How many positions from `t` to `p` have hash `h`. */
  function Rivals(fed: seq<nat>, h: nat, t: nat, p: nat): nat
    requires AllBytes(fed) && p + 2 <= |fed|
  {
    if p <= t then 0 else Rivals(fed, h, t, p - 1) + if HashAt(fed, p - 1) == h then 1 else 0
  }

  /** A position whose low bits are 0 is taken for the end of the chain. */
  ghost predicate Unbroken(fed: seq<nat>, h: nat, t: nat, n: nat)
    requires AllBytes(fed) && n + 2 <= |fed|
  {
    forall q :: t <= q < n && HashAt(fed, q) == h ==> q % 65536 != 0
  }

  lemma {:induction false} LastIs(fed: seq<nat>, m: nat, h: nat, t: nat) returns (p: nat)
    requires AllBytes(fed) && m + 2 <= |fed| && t < m && HashAt(fed, t) == h
    ensures t <= p < m && HashAt(fed, p) == h && LastLink(fed, m, h) == p % 65536 && Rivals(fed, h, t, m) == Rivals(fed, h, t, p) + 1
  {
    hide HashAt;
    if HashAt(fed, m - 1) == h {
      p := m - 1;
    } else {
      p := LastIs(fed, m - 1, h, t);
    }
  }

  /** The link between a position on the chain and the one before it with the same hash: it leads there unless the low bits of
      that position are 0. */
  lemma OneLink(next: seq<nat>, last: seq<nat>, fed: seq<nat>, n: nat, lookaheadPos: nat, maxDist: nat, p: nat, p': nat, k: nat)
    requires maxDist <= n && n + 2 < |fed| <= n - maxDist + DICT_SIZE && lookaheadPos == n % WORD && Linked(next, last, fed, |fed| - 2)
    requires n - maxDist <= p' < p <= n && LastLink(fed, p, HashAt(fed, p)) == p' % 65536
    requires ChainAt(next, lookaheadPos % DICT_SIZE, k) == p % DICT_SIZE
    ensures Leads(next, lookaheadPos, maxDist, k) <==> p' % 65536 != 0
    ensures LinkDist(next, lookaheadPos, k) == n - p' && ChainAt(next, lookaheadPos % DICT_SIZE, k + 1) == p' % DICT_SIZE
  {
    hide HashAt, LastLink;
    assert next[p % DICT_SIZE] == p' % 65536;
    DistanceLow(n, p');
    SlotLow(p');
  }

  lemma DistanceLow(n: nat, p: nat)
    requires p < n <= p + DICT_SIZE
    ensures (n % WORD - p % 65536) % 65536 == n - p
  {
    var a, b := n / WORD, p / 65536;
    assert n % WORD - p % 65536 == n - p + (b - a * 65536) * 65536;
  }

  lemma SlotLow(p: nat)
    ensures p % 65536 % DICT_SIZE == p % DICT_SIZE
  {
    ModPlus(p % 65536, p / 65536 * 2, p);
  }

  /** From position `p` on the chain it goes on to `t`, one link for each position in between. */
  lemma {:induction false} Walk(next: seq<nat>, last: seq<nat>, fed: seq<nat>, n: nat, lookaheadPos: nat, maxDist: nat, t: nat, p: nat, k: nat)
      returns (j: nat)
    requires maxDist <= n && n + 2 < |fed| <= n - maxDist + DICT_SIZE && lookaheadPos == n % WORD && Linked(next, last, fed, |fed| - 2)
    requires n - maxDist <= t <= p <= n && HashAt(fed, t) == HashAt(fed, p) && Unbroken(fed, HashAt(fed, t), t, n)
    requires ChainAt(next, lookaheadPos % DICT_SIZE, k) == p % DICT_SIZE
    ensures j == k + Rivals(fed, HashAt(fed, t), t, p)
    ensures forall i :: k <= i < j ==> Leads(next, lookaheadPos, maxDist, i)
    ensures p > t ==> j > k && LinkDist(next, lookaheadPos, j - 1) == n - t
    decreases p
  {
    hide HashAt, LastLink, Linked, Leads, LinkDist, ChainAt;
    LinkedBytes(next, last, fed, |fed| - 2);
    j := k;
    if p > t {
      var p' := LastIs(fed, p, HashAt(fed, t), t);
      OneLink(next, last, fed, n, lookaheadPos, maxDist, p, p', k);
      j := Walk(next, last, fed, n, lookaheadPos, maxDist, t, p', k + 1);
    }
  }

  lemma LinkedBytes(next: seq<nat>, last: seq<nat>, fed: seq<nat>, m: nat)
    requires Linked(next, last, fed, m)
    ensures AllBytes(fed) && |next| == DICT_SIZE && |last| == HASH_SIZE
  {
    hide HashAt, LastLink;
  }

  /** The longest match of three bytes and more anywhere in the dictionary is not missed, provided that the probes allowed reach
      as far as its position, and that no position divisible by 65536 with the same hash comes in between. */
  lemma LongestFound(next: seq<nat>, last: seq<nat>, fed: seq<nat>, n: nat, lookaheadPos: nat, maxDist: nat, maxProbes: nat, maxLen: nat,
                     len: nat, d: nat, l: nat)
    requires maxDist <= n && n + 2 < n + maxLen <= |fed| <= n - maxDist + DICT_SIZE && lookaheadPos == n % WORD && Linked(next, last, fed, |fed| - 2)
    requires Exhausted(next, lookaheadPos, maxDist, maxProbes, fed, n, maxLen, len)
    requires 1 <= d <= maxDist && MIN_MATCH <= l <= maxLen && Repeats(fed, n, l, d)
    requires Rivals(fed, HashAt(fed, n), n - d, n) < maxProbes && Unbroken(fed, HashAt(fed, n), n - d, n)
    ensures l <= len
  {
    hide Linked, Leads, LinkDist, LastLink, Rivals;
    LinkedBytes(next, last, fed, |fed| - 2);
    assert fed[n] == fed[n - d] && fed[n + 1] == fed[n + 1 - d] && fed[n + 2] == fed[n + 2 - d];
    LowPosition(n);
    var j := Walk(next, last, fed, n, lookaheadPos, maxDist, n - d, n, 0);
    var k: nat :| Searched(next, lookaheadPos, maxDist, fed, n, maxLen, k, len) && k <= 3 * maxProbes - 3
                  && (len == maxLen || k + 1 >= maxProbes || !Leads(next, lookaheadPos, maxDist, k));
    assert len == maxLen || k >= j;
  }

  /** The first repetition in four equal bytes is missed: it begins at position 0. */
  lemma StartIsMissed(next: seq<nat>, last: seq<nat>)
    requires Linked(next, last, [97, 97, 97, 97], 2)
    ensures Repeats([97, 97, 97, 97], 1, 3, 1) && !Leads(next, 1, 1, 0)
    ensures Exhausted(next, 1, 1, 100, [97, 97, 97, 97], 1, 3, 2)
  {
    hide Hash;
    var fed := [97, 97, 97, 97];
    assert HashAt(fed, 0) == HashAt(fed, 1) && LastLink(fed, 1, HashAt(fed, 1)) == 0;
    assert next[1 % DICT_SIZE] == LastLink(fed, 1, HashAt(fed, 1));
    NothingSearched(next, 1, 1, fed, 1, 3, 2);
  }
}
