/** The circular dictionary with its mirrored start, and the search for matches in it. */
module LzDictionary {
  import opened Powers
  import opened LzOps

  /** The bytes a match may run past the end of the circle. */
  const MIRROR: nat := 257
  const DICT_LENGTH: nat := 33025

  /** The input bytes from position `lo` on are in the dictionary, the first ones of the circle twice. */
  ghost predicate Window(dict: seq<nat>, fed: seq<nat>, lo: nat) {
    && |dict| == DICT_LENGTH && lo <= |fed| <= lo + DICT_SIZE
    && forall q :: lo <= q < |fed| ==> InDict(dict, q, fed[q])
  }

  ghost predicate InDict(dict: seq<nat>, q: nat, c: nat)
    requires |dict| == DICT_LENGTH
  {
    dict[q % DICT_SIZE] == c && (q % DICT_SIZE < MIRROR ==> dict[DICT_SIZE + q % DICT_SIZE] == c)
  }

  /** The dictionary after storing `c` as byte number `n`. */
  function Pushed(dict: seq<nat>, n: nat, c: nat): (r: seq<nat>)
    requires |dict| == DICT_LENGTH
    ensures |r| == DICT_LENGTH
  {
    var d := n % DICT_SIZE;
    if d < MIRROR then dict[d := c][DICT_SIZE + d := c] else dict[d := c]
  }

  lemma ModApart(q: nat, n: nat)
    requires q < n < q + DICT_SIZE
    ensures q % DICT_SIZE != n % DICT_SIZE
  {}

  /** Storing the next byte keeps the window, apart from the byte a whole circle ago. */
  lemma PushKeepsWindow(dict: seq<nat>, fed: seq<nat>, lo: nat, lo': nat, c: nat)
    requires Window(dict, fed, lo) && lo <= lo' <= |fed| + 1 <= lo' + DICT_SIZE
    ensures Window(Pushed(dict, |fed|, c), fed + [c], lo')
  {
    forall q | lo' <= q < |fed| + 1 ensures InDict(Pushed(dict, |fed|, c), q, (fed + [c])[q]) {
      if q < |fed| {
        ModApart(q, |fed|);
        assert InDict(dict, q, fed[q]);
      }
    }
  }

  lemma WindowShrinks(dict: seq<nat>, fed: seq<nat>, lo: nat, lo': nat)
    requires Window(dict, fed, lo) && lo <= lo' <= |fed|
    ensures Window(dict, fed, lo')
  {}

  lemma AheadIndex(q: nat, k: nat)
    requires k <= MIRROR
    ensures if q % DICT_SIZE + k < DICT_SIZE then (q + k) % DICT_SIZE == q % DICT_SIZE + k
            else (q + k) % DICT_SIZE == q % DICT_SIZE + k - DICT_SIZE < MIRROR
  {}

  /** Reading on past the end of the circle finds the mirrored bytes. */
  lemma ReadAhead(dict: seq<nat>, fed: seq<nat>, lo: nat, q: nat, k: nat)
    requires Window(dict, fed, lo) && lo <= q && q + k < |fed| && k <= MIRROR
    ensures q % DICT_SIZE + k < DICT_LENGTH && dict[q % DICT_SIZE + k] == fed[q + k]
  {
    AheadIndex(q, k);
    assert InDict(dict, q + k, fed[q + k]);
  }

  /** The `len` bytes at position `n` also start `dist` bytes earlier. */
  predicate Repeats(fed: seq<nat>, n: nat, len: nat, dist: nat) {
    && 1 <= dist <= n && n + len <= |fed|
    && forall q :: n <= q < n + len ==> fed[q] == fed[q - dist]
  }

  /** A 16-bit position that lies `dist` back, whatever multiple of 65536 it stands for. */
  lemma PositionOf(n: nat, lookaheadPos: nat, next: nat, dist: nat)
    requires lookaheadPos == n % WORD && next < 65536 && dist == (lookaheadPos - next) % 65536 && dist <= n
    ensures (n - dist) % DICT_SIZE == next % DICT_SIZE
  {
    var a := n / WORD;
    var b := (lookaheadPos - next) / 65536;
    assert n - dist == next + (a * 65536 + b) * 65536;
    ModPlus(next, (a * 65536 + b) * 2, n - dist);
  }

  /** Its low bits are what the link holds. */
  lemma LinkLow(n: nat, lookaheadPos: nat, next: nat, dist: nat)
    requires lookaheadPos == n % WORD && next < 65536 && dist == (lookaheadPos - next) % 65536 && dist <= n
    ensures (n - dist) % 65536 == next
  {
    var a := n / WORD;
    var b := (lookaheadPos - next) / 65536;
    assert n - dist == next + (a * 65536 + b) * 65536;
  }

  lemma ModPlus(x: nat, k: int, y: nat)
    requires y == x + k * DICT_SIZE
    ensures y % DICT_SIZE == x % DICT_SIZE
  {}

  lemma LowPosition(n: nat)
    ensures n % WORD % DICT_SIZE == n % DICT_SIZE
  {
    ModPlus(n % WORD, n / WORD * 131072, n);
  }

  /** How far the bytes at two dictionary positions agree, up to `maxLen`. */
  method CompareAhead(dict: array<nat>, ghost fed: seq<nat>, ghost lo: nat, ghost n: nat, ghost dist: nat,
                      pos: nat, probePos: nat, maxLen: nat)
      returns (len: nat)
    requires Window(dict[..], fed, lo) && 1 <= dist && lo + dist <= n && n + maxLen <= |fed| && maxLen <= MAX_MATCH
    requires pos == n % DICT_SIZE && probePos == (n - dist) % DICT_SIZE
    ensures len <= maxLen && Repeats(fed, n, len, dist)
    ensures len < maxLen ==> fed[n + len] != fed[n + len - dist]
  {
    hide Window;
    len := 0;
    while len < maxLen
      invariant 0 <= len <= maxLen && Repeats(fed, n, len, dist)
    {
      DictLength(dict[..], fed, lo);
      ReadAhead(dict[..], fed, lo, n, len);
      ReadAhead(dict[..], fed, lo, n - dist, len);
      if dict[pos + len] != dict[probePos + len] {
        break;
      }
      len := len + 1;
    }
  }

  lemma DictLength(dict: seq<nat>, fed: seq<nat>, lo: nat)
    requires Window(dict, fed, lo)
    ensures |dict| == DICT_LENGTH
  {}

  // ---------- the search along a chain of positions ----------

  /** Where `k` links lead from dictionary position `pos`. */
  function ChainAt(next: seq<nat>, pos: nat, k: nat): (p: nat)
    requires |next| == DICT_SIZE && pos < DICT_SIZE
    ensures p < DICT_SIZE
  {
    if k == 0 then pos else next[ChainAt(next, pos, k - 1)] % DICT_SIZE
  }

  /** What the link behind that position holds. */
  function Link(next: seq<nat>, lookaheadPos: nat, k: nat): nat
    requires |next| == DICT_SIZE
  {
    next[ChainAt(next, lookaheadPos % DICT_SIZE, k)]
  }

  /** How far back it leads. */
  function LinkDist(next: seq<nat>, lookaheadPos: nat, k: nat): nat
    requires |next| == DICT_SIZE
  {
    (lookaheadPos - Link(next, lookaheadPos, k)) % 65536
  }

  /** It leads to a position that is still in the dictionary. */
  predicate Leads(next: seq<nat>, lookaheadPos: nat, maxDist: nat, k: nat)
    requires |next| == DICT_SIZE
  {
    Link(next, lookaheadPos, k) != 0 && 1 <= LinkDist(next, lookaheadPos, k) <= maxDist
  }

  /** There is no match of more than `len` bytes `dist` back, or none is asked for. */
  ghost predicate NoLonger(fed: seq<nat>, n: nat, maxLen: nat, dist: nat, len: nat) {
    len < maxLen ==> !Repeats(fed, n, len + 1, dist)
  }

  /** None of the first `k` positions of the chain has a match of more than `len` bytes. */
  ghost predicate Searched(next: seq<nat>, lookaheadPos: nat, maxDist: nat, fed: seq<nat>, n: nat, maxLen: nat, k: nat, len: nat)
    requires |next| == DICT_SIZE
  {
    forall j :: 0 <= j < k ==> Leads(next, lookaheadPos, maxDist, j) && NoLonger(fed, n, maxLen, LinkDist(next, lookaheadPos, j), len)
  }

  /** Nor has any of the chain, unless the number of probes has limited the search. */
  ghost predicate Exhausted(next: seq<nat>, lookaheadPos: nat, maxDist: nat, maxProbes: nat, fed: seq<nat>, n: nat, maxLen: nat, len: nat)
    requires |next| == DICT_SIZE
  {
    exists k: nat :: Searched(next, lookaheadPos, maxDist, fed, n, maxLen, k, len) && k <= 3 * maxProbes - 3
                     && (len == maxLen || k + 1 >= maxProbes || !Leads(next, lookaheadPos, maxDist, k))
  }

  lemma SearchedLonger(next: seq<nat>, lookaheadPos: nat, maxDist: nat, fed: seq<nat>, n: nat, maxLen: nat, k: nat, len: nat, more: nat)
    requires |next| == DICT_SIZE && Searched(next, lookaheadPos, maxDist, fed, n, maxLen, k, len) && len <= more
    ensures Searched(next, lookaheadPos, maxDist, fed, n, maxLen, k, more)
  {
    hide Leads, LinkDist;
  }

  lemma SearchedOne(next: seq<nat>, lookaheadPos: nat, maxDist: nat, fed: seq<nat>, n: nat, maxLen: nat, k: nat, len: nat)
    requires |next| == DICT_SIZE && Searched(next, lookaheadPos, maxDist, fed, n, maxLen, k, len)
    requires Leads(next, lookaheadPos, maxDist, k) && NoLonger(fed, n, maxLen, LinkDist(next, lookaheadPos, k), len)
    ensures Searched(next, lookaheadPos, maxDist, fed, n, maxLen, k + 1, len)
  {
    hide Leads, LinkDist, NoLonger;
  }

  lemma NothingSearched(next: seq<nat>, lookaheadPos: nat, maxDist: nat, fed: seq<nat>, n: nat, maxLen: nat, len: nat)
    requires |next| == DICT_SIZE
    ensures Searched(next, lookaheadPos, maxDist, fed, n, maxLen, 0, len)
  {}

  /** What comparing two stretches byte by byte says about longer matches. */
  lemma Compared(fed: seq<nat>, n: nat, maxLen: nat, dist: nat, probeLen: nat, len: nat)
    requires 1 <= dist <= n && n + maxLen <= |fed| && probeLen <= len
    requires probeLen < maxLen ==> fed[n + probeLen] != fed[n + probeLen - dist]
    ensures NoLonger(fed, n, maxLen, dist, len)
  {}

  /** Bytes that differ at the end of the current best match leave no room for a longer one. */
  lemma Differs(dict: seq<nat>, fed: seq<nat>, lo: nat, n: nat, maxLen: nat, dist: nat, len: nat, probePos: nat)
    requires Window(dict, fed, lo) && lo + dist <= n && n + maxLen <= |fed| && 1 <= len < maxLen <= MAX_MATCH
    requires probePos == (n - dist) % DICT_SIZE && probePos + len < |dict|
    requires dict[probePos + len] != fed[n + len] || dict[probePos + len - 1] != fed[n + len - 1]
    ensures dist > 0 && NoLonger(fed, n, maxLen, dist, len)
  {
    hide Window;
    ReadAhead(dict, fed, lo, n - dist, len);
    ReadAhead(dict, fed, lo, n - dist, len - 1);
    assert dict[probePos + len] == fed[n - dist + len] && dict[probePos + len - 1] == fed[n - dist + len - 1];
  }

  /** tdefl_find_match: a match of more than `len0` bytes for position `n`, if a chain of earlier positions leads to one.
      Whatever the chain holds, what is found is a match, and the longest one that the chain leads to within the probes allowed. */
  method FindMatch(dict: array<nat>, nextTab: array<nat>, maxProbes: nat, lookaheadPos: nat, maxDist: nat, maxLen: nat, len0: nat,
                   ghost fed: seq<nat>, ghost n: nat)
      returns (dist: nat, len: nat)
    requires maxDist <= n && Window(dict[..], fed, n - maxDist) && n + maxLen <= |fed| && maxLen <= MAX_MATCH
    requires lookaheadPos == n % WORD && 1 <= len0 < MAX_MATCH && 1 <= maxProbes && maxDist <= DICT_SIZE
    requires nextTab.Length == DICT_SIZE && forall i :: 0 <= i < DICT_SIZE ==> nextTab[i] < 65536
    ensures len >= len0 && (len == len0 ==> dist == 0)
    ensures len > len0 ==> len <= maxLen && dist <= maxDist && Repeats(fed, n, len, dist) && (n - dist) % 65536 != 0
    ensures maxLen > len0 ==> Exhausted(nextTab[..], lookaheadPos, maxDist, maxProbes, fed, n, maxLen, len)
  {
    hide Window, Repeats, Searched, NoLonger, Leads, LinkDist;
    dist, len := 0, len0;
    LowPosition(n);
    DictLength(dict[..], fed, n - maxDist);
    var pos := lookaheadPos % DICT_SIZE;
    var probePos: nat, probesLeft: nat := pos, maxProbes;
    var c0: nat, c1: nat := dict[pos + len], dict[pos + len - 1];
    if maxLen <= len {
      return;
    }
    ghost var k: nat := 0;
    NothingSearched(nextTab[..], lookaheadPos, maxDist, fed, n, maxLen, len);
    EndBytes(dict[..], fed, n - maxDist, n, len);
    while true
      invariant 1 <= probesLeft && len0 <= len < maxLen && (len == len0 ==> dist == 0)
      invariant len > len0 ==> dist <= maxDist && Repeats(fed, n, len, dist) && (n - dist) % 65536 != 0
      invariant probePos == ChainAt(nextTab[..], pos, k) && maxProbes - probesLeft <= k <= 3 * (maxProbes - probesLeft)
      invariant Searched(nextTab[..], lookaheadPos, maxDist, fed, n, maxLen, k, len)
      invariant c0 == fed[n + len] && c1 == fed[n + len - 1]
      decreases probesLeft
    {
      var stop, d;
      stop, probePos, probesLeft, d, k := Probe(dict, nextTab, maxProbes, lookaheadPos, maxDist, maxLen, len, c0, c1, probePos, probesLeft, fed, n, k);
      if stop || d == 0 {
        return;
      }
      var probeLen := CompareAhead(dict, fed, n - maxDist, n, d, pos, probePos, maxLen);
      Compared(fed, n, maxLen, d, probeLen, if probeLen > len then probeLen else len);
      SearchedLonger(nextTab[..], lookaheadPos, maxDist, fed, n, maxLen, k - 1, len, if probeLen > len then probeLen else len);
      SearchedOne(nextTab[..], lookaheadPos, maxDist, fed, n, maxLen, k - 1, if probeLen > len then probeLen else len);
      if probeLen > len {
        dist, len := d, probeLen;
        if len == maxLen {
          return;
        }
        c0, c1 := dict[pos + len], dict[pos + len - 1];
        EndBytes(dict[..], fed, n - maxDist, n, len);
      }
    }
  }

  lemma EndBytes(dict: seq<nat>, fed: seq<nat>, lo: nat, n: nat, len: nat)
    requires Window(dict, fed, lo) && lo <= n && n + len < |fed| && 1 <= len <= MIRROR
    ensures n % DICT_SIZE + len < |dict| && dict[n % DICT_SIZE + len] == fed[n + len] && dict[n % DICT_SIZE + len - 1] == fed[n + len - 1]
  {
    hide Window;
    DictLength(dict, fed, lo);
    ReadAhead(dict, fed, lo, n, len);
    ReadAhead(dict, fed, lo, n, len - 1);
  }

  /** Follows the chain to the next position whose bytes at the end of the current best match agree. */
  method Probe(dict: array<nat>, nextTab: array<nat>, ghost maxProbes: nat, lookaheadPos: nat, maxDist: nat, ghost maxLen: nat, len: nat,
               c0: nat, c1: nat, probePos0: nat, probesLeft0: nat, ghost fed: seq<nat>, ghost n: nat, ghost k0: nat)
      returns (stop: bool, probePos: nat, probesLeft: nat, dist: nat, ghost k: nat)
    requires maxDist <= n && Window(dict[..], fed, n - maxDist) && n + maxLen <= |fed| && maxLen <= MAX_MATCH && maxDist <= DICT_SIZE
    requires lookaheadPos == n % WORD && 1 <= len < maxLen && 1 <= probesLeft0 <= maxProbes
    requires nextTab.Length == DICT_SIZE && forall i :: 0 <= i < DICT_SIZE ==> nextTab[i] < 65536
    requires c0 == fed[n + len] && c1 == fed[n + len - 1]
    requires probePos0 == ChainAt(nextTab[..], lookaheadPos % DICT_SIZE, k0) && maxProbes - probesLeft0 <= k0 <= 3 * (maxProbes - probesLeft0)
    requires Searched(nextTab[..], lookaheadPos, maxDist, fed, n, maxLen, k0, len)
    ensures stop || dist == 0 ==> Exhausted(nextTab[..], lookaheadPos, maxDist, maxProbes, fed, n, maxLen, len)
    ensures !stop ==> k >= 1 && dist == LinkDist(nextTab[..], lookaheadPos, k - 1) <= maxDist && 1 <= probesLeft < probesLeft0
    ensures !stop ==> Searched(nextTab[..], lookaheadPos, maxDist, fed, n, maxLen, k - 1, len)
    ensures !stop ==> probePos == ChainAt(nextTab[..], lookaheadPos % DICT_SIZE, k) == (n - dist) % DICT_SIZE && (n - dist) % 65536 != 0
    ensures !stop ==> maxProbes - probesLeft <= k <= 3 * (maxProbes - probesLeft) && (dist > 0 ==> Leads(nextTab[..], lookaheadPos, maxDist, k - 1))
  {
    hide Window, Searched, NoLonger, Repeats;
    stop, probePos, probesLeft, dist, k := false, probePos0, probesLeft0, 0, k0;
    while true
      invariant 1 <= probesLeft <= probesLeft0 && maxProbes - probesLeft <= k <= 3 * (maxProbes - probesLeft)
      invariant probePos == ChainAt(nextTab[..], lookaheadPos % DICT_SIZE, k)
      invariant Searched(nextTab[..], lookaheadPos, maxDist, fed, n, maxLen, k, len)
      decreases probesLeft
    {
      probesLeft := probesLeft - 1;
      if probesLeft == 0 {
        stop := true;
        return;
      }
      var i: nat := 0;
      while i < 3
        invariant i <= 3 && maxProbes - probesLeft - (if i == 0 then 1 else 0) <= k <= 3 * (maxProbes - probesLeft - 1) + i
        invariant probePos == ChainAt(nextTab[..], lookaheadPos % DICT_SIZE, k)
        invariant Searched(nextTab[..], lookaheadPos, maxDist, fed, n, maxLen, k, len)
      {
        var next := nextTab[probePos];
        assert next == Link(nextTab[..], lookaheadPos, k);
        if next == 0 {
          stop := true;
          return;
        }
        dist := (lookaheadPos - next) % 65536;
        if dist > maxDist {
          stop := true;
          return;
        }
        probePos := next % DICT_SIZE;
        PositionOf(n, lookaheadPos, next, dist);
        LinkLow(n, lookaheadPos, next, dist);
        DictLength(dict[..], fed, n - maxDist);
        k := k + 1;
        if dict[probePos + len] == c0 && dict[probePos + len - 1] == c1 {
          return;
        }
        Differs(dict[..], fed, n - maxDist, n, maxLen, dist, len, probePos);
        SearchedOne(nextTab[..], lookaheadPos, maxDist, fed, n, maxLen, k - 1, len);
        i := i + 1;
      }
    }
  }
}
