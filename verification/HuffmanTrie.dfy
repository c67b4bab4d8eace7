/** The decoder's view of a Huffman code: a table of 10-bit prefixes that settles short codes at
    once, and a tree of negative indices for the longer ones. */
module HuffmanTrie {
  import opened Powers
  import opened HuffmanTree
  import opened Canonical

  const FAST_BITS: nat := 10
  const FAST_SIZE: nat := 1024
  const TREE_SIZE: nat := 576
  const MAX_SYMBOLS: nat := 288
  const MAX_CODE: nat := 15

  // ---------- bit strings as prefixes of codes ----------

  /** The first `len` bits of a stream, first bit lowest. */
  datatype Prefix = Prefix(bits: nat, len: nat)

  function At(v: nat, m: nat): Prefix {
    Prefix(Low(v, m), m)
  }

  function Bit(v: nat, m: nat): nat {
    Shr(v, m) % 2
  }

  function Parent(q: Prefix): Prefix
    requires q.len > 0
  {
    At(q.bits, q.len - 1)
  }

  function LastBit(q: Prefix): nat
    requires q.len > 0
  {
    Bit(q.bits, q.len - 1)
  }

  predicate Proper(q: Prefix) {
    FAST_BITS <= q.len <= MAX_CODE && q.bits < Pow2(q.len)
  }

  lemma LowStep(v: nat, m: nat)
    ensures Low(v, m + 1) == Low(v, m) + Bit(v, m) * Pow2(m)
  {
    LastOfDouble(v, Pow2(m));
  }

  lemma LastOfDouble(v: nat, p: nat)
    requires p > 0
    ensures v % (2 * p) == v % p + v / p % 2 * p
  {
    DivMod(v, p);
    DivMod(v / p, 2);
    LowStepArithmetic(v, p, v / p, v / p / 2, v / p % 2, v % p);
    DivModUnique(v, v / p / 2, v % p + v / p % 2 * p, 2 * p);
  }

  lemma LowStepArithmetic(v: nat, p: nat, q: nat, h: nat, b: nat, r: nat)
    requires p > 0 && v == q * p + r && q == h * 2 + b && b < 2 && r < p
    ensures v == h * (2 * p) + (r + b * p) && r + b * p < 2 * p
  {
    MulDistributes(h * 2, b, p);
    MulAssociates(h, 2, p);
  }

  lemma LowBound(v: nat, m: nat)
    ensures Low(v, m) < Pow2(m)
  {}

  lemma LowOfSmall(v: nat, m: nat)
    requires v < Pow2(m)
    ensures Low(v, m) == v
  {
    DivModUnique(v, 0, v, Pow2(m));
  }

  lemma BitOfLow(v: nat, m: nat)
    ensures Bit(Low(v, m + 1), m) == Bit(v, m)
  {
    hide Low, Pow2, Bit;
    var w := Low(v, m + 1);
    LowStep(v, m);
    LowStep(w, m);
    LowLow(v, m + 1, m);
    LowBound(v, m + 1);
    LowOfSmall(w, m + 1);
    MulCancel(Bit(w, m), Bit(v, m), Pow2(m));
  }

  /** The step from one prefix of a stream to the next. */
  lemma Extend(v: nat, m: nat)
    ensures Parent(At(v, m + 1)) == At(v, m) && LastBit(At(v, m + 1)) == Bit(v, m)
  {
    LowLow(v, m + 1, m);
    BitOfLow(v, m);
  }

  /** A prefix is known by its parent and its last bit. */
  lemma SamePrefix(q: Prefix, p: Prefix)
    requires 0 < q.len && q.bits < Pow2(q.len) && 0 < p.len && p.bits < Pow2(p.len)
    requires Parent(q) == Parent(p) && LastBit(q) == LastBit(p)
    ensures q == p
  {
    hide Low, Pow2, Bit;
    LowStep(q.bits, q.len - 1);
    LowStep(p.bits, p.len - 1);
    LowOfSmall(q.bits, q.len);
    LowOfSmall(p.bits, p.len);
  }

  lemma AtProper(v: nat, m: nat)
    requires FAST_BITS <= m <= MAX_CODE
    ensures Proper(At(v, m))
  {
    LowBound(v, m);
  }

  // ---------- the tree under the table ----------

  /** Which prefixes own a tree node, and the node of each. */
  datatype Trie = Trie(nodes: seq<Prefix>, at: map<Prefix, nat>)

  ghost predicate WellFormed(t: Trie) {
    && |t.nodes| <= MAX_SYMBOLS
    && (forall k :: 0 <= k < |t.nodes| ==> t.nodes[k] in t.at && t.at[t.nodes[k]] == k)
    && (forall q :: q in t.at ==> t.at[q] < |t.nodes| && t.nodes[t.at[q]] == q)
    && (forall q :: q in t.at ==> Proper(q) && q.len < MAX_CODE)
    && (forall q :: q in t.at && q.len > FAST_BITS ==> Parent(q) in t.at)
  }

  /** How table and tree refer to node `k`. */
  function Pointer(k: nat): int {
    -(2 * k + 1)
  }

  lemma BitIsBit(v: nat, m: nat)
    ensures 0 <= Bit(v, m) <= 1
  {}

  /** The entry for prefix `q`; 0 where there is none. */
  ghost function Value(lookUp: seq<int>, tree: seq<int>, t: Trie, q: Prefix): int
    requires |lookUp| == FAST_SIZE && |tree| == TREE_SIZE && WellFormed(t) && Proper(q)
  {
    if q.len == FAST_BITS then
      Pow2Values(); lookUp[q.bits]
    else if Parent(q) in t.at then
      BitIsBit(q.bits, q.len - 1); tree[2 * t.at[Parent(q)] + LastBit(q)]
    else 0
  }

  /** Writing the entry of `q0` in the tree leaves all other entries alone. */
  lemma SetTree(lookUp: seq<int>, tree: seq<int>, t: Trie, q0: Prefix, x: int, q: Prefix)
    requires |lookUp| == FAST_SIZE && |tree| == TREE_SIZE && WellFormed(t) && Proper(q0) && Proper(q)
    requires q0.len > FAST_BITS && Parent(q0) in t.at
    ensures 0 <= 2 * t.at[Parent(q0)] + LastBit(q0) < 2 * |t.nodes| <= TREE_SIZE
    ensures Value(lookUp, tree[2 * t.at[Parent(q0)] + LastBit(q0) := x], t, q) ==
            if q == q0 then x else Value(lookUp, tree, t, q)
  {
    hide Low, Pow2, Bit, Parent;
    BitIsBit(q0.bits, q0.len - 1);
    if q.len > FAST_BITS && Parent(q) in t.at {
      BitIsBit(q.bits, q.len - 1);
      if 2 * t.at[Parent(q)] + LastBit(q) == 2 * t.at[Parent(q0)] + LastBit(q0) {
        assert t.at[Parent(q)] == t.at[Parent(q0)];
        SamePrefix(q, q0);
      }
    }
  }

  lemma SetLookUp(lookUp: seq<int>, tree: seq<int>, t: Trie, q0: Prefix, x: int, q: Prefix)
    requires |lookUp| == FAST_SIZE && |tree| == TREE_SIZE && WellFormed(t) && Proper(q0) && Proper(q)
    requires q0.len == FAST_BITS
    ensures q0.bits < FAST_SIZE
    ensures Value(lookUp[q0.bits := x], tree, t, q) == if q == q0 then x else Value(lookUp, tree, t, q)
  {
    hide Low, Bit, Parent;
    Pow2Values();
  }

  function Grown(t: Trie, q0: Prefix): Trie {
    Trie(t.nodes + [q0], t.at[q0 := |t.nodes|])
  }

  lemma GrownWellFormed(t: Trie, q0: Prefix)
    requires WellFormed(t) && Proper(q0) && q0.len < MAX_CODE && q0 !in t.at && |t.nodes| < MAX_SYMBOLS
    requires q0.len > FAST_BITS ==> Parent(q0) in t.at
    ensures WellFormed(Grown(t, q0))
  {
    hide Proper, Parent;
  }

  /** A fresh node has no entries, so it changes none. */
  lemma GrownValue(lookUp: seq<int>, tree: seq<int>, t: Trie, q0: Prefix, q: Prefix)
    requires |lookUp| == FAST_SIZE && |tree| == TREE_SIZE && WellFormed(t) && WellFormed(Grown(t, q0)) && Proper(q)
    requires q0 !in t.at
    requires tree[2 * |t.nodes|] == 0 && tree[2 * |t.nodes| + 1] == 0
    ensures Value(lookUp, tree, Grown(t, q0), q) == Value(lookUp, tree, t, q)
  {
    hide Proper, Parent;
    if q.len > FAST_BITS {
      BitIsBit(q.bits, q.len - 1);
    }
  }

  // ---------- what holds between two symbols ----------

  function Leaf(sizes: seq<nat>, i: nat): Prefix
    requires i < |sizes|
  {
    Prefix(RevCode(sizes, i), sizes[i])
  }

  /** `q` is the first bits of the code of `i`. */
  predicate OnPath(sizes: seq<nat>, q: Prefix, i: nat)
    requires i < |sizes|
  {
    q.len <= sizes[i] && At(RevCode(sizes, i), q.len) == q
  }

  lemma LeafOnPath(sizes: seq<nat>, i: nat)
    requires i < |sizes|
    ensures OnPath(sizes, Leaf(sizes, i), i) && RevCode(sizes, i) < Pow2(sizes[i])
  {
    hide Rev, Code;
    RevBound(Code(sizes, i), sizes[i]);
    LowOfSmall(RevCode(sizes, i), sizes[i]);
  }

  lemma LeavesApart(sizes: seq<nat>, i: nat, j: nat)
    requires Fits(sizes, MAX_CODE) && i < |sizes| && j < |sizes| && i != j && sizes[i] >= 1
    ensures !OnPath(sizes, Leaf(sizes, i), j)
  {
    hide Fits, RevCode, Low;
    if sizes[i] <= sizes[j] {
      PrefixFree(sizes, i, j, MAX_CODE);
    }
  }

  ghost predicate Shapes(lookUp: seq<int>, tree: seq<int>, t: Trie, sizes: seq<nat>) {
    && |lookUp| == FAST_SIZE && |tree| == TREE_SIZE && |sizes| <= MAX_SYMBOLS && Fits(sizes, MAX_CODE)
    && WellFormed(t)
  }

  ghost predicate ShortPlaced(lookUp: seq<int>, sizes: seq<nat>, i: nat)
    requires |lookUp| == FAST_SIZE && i < |sizes|
  {
    forall p :: 0 <= p < FAST_SIZE && Low(p, sizes[i]) == RevCode(sizes, i) ==> lookUp[p] == sizes[i] * 512 + i
  }

  ghost predicate LongPlaced(lookUp: seq<int>, tree: seq<int>, t: Trie, sizes: seq<nat>, i: nat)
    requires Shapes(lookUp, tree, t, sizes) && i < |sizes| && sizes[i] > FAST_BITS
  {
    Parent(Leaf(sizes, i)) in t.at && Proper(Leaf(sizes, i)) && Value(lookUp, tree, t, Leaf(sizes, i)) == i
  }

  ghost predicate Placed(lookUp: seq<int>, tree: seq<int>, t: Trie, sizes: seq<nat>, i: nat)
    requires Shapes(lookUp, tree, t, sizes) && i < |sizes|
  {
    if sizes[i] == 0 then true
    else if sizes[i] <= FAST_BITS then ShortPlaced(lookUp, sizes, i)
    else LongPlaced(lookUp, tree, t, sizes, i)
  }

  /** Nodes are pointed at, and nothing else is. */
  ghost predicate Pointed(lookUp: seq<int>, tree: seq<int>, t: Trie, q: Prefix)
    requires |lookUp| == FAST_SIZE && |tree| == TREE_SIZE && WellFormed(t) && Proper(q)
  {
    if q in t.at then Value(lookUp, tree, t, q) == Pointer(t.at[q]) else Value(lookUp, tree, t, q) >= 0
  }

  ghost predicate NeededBy(sizes: seq<nat>, q: Prefix, i: nat)
    requires i < |sizes|
  {
    q.len < sizes[i] && OnPath(sizes, q, i)
  }

  ghost predicate Needed(sizes: seq<nat>, q: Prefix) {
    exists i :: 0 <= i < |sizes| && NeededBy(sizes, q, i)
  }

  /** On the way to a code still to be placed every entry is empty or points at a node. */
  ghost predicate Open(lookUp: seq<int>, tree: seq<int>, t: Trie, sizes: seq<nat>, s: nat, q: Prefix)
    requires Shapes(lookUp, tree, t, sizes) && Proper(q)
  {
    (exists j :: s <= j < |sizes| && NeededBy(sizes, q, j)) && q !in t.at ==> Value(lookUp, tree, t, q) == 0
  }

  /** The table entry `q` starts with the short code of `s`. */
  predicate StartsWith(sizes: seq<nat>, q: Prefix, s: nat)
    requires s < |sizes|
  {
    q.len == FAST_BITS && Low(q.bits, sizes[s]) == RevCode(sizes, s)
  }

  /** A positive entry names a code that `q` starts with, or ends. */
  ghost predicate Genuine(sizes: seq<nat>, q: Prefix, x: int) {
    x > 0 ==>
      if q.len == FAST_BITS then
        x % 512 < |sizes| && 1 <= x / 512 == sizes[x % 512] <= FAST_BITS && StartsWith(sizes, q, x % 512)
      else
        x < |sizes| && q == Leaf(sizes, x)
  }

  ghost predicate Building(lookUp: seq<int>, tree: seq<int>, t: Trie, sizes: seq<nat>, s: nat) {
    && Shapes(lookUp, tree, t, sizes) && s <= |sizes|
    && (forall i :: 0 <= i < s ==> Placed(lookUp, tree, t, sizes, i))
    && (forall q :: Proper(q) ==> Pointed(lookUp, tree, t, q))
    && (forall q :: Proper(q) ==> Open(lookUp, tree, t, sizes, s, q))
    && (forall q :: Proper(q) ==> Genuine(sizes, q, Value(lookUp, tree, t, q)))
    && (forall q :: q in t.at ==> Needed(sizes, q))
    && (forall x :: 2 * |t.nodes| <= x < TREE_SIZE ==> tree[x] == 0)
  }

  /** One entry written. */
  ghost predicate Wrote(lookUp: seq<int>, tree: seq<int>, lookUp': seq<int>, tree': seq<int>, t: Trie, q0: Prefix, x: int) {
    && |lookUp| == |lookUp'| == FAST_SIZE && |tree| == |tree'| == TREE_SIZE && WellFormed(t)
    && (forall p :: 0 <= p < FAST_SIZE && Prefix(p, FAST_BITS) != q0 ==> lookUp'[p] == lookUp[p])
    && (forall q :: Proper(q) ==> Value(lookUp', tree', t, q) == if q == q0 then x else Value(lookUp, tree, t, q))
    && (forall x :: 2 * |t.nodes| <= x < TREE_SIZE ==> tree'[x] == tree[x])
  }

  lemma WroteTree(lookUp: seq<int>, tree: seq<int>, t: Trie, q0: Prefix, x: int)
    requires |lookUp| == FAST_SIZE && |tree| == TREE_SIZE && WellFormed(t) && Proper(q0)
    requires q0.len > FAST_BITS && Parent(q0) in t.at
    ensures 0 <= 2 * t.at[Parent(q0)] + LastBit(q0) < TREE_SIZE
    ensures Wrote(lookUp, tree, lookUp, tree[2 * t.at[Parent(q0)] + LastBit(q0) := x], t, q0, x)
  {
    hide Value, Proper, LastBit, Parent;
    SetTree(lookUp, tree, t, q0, x, q0);
    var tree' := tree[2 * t.at[Parent(q0)] + LastBit(q0) := x];
    forall q | Proper(q) ensures Value(lookUp, tree', t, q) == if q == q0 then x else Value(lookUp, tree, t, q) {
      SetTree(lookUp, tree, t, q0, x, q);
    }
  }

  lemma WroteLookUp(lookUp: seq<int>, tree: seq<int>, t: Trie, q0: Prefix, x: int)
    requires |lookUp| == FAST_SIZE && |tree| == TREE_SIZE && WellFormed(t) && Proper(q0)
    requires q0.len == FAST_BITS
    ensures q0.bits < FAST_SIZE && Wrote(lookUp, tree, lookUp[q0.bits := x], tree, t, q0, x)
  {
    hide Value, Proper;
    SetLookUp(lookUp, tree, t, q0, x, q0);
    forall q | Proper(q)
      ensures Value(lookUp[q0.bits := x], tree, t, q) == if q == q0 then x else Value(lookUp, tree, t, q)
    {
      SetLookUp(lookUp, tree, t, q0, x, q);
    }
  }

  // ---------- a new node ----------

  /** Every node is the inside of some code, so there are fewer nodes than a full code has symbols. */
  ghost predicate AllNeeded(sizes: seq<nat>, nodes: seq<Prefix>) {
    forall k :: 0 <= k < |nodes| ==> Proper(nodes[k]) && Needed(sizes, nodes[k])
  }

  /** In a full code the bits of an inner node followed by a one bit and zeros start with a code
      that ends with the one bit or goes on. */
  lemma NodeSymbol(sizes: seq<nat>, q: Prefix, i: nat) returns (j: nat)
    requires Full(sizes, MAX_CODE) && i < |sizes| && NeededBy(sizes, q, i) && q.bits < Pow2(q.len)
    ensures j < |sizes| && RevCode(sizes, j) == q.bits + Pow2(q.len)
  {
    hide RevCode, Pow2, Used, Low;
    var v := q.bits + Pow2(q.len);
    Pow2Unfold(q.len + 1);
    j := CodeExists(sizes, v, MAX_CODE);
    if sizes[j] <= q.len {
      ShortOfNode(sizes, q, i, j, v);
      assert false;
    }
    Pow2Monotone(q.len + 1, sizes[j]);
    LowOfSmall(v, sizes[j]);
  }

  lemma ShortOfNode(sizes: seq<nat>, q: Prefix, i: nat, j: nat, v: nat)
    requires Fits(sizes, MAX_CODE) && i < |sizes| && j < |sizes| && 1 <= sizes[j] <= q.len && NeededBy(sizes, q, i)
    requires v == q.bits + Pow2(q.len) && q.bits < Pow2(q.len)
    ensures Low(v, sizes[j]) != RevCode(sizes, j)
  {
    hide RevCode, Pow2, Fits, Low;
    LowOfNode(q, v, sizes[j]);
    LowLow(RevCode(sizes, i), q.len, sizes[j]);
    LeavesApart(sizes, j, i);
  }

  lemma LowOfNode(q: Prefix, v: nat, m: nat)
    requires v == q.bits + Pow2(q.len) && q.bits < Pow2(q.len) && m <= q.len
    ensures Low(v, m) == Low(q.bits, m)
  {
    Pow2Add(q.len - m, m);
    ModOfSum(q.bits, Pow2(q.len - m), Pow2(m));
  }

  lemma {:induction false} Pigeonhole(s: seq<nat>, n: nat)
    requires forall k :: 0 <= k < |s| ==> s[k] < n
    requires forall a, b :: 0 <= a < b < |s| ==> s[a] != s[b]
    ensures |s| <= n
    decreases n
  {
    if |s| > 0 {
      assert s[0] < n;
      if k :| 0 <= k < |s| && s[k] == n - 1 {
        var last := |s| - 1;
        var u := s[k := s[last]][..last];
        assert forall a :: 0 <= a < last ==> u[a] == if a == k then s[last] else s[a];
        Pigeonhole(u, n - 1);
      } else {
        Pigeonhole(s, n - 1);
      }
    }
  }

  /** The symbols that single out the nodes of a full code. */
  lemma {:induction false} NodeSymbols(sizes: seq<nat>, nodes: seq<Prefix>) returns (w: seq<nat>)
    requires Full(sizes, MAX_CODE) && AllNeeded(sizes, nodes)
    ensures |w| == |nodes|
    ensures forall k :: 0 <= k < |w| ==> w[k] < |sizes| && RevCode(sizes, w[k]) == nodes[k].bits + Pow2(nodes[k].len)
  {
    hide RevCode, Pow2, Full, NeededBy;
    w := [];
    if |nodes| > 0 {
      var n := |nodes| - 1;
      assert forall k :: 0 <= k < n ==> nodes[..n][k] == nodes[k];
      w := NodeSymbols(sizes, nodes[..n]);
      assert Needed(sizes, nodes[n]);
      var i :| 0 <= i < |sizes| && NeededBy(sizes, nodes[n], i);
      var j := NodeSymbol(sizes, nodes[n], i);
      w := w + [j];
    }
  }

  lemma TopBit(a: Prefix, b: Prefix)
    requires a.bits < Pow2(a.len) && b.bits < Pow2(b.len) && a.bits + Pow2(a.len) == b.bits + Pow2(b.len)
    ensures a == b
  {
    if a.len < b.len {
      Pow2Monotone(a.len + 1, b.len);
    } else if b.len < a.len {
      Pow2Monotone(b.len + 1, a.len);
    }
  }

  lemma FullNodes(sizes: seq<nat>, nodes: seq<Prefix>)
    requires Full(sizes, MAX_CODE) && AllNeeded(sizes, nodes)
    requires forall a, b :: 0 <= a < b < |nodes| ==> nodes[a] != nodes[b]
    ensures |nodes| <= |sizes|
  {
    hide RevCode, Pow2, Full;
    var w := NodeSymbols(sizes, nodes);
    forall a, b | 0 <= a < b < |w| ensures w[a] != w[b] {
      if w[a] == w[b] {
        TopBit(nodes[a], nodes[b]);
      }
    }
    Pigeonhole(w, |sizes|);
  }

  /** At most one symbol is in use. */
  predicate Lonely(sizes: seq<nat>) {
    forall i, j :: 0 <= i < j < |sizes| ==> sizes[i] == 0 || sizes[j] == 0
  }

  lemma LonelyDepths(sizes: seq<nat>, p: Prefix, q: Prefix)
    requires Lonely(sizes) && SizesAtMost(sizes, MAX_CODE) && Needed(sizes, p) && Needed(sizes, q)
    ensures p.len < MAX_CODE && (p.len == q.len ==> p == q)
  {
    hide RevCode, Low;
    var i :| 0 <= i < |sizes| && NeededBy(sizes, p, i);
    var j :| 0 <= j < |sizes| && NeededBy(sizes, q, j);
    assert i == j;
  }

  lemma LonelyNodes(sizes: seq<nat>, nodes: seq<Prefix>)
    requires Lonely(sizes) && SizesAtMost(sizes, MAX_CODE) && AllNeeded(sizes, nodes)
    requires forall a, b :: 0 <= a < b < |nodes| ==> nodes[a] != nodes[b]
    ensures |nodes| <= 5
  {
    hide RevCode, Low, Pow2;
    var w := seq(|nodes|, k requires 0 <= k < |nodes| => nodes[k].len - FAST_BITS);
    forall a, b | 0 <= a < b < |nodes| ensures w[a] != w[b] {
      LonelyDepths(sizes, nodes[a], nodes[b]);
    }
    forall k | 0 <= k < |w| ensures w[k] < 5 {
      LonelyDepths(sizes, nodes[k], nodes[k]);
    }
    Pigeonhole(w, 5);
  }

  /** The codes the decoder accepts. */
  predicate Acceptable(sizes: seq<nat>) {
    Full(sizes, MAX_CODE) || Lonely(sizes)
  }

  lemma NeededFor(sizes: seq<nat>, q: Prefix, i: nat)
    requires i < |sizes| && NeededBy(sizes, q, i)
    ensures Needed(sizes, q)
  {}

  lemma NodesNeeded(t: Trie, sizes: seq<nat>, s: nat, q0: Prefix)
    requires WellFormed(t) && s < |sizes| && NeededBy(sizes, q0, s) && Proper(q0)
    requires forall q :: q in t.at ==> Needed(sizes, q)
    ensures AllNeeded(sizes, t.nodes + [q0])
  {
    hide Proper, NeededBy, Parent, Needed;
    NeededFor(sizes, q0, s);
    var nodes := t.nodes + [q0];
    forall k | 0 <= k < |nodes| ensures Proper(nodes[k]) && Needed(sizes, nodes[k]) {
      if k < |t.nodes| { assert nodes[k] in t.at; }
    }
  }

  lemma NodesDistinct(t: Trie, q0: Prefix)
    requires WellFormed(t) && q0 !in t.at
    ensures forall a, b :: 0 <= a < b < |t.nodes| + 1 ==> (t.nodes + [q0])[a] != (t.nodes + [q0])[b]
  {
    hide Proper, Parent;
    var nodes := t.nodes + [q0];
    forall a, b | 0 <= a < b < |nodes| ensures nodes[a] != nodes[b] {
      assert nodes[a] in t.at && t.at[nodes[a]] == a;
      if b < |t.nodes| { assert t.at[nodes[b]] == b; }
    }
  }

  lemma Room(lookUp: seq<int>, tree: seq<int>, t: Trie, sizes: seq<nat>, s: nat, q0: Prefix)
    requires Building(lookUp, tree, t, sizes, s) && Acceptable(sizes) && s < |sizes|
    requires NeededBy(sizes, q0, s) && Proper(q0) && q0 !in t.at
    ensures |t.nodes| < MAX_SYMBOLS
  {
    hide Full, NeededBy, Used, Placed, Lonely, AllNeeded, WellFormed, Proper;
    NodesNeeded(t, sizes, s, q0);
    NodesDistinct(t, q0);
    if Full(sizes, MAX_CODE) {
      FullNodes(sizes, t.nodes + [q0]);
    } else {
      LonelyNodes(sizes, t.nodes + [q0]);
    }
  }

  /** The values after one write, possibly of a pointer to a new node. */
  ghost predicate Changed(lookUp: seq<int>, tree: seq<int>, t: Trie, lookUp': seq<int>, tree': seq<int>, t': Trie, q0: Prefix, x: int) {
    && |lookUp| == |lookUp'| == FAST_SIZE && |tree| == |tree'| == TREE_SIZE && WellFormed(t) && WellFormed(t')
    && (forall p :: 0 <= p < FAST_SIZE && Prefix(p, FAST_BITS) != q0 ==> lookUp'[p] == lookUp[p])
    && (forall q :: Proper(q) ==> Value(lookUp', tree', t', q) == if q == q0 then x else Value(lookUp, tree, t, q))
  }

  lemma GrownChanged(lookUp: seq<int>, tree: seq<int>, lookUp': seq<int>, tree': seq<int>, t: Trie, q0: Prefix)
    requires Wrote(lookUp, tree, lookUp', tree', t, q0, Pointer(|t.nodes|)) && WellFormed(Grown(t, q0)) && q0 !in t.at
    requires forall x :: 2 * |t.nodes| <= x < TREE_SIZE ==> tree[x] == 0
    ensures Changed(lookUp, tree, t, lookUp', tree', Grown(t, q0), q0, Pointer(|t.nodes|))
  {
    hide Value, Proper, Grown, Pointer;
    NewSlots(t, q0);
    forall q | Proper(q)
      ensures Value(lookUp', tree', Grown(t, q0), q) == if q == q0 then Pointer(|t.nodes|) else Value(lookUp, tree, t, q)
    {
      GrownValue(lookUp', tree', t, q0, q);
    }
  }

  lemma NewSlots(t: Trie, q0: Prefix)
    requires WellFormed(Grown(t, q0))
    ensures 2 * |t.nodes| + 1 < TREE_SIZE
  {}

  /** Writing on the way to symbol `s` leaves the codes placed before it in place. */
  lemma StillPlaced(lookUp: seq<int>, tree: seq<int>, t: Trie, lookUp': seq<int>, tree': seq<int>, t': Trie,
                    sizes: seq<nat>, s: nat, q0: Prefix, x: int, i: nat)
    requires Shapes(lookUp, tree, t, sizes) && Changed(lookUp, tree, t, lookUp', tree', t', q0, x)
    requires i < |sizes| && s < |sizes| && i != s && OnPath(sizes, q0, s) && Proper(q0)
    requires Placed(lookUp, tree, t, sizes, i) && forall q :: q in t.at ==> q in t'.at
    requires q0.len == FAST_BITS ==> Value(lookUp, tree, t, q0) == 0
    ensures Placed(lookUp', tree', t', sizes, i)
  {
    hide Low, RevCode, Fits, Pow2, Parent;
    Pow2Values();
    if sizes[i] > FAST_BITS {
      LeavesApart(sizes, i, s);
    } else if sizes[i] > 0 {
      assert q0.len == FAST_BITS ==> lookUp[q0.bits] == 0;
      forall p | 0 <= p < FAST_SIZE && Low(p, sizes[i]) == RevCode(sizes, i) ensures lookUp'[p] == lookUp[p] {
        assert lookUp[p] > 0;
      }
    }
  }

  lemma NewNode(lookUp: seq<int>, tree: seq<int>, lookUp': seq<int>, tree': seq<int>, t: Trie, sizes: seq<nat>, s: nat, q0: Prefix)
    requires Building(lookUp, tree, t, sizes, s) && Acceptable(sizes) && s < |sizes|
    requires NeededBy(sizes, q0, s) && Proper(q0) && q0 !in t.at && (q0.len > FAST_BITS ==> Parent(q0) in t.at)
    requires Wrote(lookUp, tree, lookUp', tree', t, q0, Pointer(|t.nodes|))
    ensures Building(lookUp', tree', Grown(t, q0), sizes, s)
  {
    hide Low, RevCode, Fits, Pow2, Value, Placed, Parent, Acceptable, Proper, NeededBy, Needed;
    Room(lookUp, tree, t, sizes, s, q0);
    NeededFor(sizes, q0, s);
    NodeDepth(sizes, q0, s);
    GrownWellFormed(t, q0);
    GrownChanged(lookUp, tree, lookUp', tree', t, q0);
    var t' := Grown(t, q0);
    forall i | 0 <= i < s ensures Placed(lookUp', tree', t', sizes, i) {
      StillPlaced(lookUp, tree, t, lookUp', tree', t', sizes, s, q0, Pointer(|t.nodes|), i);
    }
  }

  lemma NodeDepth(sizes: seq<nat>, q0: Prefix, s: nat)
    requires s < |sizes| && Fits(sizes, MAX_CODE) && NeededBy(sizes, q0, s)
    ensures q0.len < MAX_CODE && OnPath(sizes, q0, s)
  {
    hide Used, RevCode, Low;
  }

  // ---------- a new code ----------

  lemma LeafNotNeeded(sizes: seq<nat>, s: nat)
    requires Fits(sizes, MAX_CODE) && s < |sizes| && sizes[s] >= 1
    ensures !Needed(sizes, Leaf(sizes, s))
  {
    hide Low, RevCode, Fits;
    if i :| 0 <= i < |sizes| && NeededBy(sizes, Leaf(sizes, s), i) {
      LeavesApart(sizes, s, i);
    }
  }

  lemma LeafProper(sizes: seq<nat>, s: nat)
    requires s < |sizes| && FAST_BITS <= sizes[s] <= MAX_CODE
    ensures Proper(Leaf(sizes, s))
  {
    LeafOnPath(sizes, s);
  }

  lemma WroteChanged(lookUp: seq<int>, tree: seq<int>, lookUp': seq<int>, tree': seq<int>, t: Trie, q0: Prefix, x: int)
    requires Wrote(lookUp, tree, lookUp', tree', t, q0, x)
    ensures Changed(lookUp, tree, t, lookUp', tree', t, q0, x)
  {
    hide Value, Proper;
  }

  lemma NewLeafOpen(lookUp: seq<int>, tree: seq<int>, t: Trie, lookUp': seq<int>, tree': seq<int>, sizes: seq<nat>, s: nat, q: Prefix)
    requires Shapes(lookUp, tree, t, sizes) && s < |sizes| && sizes[s] >= 1 && Proper(q)
    requires Open(lookUp, tree, t, sizes, s, q)
    requires Changed(lookUp, tree, t, lookUp', tree', t, Leaf(sizes, s), s)
    ensures Open(lookUp', tree', t, sizes, s + 1, q)
  {
    hide Value, Proper, Fits;
    if j :| s + 1 <= j < |sizes| && NeededBy(sizes, q, j) {
      LeavesApart(sizes, s, j);
    }
  }

  lemma NewLeaf(lookUp: seq<int>, tree: seq<int>, lookUp': seq<int>, tree': seq<int>, t: Trie, sizes: seq<nat>, s: nat)
    requires Building(lookUp, tree, t, sizes, s) && s < |sizes| && sizes[s] > FAST_BITS
    requires Parent(Leaf(sizes, s)) in t.at && Wrote(lookUp, tree, lookUp', tree', t, Leaf(sizes, s), s)
    ensures Building(lookUp', tree', t, sizes, s + 1)
  {
    hide Low, RevCode, Pow2, Value, Parent, Proper, NeededBy, Needed, Leaf, Used, Open, Placed, Pointed, OnPath;
    var q0 := Leaf(sizes, s);
    LeafOnPath(sizes, s);
    LeafProper(sizes, s);
    LeafNotNeeded(sizes, s);
    WroteChanged(lookUp, tree, lookUp', tree', t, q0, s);
    LeafPlaced(lookUp', tree', t, sizes, s);
    LeafDeep(sizes, s);
    forall i | 0 <= i < s ensures Placed(lookUp', tree', t, sizes, i) {
      StillPlaced(lookUp, tree, t, lookUp', tree', t, sizes, s, q0, s, i);
    }
    forall q | Proper(q) ensures Open(lookUp', tree', t, sizes, s + 1, q) {
      NewLeafOpen(lookUp, tree, t, lookUp', tree', sizes, s, q);
    }
    forall q | Proper(q) ensures Pointed(lookUp', tree', t, q) {
      LeafPointed(lookUp, tree, t, lookUp', tree', q0, s, q);
    }
  }

  lemma LeafDeep(sizes: seq<nat>, s: nat)
    requires s < |sizes|
    ensures Leaf(sizes, s).len == sizes[s]
  {}

  lemma LeafPlaced(lookUp: seq<int>, tree: seq<int>, t: Trie, sizes: seq<nat>, s: nat)
    requires Shapes(lookUp, tree, t, sizes) && s < |sizes| && sizes[s] > FAST_BITS && Proper(Leaf(sizes, s))
    requires Parent(Leaf(sizes, s)) in t.at && Value(lookUp, tree, t, Leaf(sizes, s)) == s
    ensures Placed(lookUp, tree, t, sizes, s)
  {
    hide Value, Proper, Fits, RevCode, Low;
  }

  lemma LeafPointed(lookUp: seq<int>, tree: seq<int>, t: Trie, lookUp': seq<int>, tree': seq<int>, q0: Prefix, x: nat, q: Prefix)
    requires Changed(lookUp, tree, t, lookUp', tree', t, q0, x) && q0 !in t.at && Proper(q) && Pointed(lookUp, tree, t, q)
    ensures Pointed(lookUp', tree', t, q)
  {
    hide Value, Proper;
  }

  /** A code of at most ten bits written to every table entry that starts with it. */
  ghost predicate Filled(lookUp: seq<int>, lookUp': seq<int>, sizes: seq<nat>, s: nat, top: nat) {
    && |lookUp| == |lookUp'| == FAST_SIZE && s < |sizes|
    && forall p :: 0 <= p < FAST_SIZE ==>
         lookUp'[p] == if Low(p, sizes[s]) == RevCode(sizes, s) && p < top then sizes[s] * 512 + s else lookUp[p]
  }

  /** No other code goes on below a short code. */
  lemma NotNeededBelow(sizes: seq<nat>, s: nat, q: Prefix, i: nat)
    requires Fits(sizes, MAX_CODE) && s < |sizes| && i < |sizes| && 1 <= sizes[s] <= FAST_BITS
    requires StartsWith(sizes, q, s)
    ensures !NeededBy(sizes, q, i)
  {
    hide Fits, RevCode, Low;
    if NeededBy(sizes, q, i) {
      LeavesApart(sizes, s, i);
      LowLow(RevCode(sizes, i), FAST_BITS, sizes[s]);
    }
  }

  /** No table entry starts with two short codes. */
  lemma OneShortCode(sizes: seq<nat>, s: nat, p: nat, i: nat)
    requires Fits(sizes, MAX_CODE) && s < |sizes| && i < |sizes| && s != i && 1 <= sizes[s] && 1 <= sizes[i]
    requires Low(p, sizes[s]) == RevCode(sizes, s)
    ensures Low(p, sizes[i]) != RevCode(sizes, i)
  {
    hide Fits, RevCode, Low;
    if sizes[s] <= sizes[i] {
      LeavesApart(sizes, s, i);
      LowLow(p, sizes[i], sizes[s]);
    } else {
      LeavesApart(sizes, i, s);
      LowLow(p, sizes[s], sizes[i]);
    }
  }

  lemma FilledValue(lookUp: seq<int>, tree: seq<int>, lookUp': seq<int>, t: Trie, sizes: seq<nat>, s: nat, q: Prefix)
    requires Shapes(lookUp, tree, t, sizes) && Filled(lookUp, lookUp', sizes, s, FAST_SIZE) && Proper(q)
    ensures Value(lookUp', tree, t, q) ==
            if StartsWith(sizes, q, s) then sizes[s] * 512 + s else Value(lookUp, tree, t, q)
  {
    hide Low, RevCode, Fits;
    Pow2Values();
  }

  lemma FilledPlaced(lookUp: seq<int>, tree: seq<int>, lookUp': seq<int>, t: Trie, sizes: seq<nat>, s: nat, i: nat)
    requires Shapes(lookUp, tree, t, sizes) && Filled(lookUp, lookUp', sizes, s, FAST_SIZE) && i < |sizes| && i != s
    requires 1 <= sizes[s] && Placed(lookUp, tree, t, sizes, i)
    ensures Placed(lookUp', tree, t, sizes, i)
  {
    hide Low, RevCode, Fits, WellFormed, Value, Parent;
    if sizes[i] > FAST_BITS {
      FilledValue(lookUp, tree, lookUp', t, sizes, s, Leaf(sizes, i));
    } else if sizes[i] > 0 {
      forall p | 0 <= p < FAST_SIZE && Low(p, sizes[i]) == RevCode(sizes, i) ensures lookUp'[p] == lookUp[p] {
        OneShortCode(sizes, i, p, s);
      }
    }
  }

  lemma ShortGenuine(sizes: seq<nat>, s: nat)
    requires s < |sizes| <= MAX_SYMBOLS && 1 <= sizes[s] <= FAST_BITS
    ensures forall q :: StartsWith(sizes, q, s) ==> Genuine(sizes, q, sizes[s] * 512 + s)
  {
    hide RevCode, Low;
  }

  lemma ShortCode(lookUp: seq<int>, tree: seq<int>, lookUp': seq<int>, t: Trie, sizes: seq<nat>, s: nat)
    requires Building(lookUp, tree, t, sizes, s) && s < |sizes| && 1 <= sizes[s] <= FAST_BITS
    requires Filled(lookUp, lookUp', sizes, s, FAST_SIZE)
    ensures Building(lookUp', tree, t, sizes, s + 1)
  {
    hide Low, RevCode, Fits, WellFormed, Value, Proper, NeededBy, Used, Placed;
    ShortIsPlaced(lookUp', tree, t, sizes, s, lookUp);
    forall i | 0 <= i < s ensures Placed(lookUp', tree, t, sizes, i) {
      FilledPlaced(lookUp, tree, lookUp', t, sizes, s, i);
    }
    ShortGenuine(sizes, s);
    forall q | Proper(q)
      ensures Pointed(lookUp', tree, t, q) && Open(lookUp', tree, t, sizes, s + 1, q)
      ensures Genuine(sizes, q, Value(lookUp', tree, t, q))
    {
      assert Pointed(lookUp, tree, t, q) && Open(lookUp, tree, t, sizes, s, q);
      FilledValue(lookUp, tree, lookUp', t, sizes, s, q);
      forall i | 0 <= i < |sizes| && StartsWith(sizes, q, s) ensures !NeededBy(sizes, q, i) {
        NotNeededBelow(sizes, s, q, i);
      }
    }
  }

  lemma ShortIsPlaced(lookUp: seq<int>, tree: seq<int>, t: Trie, sizes: seq<nat>, s: nat, was: seq<int>)
    requires Shapes(lookUp, tree, t, sizes) && s < |sizes| && sizes[s] <= FAST_BITS
    requires Filled(was, lookUp, sizes, s, FAST_SIZE)
    ensures Placed(lookUp, tree, t, sizes, s)
  {
    hide Low, RevCode, Fits, WellFormed;
  }

  lemma SkipSymbol(lookUp: seq<int>, tree: seq<int>, t: Trie, sizes: seq<nat>, s: nat)
    requires Building(lookUp, tree, t, sizes, s) && s < |sizes| && sizes[s] == 0
    ensures Building(lookUp, tree, t, sizes, s + 1)
  {
    hide Low, RevCode, Fits, WellFormed, Value, Proper, NeededBy, Used, Needed;
    assert Placed(lookUp, tree, t, sizes, s);
    forall q | Proper(q) ensures Open(lookUp, tree, t, sizes, s + 1, q) {
      assert Open(lookUp, tree, t, sizes, s, q);
    }
  }

  // ---------- walking down to a new code ----------

  /** The entry the tree walk reads next. */
  lemma NextEntry(lookUp: seq<int>, tree: seq<int>, t: Trie, v: nat, m: nat)
    requires |lookUp| == FAST_SIZE && |tree| == TREE_SIZE && WellFormed(t) && At(v, m) in t.at
    ensures FAST_BITS <= m < MAX_CODE && Proper(At(v, m + 1)) && 0 <= Bit(v, m) <= 1
    ensures 2 * t.at[At(v, m)] + Bit(v, m) < TREE_SIZE
    ensures Value(lookUp, tree, t, At(v, m + 1)) == tree[2 * t.at[At(v, m)] + Bit(v, m)]
    ensures Parent(At(v, m + 1)) == At(v, m) && LastBit(At(v, m + 1)) == Bit(v, m)
  {
    hide Low, Pow2, Bit, Parent, LastBit;
    Extend(v, m);
    AtDepth(t, v, m);
    AtProper(v, m + 1);
    BitIsBit(v, m);
  }

  lemma AtDepth(t: Trie, v: nat, m: nat)
    requires WellFormed(t) && At(v, m) in t.at
    ensures FAST_BITS <= m < MAX_CODE
  {
    hide Parent;
  }

  lemma FirstEntry(lookUp: seq<int>, tree: seq<int>, t: Trie, v: nat)
    requires |lookUp| == FAST_SIZE && |tree| == TREE_SIZE && WellFormed(t)
    ensures Low(v, FAST_BITS) == v % FAST_SIZE && Proper(At(v, FAST_BITS))
    ensures Value(lookUp, tree, t, At(v, FAST_BITS)) == lookUp[v % FAST_SIZE]
  {
    Pow2Values();
  }

  lemma OpenEntry(lookUp: seq<int>, tree: seq<int>, t: Trie, sizes: seq<nat>, s: nat, m: nat)
    requires Building(lookUp, tree, t, sizes, s) && s < |sizes| && FAST_BITS <= m < sizes[s]
    ensures m < MAX_CODE && Proper(At(RevCode(sizes, s), m)) && NeededBy(sizes, At(RevCode(sizes, s), m), s)
    ensures At(RevCode(sizes, s), m) in t.at ==>
      Value(lookUp, tree, t, At(RevCode(sizes, s), m)) == Pointer(t.at[At(RevCode(sizes, s), m)])
    ensures At(RevCode(sizes, s), m) !in t.at ==> Value(lookUp, tree, t, At(RevCode(sizes, s), m)) == 0
  {
    hide Low, RevCode, Value, Proper, WellFormed, Used, Placed, Needed;
    var q := At(RevCode(sizes, s), m);
    AtProper(RevCode(sizes, s), m);
    LowLow(RevCode(sizes, s), m, m);
    assert NeededBy(sizes, q, s);
    assert Pointed(lookUp, tree, t, q) && Open(lookUp, tree, t, sizes, s, q);
  }

  lemma BuildingShapes(lookUp: seq<int>, tree: seq<int>, t: Trie, sizes: seq<nat>, s: nat)
    requires Building(lookUp, tree, t, sizes, s)
    ensures Shapes(lookUp, tree, t, sizes) && s <= |sizes|
  {
    hide Low, RevCode, Value, Proper, WellFormed, NeededBy, Fits, Placed;
  }

  // ---------- which codes are accepted ----------

  /** Symbols with a code of 1 to `l` bits. */
  function Coded(sizes: seq<nat>, l: nat): nat {
    if l == 0 then 0 else Coded(sizes, l - 1) + Count(sizes, l)
  }

  /** The first `n` symbols alone. */
  function CodedTo(sizes: seq<nat>, n: nat, l: nat): nat
    requires n <= |sizes|
  {
    if l == 0 then 0 else CodedTo(sizes, n, l - 1) + CountTo(sizes, n, l)
  }

  lemma {:induction false} CodedStep(sizes: seq<nat>, n: nat, l: nat)
    requires 0 < n <= |sizes|
    ensures CodedTo(sizes, n, l) == CodedTo(sizes, n - 1, l) + if 1 <= sizes[n - 1] <= l then 1 else 0
  {
    if l > 0 { CodedStep(sizes, n, l - 1); }
  }

  lemma {:induction false} CodedNone(sizes: seq<nat>, l: nat)
    ensures CodedTo(sizes, 0, l) == 0
  {
    if l > 0 { CodedNone(sizes, l - 1); }
  }

  lemma {:induction false} CodedAll(sizes: seq<nat>, l: nat)
    ensures CodedTo(sizes, |sizes|, l) == Coded(sizes, l)
  {
    if l > 0 { CodedAll(sizes, l - 1); }
  }

  predicate LonelyTo(sizes: seq<nat>, n: nat)
    requires n <= |sizes|
  {
    forall i, j :: 0 <= i < j < n ==> sizes[i] == 0 || sizes[j] == 0
  }

  lemma {:induction false} CodedLonely(sizes: seq<nat>, n: nat)
    requires n <= |sizes| && SizesAtMost(sizes, MAX_CODE)
    ensures CodedTo(sizes, n, MAX_CODE) == 0 <==> forall i :: 0 <= i < n ==> sizes[i] == 0
    ensures CodedTo(sizes, n, MAX_CODE) <= 1 <==> LonelyTo(sizes, n)
  {
    hide CodedTo;
    if n == 0 {
      CodedNone(sizes, MAX_CODE);
    } else {
      CodedLonely(sizes, n - 1);
      CodedStep(sizes, n, MAX_CODE);
      if sizes[n - 1] > 0 && CodedTo(sizes, n - 1, MAX_CODE) > 0 {
        var i :| 0 <= i < n - 1 && sizes[i] != 0;
        assert !LonelyTo(sizes, n);
      }
    }
  }

  lemma {:induction false} UsedBound(sizes: seq<nat>, l: nat)
    requires l >= 1
    ensures Used(sizes, l) <= Pow2(l - 1) * Coded(sizes, l)
    ensures First(sizes, l) + 2 * |sizes| <= |sizes| * Pow2(l)
  {
    if l == 1 {
      assert Coded(sizes, 1) == Coded(sizes, 0) + Count(sizes, 1);
    } else {
      UsedBound(sizes, l - 1);
      CountAtMost(sizes, |sizes|, l - 1);
      Pow2Unfold(l - 1);
      Pow2Unfold(l);
      UsedBoundStep(Pow2(l - 2), Used(sizes, l - 1), Coded(sizes, l - 1), Count(sizes, l));
      MulAssociates(|sizes|, Pow2(l - 1), 2);
    }
  }

  lemma UsedBoundStep(p: nat, u: nat, n: nat, c: nat)
    requires u <= p * n && p >= 1
    ensures 2 * u + c <= 2 * p * (n + c)
  {
    MulDistributes(n, c, 2 * p);
    MulMonotone(1, 2 * p, c);
    MulAssociates(2, p, n);
  }

  lemma {:induction false} CountAtMost(s: seq<nat>, n: nat, d: int)
    requires n <= |s|
    ensures CountTo(s, n, d) <= n
  {
    if n > 0 { CountAtMost(s, n - 1, d); }
  }

  /** The decoder's test: all code space used, or at most one symbol. */
  lemma AcceptTest(sizes: seq<nat>, total: nat, usedSyms: nat)
    requires SizesAtMost(sizes, MAX_CODE) && total == 2 * Used(sizes, MAX_CODE) && usedSyms == Coded(sizes, MAX_CODE)
    ensures total == 65536 || usedSyms <= 1 <==> Acceptable(sizes)
    ensures Acceptable(sizes) ==> Fits(sizes, MAX_CODE)
  {
    hide Used, Coded;
    CodedAll(sizes, MAX_CODE);
    CodedLonely(sizes, |sizes|);
    UsedBound(sizes, MAX_CODE);
    Pow2Values();
    if usedSyms <= 1 {
      MulMonotone(usedSyms, 1, Pow2(MAX_CODE - 1));
      Pow2Unfold(MAX_CODE);
    }
  }

  lemma SumsStart(sizes: seq<nat>)
    ensures First(sizes, 1) == 0 && Coded(sizes, 0) == 0
  {}

  lemma SumsStep(sizes: seq<nat>, l: nat)
    requires l >= 1
    ensures First(sizes, l + 1) == (First(sizes, l) + Count(sizes, l)) * 2
    ensures Coded(sizes, l) == Coded(sizes, l - 1) + Count(sizes, l)
  {
    hide CountTo;
  }

  lemma FirstWordFits(sizes: seq<nat>, l: nat)
    requires 1 <= l <= MAX_CODE + 1 && |sizes| <= MAX_SYMBOLS
    ensures First(sizes, l) < WORD
  {
    hide First, Pow2;
    UsedBound(sizes, l);
    Pow2Monotone(l, 16);
    Pow2Values();
    MulMonotone(Pow2(l), 65536, |sizes|);
  }

  lemma NothingHeld(lookUp: seq<int>, tree: seq<int>, sizes: seq<nat>)
    requires |lookUp| == FAST_SIZE && |tree| == TREE_SIZE && |sizes| <= MAX_SYMBOLS && Fits(sizes, MAX_CODE)
    requires forall p :: 0 <= p < FAST_SIZE ==> lookUp[p] == 0
    requires forall x :: 0 <= x < TREE_SIZE ==> tree[x] == 0
    ensures Building(lookUp, tree, Trie([], map[]), sizes, 0)
  {
    hide Fits, NeededBy, Low, Pow2;
    Pow2Values();
  }

  lemma SameResidue(a: nat, p: nat, d: nat)
    requires d > 0 && a <= p < a + d && p % d == a % d
    ensures p == a
  {
    DivMod(a, d);
    DivMod(p, d);
    if p / d > a / d {
      MulMonotone(a / d + 1, p / d, d);
      MulDistributes(a / d, 1, d);
    } else {
      MulMonotone(p / d, a / d, d);
    }
  }

  lemma FillStep(lookUp: seq<int>, lookUp': seq<int>, sizes: seq<nat>, s: nat, top: nat)
    requires Filled(lookUp, lookUp', sizes, s, top) && top < FAST_SIZE && Low(top, sizes[s]) == RevCode(sizes, s)
    ensures Filled(lookUp, lookUp'[top := sizes[s] * 512 + s], sizes, s, top + Pow2(sizes[s]))
    ensures Low(top + Pow2(sizes[s]), sizes[s]) == RevCode(sizes, s)
  {
    hide RevCode, Pow2;
    var d := Pow2(sizes[s]);
    ModOfSum(top, 1, d);
    forall p | top <= p < top + d && Low(p, sizes[s]) == RevCode(sizes, s) ensures p == top {
      SameResidue(top, p, d);
    }
  }

  lemma FillEnds(lookUp: seq<int>, lookUp': seq<int>, sizes: seq<nat>, s: nat, top: nat)
    requires Filled(lookUp, lookUp', sizes, s, top)
    ensures top >= FAST_SIZE ==> Filled(lookUp, lookUp', sizes, s, FAST_SIZE)
  {
    hide RevCode, Low;
  }

  lemma FillStarts(lookUp: seq<int>, sizes: seq<nat>, s: nat)
    requires |lookUp| == FAST_SIZE && s < |sizes|
    ensures Filled(lookUp, lookUp, sizes, s, RevCode(sizes, s))
    ensures Low(RevCode(sizes, s), sizes[s]) == RevCode(sizes, s)
  {
    hide RevCode;
    LeafOnPath(sizes, s);
    forall p | 0 <= p < RevCode(sizes, s) ensures Low(p, sizes[s]) != RevCode(sizes, s) {
      LowOfSmall(p, sizes[s]);
    }
  }

  lemma ShrNine(v: nat)
    ensures v / 512 == Shr(v, 9)
  {
    Pow2Values();
  }

  /** Shifting once more and taking the lowest bit. */
  lemma NextBit(v: nat, m: nat)
    requires m > 0
    ensures Shr(v, m - 1) / 2 == Shr(v, m) && Shr(v, m) % 2 == Bit(v, m)
  {
    HalfAfter(v, Pow2(m - 1));
  }

  lemma HalfAfter(v: nat, p: nat)
    requires p > 0
    ensures v / p / 2 == v / (2 * p)
  {
    DivMod(v, p);
    DivMod(v / p, 2);
    LowStepArithmetic(v, p, v / p, v / p / 2, v / p % 2, v % p);
    DivModUnique(v, v / p / 2, v % p + v / p % 2 * p, 2 * p);
  }

  // ---------- walking a finished tree ----------

  /** The stream bits `v` start with the code of `i`. */
  predicate Matches(sizes: seq<nat>, v: nat, i: int) {
    0 <= i < |sizes| && 1 <= sizes[i] && Low(v, sizes[i]) == RevCode(sizes, i)
  }

  lemma {:induction false} AncestorIn(t: Trie, v: nat, m: nat, k: nat)
    requires WellFormed(t) && At(v, m) in t.at && FAST_BITS <= k <= m
    ensures At(v, k) in t.at
  {
    hide Low, Proper;
    if k < m {
      Extend(v, m - 1);
      assert At(v, m).len > FAST_BITS;
      AncestorIn(t, v, m - 1, k);
    }
  }

  lemma MatchedLeaf(sizes: seq<nat>, v: nat, i: nat)
    requires Matches(sizes, v, i)
    ensures Leaf(sizes, i) == At(v, sizes[i])
  {}

  /** A short code is settled by the table. */
  lemma ShortFound(lookUp: seq<int>, tree: seq<int>, t: Trie, sizes: seq<nat>, v: nat, i: nat)
    requires Building(lookUp, tree, t, sizes, |sizes|) && Matches(sizes, v, i) && sizes[i] <= FAST_BITS
    ensures lookUp[v % FAST_SIZE] == sizes[i] * 512 + i && i < 512
  {
    hide RevCode, Value, Proper, WellFormed, NeededBy, Fits, Open, Pointed, Genuine, Pow2;
    assert Placed(lookUp, tree, t, sizes, i);
    Pow2Values();
    LowLow(v, FAST_BITS, sizes[i]);
  }

  /** For a longer one the table points into the tree, and the walk goes on to its last bit. */
  lemma LongFound(lookUp: seq<int>, tree: seq<int>, t: Trie, sizes: seq<nat>, v: nat, i: nat)
    requires Building(lookUp, tree, t, sizes, |sizes|) && Matches(sizes, v, i) && sizes[i] > FAST_BITS
    ensures Proper(At(v, sizes[i])) && Value(lookUp, tree, t, At(v, sizes[i])) == i && At(v, sizes[i]) !in t.at
    ensures forall k :: FAST_BITS <= k < sizes[i] ==> At(v, k) in t.at
  {
    hide RevCode, Value, Proper, NeededBy, Fits, Open, Genuine, Low;
    assert Placed(lookUp, tree, t, sizes, i);
    MatchedLeaf(sizes, v, i);
    Extend(v, sizes[i] - 1);
    assert Pointed(lookUp, tree, t, At(v, sizes[i]));
    forall k | FAST_BITS <= k < sizes[i] ensures At(v, k) in t.at {
      AncestorIn(t, v, sizes[i] - 1, k);
    }
  }

  /** The walk over the bits `v` leaves the tree after exactly `m` bits. */
  ghost predicate LeavesAfter(t: Trie, v: nat, m: nat) {
    m > FAST_BITS && At(v, m - 1) in t.at && At(v, m) !in t.at
  }

  lemma LeavesOnce(t: Trie, v: nat, a: nat, b: nat)
    requires WellFormed(t) && LeavesAfter(t, v, a) && LeavesAfter(t, v, b)
    ensures a == b
  {
    hide Low, WellFormed;
    if a < b {
      AncestorIn(t, v, b - 1, a);
    } else if b < a {
      AncestorIn(t, v, a - 1, b);
    }
  }

  /** What decoding the bits `v` has to report: the code they start with, if any, and symbol 0 otherwise. */
  ghost predicate Decodes(sizes: seq<nat>, v: nat, sym: nat, len: nat) {
    && (forall i :: Matches(sizes, v, i) ==> sym == i && len == sizes[i])
    && (sym > 0 ==> Matches(sizes, v, sym))
  }

  /** What the walk finds at its end. */
  lemma WalkEnds(lookUp: seq<int>, tree: seq<int>, t: Trie, sizes: seq<nat>, v: nat, m: nat, x: nat)
    requires Building(lookUp, tree, t, sizes, |sizes|) && LeavesAfter(t, v, m) && lookUp[v % FAST_SIZE] < 0
    requires Proper(At(v, m)) && Value(lookUp, tree, t, At(v, m)) == x
    ensures Decodes(sizes, v, x, m)
  {
    hide RevCode, Value, Proper, NeededBy, Open, Placed, Genuine, WellFormed, Needed, Used, Low;
    forall i | Matches(sizes, v, i) ensures x == i && m == sizes[i] {
      WalkMatches(lookUp, tree, t, sizes, v, m, x, i);
    }
    if x > 0 {
      assert Genuine(sizes, At(v, m), Value(lookUp, tree, t, At(v, m)));
      GenuineMatches(sizes, v, m, x);
    }
  }

  lemma WalkMatches(lookUp: seq<int>, tree: seq<int>, t: Trie, sizes: seq<nat>, v: nat, m: nat, x: nat, i: int)
    requires Building(lookUp, tree, t, sizes, |sizes|) && LeavesAfter(t, v, m)
    requires Proper(At(v, m)) && Value(lookUp, tree, t, At(v, m)) == x
    requires Matches(sizes, v, i) && lookUp[v % FAST_SIZE] < 0
    ensures x == i && m == sizes[i]
  {
    hide RevCode, Value, Proper, NeededBy, Fits, Open, Low, Placed, Genuine, WellFormed, Needed;
    BuildingShapes(lookUp, tree, t, sizes, |sizes|);
    if sizes[i] <= FAST_BITS {
      ShortFound(lookUp, tree, t, sizes, v, i);
      assert false;
    }
    LongFound(lookUp, tree, t, sizes, v, i);
    LeavesOnce(t, v, m, sizes[i]);
  }

  lemma GenuineMatches(sizes: seq<nat>, v: nat, m: nat, x: nat)
    requires m > FAST_BITS && x > 0 && Genuine(sizes, At(v, m), x)
    ensures Matches(sizes, v, x)
  {
    hide RevCode;
  }

  /** What a table entry that is no pointer says. */
  lemma TableEnds(lookUp: seq<int>, tree: seq<int>, t: Trie, sizes: seq<nat>, v: nat, x: nat)
    requires Building(lookUp, tree, t, sizes, |sizes|) && lookUp[v % FAST_SIZE] == x
    ensures Decodes(sizes, v, x % 512, x / 512) && x / 512 <= MAX_CODE
    ensures x / 512 > 0 ==> Matches(sizes, v, x % 512)
  {
    hide RevCode, Value, Proper, NeededBy, Open, Placed, Genuine, WellFormed, Needed, Used, Low;
    FirstEntry(lookUp, tree, t, v);
    forall i | Matches(sizes, v, i) ensures x % 512 == i && x / 512 == sizes[i] {
      TableMatches(lookUp, tree, t, sizes, v, x, i);
    }
    assert Genuine(sizes, At(v, FAST_BITS), x);
    if x > 0 {
      GenuineTable(sizes, v, x);
    }
  }

  lemma TableMatches(lookUp: seq<int>, tree: seq<int>, t: Trie, sizes: seq<nat>, v: nat, x: nat, i: int)
    requires Building(lookUp, tree, t, sizes, |sizes|) && lookUp[v % FAST_SIZE] == x && Matches(sizes, v, i)
    ensures x % 512 == i && x / 512 == sizes[i]
  {
    hide RevCode, Value, Proper, NeededBy, Open, Placed, Genuine, WellFormed, Needed, Fits, Low;
    BuildingShapes(lookUp, tree, t, sizes, |sizes|);
    FirstEntry(lookUp, tree, t, v);
    assert Pointed(lookUp, tree, t, At(v, FAST_BITS));
    if sizes[i] > FAST_BITS {
      LongFound(lookUp, tree, t, sizes, v, i);
      assert false;
    }
    ShortFound(lookUp, tree, t, sizes, v, i);
  }

  lemma GenuineTable(sizes: seq<nat>, v: nat, x: nat)
    requires x > 0 && Genuine(sizes, At(v, FAST_BITS), x)
    ensures Matches(sizes, v, x % 512) && sizes[x % 512] == x / 512 <= MAX_CODE
  {
    hide RevCode;
    assert StartsWith(sizes, At(v, FAST_BITS), x % 512);
    LowLow(v, FAST_BITS, sizes[x % 512]);
  }

  /** Where the decoding of `v` ends: in the table, or after a walk through the tree. */
  ghost predicate Stops(lookUp: seq<int>, t: Trie, v: nat, len: nat)
    requires |lookUp| == FAST_SIZE
  {
    if lookUp[v % FAST_SIZE] >= 0 then len == lookUp[v % FAST_SIZE] / 512 else LeavesAfter(t, v, len)
  }

  lemma MatchOnce(sizes: seq<nat>, v: nat, i: int, j: int)
    requires Fits(sizes, MAX_CODE) && Matches(sizes, v, i) && Matches(sizes, v, j)
    ensures i == j
  {
    hide RevCode, Fits, Low;
    if i != j {
      if sizes[i] <= sizes[j] {
        LeavesApart(sizes, i, j);
        LowLow(v, sizes[j], sizes[i]);
      } else {
        LeavesApart(sizes, j, i);
        LowLow(v, sizes[i], sizes[j]);
      }
    }
  }

  lemma MatchesLow(sizes: seq<nat>, v: nat, n: nat, i: int)
    requires 0 <= i < |sizes| && sizes[i] <= n
    ensures Matches(sizes, v, i) <==> Matches(sizes, Low(v, n), i)
  {
    hide RevCode, Low;
    LowLow(v, n, sizes[i]);
  }

  /** Decoding only the `n` bits at hand, followed by zeros, ends where decoding the whole stream does. */
  lemma StopsEarly(lookUp: seq<int>, tree: seq<int>, t: Trie, sizes: seq<nat>, v: nat, n: nat, len: nat, i: int)
    requires Building(lookUp, tree, t, sizes, |sizes|) && Matches(sizes, v, i)
    requires Stops(lookUp, t, Low(v, n), len) && len <= n && (lookUp[Low(v, n) % FAST_SIZE] >= 0 ==> len > 0)
    ensures sizes[i] == len
  {
    hide RevCode, Value, Proper, NeededBy, Open, Placed, Pointed, Genuine, WellFormed, Needed, Used, Low, Matches, LeavesAfter;
    var x := lookUp[Low(v, n) % FAST_SIZE];
    if x >= 0 {
      TableEnds(lookUp, tree, t, sizes, Low(v, n), x);
      MatchSize(sizes, Low(v, n), x % 512);
      MatchesLow(sizes, v, n, x % 512);
      MatchOnce(sizes, v, i, x % 512);
      assert Decodes(sizes, Low(v, n), x % 512, x / 512);
    } else {
      StopsEarlyInTree(lookUp, tree, t, sizes, v, n, len, i);
    }
  }

  lemma MatchSize(sizes: seq<nat>, v: nat, i: int)
    requires Matches(sizes, v, i)
    ensures 0 <= i < |sizes| && sizes[i] > 0
  {}

  lemma StopsEarlyInTree(lookUp: seq<int>, tree: seq<int>, t: Trie, sizes: seq<nat>, v: nat, n: nat, len: nat, i: int)
    requires Building(lookUp, tree, t, sizes, |sizes|) && Matches(sizes, v, i)
    requires LeavesAfter(t, Low(v, n), len) && len <= n && lookUp[Low(v, n) % FAST_SIZE] < 0
    ensures sizes[i] == len
  {
    hide RevCode, Value, Proper, NeededBy, Open, Placed, Genuine, Pointed, WellFormed, Needed, Fits, Low;
    BuildingShapes(lookUp, tree, t, sizes, |sizes|);
    LowLow(v, n, len);
    LowLow(v, n, len - 1);
    LowLow(v, n, FAST_BITS);
    FirstEntry(lookUp, tree, t, v);
    FirstEntry(lookUp, tree, t, Low(v, n));
    assert LeavesAfter(t, v, len);
    MatchInTree(lookUp, tree, t, sizes, v, i);
    LeavesOnce(t, v, len, sizes[i]);
  }

  lemma MatchInTree(lookUp: seq<int>, tree: seq<int>, t: Trie, sizes: seq<nat>, v: nat, i: int)
    requires Building(lookUp, tree, t, sizes, |sizes|) && Matches(sizes, v, i) && lookUp[v % FAST_SIZE] < 0
    ensures LeavesAfter(t, v, sizes[i])
  {
    hide RevCode, Value, Proper, NeededBy, Open, Placed, Genuine, Pointed, WellFormed, Needed, Fits, Low;
    BuildingShapes(lookUp, tree, t, sizes, |sizes|);
    if sizes[i] <= FAST_BITS {
      ShortFound(lookUp, tree, t, sizes, v, i);
      assert false;
    }
    LongFound(lookUp, tree, t, sizes, v, i);
  }

  /** A negative entry leads to the node for the bits read so far. */
  ghost predicate AtNode(t: Trie, v: nat, m: nat, temp: int) {
    At(v, m) in t.at && temp == Pointer(t.at[At(v, m)])
  }

  lemma EnterWalk(lookUp: seq<int>, tree: seq<int>, t: Trie, sizes: seq<nat>, v: nat)
    requires Building(lookUp, tree, t, sizes, |sizes|) && lookUp[v % FAST_SIZE] < 0
    ensures AtNode(t, v, FAST_BITS, lookUp[v % FAST_SIZE])
  {
    hide RevCode, Value, Proper, NeededBy, Open, Placed, Genuine, WellFormed, Needed, Fits, Low, At;
    FirstEntry(lookUp, tree, t, v);
    assert Pointed(lookUp, tree, t, At(v, FAST_BITS));
  }

  lemma StepWalk(lookUp: seq<int>, tree: seq<int>, t: Trie, sizes: seq<nat>, v: nat, m: nat, temp: int)
    requires Building(lookUp, tree, t, sizes, |sizes|) && AtNode(t, v, m, temp)
    ensures FAST_BITS <= m < MAX_CODE && 0 <= -temp - 1 + Bit(v, m) < TREE_SIZE
    ensures Proper(At(v, m + 1)) && Value(lookUp, tree, t, At(v, m + 1)) == tree[-temp - 1 + Bit(v, m)]
    ensures if tree[-temp - 1 + Bit(v, m)] < 0 then AtNode(t, v, m + 1, tree[-temp - 1 + Bit(v, m)])
            else LeavesAfter(t, v, m + 1)
  {
    hide RevCode, Value, Proper, NeededBy, Open, Placed, Genuine, WellFormed, Needed, Fits, Low, At, Bit;
    NextEntry(lookUp, tree, t, v, m);
    assert Pointed(lookUp, tree, t, At(v, m + 1));
  }

  lemma MatchSizes(sizes: seq<nat>, v: nat, sym: nat, len: nat)
    requires Decodes(sizes, v, sym, len)
    ensures forall i :: Matches(sizes, v, i) ==> sizes[i] == len > 0
  {
    hide RevCode, Low;
  }

  /** While the walk is still in the tree after `m` bits, the code has more bits than that. */
  lemma StillInside(lookUp: seq<int>, tree: seq<int>, t: Trie, sizes: seq<nat>, v: nat, m: nat, temp: int)
    requires Building(lookUp, tree, t, sizes, |sizes|) && AtNode(t, v, m, temp) && lookUp[v % FAST_SIZE] < 0
    ensures forall i :: Matches(sizes, v, i) ==> sizes[i] > m
  {
    hide RevCode, Value, Proper, NeededBy, Open, Placed, Genuine, Pointed, WellFormed, Needed, Fits, Low, At, Matches;
    BuildingShapes(lookUp, tree, t, sizes, |sizes|);
    forall i | Matches(sizes, v, i) ensures 0 <= i < |sizes| && sizes[i] > m {
      MatchSize(sizes, v, i);
      MatchInTree(lookUp, tree, t, sizes, v, i);
      if sizes[i] <= m {
        AncestorIn(t, v, m, sizes[i]);
      }
    }
  }
}
