/** tinfl's Huffman tables: built from code lengths, then walked for one code at a time. */
module HuffmanDecoder {
  import opened Powers
  import opened HuffmanTree
  import opened Canonical
  import opened HuffmanTrie

  class HuffTable {
    const codeSize: array<nat>
    const lookUp: array<int>
    const tree: array<int>
    /** Which prefixes the tree nodes stand for. */
    ghost var trie: Trie

    constructor ()
      ensures fresh(codeSize) && fresh(lookUp) && fresh(tree) && Shaped()
    {
      codeSize := new nat[MAX_SYMBOLS](i => 0);
      lookUp := new int[FAST_SIZE](i => 0);
      tree := new int[TREE_SIZE](i => 0);
      trie := Trie([], map[]);
    }

    predicate Shaped() {
      && codeSize.Length == MAX_SYMBOLS && lookUp.Length == FAST_SIZE && tree.Length == TREE_SIZE
      && lookUp as object != tree && lookUp as object != codeSize && tree as object != codeSize
    }

    /** The codes of the symbols below `s` are in the table. */
    ghost predicate Holds(sizes: seq<nat>, s: nat)
      reads this, lookUp, tree
    {
      Building(lookUp[..], tree[..], trie, sizes, s)
    }

    /** The table entry on the way to the code of `s`, made to point at a node. */
    method EnterTree(ghost sizes: seq<nat>, s: nat, rev: nat, treeNext: int) returns (treeCur: int, treeNext': int)
      requires lookUp != tree && Holds(sizes, s) && Acceptable(sizes) && s < |sizes| && sizes[s] > FAST_BITS
      requires rev == RevCode(sizes, s) && treeNext == Pointer(|trie.nodes|)
      modifies this`trie, lookUp
      ensures Holds(sizes, s) && treeNext' == Pointer(|trie.nodes|)
      ensures At(rev, FAST_BITS) in trie.at && treeCur == Pointer(trie.at[At(rev, FAST_BITS)])
    {
      hide Low, RevCode, Value, Proper, WellFormed, NeededBy, Acceptable, Wrote;
      treeNext' := treeNext;
      treeCur := lookUp[rev % FAST_SIZE];
      ghost var q, l := At(rev, FAST_BITS), lookUp[..];
      ghost var t := trie;
      FirstEntry(l, tree[..], t, rev);
      OpenEntry(l, tree[..], t, sizes, s, FAST_BITS);
      if treeCur == 0 {
        WroteLookUp(l, tree[..], t, q, treeNext);
        NewNode(l, tree[..], l[rev % FAST_SIZE := treeNext], tree[..], t, sizes, s, q);
        lookUp[rev % FAST_SIZE] := treeNext;
        trie := Grown(t, q);
        treeCur := treeNext;
        treeNext' := treeNext - 2;
        assert lookUp[..] == l[rev % FAST_SIZE := treeNext];
      }
    }

    /** One bit further down: the node for the first `m + 1` bits of the code. */
    method StepDown(ghost sizes: seq<nat>, s: nat, ghost rev: nat, ghost m: nat, bit: nat, treeCur0: int, treeNext: int)
        returns (treeCur: int, treeNext': int)
      requires lookUp != tree && Holds(sizes, s) && Acceptable(sizes) && s < |sizes| && m + 1 < sizes[s]
      requires rev == RevCode(sizes, s) && treeNext == Pointer(|trie.nodes|) && bit == Bit(rev, m)
      requires At(rev, m) in trie.at && treeCur0 == Pointer(trie.at[At(rev, m)])
      modifies this`trie, tree
      ensures Holds(sizes, s) && treeNext' == Pointer(|trie.nodes|)
      ensures At(rev, m + 1) in trie.at && treeCur == Pointer(trie.at[At(rev, m + 1)])
    {
      hide Low, RevCode, Value, Proper, WellFormed, NeededBy, Acceptable, Wrote, Bit, Parent, LastBit, Placed, Fits;
      ghost var q, a, t := At(rev, m + 1), tree[..], trie;
      NextEntry(lookUp[..], a, t, rev, m);
      OpenEntry(lookUp[..], a, t, sizes, s, m + 1);
      treeNext' := treeNext;
      treeCur := treeCur0 - bit;
      var x := -treeCur - 1;
      if tree[x] == 0 {
        WroteTree(lookUp[..], a, t, q, treeNext);
        NewNode(lookUp[..], a, lookUp[..], a[x := treeNext], t, sizes, s, q);
        tree[x] := treeNext;
        trie := Grown(t, q);
        treeCur := treeNext;
        treeNext' := treeNext - 2;
        assert tree[..] == a[x := treeNext];
      } else {
        treeCur := tree[x];
      }
    }

    /** The last bit: the code of `s` ends here. */
    method SetLeaf(ghost sizes: seq<nat>, s: nat, ghost rev: nat, bit: nat, treeCur: int)
      requires lookUp != tree && Holds(sizes, s) && s < |sizes| && sizes[s] > FAST_BITS
      requires rev == RevCode(sizes, s) && bit == Bit(rev, sizes[s] - 1)
      requires At(rev, sizes[s] - 1) in trie.at && treeCur == Pointer(trie.at[At(rev, sizes[s] - 1)])
      modifies tree
      ensures Holds(sizes, s + 1)
    {
      hide Low, RevCode, Value, Proper, WellFormed, NeededBy, Wrote, Bit, Parent, LastBit, Placed, Fits;
      ghost var q, a := At(rev, sizes[s]), tree[..];
      NextEntry(lookUp[..], a, trie, rev, sizes[s] - 1);
      LeafOnPath(sizes, s);
      WroteTree(lookUp[..], a, trie, q, s);
      var x := -(treeCur - bit) - 1;
      NewLeaf(lookUp[..], a, lookUp[..], a[x := s], trie, sizes, s);
      tree[x] := s;
      assert tree[..] == a[x := s];
    }

    method InsertShort(ghost sizes: seq<nat>, s: nat, rev0: nat, size: nat)
      requires lookUp != tree && Holds(sizes, s) && s < |sizes| && 1 <= size == sizes[s] <= FAST_BITS
      requires rev0 == RevCode(sizes, s)
      modifies lookUp
      ensures Holds(sizes, s + 1)
    {
      hide Low, RevCode, Building, Filled, Pow2;
      ghost var l := lookUp[..];
      BuildingShapes(l, tree[..], trie, sizes, s);
      FillStarts(l, sizes, s);
      var k := size * 512 + s;
      var rev := rev0;
      while rev < FAST_SIZE
        invariant Filled(l, lookUp[..], sizes, s, rev) && Low(rev, sizes[s]) == RevCode(sizes, s)
      {
        FillStep(l, lookUp[..], sizes, s, rev);
        ghost var was := lookUp[..];
        lookUp[rev] := k;
        assert lookUp[..] == was[rev := k];
        rev := rev + Pow2(size);
      }
      FillEnds(l, lookUp[..], sizes, s, rev);
      ShortCode(l, tree[..], lookUp[..], trie, sizes, s);
    }

    method InsertLong(ghost sizes: seq<nat>, s: nat, rev: nat, size: nat, treeNext0: int) returns (treeNext: int)
      requires lookUp != tree && Holds(sizes, s) && Acceptable(sizes) && s < |sizes| && size == sizes[s] > FAST_BITS
      requires rev == RevCode(sizes, s) && treeNext0 == Pointer(|trie.nodes|)
      modifies this`trie, lookUp, tree
      ensures Holds(sizes, s + 1) && treeNext == Pointer(|trie.nodes|)
    {
      hide Low, RevCode, Building, Acceptable, Bit, Shr;
      var treeCur;
      treeCur, treeNext := EnterTree(sizes, s, rev, treeNext0);
      var r := rev / 512;
      ShrNine(rev);
      var j := size;
      while j > FAST_BITS + 1
        invariant FAST_BITS + 1 <= j <= size && r == Shr(rev, FAST_BITS + (size - j) - 1)
        invariant Holds(sizes, s) && treeNext == Pointer(|trie.nodes|)
        invariant At(rev, FAST_BITS + (size - j)) in trie.at
        invariant treeCur == Pointer(trie.at[At(rev, FAST_BITS + (size - j))])
      {
        NextBit(rev, FAST_BITS + (size - j));
        r := r / 2;
        treeCur, treeNext := StepDown(sizes, s, rev, FAST_BITS + (size - j), r % 2, treeCur, treeNext);
        j := j - 1;
      }
      NextBit(rev, size - 1);
      r := r / 2;
      SetLeaf(sizes, s, rev, r % 2, treeCur);
    }

    method InsertSymbol(ghost sizes: seq<nat>, s: nat, size: nat, code: nat, treeNext0: int) returns (treeNext: int)
      requires lookUp != tree && Holds(sizes, s) && Acceptable(sizes) && s < |sizes| && 1 <= size == sizes[s] <= MAX_CODE
      requires code == Code(sizes, s) && treeNext0 == Pointer(|trie.nodes|)
      modifies this`trie, lookUp, tree
      ensures Holds(sizes, s + 1) && treeNext == Pointer(|trie.nodes|)
    {
      hide Code, Building, Acceptable;
      treeNext := treeNext0;
      var rev := ReverseBits(code, size);
      if size <= FAST_BITS {
        InsertShort(sizes, s, rev, size);
      } else {
        treeNext := InsertLong(sizes, s, rev, size, treeNext);
      }
    }

    method Clear()
      requires lookUp != tree && lookUp.Length == FAST_SIZE && tree.Length == TREE_SIZE
      modifies this`trie, lookUp, tree
      ensures trie == Trie([], map[])
      ensures forall p :: 0 <= p < FAST_SIZE ==> lookUp[p] == 0
      ensures forall x :: 0 <= x < TREE_SIZE ==> tree[x] == 0
    {
      var i := 0;
      while i < FAST_SIZE
        invariant 0 <= i <= FAST_SIZE && forall p :: 0 <= p < i ==> lookUp[p] == 0
      {
        lookUp[i] := 0;
        i := i + 1;
      }
      i := 0;
      while i < TREE_SIZE
        invariant 0 <= i <= TREE_SIZE && forall p :: 0 <= p < i ==> tree[p] == 0
        invariant forall p :: 0 <= p < FAST_SIZE ==> lookUp[p] == 0
      {
        tree[i] := 0;
        i := i + 1;
      }
      trie := Trie([], map[]);
    }

    method CountSizes(tableSize: nat) returns (totalSyms: array<nat>)
      requires tableSize <= codeSize.Length && SizesAtMost(codeSize[..tableSize], MAX_CODE)
      ensures fresh(totalSyms) && totalSyms.Length == 16
      ensures forall d :: 0 <= d < 16 ==> totalSyms[d] == Count(codeSize[..tableSize], d)
    {
      ghost var sizes := codeSize[..tableSize];
      totalSyms := new nat[16](d => 0);
      var i := 0;
      while i < tableSize
        invariant 0 <= i <= tableSize
        invariant forall d :: 0 <= d < 16 ==> totalSyms[d] == CountTo(sizes, i, d)
      {
        var c := codeSize[i];
        assert c == sizes[i];
        totalSyms[c] := totalSyms[c] + 1;
        i := i + 1;
      }
    }

    method FirstNumbers(totalSyms: array<nat>, ghost sizes: seq<nat>)
        returns (nextCode: array<nat>, usedSyms: nat, total: nat)
      requires totalSyms.Length == 16 && |sizes| <= MAX_SYMBOLS
      requires forall d :: 0 <= d < 16 ==> totalSyms[d] == Count(sizes, d)
      ensures fresh(nextCode) && nextCode.Length == 17
      ensures forall d :: 1 <= d <= MAX_CODE ==> nextCode[d] == First(sizes, d)
      ensures total == 2 * Used(sizes, MAX_CODE) && usedSyms == Coded(sizes, MAX_CODE)
    {
      hide Count, First, Coded;
      nextCode := new nat[17](d => 0);
      usedSyms, total := 0, 0;
      var i := 1;
      SumsStart(sizes);
      while i <= 15
        invariant 1 <= i <= 16 && usedSyms == Coded(sizes, i - 1) && total == First(sizes, i)
        invariant forall d :: 1 <= d <= i ==> nextCode[d] == First(sizes, d)
      {
        FirstWordFits(sizes, i + 1);
        SumsStep(sizes, i);
        usedSyms := usedSyms + totalSyms[i];
        total := (total + totalSyms[i]) * 2 % WORD;
        nextCode[i + 1] := total;
        i := i + 1;
      }
      SumsStep(sizes, MAX_CODE);
    }

    /** The table for the first `tableSize` code lengths, or a refusal. */
    method Build(tableSize: nat) returns (ok: bool)
      requires Shaped()
      requires tableSize <= MAX_SYMBOLS && SizesAtMost(codeSize[..tableSize], MAX_CODE)
      modifies this`trie, lookUp, tree
      ensures ok <==> Acceptable(codeSize[..tableSize])
      ensures ok ==> Holds(codeSize[..tableSize], tableSize)
    {
      hide Count, First, Used, SizesAtMost, Building, Acceptable, Coded, Fits, RevCode;
      ghost var sizes := codeSize[..tableSize];
      Clear();
      var totalSyms := CountSizes(tableSize);
      var nextCode, usedSyms, total := FirstNumbers(totalSyms, sizes);
      AcceptTest(sizes, total, usedSyms);
      ok := !(65536 != total && usedSyms > 1);
      if ok {
        NothingHeld(lookUp[..], tree[..], sizes);
        InsertAll(tableSize, nextCode, sizes);
      }
    }

    method InsertAll(tableSize: nat, nextCode: array<nat>, ghost sizes: seq<nat>)
      requires tableSize <= codeSize.Length && sizes == codeSize[..tableSize]
      requires Acceptable(sizes) && SizesAtMost(sizes, MAX_CODE) && Holds(sizes, 0) && trie == Trie([], map[])
      requires nextCode.Length == 17 && forall d :: 1 <= d <= MAX_CODE ==> nextCode[d] == First(sizes, d)
      requires Shaped() && nextCode != codeSize
      modifies this`trie, lookUp, tree, nextCode
      ensures Holds(sizes, tableSize)
    {
      hide Count, First, Used, Building, Acceptable, RevCode;
      var treeNext, s := -1, 0;
      while s < tableSize
        invariant 0 <= s <= tableSize && codeSize[..tableSize] == sizes
        invariant Holds(sizes, s) && treeNext == Pointer(|trie.nodes|)
        invariant forall d :: 1 <= d <= MAX_CODE ==> nextCode[d] == First(sizes, d) + CountTo(sizes, s, d)
      {
        var size := codeSize[s];
        assert size == sizes[s];
        if size == 0 {
          SkipSymbol(lookUp[..], tree[..], trie, sizes, s);
        } else {
          treeNext := InsertSymbol(sizes, s, size, nextCode[size], treeNext);
          nextCode[size] := nextCode[size] + 1;
        }
        s := s + 1;
      }
    }

    /** Symbol and length of the code that the bits of `bitBuf` start with. */
    method Decode(bitBuf: nat, ghost sizes: seq<nat>) returns (sym: nat, codeLen: nat)
      requires Holds(sizes, |sizes|)
      ensures Decodes(sizes, bitBuf, sym, codeLen) && codeLen <= MAX_CODE
      ensures Stops(lookUp[..], trie, bitBuf, codeLen)
    {
      hide Building, Decodes, Value, WellFormed, LeavesAfter, AtNode, Shr, Proper, At;
      HeldShapes(sizes);
      var temp := lookUp[bitBuf % FAST_SIZE];
      if temp >= 0 {
        codeLen, sym := temp / 512, temp % 512;
        TableEnds(lookUp[..], tree[..], trie, sizes, bitBuf, temp);
      } else {
        codeLen := FAST_BITS;
        EnterWalk(lookUp[..], tree[..], trie, sizes, bitBuf);
        while temp < 0
          invariant FAST_BITS <= codeLen <= MAX_CODE
          invariant if temp < 0 then AtNode(trie, bitBuf, codeLen, temp) else LeavesAfter(trie, bitBuf, codeLen)
          invariant temp >= 0 ==> Proper(At(bitBuf, codeLen)) && Value(lookUp[..], tree[..], trie, At(bitBuf, codeLen)) == temp
          decreases MAX_CODE - codeLen
        {
          StepWalk(lookUp[..], tree[..], trie, sizes, bitBuf, codeLen, temp);
          temp := tree[-temp - 1 + Shr(bitBuf, codeLen) % 2];
          codeLen := codeLen + 1;
        }
        WalkEnds(lookUp[..], tree[..], trie, sizes, bitBuf, codeLen, temp);
        sym := temp;
      }
    }

    lemma HeldShapes(sizes: seq<nat>)
      requires Holds(sizes, |sizes|)
      ensures Shapes(lookUp[..], tree[..], trie, sizes) && lookUp.Length == FAST_SIZE && tree.Length == TREE_SIZE
    {
      BuildingShapes(lookUp[..], tree[..], trie, sizes, |sizes|);
    }

    /** Whether the `numBits` bits at hand already contain a whole code: the test by which the slow path
        decides that it needs no further byte. */
    method Suffices(bitBuf: nat, numBits: nat, ghost sizes: seq<nat>) returns (enough: bool, ghost len: nat)
      requires Holds(sizes, |sizes|)
      ensures enough ==> len <= numBits && Stops(lookUp[..], trie, bitBuf, len)
      ensures enough && lookUp[bitBuf % FAST_SIZE] >= 0 ==> len > 0
      ensures !enough ==> forall i :: Matches(sizes, bitBuf, i) ==> sizes[i] > numBits
    {
      hide Building, Value, WellFormed, LeavesAfter, AtNode, Shr, Proper, At, Matches, Decodes;
      HeldShapes(sizes);
      var temp := lookUp[bitBuf % FAST_SIZE];
      len := 0;
      if temp >= 0 {
        len := temp / 512;
        TableEnds(lookUp[..], tree[..], trie, sizes, bitBuf, temp);
        MatchSizes(sizes, bitBuf, temp % 512, len);
        enough := temp / 512 != 0 && numBits >= temp / 512;
      } else if numBits > FAST_BITS {
        var codeLen := FAST_BITS + 1;
        EnterWalk(lookUp[..], tree[..], trie, sizes, bitBuf);
        StepWalk(lookUp[..], tree[..], trie, sizes, bitBuf, FAST_BITS, temp);
        temp := tree[-temp - 1 + Shr(bitBuf, FAST_BITS) % 2];
        while temp < 0 && numBits >= codeLen + 1
          invariant FAST_BITS < codeLen <= numBits && codeLen <= MAX_CODE
          invariant if temp < 0 then AtNode(trie, bitBuf, codeLen, temp) else LeavesAfter(trie, bitBuf, codeLen)
          decreases MAX_CODE - codeLen
        {
          StepWalk(lookUp[..], tree[..], trie, sizes, bitBuf, codeLen, temp);
          temp := tree[-temp - 1 + Shr(bitBuf, codeLen) % 2];
          codeLen := codeLen + 1;
        }
        enough, len := temp >= 0, codeLen;
        if !enough {
          StillInside(lookUp[..], tree[..], trie, sizes, bitBuf, codeLen, temp);
        }
      } else {
        enough := false;
        EnterWalk(lookUp[..], tree[..], trie, sizes, bitBuf);
        StillInside(lookUp[..], tree[..], trie, sizes, bitBuf, FAST_BITS, temp);
      }
    }
  }
}
