/** MemoryPool: a doubly linked list of chunks that behaves like one growing sequence. */
module MemoryPool {
  import opened Powers

  class Chunk<T(0)> {
    const data: array<T>
    var next: Chunk?<T>
    var prev: Chunk?<T>

    constructor (size: nat)
      ensures fresh(data) && data.Length == size && next == null && prev == null
    {
      data := new T[size];
      next, prev := null, null;
    }
  }

  /** The elements of whole chunks, one chunk after the other. */
  ghost function Joined<T(0)>(cs: seq<Chunk<T>>): seq<T>
    reads set c: Chunk<T> | c in cs :: c.data
  {
    if cs == [] then [] else Joined(cs[..|cs| - 1]) + cs[|cs| - 1].data[..]
  }

  ghost predicate Sized<T(0)>(cs: seq<Chunk<T>>, size: nat) {
    forall i :: 0 <= i < |cs| ==> cs[i].data.Length == size
  }

  /** Every chunk and every array occurs once. */
  ghost predicate Distinct<T(0)>(cs: seq<Chunk<T>>) {
    forall i, j :: 0 <= i < j < |cs| ==> cs[i] != cs[j] && cs[i].data != cs[j].data
  }

  /** Each chunk and its neighbours point at each other, and the ends at nothing. */
  ghost predicate Linked<T(0)>(cs: seq<Chunk<T>>)
    reads cs
  {
    && (forall i :: 0 <= i < |cs| ==> cs[i].next == After(cs, i))
    && (forall i :: 0 <= i < |cs| ==> cs[i].prev == Ahead(cs, i))
  }

  ghost function After<T(0)>(cs: seq<Chunk<T>>, i: nat): Chunk?<T> {
    if i + 1 < |cs| then cs[i + 1] else null
  }

  ghost function Ahead<T(0)>(cs: seq<Chunk<T>>, i: nat): Chunk?<T> {
    if 0 < i <= |cs| then cs[i - 1] else null
  }

  lemma NoneJoined<T(0)>()
    ensures Joined<T>([]) == []
  {}

  lemma NoLinks<T(0)>(size: nat)
    ensures Linked<T>([]) && Sized<T>([], size) && Distinct<T>([])
  {}

  lemma OneMore<T(0)>(cs: seq<Chunk<T>>, c: Chunk<T>, size: nat)
    requires Sized(cs, size) && Distinct(cs) && c.data.Length == size && forall d :: d in cs ==> d != c && d.data != c.data
    ensures Sized(cs + [c], size) && Distinct(cs + [c])
  {
    assert forall i :: 0 <= i < |cs| ==> cs[i] in cs;
  }

  lemma LinkedAlone<T(0)>(c: Chunk<T>)
    requires c.next == null && c.prev == null
    ensures Linked([c])
  {}

  lemma {:induction false} JoinedSize<T(0)>(cs: seq<Chunk<T>>, size: nat)
    requires Sized(cs, size)
    ensures |Joined(cs)| == |cs| * size
  {
    if cs != [] {
      JoinedSize(cs[..|cs| - 1], size);
      assert |cs| * size == (|cs| - 1) * size + size;
    }
  }

  lemma {:induction false} PartOf<T(0)>(cs: seq<Chunk<T>>, size: nat, n: nat, from: nat)
    requires Sized(cs, size) && n < |cs| && from == n * size
    ensures from + size == (n + 1) * size && from + size <= |Joined(cs)| && Joined(cs)[from..from + size] == cs[n].data[..]
  {
    JoinedSize(cs, size);
    var m := |cs| - 1;
    JoinedSize(cs[..m], size);
    assert |cs| * size == m * size + size;
    assert from + size == (n + 1) * size;
    if n < m { PartOf(cs[..m], size, n, from); }
  }

  lemma JoinedAt<T(0)>(cs: seq<Chunk<T>>, size: nat, k: nat, q: nat, r: nat)
    requires Sized(cs, size) && q < |cs| && r < size && k == q * size + r
    ensures k < |Joined(cs)| && Joined(cs)[k] == cs[q].data[r]
  {
    hide Joined;
    PartOf(cs, size, q, k - r);
    InPart(Joined(cs), k - r, size, r);
  }

  lemma InPart<T>(s: seq<T>, from: nat, n: nat, r: nat)
    requires from + n <= |s| && r < n
    ensures s[from + r] == s[from..from + n][r]
  {}

  class Pool<T(0)> {
    /** The number of elements in a chunk. */
    const SIZE: nat
    var root: Chunk?<T>
    var chunk: Chunk?<T>
    var index: nat
    /** All chunks of the list, and the place of the current one. */
    ghost var chunks: seq<Chunk<T>>
    ghost var cur: nat

    ghost predicate Valid()
      reads this, chunks
    {
      && SIZE > 0 && index <= SIZE && Sized(chunks, SIZE) && Distinct(chunks) && Linked(chunks)
      && if chunks == [] then root == null && chunk == null && index == SIZE && cur == 0
         else root == chunks[0] && cur < |chunks| && chunk == chunks[cur]
    }

    ghost function Arrays(): set<array<T>>
      reads this`chunks
    {
      set c: Chunk<T> | c in chunks :: c.data
    }

    /** What has been added. */
    ghost function Contents(): seq<T>
      requires Valid()
      reads this, chunks, Arrays()
    {
      if chunks == [] then [] else Joined(chunks[..cur]) + chunks[cur].data[..index]
    }

    /** What the current chunk still holds behind the last element. */
    ghost function Behind(): seq<T>
      requires Valid()
      reads this, chunks, Arrays()
    {
      if chunks == [] then [] else chunks[cur].data[index..]
    }

    constructor (size: nat)
      requires size > 0
      ensures Valid() && Contents() == [] && chunks == [] && SIZE == size
    {
      SIZE, root, chunk, index := size, null, null, size;
      chunks, cur := [], 0;
    }

    /** Where an element is stored; it stays there for as long as the chunks up to it stay on the list. */
    lemma ElementAt(k: nat, q: nat, r: nat)
      requires Valid() && k < |Contents()| && r < SIZE && k == q * SIZE + r
      ensures q < |chunks| && chunks[q].data.Length == SIZE && Contents()[k] == chunks[q].data[r]
    {
      hide Linked, Distinct, Joined;
      WithBehind();
      var whole := chunks[..cur + 1];
      assert |Contents()| <= |Joined(whole)| && Contents()[k] == Joined(whole)[k];
      hide Contents, Behind;
      JoinedSize(whole, SIZE);
      if q > cur { MulMonotone(cur + 1, q, SIZE); }
      JoinedAt(whole, SIZE, k, q, r);
    }

    /** The list grows by one empty chunk, which becomes the current one. */
    method AppendChunk() returns (newChunk: Chunk<T>)
      requires Valid() && cur + 1 >= |chunks|
      modifies this, chunks
      ensures fresh(newChunk) && fresh(newChunk.data)
      ensures Valid() && index == 0 && chunks == old(chunks) + [newChunk] && cur == |old(chunks)|
    {
      hide Sized, Distinct, Linked;
      ghost var cs := chunks;
      index := 0;
      newChunk := new Chunk<T>(SIZE);
      OneMore(cs, newChunk, SIZE);
      if chunk != null {
        LinkBehind(cs, chunk, newChunk);
        chunk := newChunk;
      } else {
        root, chunk := newChunk, newChunk;
        assert cs + [newChunk] == [newChunk];
        LinkedAlone(newChunk);
      }
      cur := |cs|;
      chunks := cs + [newChunk];
    }

    static method LinkBehind(ghost cs: seq<Chunk<T>>, last: Chunk<T>, c: Chunk<T>)
      requires cs != [] && Linked(cs) && Distinct(cs) && c !in cs && last == cs[|cs| - 1] && c.next == null
      modifies last, c
      ensures Linked(cs + [c])
    {
      last.next := c;
      c.prev := last;
      ghost var ds := cs + [c];
      forall i | 0 <= i < |ds| ensures ds[i].next == After(ds, i) && ds[i].prev == Ahead(ds, i) {
        if i < |cs| {
          assert ds[i] == cs[i] && (i > 0 ==> ds[i - 1] == cs[i - 1]);
          assert old(cs[i].next) == After(cs, i) && old(cs[i].prev) == Ahead(cs, i);
          assert cs[i] == last <==> i == |cs| - 1;
        } else {
          assert ds[i] == c;
        }
      }
    }

    /** The links of the current chunk tell whether it is the last. */
    lemma NextOne()
      requires Valid() && chunks != []
      ensures chunk.next == After(chunks, cur) && chunk.prev == Ahead(chunks, cur)
    {
      assert chunks[cur].next == After(chunks, cur) && chunks[cur].prev == Ahead(chunks, cur);
    }

    lemma WithBehind()
      requires Valid() && chunks != []
      ensures Contents() + Behind() == Joined(chunks[..cur + 1])
    {
      assert chunks[..cur + 1][..cur] == chunks[..cur];
      assert chunks[cur].data[..] == chunks[cur].data[..index] + chunks[cur].data[index..];
    }

    /** The next chunk of the list if there is one, or else a new one. */
    method AddChunk()
      requires Valid()
      modifies this, chunks
      ensures Valid() && index == 0 && chunks != [] && Contents() == old(Contents() + Behind())
      ensures cur == if old(chunks) == [] then 0 else old(cur) + 1
      ensures old(cur + 1 < |chunks|) ==> chunks == old(chunks)
      ensures old(cur + 1 >= |chunks|) ==> |chunks| == |old(chunks)| + 1
      ensures old(chunks) <= chunks && forall i :: |old(chunks)| <= i < |chunks| ==> fresh(chunks[i]) && fresh(chunks[i].data)
    {
      hide Sized, Distinct, Linked, Joined;
      ghost var was, cs := Contents() + Behind(), chunks;
      if cs != [] { WithBehind(); }
      if chunk == null || chunk.next == null {
        if chunk != null { NextOne(); } else { NoneJoined<T>(); }
        assert cs == [] || cs == cs[..cur + 1];
        assert Joined(cs) == was;
        var c := AppendChunk();
        assert chunks[..cur] == cs && chunks[cur].data[..0] == [];
      } else {
        NextOne();
        index := 0;
        chunk := chunk.next;
        cur := cur + 1;
      }
    }

    /** Writing behind the last element of the current chunk touches nothing that has been added. */
    method Store(items: seq<T>)
      requires Valid() && chunks != [] && index + |items| <= SIZE
      modifies this`index, chunk.data
      ensures Valid() && index == old(index) + |items| && Contents() == old(Contents()) + items
    {
      hide Sized, Linked, Distinct, Joined;
      ApartFromOthers();
      StoreInto(chunk.data, index, items);
      index := index + |items|;
      assert chunk.data[..index] == old(chunk.data[..])[..old(index)] + items;
    }

    lemma ApartFromOthers()
      requires Valid() && chunks != []
      ensures chunk.data.Length == SIZE && forall c :: c in chunks[..cur] ==> c.data != chunk.data
    {}

    /** memcpy. */
    static method StoreInto(a: array<T>, from: nat, items: seq<T>)
      requires from + |items| <= a.Length
      modifies a
      ensures a[..] == old(a[..])[..from] + items + old(a[..])[from + |items|..]
    {
      forall i | 0 <= i < |items| {
        a[from + i] := items[i];
      }
    }

    /** One element more; where the others are does not change. */
    method Add(item: T)
      requires Valid()
      modifies this, chunks, Arrays()
      ensures Valid() && Contents() == old(Contents()) + [item] && old(chunks) <= chunks
      ensures |chunks| == |old(chunks)| || |chunks| == cur + 1 == |old(chunks)| + 1
    {
      hide Sized, Linked, Distinct, Joined;
      ghost var was := Contents();
      if index >= SIZE {
        NothingBehind();
        AddChunk();
      }
      Store([item]);
    }

    lemma NothingBehind()
      requires Valid() && index == SIZE
      ensures Behind() == []
    {}

    /** A range of elements. Without overlap it is kept within one chunk, if it fits one; what is left of the current chunk
        then stays unused but counts as added. */
    method AddRange(items: seq<T>, allowOverlap: bool) returns (ok: bool)
      requires Valid()
      modifies this, chunks, Arrays()
      ensures Valid() && old(chunks) <= chunks && (ok <==> items != [] && (allowOverlap || |items| <= SIZE))
      ensures |chunks| == |old(chunks)| || |chunks| == cur + 1
      ensures !ok ==> Contents() == old(Contents()) && chunks == old(chunks)
      ensures ok && allowOverlap ==> Contents() == old(Contents()) + items
      ensures ok && !allowOverlap ==>
                Contents() == old(Contents()) + (if |items| >= SIZE - old(index) then old(Behind()) else []) + items && |items| <= index
    {
      hide Sized, Linked, Distinct, Joined, Contents, Behind;
      if |items| == 0 || (|items| > SIZE && !allowOverlap) {
        return false;
      }
      if |items| >= SIZE - index && !allowOverlap {
        ghost var cs, arrays := chunks, Arrays();
        AddChunk();
        assert forall c :: c in chunks ==> c in cs || fresh(c);
        forall a | a in Arrays() ensures a in arrays || fresh(a) {
          var c :| c in chunks && c.data == a;
          assert c in cs ==> c.data in arrays;
        }
      }
      AddItems(items);
      ok := true;
    }

    /** The copying loop: chunk by chunk. */
    method AddItems(items: seq<T>)
      requires Valid()
      modifies this, chunks, Arrays()
      ensures Valid() && old(chunks) <= chunks && Contents() == old(Contents()) + items
      ensures cur >= old(cur) && (|chunks| == |old(chunks)| || |chunks| == cur + 1)
      ensures |items| <= SIZE - old(index) ==> index == old(index) + |items|
    {
      hide Sized, Linked, Distinct, Joined, Contents, Behind;
      ghost var target := Contents() + items;
      var rest := items;
      while rest != []
        invariant Valid() && old(chunks) <= chunks && Contents() + rest == target && cur >= old(cur) && (|chunks| == |old(chunks)| || |chunks| == cur + 1)
        invariant forall i :: |old(chunks)| <= i < |chunks| ==> fresh(chunks[i]) && fresh(chunks[i].data)
        invariant |items| <= SIZE - old(index) ==> index + |rest| == old(index) + |items|
        decreases |rest|, if index == SIZE then 1 else 0
      {
        var numLeft := SIZE - index;
        var numCopy := if numLeft < |rest| then numLeft else |rest|;
        ghost var was := Contents();
        assert was + rest[..numCopy] + rest[numCopy..] == was + rest;
        if numCopy > 0 {
          assert chunks[cur] in chunks;
          assert chunks[cur] in old(chunks) ==> chunk.data in old(Arrays());
          Store(rest[..numCopy]);
        }
        rest := rest[numCopy..];
        assert Contents() + rest == target;
        if rest != [] {
          NothingBehind();
          AddChunk();
          assert Contents() + rest == target;
        }
      }
    }

    /** Room for `count` elements in the current chunk, or nothing; what the room holds is whatever was there before. */
    method TryAdd(count: nat) returns (ok: bool)
      requires Valid()
      modifies this`index
      ensures Valid() && (ok <==> old(index) + count <= SIZE) && index == old(index) + (if ok then count else 0)
      ensures ok ==> count <= |old(Behind())| && Contents() == old(Contents()) + old(Behind())[..count]
      ensures !ok ==> Contents() == old(Contents())
    {
      hide Linked, Distinct, Joined;
      if index + count <= SIZE {
        index := index + count;
        ok := true;
      } else {
        ok := false;
      }
    }

    /** The last element, from the chunk before if the current one is empty. */
    method Back() returns (found: bool, value: T)
      requires Valid()
      ensures found <==> Contents() != []
      ensures found ==> value == Contents()[|Contents()| - 1]
    {
      hide Linked, Distinct;
      found, value := false, *;
      if chunk != null { NextOne(); JoinedSize(chunks[..cur], SIZE); }
      if chunk != null && index > 0 {
        found, value := true, chunk.data[index - 1];
      } else if chunk != null && chunk.prev != null {
        assert chunks[..cur][cur - 1] == chunks[cur - 1];
        found, value := true, chunk.prev.data[SIZE - 1];
      }
    }

    predicate IsEmpty()
      reads this
    {
      chunk == null || (chunk == root && index == 0)
    }

    lemma EmptyMeansEmpty()
      requires Valid()
      ensures IsEmpty() <==> Contents() == []
    {
      hide Linked, Joined;
      if chunks != [] {
        JoinedSize(chunks[..cur], SIZE);
        assert cur > 0 ==> cur * SIZE > 0;
        assert chunk == root ==> cur == 0;
        NoneJoined<T>();
      }
    }

    method Size() returns (count: nat)
      requires Valid()
      ensures count == |Contents()|
    {
      hide Linked, Distinct, Joined;
      if root == null {
        return 0;
      }
      count := 0;
      var it := root;
      ghost var i := 0;
      while it != chunk
        invariant 0 <= i <= cur && it == chunks[i] && count == i * SIZE
        decreases cur - i
      {
        AfterOne(i);
        count := count + SIZE;
        it := it.next;
        i := i + 1;
      }
      OnlyOnce(i);
      JoinedSize(chunks[..cur], SIZE);
      count := count + index;
    }

    lemma AfterOne(i: nat)
      requires Valid() && i < |chunks| && i <= cur && chunks[i] != chunk
      ensures i < cur && chunks[i].next == chunks[i + 1]
    {
      assert chunks[i].next == After(chunks, i);
    }

    lemma OnlyOnce(i: nat)
      requires Valid() && i < |chunks| && chunks[i] == chunk
      ensures i == cur
    {}

    /** With the memory kept, the chunks stay on the list, to be filled again from the first; else they go. */
    method Clear(preserveMemory: bool)
      requires Valid()
      modifies this
      ensures Valid() && Contents() == [] && chunks == if preserveMemory then old(chunks) else []
      ensures chunks != [] ==> cur == 0 && index == 0
    {
      hide Linked, Distinct, Sized;
      if !preserveMemory {
        if root != null {
          root, chunk, index := null, null, SIZE;
          chunks, cur := [], 0;
          NoLinks<T>(SIZE);
        }
      } else if root != null {
        index, chunk := 0, root;
        cur := 0;
      }
    }

    /** Every element, in the order in which it was added. */
    method ForEach() returns (visited: seq<T>)
      requires Valid()
      ensures visited == Contents()
    {
      hide Linked, Distinct;
      visited := [];
      var it := root;
      ghost var n := 0;
      while it != chunk
        invariant chunks == [] ==> it == null && visited == []
        invariant chunks != [] ==> 0 <= n <= cur && it == chunks[n] && visited == Joined(chunks[..n])
        decreases cur - n
      {
        AfterOne(n);
        visited := VisitChunk(it.data, SIZE, visited);
        assert chunks[..n + 1][..n] == chunks[..n] && it.data[..SIZE] == it.data[..];
        it := it.next;
        n := n + 1;
      }
      if chunk != null {
        OnlyOnce(n);
        visited := VisitChunk(chunk.data, index, visited);
      }
    }

    static method VisitChunk(data: array<T>, n: nat, before: seq<T>) returns (visited: seq<T>)
      requires n <= data.Length
      ensures visited == before + data[..n]
    {
      visited := before;
      var i := 0;
      while i < n
        invariant 0 <= i <= n && visited == before + data[..i]
      {
        visited := visited + [data[i]];
        i := i + 1;
      }
    }

    /** Where chunk `n` is in the sequence. */
    lemma ChunkOf(n: nat, from: nat, all: seq<T>)
      requires Valid() && chunks != [] && n < cur && all == Contents() && from == n * SIZE
      ensures from + SIZE == (n + 1) * SIZE && from + SIZE <= |all| && chunks[n].data.Length == SIZE
      ensures all[from..from + SIZE] == chunks[n].data[..]
    {
      hide Linked, Distinct, Joined;
      var joined := Joined(chunks[..cur]);
      PartOf(chunks[..cur], SIZE, n, from);
      assert all == joined + chunks[cur].data[..index];
      assert all[from..from + SIZE] == joined[from..from + SIZE];
    }

    lemma TailOf(from: nat, all: seq<T>)
      requires Valid() && chunks != [] && all == Contents() && from == cur * SIZE
      ensures |all| == from + index && all[from..] == chunk.data[..index]
    {
      hide Linked, Distinct, Joined;
      JoinedSize(chunks[..cur], SIZE);
    }

    /** The part of the sequence that comes next goes to its place. */
    static method CopyOn(destination: array<T>, from: nat, items: seq<T>, ghost was: seq<T>, ghost all: seq<T>)
      requires from + |items| <= |all| <= |was| == destination.Length && items == all[from..from + |items|]
      requires destination[..] == all[..from] + was[from..]
      modifies destination
      ensures destination[..] == all[..from + |items|] + was[from + |items|..]
    {
      StoreInto(destination, from, items);
      assert all[..from] + items == all[..from + |items|];
    }

    /** The full chunks, one after the other. */
    method CopyChunks(destination: array<T>, ghost all: seq<T>) returns (curIndex: nat)
      requires Valid() && all == Contents() && |all| <= destination.Length && destination !in Arrays()
      modifies destination
      ensures Contents() == all && curIndex <= |all| && destination[..] == all[..curIndex] + old(destination[..])[curIndex..]
      ensures if chunks == [] then curIndex == 0 else curIndex == cur * SIZE
    {
      hide Linked, Distinct, Joined, Contents;
      ghost var was := destination[..];
      curIndex := 0;
      var it := root;
      ghost var n := 0;
      while it != chunk
        invariant chunks == [] ==> it == null && curIndex == 0
        invariant chunks != [] ==> 0 <= n <= cur && it == chunks[n] && curIndex == n * SIZE
        invariant all == Contents() && curIndex <= |all| && destination[..] == all[..curIndex] + was[curIndex..]
        decreases cur - n
      {
        AfterOne(n);
        ChunkOf(n, curIndex, all);
        assert it.data in Arrays();
        CopyOn(destination, curIndex, it.data[..], was, all);
        curIndex := curIndex + SIZE;
        it := it.next;
        n := n + 1;
      }
      if chunk != null { OnlyOnce(n); }
    }

    method ToArray(destination: array<T>)
      requires Valid() && |Contents()| <= destination.Length && destination !in Arrays()
      modifies destination
      ensures destination[..] == Contents() + old(destination[..])[|Contents()|..]
    {
      hide Linked, Distinct, Joined, Contents;
      ghost var was, all := destination[..], Contents();
      var curIndex := CopyChunks(destination, all);
      if chunk == null { NoContents(); }
      if chunk != null {
        TailOf(curIndex, all);
        if index > 0 {
          CopyOn(destination, curIndex, chunk.data[..index], was, all);
        }
      }
      assert all[..|all|] == all;
    }

    lemma NoContents()
      requires Valid() && chunk == null
      ensures Contents() == []
    {}
  }

  // ---------- const_iterator ----------

  /** Where the iterator is after `k` steps: the number of its chunk, and the place in it. */
  function Position(size: nat, k: nat): (p: (nat, nat))
    requires size > 0
  {
    if k == 0 then (0, 0)
    else
      var p := Position(size, k - 1);
      if p.1 < size - 1 then (p.0, p.1 + 1) else (p.0 + 1, 0)
  }

  lemma {:induction false} PositionIs(size: nat, k: nat)
    requires size > 0
    ensures Position(size, k) == (k / size, k % size)
  {
    if k > 0 {
      PositionIs(size, k - 1);
      var q, r := (k - 1) / size, (k - 1) % size;
      DivMod(k - 1, size);
      if r < size - 1 {
        DivModUnique(k, q, r + 1, size);
      } else {
        assert (q + 1) * size == q * size + size;
        DivModUnique(k, q + 1, 0, size);
      }
    } else {
      DivModUnique(0, 0, 0, size);
    }
  }

  /** The iterator gets to the end, after exactly as many steps as there are elements, if and only if the last chunk is
      not quite full: otherwise it steps from the last element to the next chunk, and past the end. */
  lemma IteratorEnds(size: nat, cur: nat, index: nat)
    requires size > 0 && index <= size
    ensures (exists k :: Position(size, k) == (cur, index)) <==> index < size
    ensures forall k :: Position(size, k) == (cur, index) ==> k == cur * size + index
  {
    forall k | Position(size, k) == (cur, index) ensures index < size && k == cur * size + index {
      PositionIs(size, k);
      DivMod(k, size);
    }
    if index < size {
      PositionIs(size, cur * size + index);
      DivModUnique(cur * size + index, cur, index, size);
    }
  }
}
