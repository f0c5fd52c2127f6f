/** memheap.c itself: header fields and heap counters rewritten in place, proved to compute HeapModel's functions. */
module MemHeaps {
  import opened HeapModel
  import opened HeapTheorems
  import opened HeapRuns
  import opened Rings
  import opened Seqs

  /** The header fields of struct rt_memheap_item, each as a store indexed by header address. */
  datatype Cells = Cells(used: map<int, bool>, owner: map<int, int>, next: Links, prev: Links,
                         nextFree: Links, prevFree: Links)

  ghost predicate SameAt(c: Cells, d: Cells, a: int) {
    && (a in c.used ==> a in d.used && d.used[a] == c.used[a])
    && (a in c.owner ==> a in d.owner && d.owner[a] == c.owner[a])
    && (a in c.next ==> a in d.next && d.next[a] == c.next[a])
    && (a in c.prev ==> a in d.prev && d.prev[a] == c.prev[a])
    && (a in c.nextFree ==> a in d.nextFree && d.nextFree[a] == c.nextFree[a])
    && (a in c.prevFree ==> a in d.prevFree && d.prevFree[a] == c.prevFree[a])
  }

  /** The memory all heaps live in: block headers and payload bytes. */
  class Memory {
    var cells: Cells
    var bytes: seq<bv8>
    constructor (size: nat)
      ensures |bytes| == size
    {
      cells := Cells(map[], map[], map[], map[], map[], map[]);
      bytes := seq(size, _ => 0);
    }
  }

  function Addrs(bs: seq<Block>): (s: seq<int>)
    ensures |s| == |bs| && forall i :: 0 <= i < |bs| ==> s[i] == bs[i].addr
  {
    seq(|bs|, i requires 0 <= i < |bs| => bs[i].addr)
  }

  ghost predicate FlagsMatch(c: Cells, header: int, bs: seq<Block>) {
    forall i {:trigger bs[i]} :: 0 <= i < |bs| ==>
      bs[i].addr in c.used && c.used[bs[i].addr] == bs[i].used && bs[i].addr in c.owner && c.owner[bs[i].addr] == header
  }

  predicate FreeRing(c: Cells, header: int, free: seq<int>) {
    Ring(c.nextFree, c.prevFree, [header] + free)
  }

  predicate BlockRing(c: Cells, bs: seq<Block>) {
    Ring(c.next, c.prev, Addrs(bs))
  }

  /** The header fields in memory spell out the blocks and the free list of h. */
  ghost predicate Represents(c: Cells, header: int, h: Heap) {
    BlockRing(c, h.blocks) && FreeRing(c, header, h.free) && FlagsMatch(c, header, h.blocks)
  }

  /** A well-formed heap, spelled out in memory, whose sentinel lies outside its pool. */
  ghost predicate Holds(c: Cells, header: int, h: Heap) {
    Inv(h) && Represents(c, header, h) && (header < h.start || h.start + h.pool <= header)
  }

  ghost predicate Outside(h: Heap, header: int, a: int) {
    a != header && (a < h.start || h.start + h.pool <= a)
  }

  /** x is a byte of a live payload. */
  ghost predicate Owns(h: Heap, x: int) {
    exists i :: 0 <= i < |h.blocks| && h.blocks[i].used
      && h.blocks[i].addr + HEADER <= x < h.blocks[i].addr + HEADER + h.blocks[i].size
  }

  /** Bytes this heap must not touch: live payloads and everything outside the pool. */
  ghost predicate Kept(h: Heap, x: int) {
    Owns(h, x) || x < h.start || h.start + h.pool <= x
  }

  /** No kept byte outside [lo, hi) changed. */
  ghost predicate KeepsBytes(h: Heap, was: seq<bv8>, now: seq<bv8>, lo: int, hi: int) {
    |now| == |was|
        && forall x {:trigger now[x]} :: 0 <= x < |now| && Kept(h, x) && (x < lo || hi <= x) ==> now[x] == was[x]
  }

  /** No byte outside [lo, hi) changed. */
  predicate SameExcept(was: seq<bv8>, now: seq<bv8>, lo: int, hi: int) {
    |now| == |was| && forall x {:trigger now[x]} :: 0 <= x < |now| && (x < lo || hi <= x) ==> now[x] == was[x]
  }

  // ---------------------------------------------------------------- facts about rings of blocks

  lemma {:induction false} BlockAddrsDistinct(h: Heap)
    requires Inv(h)
    ensures Distinct(Addrs(h.blocks))
    ensures forall i :: 0 <= i < |h.blocks| ==> h.start <= h.blocks[i].addr < h.start + h.pool
  {
    var bs := h.blocks;
    forall i, j | 0 <= i < j < |bs| ensures bs[i].addr != bs[j].addr {
      assert AdjacentAt(bs, i);
      Ordered(bs, i, j);
    }
    forall i | 0 <= i < |bs| ensures h.start <= bs[i].addr < h.start + h.pool {
      if i > 0 { assert AdjacentAt(bs, 0); Ordered(bs, 0, i); }
      if i + 1 < |bs| { assert AdjacentAt(bs, i); Ordered(bs, i, |bs| - 1); }
    }
  }

  lemma {:induction false} FreeRingDistinct(h: Heap, header: int)
    requires Inv(h) && (header < h.start || h.start + h.pool <= header)
    ensures Distinct([header] + h.free) && header !in h.free
    ensures forall a :: a in h.free ==> h.start <= a < h.start + h.pool
  {
    forall a | a in h.free ensures h.start <= a < h.start + h.pool {
      FreeEntry(h, a);
      BlockAddrsDistinct(h);
    }
    var s := [header] + h.free;
    forall i, j | 0 <= i < j < |s| ensures s[i] != s[j] {
      assert s[j] == h.free[j-1] && h.free[j-1] in h.free;
      if i > 0 { FreeDistinct(h, i - 1, j - 1); }
    }
  }

  /** What the header fields of block k say. */
  lemma {:induction false} BlockFields(c: Cells, header: int, h: Heap, k: nat)
    requires Inv(h) && Represents(c, header, h) && k < |h.blocks|
    ensures var a := h.blocks[k].addr;
            && a in c.next && a in c.prev && a in c.used && a in c.owner
            && c.used[a] == h.blocks[k].used && c.owner[a] == header
            && (k + 1 < |h.blocks| ==> c.next[a] == h.blocks[k+1].addr && c.next[a] - a - HEADER == h.blocks[k].size)
            && c.prev[a] == Pred(Addrs(h.blocks), k)
  {
    RingAt(c.next, c.prev, Addrs(h.blocks), k);
    if k + 1 < |h.blocks| { assert AdjacentAt(h.blocks, k); }
  }

  /** Everything before place j of the free list is too small. */
  ghost predicate TooSmallTo(bs: seq<Block>, free: seq<int>, size: int, j: nat) {
    j <= |free|
        && forall i {:trigger free[i]} :: 0 <= i < j ==>
             IndexOf(bs, free[i]) < |bs| && bs[IndexOf(bs, free[i])].size < size
  }

  lemma {:induction false} TooSmallNext(bs: seq<Block>, free: seq<int>, size: int, j: nat)
    requires TooSmallTo(bs, free, size, j) && j < |free|
    requires IndexOf(bs, free[j]) < |bs| && bs[IndexOf(bs, free[j])].size < size
    ensures TooSmallTo(bs, free, size, j + 1)
  {
  }

  lemma {:induction false} FirstFitAt(bs: seq<Block>, free: seq<int>, size: int, j: nat)
    requires TooSmallTo(bs, free, size, j)
    requires j < |free| ==> IndexOf(bs, free[j]) < |bs| && bs[IndexOf(bs, free[j])].size >= size
    ensures FirstFit(bs, free, size) == j
  {
    if j > 0 {
      assert forall i {:trigger free[1..][i]} :: 0 <= i < j - 1 ==> free[1..][i] == free[i+1];
      FirstFitAt(bs, free[1..], size, j - 1);
    }
  }

  lemma {:induction false} WithoutCut(header: int, free: seq<int>, a: int)
    requires a in free
    ensures var k := Position(free, a);
            k < |free| && free[k] == a && [header] + Without(free, a) == Cut([header] + free, k + 1)
  {
    PositionIn(free, a);
    var k := Position(free, a);
    CutAfterHead(header, free, k);
    assert Without(free, a) == free[..k] + free[k+1..];
  }

  lemma {:induction false} PositionIn(free: seq<int>, a: int)
    requires a in free
    ensures Position(free, a) < |free|
  {
    var i :| 0 <= i < |free| && free[i] == a;
  }

  lemma {:induction false} CutAfterHead(header: int, free: seq<int>, k: nat)
    requires k < |free|
    ensures [header] + (free[..k] + free[k+1..]) == Cut([header] + free, k + 1)
  {
  }

  // ---------------------------------------------------------------- link surgery on the header fields

  function Attached(c: Cells, header: int, item: int): Cells
    requires header in c.nextFree
  {
    var f := c.nextFree[header];
    c.(nextFree := c.nextFree[item := f][header := item], prevFree := c.prevFree[item := header][f := item])
  }

  lemma {:induction false} AttachedRing(c: Cells, s: seq<int>, item: int)
    requires Ring(c.nextFree, c.prevFree, s) && Distinct(s) && item !in s
    ensures s[0] in c.nextFree
    ensures var d := Attached(c, s[0], item); Ring(d.nextFree, d.prevFree, Put(s, 0, item))
    ensures forall a :: a !in s && a != item ==> SameAt(c, Attached(c, s[0], item), a)
  {
    RingAt(c.nextFree, c.prevFree, s, 0);
    RingInsert(c.nextFree, c.prevFree, s, 0, item);
    assert c.nextFree[s[0]] in s;
  }

  lemma {:induction false} AttachedFacts(c: Cells, header: int, free: seq<int>, item: int)
    requires FreeRing(c, header, free) && Distinct([header] + free) && item !in free && item != header
    ensures header in c.nextFree && FreeRing(Attached(c, header, item), header, [item] + free)
    ensures forall a :: a != header && a !in free && a != item ==> SameAt(c, Attached(c, header, item), a)
  {
    var s := [header] + free;
    AttachedRing(c, s, item);
    assert Put(s, 0, item) == [header] + ([item] + free);
    assert forall a :: a in s <==> a == header || a in free;
  }

  function Detached(c: Cells, item: int): Cells
    requires item in c.nextFree && item in c.prevFree
  {
    var n, p := c.nextFree[item], c.prevFree[item];
    c.(prevFree := c.prevFree[n := p], nextFree := c.nextFree[p := n])
  }

  lemma {:induction false} DetachedRing(c: Cells, s: seq<int>, k: nat)
    requires Ring(c.nextFree, c.prevFree, s) && Distinct(s) && k < |s| && |s| >= 2
    ensures s[k] in c.nextFree && s[k] in c.prevFree
    ensures var d := Detached(c, s[k]); Ring(d.nextFree, d.prevFree, Cut(s, k))
    ensures forall a :: a !in s ==> SameAt(c, Detached(c, s[k]), a)
  {
    RingAt(c.nextFree, c.prevFree, s, k);
    RingRemove(c.nextFree, c.prevFree, s, k);
    assert c.nextFree[s[k]] in s && c.prevFree[s[k]] in s;
  }

  lemma {:induction false} DetachedFacts(c: Cells, header: int, free: seq<int>, item: int)
    requires FreeRing(c, header, free) && Distinct([header] + free) && item in free
    ensures item in c.nextFree && item in c.prevFree && FreeRing(Detached(c, item), header, Without(free, item))
    ensures forall a :: a != header && a !in free ==> SameAt(c, Detached(c, item), a)
  {
    var s := [header] + free;
    DetachedRing(c, s, Position(free, item) + 1);
    WithoutCut(header, free, item);
    assert forall a :: a in s <==> a == header || a in free;
  }

  function LinkedAfter(c: Cells, item: int, x: int): Cells
    requires item in c.next
  {
    var n := c.next[item];
    c.(prev := c.prev[x := item][n := x], next := c.next[x := n][item := x])
  }

  lemma {:induction false} LinkedAfterFacts(c: Cells, s: seq<int>, k: nat, x: int)
    requires Ring(c.next, c.prev, s) && Distinct(s) && k < |s| && x !in s
    ensures s[k] in c.next && Ring(LinkedAfter(c, s[k], x).next, LinkedAfter(c, s[k], x).prev, Put(s, k, x))
    ensures forall a :: a !in s && a != x ==> SameAt(c, LinkedAfter(c, s[k], x), a)
  {
    RingAt(c.next, c.prev, s, k);
    RingInsert(c.next, c.prev, s, k, x);
    assert c.next[s[k]] in s;
  }

  function Unlinked(c: Cells, item: int): Cells
    requires item in c.next && item in c.prev
  {
    var n, p := c.next[item], c.prev[item];
    c.(next := c.next[p := n], prev := c.prev[n := p])
  }

  lemma {:induction false} UnlinkedFacts(c: Cells, s: seq<int>, k: nat)
    requires Ring(c.next, c.prev, s) && Distinct(s) && k < |s| && |s| >= 2
    ensures s[k] in c.next && s[k] in c.prev && Ring(Unlinked(c, s[k]).next, Unlinked(c, s[k]).prev, Cut(s, k))
    ensures forall a :: a !in s ==> SameAt(c, Unlinked(c, s[k]), a)
  {
    RingAt(c.next, c.prev, s, k);
    RingRemove(c.next, c.prev, s, k);
    assert c.next[s[k]] in s && c.prev[s[k]] in s;
  }

  function Formatted(c: Cells, header: int, item: int): Cells {
    c.(used := c.used[item := false], owner := c.owner[item := header])
  }

  // ---------------------------------------------------------------- what the surgery does to a represented heap

  lemma {:induction false} BetweenFresh(h: Heap, i: nat, x: int)
    requires Inv(h) && i + 1 < |h.blocks| && h.blocks[i].addr < x < h.blocks[i+1].addr
    ensures x !in Addrs(h.blocks)
  {
    forall j | 0 <= j < |h.blocks| ensures h.blocks[j].addr != x {
      assert AdjacentAt(h.blocks, i);
      if j < i { assert AdjacentAt(h.blocks, j); Ordered(h.blocks, j, i); }
      if i + 1 < j { assert AdjacentAt(h.blocks, i+1); Ordered(h.blocks, i + 1, j); }
    }
  }

  lemma {:induction false} RestAddr(h: Heap, k: nat, size: int)
    requires Inv(h) && k + 1 < |h.blocks| && size >= MINIALLOC && Span(h.blocks, k) >= size + HEADER + MINIALLOC
    requires size != h.blocks[k].size
    requires NextFree(h.blocks, k) || size < h.blocks[k].size
    ensures var x := h.blocks[k].addr + size + HEADER;
            x !in Addrs(h.blocks) && x !in h.free && h.start <= x && x + HEADER <= h.blocks[After(h.blocks, k)].addr
            && x + HEADER <= h.start + h.pool
  {
    var bs, x := h.blocks, h.blocks[k].addr + size + HEADER;
    SpanFacts(bs, h.start, h.pool, k);
    BlockAddrsDistinct(h);
    assert AdjacentAt(bs, k);
    if size < bs[k].size { BetweenFresh(h, k, x); } else { BetweenFresh(h, k + 1, x); }
    if x in h.free {
      FreeEntry(h, x);
    }
  }

  lemma {:induction false} ReshapeAddrs(bs: seq<Block>, k: nat, size: int)
    requires k + 1 < |bs|
    ensures var s, x := Addrs(bs), bs[k].addr + size + HEADER;
            Addrs(Reshape(bs, k, size)) == if NextFree(bs, k) then Put(Cut(s, k + 1), k, x) else Put(s, k, x)
    ensures NextFree(bs, k) ==> var s, x := Addrs(bs), bs[k].addr + size + HEADER;
            Put(Cut(s, k + 1), k, x) == Cut(Put(s, k, x), k + 2)
  {
  }

  lemma {:induction false} CutDistinct(s: seq<int>, k: nat)
    requires Distinct(s) && k < |s|
    ensures Distinct(Cut(s, k)) && s[k] !in Cut(s, k)
    ensures forall a :: a in Cut(s, k) ==> a in s
  {
  }

  lemma {:induction false} PutDistinct(s: seq<int>, k: nat, x: int)
    requires Distinct(s) && k < |s| && x !in s
    ensures Distinct(Put(s, k, x))
  {
  }

  /** s[k+1] goes, then x comes after s[k]. */
  lemma {:induction false} GrowLinks(c: Cells, s: seq<int>, k: nat, x: int)
    requires Ring(c.next, c.prev, s) && Distinct(s) && k + 1 < |s| && x !in s
    ensures s[k+1] in c.next && s[k+1] in c.prev && s[k] in Unlinked(c, s[k+1]).next
    ensures var d := LinkedAfter(Unlinked(c, s[k+1]), s[k], x); Ring(d.next, d.prev, Put(Cut(s, k + 1), k, x))
  {
    UnlinkedFacts(c, s, k + 1);
    CutDistinct(s, k + 1);
    assert Cut(s, k + 1)[k] == s[k];
    LinkedAfterFacts(Unlinked(c, s[k+1]), Cut(s, k + 1), k, x);
  }

  /** x comes after s[k], then what was s[k+1] goes. */
  lemma {:induction false} ShrinkLinks(c: Cells, s: seq<int>, k: nat, x: int)
    requires Ring(c.next, c.prev, s) && Distinct(s) && k + 1 < |s| && x !in s
    ensures s[k] in c.next
    ensures var d := LinkedAfter(c, s[k], x);
            && s[k+1] in d.next && s[k+1] in d.prev && x in d.next && d.next[x] == s[k+1]
            && Ring(Unlinked(d, s[k+1]).next, Unlinked(d, s[k+1]).prev, Cut(Put(s, k, x), k + 2))
  {
    LinkedAfterFacts(c, s, k, x);
    PutDistinct(s, k, x);
    var t, d := Put(s, k, x), LinkedAfter(c, s[k], x);
    assert t[k+1] == x && t[k+2] == s[k+1];
    RingAt(d.next, d.prev, t, k + 1);
    UnlinkedFacts(d, t, k + 2);
  }

  lemma {:induction false} AsBlockRing(d: Cells, bs: seq<Block>, t: seq<int>)
    requires Ring(d.next, d.prev, t) && t == Addrs(bs)
    ensures BlockRing(d, bs)
  {
  }

  /** The block list after an allocation splits a block. */
  lemma {:induction false} RingSplit(c: Cells, bs: seq<Block>, k: nat, size: int)
    requires Distinct(Addrs(bs)) && BlockRing(c, bs) && k + 1 < |bs| && !NextFree(bs, k)
    requires bs[k].addr + size + HEADER !in Addrs(bs)
    ensures var a := bs[k].addr; a in c.next && BlockRing(LinkedAfter(c, a, a + size + HEADER), Reshape(bs, k, size))
  {
    var s, x := Addrs(bs), bs[k].addr + size + HEADER;
    LinkedAfterFacts(c, s, k, x);
    assert Put(s, k, x) == Addrs(Reshape(bs, k, size)) by { ReshapeAddrs(bs, k, size); }
    AsBlockRing(LinkedAfter(c, s[k], x), Reshape(bs, k, size), Put(s, k, x));
  }

  /** The block list after growing into the free right neighbour. */
  lemma {:induction false} RingGrow(c: Cells, bs: seq<Block>, k: nat, size: int)
    requires Distinct(Addrs(bs)) && BlockRing(c, bs) && k + 1 < |bs| && NextFree(bs, k)
    requires bs[k].addr + size + HEADER !in Addrs(bs)
    ensures var a, n := bs[k].addr, bs[k+1].addr;
            && n in c.next && n in c.prev && a in Unlinked(c, n).next
            && BlockRing(LinkedAfter(Unlinked(c, n), a, a + size + HEADER), Reshape(bs, k, size))
  {
    var s, x := Addrs(bs), bs[k].addr + size + HEADER;
    GrowLinks(c, s, k, x);
    assert Put(Cut(s, k + 1), k, x) == Addrs(Reshape(bs, k, size)) by { ReshapeAddrs(bs, k, size); }
    AsBlockRing(LinkedAfter(Unlinked(c, s[k+1]), s[k], x), Reshape(bs, k, size), Put(Cut(s, k + 1), k, x));
  }

  /** The block list after shrinking, the rest merging with the free right neighbour. */
  lemma {:induction false} RingShrink(c: Cells, bs: seq<Block>, k: nat, size: int)
    requires Distinct(Addrs(bs)) && BlockRing(c, bs) && k + 1 < |bs| && NextFree(bs, k)
    requires bs[k].addr + size + HEADER !in Addrs(bs)
    ensures var a, n := bs[k].addr, bs[k+1].addr;
            && a in c.next
            && var d := LinkedAfter(c, a, a + size + HEADER);
            && n in d.next && n in d.prev && a + size + HEADER in d.next && d.next[a + size + HEADER] == n
            && BlockRing(Unlinked(d, n), Reshape(bs, k, size))
  {
    var s, x := Addrs(bs), bs[k].addr + size + HEADER;
    ShrinkLinks(c, s, k, x);
    assert Cut(Put(s, k, x), k + 2) == Addrs(Reshape(bs, k, size)) by { ReshapeAddrs(bs, k, size); }
    AsBlockRing(Unlinked(LinkedAfter(c, s[k], x), s[k+1]), Reshape(bs, k, size), Cut(Put(s, k, x), k + 2));
  }

  /** Flags after replacing a stretch of blocks. */
  lemma {:induction false} FlagsSplice(c: Cells, d: Cells, header: int, bs: seq<Block>, lo: nat, hi: nat,
      mid: seq<Block>)
    requires FlagsMatch(c, header, bs) && lo <= hi <= |bs| && FlagsMatch(d, header, mid)
    requires forall i :: 0 <= i < |bs| && !(lo <= i < hi) ==> SameFlags(c, d, bs[i].addr)
    ensures FlagsMatch(d, header, bs[..lo] + mid + bs[hi..])
  {
    var r := bs[..lo] + mid + bs[hi..];
    forall i | 0 <= i < |r|
      ensures r[i].addr in d.used && d.used[r[i].addr] == r[i].used && r[i].addr in d.owner
              && d.owner[r[i].addr] == header
    {
      if lo <= i < lo + |mid| {
        assert r[i] == mid[i-lo];
      } else {
        var j := if i < lo then i else i - lo - |mid| + hi;
        assert r[i] == bs[j] && SameFlags(c, d, bs[j].addr);
      }
    }
  }

  predicate SameFlags(c: Cells, d: Cells, a: int) {
    && (a in c.used ==> a in d.used && d.used[a] == c.used[a])
    && (a in c.owner ==> a in d.owner && d.owner[a] == c.owner[a])
  }

  /** Flags after Reshape: block k used, the rest block new and unused. */
  lemma {:induction false} FlagsReshape(c: Cells, header: int, h: Heap, k: nat, size: int)
    requires Inv(h) && FlagsMatch(c, header, h.blocks) && k + 1 < |h.blocks|
    requires h.blocks[k].addr + size + HEADER !in Addrs(h.blocks)
    ensures var a := h.blocks[k].addr; var x := a + size + HEADER;
            FlagsMatch(c.(used := c.used[x := false][a := true], owner := c.owner[x := header]), header,
                Reshape(h.blocks, k, size))
  {
    var bs, a, x := h.blocks, h.blocks[k].addr, h.blocks[k].addr + size + HEADER;
    var d := c.(used := c.used[x := false][a := true], owner := c.owner[x := header]);
    BlockAddrsDistinct(h);
    assert a == Addrs(bs)[k];
    forall i | 0 <= i < |bs| && !(k <= i < After(bs, k)) ensures SameFlags(c, d, bs[i].addr) {
      assert bs[i].addr == Addrs(bs)[i];
    }
    FlagsSplice(c, d, header, bs, k, After(bs, k), ShapedPair(bs, k, size));
  }

  /** The free list after a block left it and the rest block joined. */
  lemma {:induction false} FreeReshape(c: Cells, header: int, h: Heap, k: nat, size: int)
    requires Inv(h) && FreeRing(c, header, h.free) && k + 1 < |h.blocks|
             && (header < h.start || h.start + h.pool <= header)
    requires var x := h.blocks[k].addr + size + HEADER; x !in h.free && h.start <= x < h.start + h.pool
    ensures var x, g := h.blocks[k].addr + size + HEADER, Swallowed(h.blocks, k);
            && header in c.nextFree
            && (g !in h.free ==> FreeRing(Attached(c, header, x), header, ReshapeFree(h, k, size)))
            && (g in h.free ==>
                  g in c.nextFree && g in c.prevFree && header in Detached(c, g).nextFree &&
                  FreeRing(Attached(Detached(c, g), header, x), header, ReshapeFree(h, k, size)))
  {
    var x, g := h.blocks[k].addr + size + HEADER, Swallowed(h.blocks, k);
    FreeRingDistinct(h, header);
    if g in h.free {
      DetachedFacts(c, header, h.free, g);
      WithoutDistinct(header, h.free, g);
      AttachedFacts(Detached(c, g), header, Without(h.free, g), x);
    }
    if g !in h.free || header !in c.nextFree {
      AttachedFacts(c, header, h.free, x);
    }
    RingAt(c.nextFree, c.prevFree, [header] + h.free, 0);
  }

  lemma {:induction false} WithoutDistinct(header: int, free: seq<int>, g: int)
    requires Distinct([header] + free) && g in free
    ensures Distinct([header] + Without(free, g)) && forall a :: a in Without(free, g) ==> a in free
  {
    WithoutCut(header, free, g);
    CutDistinct([header] + free, Position(free, g) + 1);
    forall a | a in Without(free, g) ensures a in free {
      assert a in Cut([header] + free, Position(free, g) + 1);
    }
  }

  lemma {:induction false} AddrIn(bs: seq<Block>, k: nat)
    requires k < |bs|
    ensures bs[k].addr in Addrs(bs)
  {
    assert Addrs(bs)[k] == bs[k].addr;
  }

  /** Header fields of another heap's blocks are never written. */
  lemma {:induction false} OutsideUnlisted(h: Heap, header: int, a: int)
    requires Inv(h) && Outside(h, header, a) && (header < h.start || h.start + h.pool <= header)
    ensures a !in Addrs(h.blocks) && a !in h.free && a != header
  {
    BlockAddrsDistinct(h);
    FreeRingDistinct(h, header);
  }

  function TakenCells(c: Cells, a: int): Cells
    requires a in c.nextFree && a in c.prevFree
  {
    Detached(c, a).(used := c.used[a := true])
  }

  /** An allocation that takes a whole free block. */
  lemma {:induction false} TakeWhole(c: Cells, header: int, h: Heap, k: nat, size: int)
    requires Holds(c, header, h) && k + 1 < |h.blocks| && !h.blocks[k].used
    requires MINIALLOC <= size <= h.blocks[k].size < size + HEADER + MINIALLOC && Aligned(size)
    ensures var a := h.blocks[k].addr;
            && a in c.nextFree && a in c.prevFree
            && Holds(TakenCells(c, a), header, Take(h, k, size)) && SameOutside(c, TakenCells(c, a), header, h)
  {
    var a := h.blocks[k].addr;
    UnusedListed(h, k);
    FreeRingDistinct(h, header);
    DetachedFacts(c, header, h.free, a);
    TakenFlags(c, header, h, k);
    AddrIn(h.blocks, k);
    SurgeryInside(c, TakenCells(c, a), header, h, a) by { BlockAddrsDistinct(h); }
    assert Addrs(h.blocks[k := h.blocks[k].(used := true)]) == Addrs(h.blocks);
    TakeInv(h, k, size);
  }

  lemma {:induction false} TakenFlags(c: Cells, header: int, h: Heap, k: nat)
    requires Inv(h) && FlagsMatch(c, header, h.blocks) && k < |h.blocks|
    ensures FlagsMatch(c.(used := c.used[h.blocks[k].addr := true]), header, h.blocks[k := h.blocks[k].(used := true)])
  {
    var a, r := h.blocks[k].addr, h.blocks[k := h.blocks[k].(used := true)];
    var e := c.(used := c.used[a := true]);
    BlockAddrsDistinct(h);
    forall i | 0 <= i < |r|
      ensures r[i].addr in e.used && e.used[r[i].addr] == r[i].used && r[i].addr in e.owner
              && e.owner[r[i].addr] == header
    {
      assert r[i].addr == Addrs(h.blocks)[i] && a == Addrs(h.blocks)[k];
      assert h.blocks[i].addr in c.used;
    }
  }

  predicate SplitReady(c: Cells, header: int, a: int, x: int) {
    && a in c.next && a in c.used && a in c.nextFree && a in c.prevFree
    && header in Detached(c, a).nextFree && x != header && x != a
  }

  function SplitCells(c: Cells, header: int, a: int, x: int): Cells
    requires SplitReady(c, header, a, x)
  {
    var d, f := LinkedAfter(c, a, x), Attached(Detached(c, a), header, x);
    Cells(c.used[x := false][a := true], c.owner[x := header], d.next, d.prev, f.nextFree, f.prevFree)
  }

  /** An allocation that splits a free block. */
  lemma {:induction false} TakeSplit(c: Cells, header: int, h: Heap, k: nat, size: int)
    requires Holds(c, header, h) && k + 1 < |h.blocks| && !h.blocks[k].used
    requires size >= MINIALLOC && Aligned(size) && h.blocks[k].size >= size + HEADER + MINIALLOC
    ensures var a := h.blocks[k].addr;
            var x := a + size + HEADER;
            && SplitReady(c, header, a, x)
            && Holds(SplitCells(c, header, a, x), header, Take(h, k, size))
                && SameOutside(c, SplitCells(c, header, a, x), header, h)
  {
    var a, x := h.blocks[k].addr, h.blocks[k].addr + size + HEADER;
    SpanFacts(h.blocks, h.start, h.pool, k);
    RestAddr(h, k, size);
    UnusedListed(h, k);
    AddrIn(h.blocks, k);
    BlockFields(c, header, h, k);
    RingSplit(c, h.blocks, k, size) by { BlockAddrsDistinct(h); }
    FreeReshape(c, header, h, k, size);
    FlagsReshape(c, header, h, k, size);
    SurgeryLinks(c, header, h, k, x);
    SurgeryFree(c, header, h, a, x);
    SurgeryInside(c, SplitCells(c, header, a, x), header, h, x);
    TakeInv(h, k, size);
  }

  lemma {:induction false} SplitIsReady(c: Cells, header: int, h: Heap, k: nat, size: int)
    requires Holds(c, header, h) && k + 1 < |h.blocks| && !h.blocks[k].used
    requires size >= MINIALLOC && Aligned(size) && h.blocks[k].size >= size + HEADER + MINIALLOC
    ensures SplitReady(c, header, h.blocks[k].addr, h.blocks[k].addr + size + HEADER)
    ensures var x := h.blocks[k].addr + size + HEADER;
            h.start <= x && x + HEADER <= h.start + h.pool
                && forall y {:trigger Kept(h, y)} :: Kept(h, y) ==> y < x || x + HEADER <= y
  {
    TakeSplit(c, header, h, k, size);
    SpanFacts(h.blocks, h.start, h.pool, k);
    RestAddr(h, k, size);
    forall y | Kept(h, y)
        ensures var x := h.blocks[k].addr + size + HEADER; y < x || x + HEADER <= y { KeptElsewhere(h, k, y); }
  }

  /** The state a split leaves behind. */
  lemma {:induction false} SplitDone(c: Cells, header: int, h: Heap, k: nat, size: int, e: Cells, h': Heap)
    requires Holds(c, header, h) && k + 1 < |h.blocks| && !h.blocks[k].used
    requires size >= MINIALLOC && Aligned(size) && h.blocks[k].size >= size + HEADER + MINIALLOC
    requires var x := h.blocks[k].addr + size + HEADER;
             SplitReady(c, header, h.blocks[k].addr, x) && e == SplitCells(c, header, h.blocks[k].addr, x)
    requires h' == Charge(Reshaped(h, k, size, h.available - size - HEADER))
    ensures h' == Take(h, k, size) && Holds(e, header, h') && SameOutside(c, e, header, h')
  {
    TakeSplit(c, header, h, k, size);
  }

  lemma {:induction false} SurgeryLinks(c: Cells, header: int, h: Heap, k: nat, x: int)
    requires Inv(h) && BlockRing(c, h.blocks) && k < |h.blocks| && x !in Addrs(h.blocks)
    ensures h.blocks[k].addr in c.next
    ensures forall a :: a !in Addrs(h.blocks) && a != x ==> SameAt(c, LinkedAfter(c, h.blocks[k].addr, x), a)
  {
    BlockAddrsDistinct(h);
    LinkedAfterFacts(c, Addrs(h.blocks), k, x);
  }

  lemma {:induction false} SurgeryFree(c: Cells, header: int, h: Heap, g: int, x: int)
    requires Inv(h) && FreeRing(c, header, h.free) && (header < h.start || h.start + h.pool <= header)
    requires g in h.free && x !in h.free && x != header
    ensures g in c.nextFree && g in c.prevFree && header in Detached(c, g).nextFree
    ensures forall a :: a != header && a !in h.free && a != x ==> SameAt(c, Attached(Detached(c, g), header, x), a)
  {
    FreeRingDistinct(h, header);
    DetachedFacts(c, header, h.free, g);
    WithoutDistinct(header, h.free, g);
    AttachedFacts(Detached(c, g), header, Without(h.free, g), x);
    forall a | a != header && a !in h.free && a != x ensures SameAt(c, Attached(Detached(c, g), header, x), a) {
      assert SameAt(c, Detached(c, g), a);
      assert SameAt(Detached(c, g), Attached(Detached(c, g), header, x), a);
    }
  }

  // ---------------------------------------------------------------- giving a block back

  /** Links of list s with s[k] unlinked when left holds, then the node after that point unlinked when right holds. */
  lemma {:induction false} MergeLinks(c: Cells, s: seq<int>, k: nat, left: bool, right: bool)
    requires Ring(c.next, c.prev, s) && Distinct(s) && k + 1 < |s| && (left ==> k > 0) && (right ==> k + 2 < |s|)
    ensures s[k] in c.next && s[k] in c.prev && c.prev[s[k]] == Pred(s, k)
    ensures var c1 := if left then Unlinked(c, s[k]) else c;
            var p := if left then s[k-1] else s[k];
            var t := if left then Cut(s, k) else s;
            && p in c1.next && c1.next[p] == s[k+1] && s[k+1] in c1.next && s[k+1] in c1.prev
            && var c2 := if right then Unlinked(c1, s[k+1]) else c1;
            Ring(c2.next, c2.prev, if right then Cut(t, if left then k else k + 1) else t)
            && forall a :: a !in s ==> SameAt(c, c2, a)
  {
    RingAt(c.next, c.prev, s, k);
    var c1 := if left then Unlinked(c, s[k]) else c;
    var t := if left then Cut(s, k) else s;
    var i := if left then k - 1 else k;
    UnlinkedFacts(c, s, k);
    CutDistinct(s, k);
    assert i + 1 < |t| && t[i] == (if left then s[k-1] else s[k]) && t[i+1] == s[k+1];
    RingAt(c1.next, c1.prev, t, i);
    RingAt(c1.next, c1.prev, t, i + 1);
    assert Succ(t, i) == s[k+1];
    if right {
      UnlinkedFacts(c1, t, i + 1);
      forall a | a !in s ensures SameAt(c, Unlinked(c1, s[k+1]), a) {
        assert SameAt(c, c1, a) && SameAt(c1, Unlinked(c1, s[k+1]), a);
      }
    }
  }

  lemma {:induction false} CoalesceAddrsLeft(bs: seq<Block>, k: nat)
    requires k + 1 < |bs| && LeftFree(bs, k)
    ensures var t := Cut(Addrs(bs), k); Addrs(Coalesce(bs, k)) == if NextFree(bs, k) then Cut(t, k) else t
  {
    var m := Block(bs[k-1].addr, bs[k-1].size + HEADER + Span(bs, k), false);
    if NextFree(bs, k) {
      SpliceAddrs(bs, k - 1, k + 2, m);
    } else {
      SpliceAddrs(bs, k - 1, k + 1, m);
    }
  }

  lemma {:induction false} CoalesceAddrsStay(bs: seq<Block>, k: nat)
    requires k + 1 < |bs| && !LeftFree(bs, k)
    ensures Addrs(Coalesce(bs, k)) == if NextFree(bs, k) then Cut(Addrs(bs), k + 1) else Addrs(bs)
  {
    var m := Block(bs[k].addr, Span(bs, k), false);
    if NextFree(bs, k) {
      SpliceAddrs(bs, k, k + 2, m);
    } else {
      SpliceAddrs(bs, k, k + 1, m);
    }
  }

  lemma {:induction false} SpliceAddrs(bs: seq<Block>, lo: nat, hi: nat, m: Block)
    requires lo < hi <= |bs| && m.addr == bs[lo].addr
    ensures Addrs(bs[..lo] + [m] + bs[hi..]) == Addrs(bs)[..lo+1] + Addrs(bs)[hi..]
  {
  }

  /**
    The block list after a free: the block leaves when its left neighbour is free, the right neighbour when that is.
   */
  lemma {:induction false} ReleaseRing(c: Cells, h: Heap, k: nat)
    requires Inv(h) && BlockRing(c, h.blocks) && k + 1 < |h.blocks|
    ensures var bs, a, n := h.blocks, h.blocks[k].addr, h.blocks[k+1].addr;
            && a in c.next && a in c.prev && c.prev[a] == Pred(Addrs(bs), k)
            && var c1 := if LeftFree(bs, k) then Unlinked(c, a) else c;
            var p := if LeftFree(bs, k) then bs[k-1].addr else a;
            && p in c1.next && c1.next[p] == n && n in c1.next && n in c1.prev
            && var c2 := if NextFree(bs, k) then Unlinked(c1, n) else c1;
            BlockRing(c2, Coalesce(bs, k)) && forall x :: x !in Addrs(bs) ==> SameAt(c, c2, x)
  {
    var bs, s := h.blocks, Addrs(h.blocks);
    SpanFacts(bs, h.start, h.pool, k);
    BlockAddrsDistinct(h);
    MergeLinks(c, s, k, LeftFree(bs, k), NextFree(bs, k));
    if LeftFree(bs, k) { CoalesceAddrsLeft(bs, k); } else { CoalesceAddrsStay(bs, k); }
  }

  /** The free list after a free. */
  lemma {:induction false} ReleaseFree(c: Cells, header: int, h: Heap, k: nat)
    requires Inv(h) && FreeRing(c, header, h.free) && (header < h.start || h.start + h.pool <= header)
    requires k + 1 < |h.blocks| && h.blocks[k].used
    ensures var a, n := h.blocks[k].addr, h.blocks[k+1].addr;
            && a != header && (NextFree(h.blocks, k) ==> n in c.nextFree && n in c.prevFree)
            && var c1 := if NextFree(h.blocks, k) then Detached(c, n) else c;
            && header in c1.nextFree
            && var c2 := if LeftFree(h.blocks, k) then c1 else Attached(c1, header, a);
            FreeRing(c2, header, FreedList(h, k))
                && forall x :: x != header && x !in h.free && x != a ==> SameAt(c, c2, x)
  {
    var a, n := h.blocks[k].addr, h.blocks[k+1].addr;
    FreeRingDistinct(h, header);
    BlockAddrsDistinct(h);
    UsedUnlisted(h, k);
    RingAt(c.nextFree, c.prevFree, [header] + h.free, 0);
    if NextFree(h.blocks, k) {
      UnusedListed(h, k + 1);
      DetachedFacts(c, header, h.free, n);
      WithoutDistinct(header, h.free, n);
      var c1 := Detached(c, n);
      AttachedFacts(c1, header, Without(h.free, n), a);
      forall x | x != header && x !in h.free && x != a ensures SameAt(c, Attached(c1, header, a), x) {
        assert SameAt(c, c1, x) && SameAt(c1, Attached(c1, header, a), x);
      }
    } else {
      AttachedFacts(c, header, h.free, a);
    }
  }

  lemma {:induction false} ReleaseFlags(c: Cells, header: int, h: Heap, k: nat)
    requires Inv(h) && FlagsMatch(c, header, h.blocks) && k + 1 < |h.blocks| && h.blocks[k].used
    ensures FlagsMatch(c.(used := c.used[h.blocks[k].addr := false]), header, Coalesce(h.blocks, k))
  {
    var bs, a := h.blocks, h.blocks[k].addr;
    var d := c.(used := c.used[a := false]);
    BlockAddrsDistinct(h);
    var lo := if LeftFree(bs, k) then k - 1 else k;
    var mid := Block(bs[lo].addr, Span(bs, k) + (if LeftFree(bs, k) then bs[k-1].size + HEADER else 0), false);
    assert Coalesce(bs, k) == bs[..lo] + [mid] + bs[After(bs, k)..];
    assert Addrs(bs)[k] == a;
    forall i | 0 <= i < |bs| && !(lo <= i < After(bs, k)) ensures SameFlags(c, d, bs[i].addr) {
      assert bs[i].addr == Addrs(bs)[i];
    }
    assert bs[lo].addr in c.used && bs[lo].addr in c.owner;
    FlagsSplice(c, d, header, bs, lo, After(bs, k), [mid]);
  }

  /** The header fields after a free: every write of the source, in one expression. */
  function Released(c: Cells, header: int, a: int, n: int, left: bool, right: bool): Cells
    requires a in c.next && a in c.prev && (right ==> n in c.nextFree && n in c.prevFree)
    requires var c1 := if left then Unlinked(c, a) else c; n in c1.next && n in c1.prev
    requires var f1 := if right then Detached(c, n) else c; header in f1.nextFree
  {
    var c1 := if left then Unlinked(c, a) else c;
    var c2 := if right then Unlinked(c1, n) else c1;
    var f1 := if right then Detached(c, n) else c;
    var f2 := if left then f1 else Attached(f1, header, a);
    Cells(c.used[a := false], c.owner, c2.next, c2.prev, f2.nextFree, f2.prevFree)
  }

  predicate ReleaseReady(c: Cells, header: int, a: int, n: int, left: bool, right: bool) {
    && a in c.next && a in c.prev && a in c.used && a != header && (right ==> n in c.nextFree && n in c.prevFree)
    && n in c.used && (c.used[n] <==> !right) && c.prev[a] in c.used && (c.used[c.prev[a]] <==> !left)
    && c.next[a] == n && c.prev[a] != a && n != a
    && var c1 := if left then Unlinked(c, a) else c;
    && n in c1.next && n in c1.prev
    && (var p := if left then c.prev[a] else a; p in c1.next && c1.next[p] == n)
    && header in (if right then Detached(c, n) else c).nextFree
  }

  lemma {:induction false} ReleasePrepared(c: Cells, header: int, h: Heap, k: nat)
    requires Holds(c, header, h) && k + 1 < |h.blocks| && h.blocks[k].used
    ensures ReleaseReady(c, header, h.blocks[k].addr, h.blocks[k+1].addr, LeftFree(h.blocks, k), NextFree(h.blocks, k))
  {
    var bs := h.blocks;
    ReleaseRing(c, h, k);
    ReleaseFree(c, header, h, k);
    BlockFields(c, header, h, k);
    BlockFields(c, header, h, k + 1);
    BlockAddrsDistinct(h);
    var s := Addrs(bs);
    var q := if k == 0 then |bs| - 1 else k - 1;
    assert s[q] == bs[q].addr && s[k] == bs[k].addr && s[k+1] == bs[k+1].addr;
    BlockFields(c, header, h, q);
  }

  lemma {:induction false} ReleaseRepresents(c: Cells, header: int, h: Heap, k: nat)
    requires Holds(c, header, h) && k + 1 < |h.blocks| && h.blocks[k].used
    ensures var a, n, left, right := h.blocks[k].addr, h.blocks[k+1].addr, LeftFree(h.blocks, k), NextFree(h.blocks, k);
            && ReleaseReady(c, header, a, n, left, right)
            && Holds(Released(c, header, a, n, left, right), header, Release(h, k))
            && SameOutside(c, Released(c, header, a, n, left, right), header, h)
  {
    ReleasePrepared(c, header, h, k);
    var e := Released(c, header, h.blocks[k].addr, h.blocks[k+1].addr, LeftFree(h.blocks, k), NextFree(h.blocks, k));
    assert BlockRing(e, Release(h, k).blocks) by { ReleaseRing(c, h, k); }
    assert FreeRing(e, header, Release(h, k).free) by { ReleaseFree(c, header, h, k); }
    assert FlagsMatch(e, header, Release(h, k).blocks) by { ReleaseFlags(c, header, h, k); }
    assert SameOutside(c, e, header, h) by { ReleaseOutside(c, header, h, k); }
    assert Inv(Release(h, k)) by { ReleaseInv(h, k); }
  }

  lemma {:induction false} ReleaseOutside(c: Cells, header: int, h: Heap, k: nat)
    requires Holds(c, header, h) && k + 1 < |h.blocks| && h.blocks[k].used
    requires ReleaseReady(c, header, h.blocks[k].addr, h.blocks[k+1].addr, LeftFree(h.blocks, k), NextFree(h.blocks, k))
    ensures var a, n := h.blocks[k].addr, h.blocks[k+1].addr;
            SameOutside(c, Released(c, header, a, n, LeftFree(h.blocks, k), NextFree(h.blocks, k)), header, h)
  {
    var bs, a, n := h.blocks, h.blocks[k].addr, h.blocks[k+1].addr;
    var left, right := LeftFree(h.blocks, k), NextFree(h.blocks, k);
    var c1 := if left then Unlinked(c, a) else c;
    var c2 := if right then Unlinked(c1, n) else c1;
    var f1 := if right then Detached(c, n) else c;
    var f2 := if left then f1 else Attached(f1, header, a);
    var d := Cells(c.used[a := false], c.owner, c2.next, c2.prev, f2.nextFree, f2.prevFree);
    assert forall x :: x !in Addrs(bs) ==> SameAt(c, c2, x) by { ReleaseRing(c, h, k); }
    assert forall x :: x != header && x !in h.free && x != a ==> SameAt(c, f2, x) by { ReleaseFree(c, header, h, k); }
    assert h.start <= a < h.start + h.pool by { BlockAddrsDistinct(h); }
    forall x | x !in Addrs(bs) && x !in h.free && x != header && x != a
        ensures SameAt(c, d, x) { BothSame(c, c2, f2, a, x); }
    SurgeryInside(c, d, header, h, a);
    assert d == Released(c, header, a, n, left, right);
  }

  /** Ring links from one surgery and free links from another: where both change nothing, nothing is changed. */
  lemma {:induction false} BothSame(c: Cells, e: Cells, f: Cells, a: int, x: int)
    requires SameAt(c, e, x) && SameAt(c, f, x) && x != a
    ensures SameAt(c, Cells(c.used[a := false], c.owner, e.next, e.prev, f.nextFree, f.prevFree), x)
  {
  }

  /** A kept byte lies in block k's own payload or clear of all of block k's span. */
  lemma {:induction false} KeptElsewhere(h: Heap, k: nat, y: int)
    requires Inv(h) && Kept(h, y) && k + 1 < |h.blocks|
    ensures var b := h.blocks[k];
            (b.used && b.addr + HEADER <= y < b.addr + HEADER + b.size) || y < b.addr
                || h.blocks[After(h.blocks, k)].addr <= y
  {
    var bs := h.blocks;
    SpanFacts(bs, h.start, h.pool, k);
    var e := After(bs, k);
    if Owns(h, y) {
      var i :| 0 <= i < |bs| && bs[i].used && bs[i].addr + HEADER <= y < bs[i].addr + HEADER + bs[i].size;
      if i < k { Ordered(bs, i, k); }
      if e < i { assert AdjacentAt(bs, e); Ordered(bs, e, i); }
    } else {
      BlockAddrsDistinct(h);
    }
  }

  ghost predicate SameOutside(c: Cells, d: Cells, header: int, h: Heap) {
    forall a {:trigger SameAt(c, d, a)} :: Outside(h, header, a) ==> SameAt(c, d, a)
  }

  /** Surgery on listed addresses only is invisible outside the pool. */
  lemma {:induction false} SurgeryInside(c: Cells, d: Cells, header: int, h: Heap, x: int)
    requires Inv(h) && (header < h.start || h.start + h.pool <= header) && h.start <= x < h.start + h.pool
    requires forall a :: a !in Addrs(h.blocks) && a !in h.free && a != header && a != x ==> SameAt(c, d, a)
    ensures SameOutside(c, d, header, h)
  {
    forall a | Outside(h, header, a) ensures SameAt(c, d, a) {
      OutsideUnlisted(h, header, a);
    }
  }

  /** Following next_free from position j - 1 of the free list (0 stands for the sentinel). */
  lemma {:induction false} FreeStep(c: Cells, header: int, h: Heap, j: nat)
    requires FreeRing(c, header, h.free) && j <= |h.free|
    ensures var e := if j == 0 then header else h.free[j-1];
            e in c.nextFree && c.nextFree[e] == if j < |h.free| then h.free[j] else header
  {
    RingAt(c.nextFree, c.prevFree, [header] + h.free, j);
  }

  /** The size the search loop computes for the free list entry j. */
  lemma {:induction false} FreeEntryFields(c: Cells, header: int, h: Heap, j: nat)
    requires Inv(h) && Represents(c, header, h) && j < |h.free| && (header < h.start || h.start + h.pool <= header)
    ensures var a := h.free[j];
            var k := IndexOf(h.blocks, a);
            && k + 1 < |h.blocks| && !h.blocks[k].used && h.blocks[k].addr == a && a != header
            && a in c.next && c.next[a] - a - HEADER == h.blocks[k].size
  {
    FreeRingDistinct(h, header);
    FreeEntry(h, h.free[j]);
    BlockFields(c, header, h, IndexOf(h.blocks, h.free[j]));
  }

  /** What the search decides. */
  lemma {:induction false} AllocCases(h: Heap, n: nat)
    requires Inv(h)
    ensures Request(n) == (if AlignUp(n) < MINIALLOC then MINIALLOC else AlignUp(n)) && Request(n) >= MINIALLOC
            && Aligned(Request(n))
    ensures var j := FirstFit(h.blocks, h.free, Request(n));
            && (j < |h.free| ==>
                  var k := IndexOf(h.blocks, h.free[j]);
                  && k + 1 < |h.blocks| && !h.blocks[k].used && h.blocks[k].addr == h.free[j]
                      && h.blocks[k].size >= Request(n)
                  && (Request(n) < h.available ==>
                        HeapModel.Alloc(h, n) == (Take(h, k, Request(n)), h.free[j] + HEADER)))
            && (Request(n) >= h.available || j == |h.free| ==> HeapModel.Alloc(h, n) == (h, NULL))
  {
    FirstFitExact(h, Request(n));
  }

  // ---------------------------------------------------------------- resizing in place

  /** Room for a separate block after size bytes of block k. */
  predicate Resizable(h: Heap, k: nat, size: int) {
    && k + 1 < |h.blocks| && h.blocks[k].used && size >= MINIALLOC && Aligned(size) && size != h.blocks[k].size
    && (NextFree(h.blocks, k) || size < h.blocks[k].size)
    && Span(h.blocks, k) >= size + HEADER + MINIALLOC
  }

  predicate GrowReady(c: Cells, header: int, a: int, n: int, x: int) {
    && n in c.next && n in c.prev && n in c.nextFree && n in c.prevFree && n in c.used
    && header in Detached(c, n).nextFree && x != header && a in Unlinked(c, n).next && a != x && n != a
  }

  function GrownCells(c: Cells, header: int, a: int, n: int, x: int): Cells
    requires GrowReady(c, header, a, n, x)
  {
    var d, f := LinkedAfter(Unlinked(c, n), a, x), Attached(Detached(c, n), header, x);
    Cells(c.used[x := false], c.owner[x := header], d.next, d.prev, f.nextFree, f.prevFree)
  }

  predicate ShrinkReady(c: Cells, header: int, a: int, n: int, x: int, right: bool) {
    && a in c.next && c.next[a] == n && n in c.used && (c.used[n] <==> !right) && x != header && a != x && n != x
        && header in c.nextFree
    && (right ==>
          && n in c.nextFree && n in c.prevFree && header in Detached(c, n).nextFree
          && n in LinkedAfter(c, a, x).next && n in LinkedAfter(c, a, x).prev)
  }

  function ShrunkCells(c: Cells, header: int, a: int, n: int, x: int, right: bool): Cells
    requires ShrinkReady(c, header, a, n, x, right)
  {
    var d0 := LinkedAfter(c, a, x);
    var d := if right then Unlinked(d0, n) else d0;
    var f := Attached(if right then Detached(c, n) else c, header, x);
    Cells(c.used[x := false], c.owner[x := header], d.next, d.prev, f.nextFree, f.prevFree)
  }

  /** Block k stays used, the rest of its span becomes a free block: flags and free list. */
  lemma {:induction false} ResizedFlags(c: Cells, header: int, h: Heap, k: nat, size: int)
    requires Holds(c, header, h) && Resizable(h, k, size)
    ensures var x := h.blocks[k].addr + size + HEADER;
            FlagsMatch(c.(used := c.used[x := false], owner := c.owner[x := header]), header,
                Reshape(h.blocks, k, size))
  {
    var a, x := h.blocks[k].addr, h.blocks[k].addr + size + HEADER;
    RestAddr(h, k, size);
    BlockFields(c, header, h, k);
    AddrIn(h.blocks, k);
    FlagsReshape(c, header, h, k, size);
    assert c.used[x := false][a := true] == c.used[x := false];
  }

  lemma {:induction false} GrowIsReady(c: Cells, header: int, h: Heap, k: nat, size: int)
    requires Holds(c, header, h) && Resizable(h, k, size) && NextFree(h.blocks, k)
    ensures GrowReady(c, header, h.blocks[k].addr, h.blocks[k+1].addr, h.blocks[k].addr + size + HEADER)
  {
    RestAddr(h, k, size);
    SpanFacts(h.blocks, h.start, h.pool, k);
    AddrIn(h.blocks, k);
    RingGrow(c, h.blocks, k, size) by { BlockAddrsDistinct(h); }
    UnusedListed(h, k + 1);
    SurgeryFree(c, header, h, h.blocks[k+1].addr, h.blocks[k].addr + size + HEADER);
    BlockFields(c, header, h, k + 1);
    assert AdjacentAt(h.blocks, k);
  }

  lemma {:induction false} GrowRings(c: Cells, header: int, h: Heap, k: nat, size: int)
    requires Holds(c, header, h) && Resizable(h, k, size) && NextFree(h.blocks, k)
    requires GrowReady(c, header, h.blocks[k].addr, h.blocks[k+1].addr, h.blocks[k].addr + size + HEADER)
    ensures var e := GrownCells(c, header, h.blocks[k].addr, h.blocks[k+1].addr, h.blocks[k].addr + size + HEADER);
            Represents(e, header, Reshaped(h, k, size, 0))
  {
    RestAddr(h, k, size);
    RingGrow(c, h.blocks, k, size) by { BlockAddrsDistinct(h); }
    UnusedListed(h, k + 1);
    FreeReshape(c, header, h, k, size);
    ResizedFlags(c, header, h, k, size);
  }

  lemma {:induction false} GrowOutside(c: Cells, header: int, h: Heap, k: nat, size: int)
    requires Holds(c, header, h) && Resizable(h, k, size) && NextFree(h.blocks, k)
    requires GrowReady(c, header, h.blocks[k].addr, h.blocks[k+1].addr, h.blocks[k].addr + size + HEADER)
    ensures var a, n := h.blocks[k].addr, h.blocks[k+1].addr;
            SameOutside(c, GrownCells(c, header, a, n, a + size + HEADER), header, h)
  {
    var s, n, x := Addrs(h.blocks), h.blocks[k+1].addr, h.blocks[k].addr + size + HEADER;
    RestAddr(h, k, size);
    BlockAddrsDistinct(h);
    UnlinkedFacts(c, s, k + 1);
    CutDistinct(s, k + 1);
    assert Cut(s, k + 1)[k] == h.blocks[k].addr;
    LinkedAfterFacts(Unlinked(c, n), Cut(s, k + 1), k, x);
    UnusedListed(h, k + 1);
    SurgeryFree(c, header, h, n, x);
    var d, f := LinkedAfter(Unlinked(c, n), h.blocks[k].addr, x), Attached(Detached(c, n), header, x);
    var e := GrownCells(c, header, h.blocks[k].addr, n, x);
    forall y | y !in s && y !in h.free && y != header && y != x ensures SameAt(c, e, y) {
      assert SameAt(c, Unlinked(c, n), y) && SameAt(Unlinked(c, n), d, y) && SameAt(c, f, y);
      FreshSame(c, d, f, header, x, y);
    }
    SurgeryInside(c, e, header, h, x);
  }

  /** As BothSame, with a fresh header at a. */
  lemma {:induction false} FreshSame(c: Cells, e: Cells, f: Cells, header: int, a: int, x: int)
    requires SameAt(c, e, x) && SameAt(c, f, x) && x != a
    ensures SameAt(c, Cells(c.used[a := false], c.owner[a := header], e.next, e.prev, f.nextFree, f.prevFree), x)
  {
  }

  /** The state growth leaves behind. */
  lemma {:induction false} GrowDone(c: Cells, header: int, h: Heap, k: nat, size: int, e: Cells, h': Heap)
    requires Holds(c, header, h) && Resizable(h, k, size) && NextFree(h.blocks, k)
    requires GrowReady(c, header, h.blocks[k].addr, h.blocks[k+1].addr, h.blocks[k].addr + size + HEADER)
    requires e == GrownCells(c, header, h.blocks[k].addr, h.blocks[k+1].addr, h.blocks[k].addr + size + HEADER)
    requires h' == Charge(Reshaped(h, k, size, h.available - (size - h.blocks[k].size)))
    ensures Holds(e, header, h') && SameOutside(c, e, header, h')
  {
    GrowRings(c, header, h, k, size);
    GrowOutside(c, header, h, k, size);
    ReshapeKeeps(h, k, size, h.available - (size - h.blocks[k].size));
  }

  lemma {:induction false} ShrinkIsReady(c: Cells, header: int, h: Heap, k: nat, size: int)
    requires Holds(c, header, h) && Resizable(h, k, size) && size < h.blocks[k].size
    ensures ShrinkReady(c, header, h.blocks[k].addr, h.blocks[k+1].addr, h.blocks[k].addr + size + HEADER,
                        NextFree(h.blocks, k))
  {
    var x := h.blocks[k].addr + size + HEADER;
    RestAddr(h, k, size);
    AddrIn(h.blocks, k);
    AddrIn(h.blocks, k + 1);
    BlockFields(c, header, h, k);
    BlockFields(c, header, h, k + 1);
    RingAt(c.nextFree, c.prevFree, [header] + h.free, 0);
    if NextFree(h.blocks, k) {
      RingShrink(c, h.blocks, k, size) by { BlockAddrsDistinct(h); }
      UnusedListed(h, k + 1);
      SurgeryFree(c, header, h, h.blocks[k+1].addr, x);
    }
  }

  lemma {:induction false} ShrinkRings(c: Cells, header: int, h: Heap, k: nat, size: int)
    requires Holds(c, header, h) && Resizable(h, k, size) && size < h.blocks[k].size
    requires ShrinkReady(c, header, h.blocks[k].addr, h.blocks[k+1].addr, h.blocks[k].addr + size + HEADER,
                         NextFree(h.blocks, k))
    ensures var e := ShrunkCells(c, header, h.blocks[k].addr, h.blocks[k+1].addr, h.blocks[k].addr + size + HEADER,
                                 NextFree(h.blocks, k));
            Represents(e, header, Reshaped(h, k, size, 0))
  {
    RestAddr(h, k, size);
    BlockAddrsDistinct(h);
    if NextFree(h.blocks, k) {
      RingShrink(c, h.blocks, k, size);
      UnusedListed(h, k + 1);
    } else {
      RingSplit(c, h.blocks, k, size);
      UsedUnlisted(h, k);
    }
    FreeReshape(c, header, h, k, size);
    ResizedFlags(c, header, h, k, size);
  }

  lemma {:induction false} ShrinkOutside(c: Cells, header: int, h: Heap, k: nat, size: int)
    requires Holds(c, header, h) && Resizable(h, k, size) && size < h.blocks[k].size
    requires ShrinkReady(c, header, h.blocks[k].addr, h.blocks[k+1].addr, h.blocks[k].addr + size + HEADER,
                         NextFree(h.blocks, k))
    ensures var a, n := h.blocks[k].addr, h.blocks[k+1].addr;
            SameOutside(c, ShrunkCells(c, header, a, n, a + size + HEADER, NextFree(h.blocks, k)), header, h)
  {
    var s, n, x := Addrs(h.blocks), h.blocks[k+1].addr, h.blocks[k].addr + size + HEADER;
    RestAddr(h, k, size);
    BlockAddrsDistinct(h);
    LinkedAfterFacts(c, s, k, x);
    var d0 := LinkedAfter(c, h.blocks[k].addr, x);
    var e := ShrunkCells(c, header, h.blocks[k].addr, n, x, NextFree(h.blocks, k));
    if NextFree(h.blocks, k) {
      PutDistinct(s, k, x);
      assert Put(s, k, x)[k+2] == s[k+1];
      UnlinkedFacts(d0, Put(s, k, x), k + 2);
      UnusedListed(h, k + 1);
      SurgeryFree(c, header, h, n, x);
      forall y | y !in s && y !in h.free && y != header && y != x ensures SameAt(c, e, y) {
        assert y !in Put(s, k, x);
        assert SameAt(c, d0, y) && SameAt(d0, Unlinked(d0, n), y) && SameAt(c, Attached(Detached(c, n), header, x), y);
      }
    } else {
      FreeRingDistinct(h, header);
      AttachedFacts(c, header, h.free, x);
      forall y | y !in s && y !in h.free && y != header && y != x ensures SameAt(c, e, y) {
        assert SameAt(c, d0, y) && SameAt(c, Attached(c, header, x), y);
      }
    }
    SurgeryInside(c, e, header, h, x);
  }

  /** The state shrinking leaves behind. */
  lemma {:induction false} ShrinkDone(c: Cells, header: int, h: Heap, k: nat, size: int, e: Cells, h': Heap)
    requires Holds(c, header, h) && Resizable(h, k, size) && size < h.blocks[k].size
    requires ShrinkReady(c, header, h.blocks[k].addr, h.blocks[k+1].addr, h.blocks[k].addr + size + HEADER,
                         NextFree(h.blocks, k))
    requires e == ShrunkCells(c, header, h.blocks[k].addr, h.blocks[k+1].addr, h.blocks[k].addr + size + HEADER,
                              NextFree(h.blocks, k))
    requires h'
             == Reshaped(h, k, size, h.available + h.blocks[k].size - size - HEADER
                                     + (if NextFree(h.blocks, k) then HEADER else 0))
    ensures Holds(e, header, h') && SameOutside(c, e, header, h')
  {
    ShrinkRings(c, header, h, k, size);
    ShrinkOutside(c, header, h, k, size);
    assert h' == Charge(h');
    ReshapeKeeps(h, k, size, h'.available);
  }

  /**
    What a move from payload p must produce: nothing on failure, otherwise the heap after the allocation with p freed.
   */
  ghost predicate MoveResult(h: Heap, p: int, size: int, r: (Heap, int))
    requires Live(h, p) && size >= 0
  {
    var (g, q) := HeapModel.Alloc(h, size);
    && g.start == h.start && g.pool == h.pool
    && (q == NULL ==> r == (h, NULL) && g == h)
    && (q != NULL ==> Live(g, p) && r == (HeapModel.Free(g, p), q))
    && (q != NULL ==> h.start <= q && q + size <= h.start + h.pool)
    && (q != NULL ==> forall y {:trigger Kept(h, y)} :: Kept(h, y) ==> y < q || q + size <= y)
    && h.start <= p && p + SizeOf(h, p) <= h.start + h.pool
    && (forall y {:trigger Kept(h, y)} :: p <= y < p + SizeOf(h, p) ==> Kept(h, y))
  }

  /** What realloc of payload p to size (already rounded) must produce, case by case. */
  ghost predicate ResizeResult(h: Heap, p: int, size: int, r: (Heap, int)) {
    && Live(h, p) && size >= MINIALLOC && h.start <= p <= p + SizeOf(h, p) <= h.start + h.pool && h.start > 0
    && var k := IndexOf(h.blocks, p - HEADER);
    var b := h.blocks[k];
    && b.used && b.addr == p - HEADER && k + 1 < |h.blocks|
    && (size > b.size && GrowsInPlace(h.blocks, k, size) ==>
          Resizable(h, k, size) && r == (Charge(Reshaped(h, k, size, h.available - (size - b.size))), p))
    && (size > b.size && !GrowsInPlace(h.blocks, k, size) ==> MoveResult(h, p, size, r))
    && (size <= b.size <= size + HEADER + MINIALLOC ==> r == (h, p))
    && (size + HEADER + MINIALLOC < b.size ==>
          Resizable(h, k, size) &&
          r == (Reshaped(h, k, size, h.available + b.size - size - HEADER
                                     + (if NextFree(h.blocks, k) then HEADER else 0)), p))
  }

  lemma {:induction false} ReallocCases(h: Heap, p: int, n: nat)
    requires Inv(h) && Live(h, p) && n > 0
    ensures ResizeResult(h, p, Request(n), HeapModel.Realloc(h, p, n))
  {
    RequestFacts(n);
    LiveBlock(h, p);
    var k := IndexOf(h.blocks, p - HEADER);
    SpanFacts(h.blocks, h.start, h.pool, k);
    if Request(n) > h.blocks[k].size && !GrowsInPlace(h.blocks, k, Request(n)) {
      MoveCases(h, p, n);
    }
  }

  lemma {:induction false} NextAddr(c: Cells, header: int, h: Heap, k: nat)
    requires Holds(c, header, h) && k + 1 < |h.blocks|
    ensures h.blocks[k+1].addr in c.next && h.blocks[k+1].addr == h.blocks[k].addr + HEADER + h.blocks[k].size
  {
    BlockFields(c, header, h, k + 1);
    assert AdjacentAt(h.blocks, k);
  }

  /** The fields a growing realloc looks at. */
  lemma {:induction false} EnlargeFields(c: Cells, header: int, h: Heap, k: nat)
    requires Holds(c, header, h) && k + 1 < |h.blocks|
    ensures var a, n := h.blocks[k].addr, h.blocks[k+1].addr;
            && a in c.next && c.next[a] == n && n - a - HEADER == h.blocks[k].size && n in c.used && n in c.next
            && (c.used[n] <==> !NextFree(h.blocks, k))
            && (NextFree(h.blocks, k) ==> c.next[n] - n - HEADER == h.blocks[k+1].size)
  {
    BlockFields(c, header, h, k);
    BlockFields(c, header, h, k + 1);
  }

  lemma {:induction false} OwnsPayload(h: Heap, p: int, y: int)
    requires Inv(h) && Live(h, p) && p <= y < p + SizeOf(h, p)
    ensures Owns(h, y)
  {
    LiveBlock(h, p);
  }

  /** A live byte belongs to a live allocation. */
  lemma {:induction false} OwnerOf(h: Heap, y: int) returns (r: int)
    requires Inv(h) && Owns(h, y)
    ensures Live(h, r) && r <= y < r + SizeOf(h, r)
  {
    var i :| 0 <= i < |h.blocks| && h.blocks[i].used
             && h.blocks[i].addr + HEADER <= y < h.blocks[i].addr + HEADER + h.blocks[i].size;
    r := h.blocks[i].addr + HEADER;
    IndexUnique(h.blocks, i);
  }

  /** A fresh payload overlaps no kept byte. */
  lemma {:induction false} FreshClear(h: Heap, n: nat, y: int)
    requires Inv(h) && HeapModel.Alloc(h, n).1 != NULL && Kept(h, y)
    ensures var (g, q) := HeapModel.Alloc(h, n); Live(g, q) && (y < q || q + SizeOf(g, q) <= y)
  {
    var (g, q) := HeapModel.Alloc(h, n);
    AllocTakes(h, n);
    if Owns(h, y) {
      var r := OwnerOf(h, y);
      OldStaysLive(h, r, n);
      if r < q { LiveDisjoint(g, r, q); } else { LiveDisjoint(g, q, r); }
    } else {
      AllocInv(h, n);
      ApplyPool(h, CallAlloc(n));
      LiveBlock(g, q);
    }
  }

  lemma {:induction false} SameOutsideTrans(c: Cells, d: Cells, e: Cells, header: int, h: Heap, g: Heap)
    requires SameOutside(c, d, header, h) && SameOutside(d, e, header, g) && g.start == h.start && g.pool == h.pool
    ensures SameOutside(c, e, header, h)
  {
    forall a | Outside(h, header, a) ensures SameAt(c, e, a) {
      assert Outside(g, header, a);
      assert SameAt(c, d, a) && SameAt(d, e, a);
    }
  }

  lemma {:induction false} LiveAfter(h: Heap, n: nat)
    requires Inv(h) && HeapModel.Alloc(h, n).1 != NULL
    ensures var (g, q) := HeapModel.Alloc(h, n); h.start <= q && q + Request(n) <= h.start + h.pool
  {
    AllocInv(h, n);
    AllocTakes(h, n);
    ApplyPool(h, CallAlloc(n));
    LiveBlock(HeapModel.Alloc(h, n).0, HeapModel.Alloc(h, n).1);
  }

  lemma {:induction false} MoveCases(h: Heap, p: int, n: nat)
    requires Inv(h) && Live(h, p) && n > 0 && !StaysPut(h, p, n)
    ensures MoveResult(h, p, Request(n), HeapModel.Realloc(h, p, n))
  {
    var (g, q) := HeapModel.Alloc(h, Request(n));
    AllocFailsExactly(h, Request(n));
    MoveFails(h, p, n);
    ApplyPool(h, CallAlloc(Request(n)));
    RequestFacts(n);
    LiveBlock(h, p);
    forall y | p <= y < p + SizeOf(h, p) ensures Kept(h, y) { OwnsPayload(h, p, y); }
    if q != NULL {
      AllocInv(h, Request(n));
      LiveAfter(h, Request(n));
      MoveIs(h, p, n);
      AllocTakes(h, Request(n));
      forall y | Kept(h, y) ensures y < q || q + Request(n) <= y { FreshClear(h, Request(n), y); }
    }
  }

  /** n bytes at to are the n bytes that were at from. */
  predicate Copied(was: seq<bv8>, now: seq<bv8>, from: int, to: int, n: int) {
    0 <= from <= from + n <= |was| && 0 <= to <= to + n <= |now| && now[to..to+n] == was[from..from+n]
  }

  lemma {:induction false} CopiedInPlace(was: seq<bv8>, now: seq<bv8>, p: int, n: int, lo: int)
    requires SameExcept(was, now, lo, |now|) && 0 <= p <= p + n <= |was| && p + n <= lo
    ensures Copied(was, now, p, p, n)
  {
    assert now[p..p+n] == was[p..p+n];
  }

  /** A copy of kept bytes, taken after other bytes changed, is a copy of the original bytes. */
  lemma {:induction false} CopiedLater(h: Heap, was: seq<bv8>, mid: seq<bv8>, now: seq<bv8>, from: int, to: int, n: int)
    requires KeepsBytes(h, was, mid, 0, 0) && Copied(mid, now, from, to, n) && SameExcept(mid, now, to, to + n)
    requires forall y {:trigger Kept(h, y)} :: from <= y < from + n ==> Kept(h, y)
    requires forall y {:trigger Kept(h, y)} :: Kept(h, y) ==> y < to || to + n <= y
    ensures Copied(was, now, from, to, n) && KeepsBytes(h, was, now, 0, 0)
  {
    forall y | from <= y < from + n ensures mid[y] == was[y] { assert Kept(h, y); }
    assert mid[from..from+n] == was[from..from+n];
    forall x | 0 <= x < |now| && Kept(h, x) ensures now[x] == was[x] { assert mid[x] == was[x]; }
  }

  /** A live byte outside block k is clear of everything a resize of block k writes. */
  lemma {:induction false} ResizeClear(h: Heap, k: nat, size: int, y: int)
    requires Inv(h) && Resizable(h, k, size) && Kept(h, y)
    ensures var b := h.blocks[k]; var x := b.addr + size + HEADER;
            y < x || x + HEADER <= y || (b.addr + HEADER + size <= y < b.addr + HEADER + b.size)
  {
    KeptElsewhere(h, k, y);
    SpanFacts(h.blocks, h.start, h.pool, k);
  }

  lemma {:induction false} GrowClear(h: Heap, k: nat, size: int)
    requires Inv(h) && Resizable(h, k, size) && size > h.blocks[k].size
    ensures var x := h.blocks[k].addr + size + HEADER;
            h.start <= x && x + HEADER <= h.start + h.pool
                && forall y {:trigger Kept(h, y)} :: Kept(h, y) ==> y < x || x + HEADER <= y
  {
    RestAddr(h, k, size);
    var x := h.blocks[k].addr + size + HEADER;
    forall y | Kept(h, y) ensures y < x || x + HEADER <= y { ResizeClear(h, k, size, y); }
  }

  lemma {:induction false} ShrinkClear(h: Heap, k: nat, size: int)
    requires Inv(h) && Resizable(h, k, size) && size < h.blocks[k].size
    ensures var b := h.blocks[k];
            && h.start <= b.addr + size + HEADER && b.addr + size + HEADER + HEADER <= h.start + h.pool
            && forall y {:trigger Kept(h, y)} :: Kept(h, y) && b.addr + HEADER + b.size <= y ==>
                 b.addr + size + HEADER + HEADER <= y
  {
    RestAddr(h, k, size);
    SpanFacts(h.blocks, h.start, h.pool, k);
    var b := h.blocks[k];
    forall y | Kept(h, y) && b.addr + HEADER + b.size <= y
        ensures b.addr + size + HEADER + HEADER <= y { ResizeClear(h, k, size, y); }
  }

  // ---------------------------------------------------------------- the heap object

  class MemHeap {
    const mem: Memory
    const header: int          // address of free_header, the sentinel of the free list; also what pool_ptr points to
    var start: int
    var poolSize: int
    var available: int
    var maxUsed: int
    ghost var blocks: seq<Block>
    ghost var free: seq<int>

    ghost function View(): Heap
      reads this
    {
      Heap(start, poolSize, blocks, free, available, maxUsed)
    }

    ghost predicate Valid()
      reads this, mem
    {
      header != NULL && Holds(mem.cells, header, View()) && start + poolSize <= |mem.bytes|
    }

    /**
      rt_memheap_init: one free block over the whole pool and the used, empty tail block; the rest of the memory stays
      as it is.
     */
    constructor (memory: Memory, freeHeader: int, startAddr: int, size: nat)
      requires startAddr > 0 && AlignDown(size) >= 2 * HEADER + MINIALLOC
      requires freeHeader != NULL && (freeHeader < startAddr || startAddr + AlignDown(size) <= freeHeader)
      requires startAddr + AlignDown(size) <= |memory.bytes|
      modifies memory
      ensures Valid() && mem == memory && header == freeHeader && View() == Init(startAddr, size)
      ensures SameOutside(old(memory.cells), memory.cells, header, View())
      ensures SameExcept(old(memory.bytes), memory.bytes, startAddr, startAddr + AlignDown(size))
    {
      mem, header := memory, freeHeader;
      start := startAddr;
      poolSize := AlignDown(size);
      available := AlignDown(size) - 2 * HEADER;
      maxUsed := 2 * HEADER;
      ghost var h := Init(startAddr, size);
      blocks, free := h.blocks, h.free;
      new;
      InitInv(startAddr, size);
      InitFields(start, start + available + HEADER);
      AttachedFacts(mem.cells, header, [], start);
      AttachFree(start);
      assert [start] + [] == free && Addrs(blocks) == [start, start + available + HEADER];
    }

    /** The two headers of a fresh pool and the empty free list. */
    method InitFields(first: int, tail: int)
      requires first != tail && header != first && header != tail
      requires 0 <= first && first + HEADER <= |mem.bytes| && 0 <= tail && tail + HEADER <= |mem.bytes|
      modifies mem
      ensures |mem.bytes| == |old(mem.bytes)|
      ensures first <= tail ==> SameExcept(old(mem.bytes), mem.bytes, first, tail + HEADER)
      ensures var c := old(mem.cells);
              mem.cells == Cells(c.used[first := false][tail := true], c.owner[first := header][tail := header],
                                 c.next[first := tail][tail := first], c.prev[first := tail][tail := first],
                                 c.nextFree[header := header], c.prevFree[header := header])
    {
      mem.cells := mem.cells.(nextFree := mem.cells.nextFree[header := header]);
      mem.cells := mem.cells.(prevFree := mem.cells.prevFree[header := header]);
      FormatHeader(first);
      mem.cells := mem.cells.(next := mem.cells.next[first := tail]);
      mem.cells := mem.cells.(prev := mem.cells.prev[first := tail]);
      FormatHeader(tail);
      mem.cells := mem.cells.(used := mem.cells.used[tail := true]);
      mem.cells := mem.cells.(next := mem.cells.next[tail := first]);
      mem.cells := mem.cells.(prev := mem.cells.prev[tail := first]);
    }

    /** Unlink an item from the free list. */
    method DetachFree(item: int)
      requires item in mem.cells.nextFree && item in mem.cells.prevFree
      modifies mem`cells
      ensures mem.cells == Detached(old(mem.cells), item)
    {
      var n, p := mem.cells.nextFree[item], mem.cells.prevFree[item];
      mem.cells := mem.cells.(prevFree := mem.cells.prevFree[n := p]);
      mem.cells := mem.cells.(nextFree := mem.cells.nextFree[p := n]);
    }

    /** Put an item at the front of the free list. */
    method AttachFree(item: int)
      requires header in mem.cells.nextFree && item != header
      modifies mem`cells
      ensures mem.cells == Attached(old(mem.cells), header, item)
    {
      var first := mem.cells.nextFree[header];
      mem.cells := mem.cells.(nextFree := mem.cells.nextFree[item := first]);
      mem.cells := mem.cells.(prevFree := mem.cells.prevFree[item := header]);
      mem.cells := mem.cells.(prevFree := mem.cells.prevFree[first := item]);
      mem.cells := mem.cells.(nextFree := mem.cells.nextFree[header := item]);
    }

    /** Link a new item into the block list right after another. */
    method LinkAfter(item: int, newItem: int)
      requires item in mem.cells.next && item != newItem
      modifies mem`cells
      ensures mem.cells == LinkedAfter(old(mem.cells), item, newItem)
    {
      var n := mem.cells.next[item];
      mem.cells := mem.cells.(prev := mem.cells.prev[newItem := item]);
      mem.cells := mem.cells.(next := mem.cells.next[newItem := n]);
      mem.cells := mem.cells.(prev := mem.cells.prev[n := newItem]);
      mem.cells := mem.cells.(next := mem.cells.next[item := newItem]);
    }

    /** Unlink an item from the block list. */
    method Unlink(item: int)
      requires item in mem.cells.next && item in mem.cells.prev
      modifies mem`cells
      ensures mem.cells == Unlinked(old(mem.cells), item)
    {
      var n, p := mem.cells.next[item], mem.cells.prev[item];
      mem.cells := mem.cells.(next := mem.cells.next[p := n]);
      mem.cells := mem.cells.(prev := mem.cells.prev[n := p]);
    }

    /** Write magic and pool_ptr of a new, unused header; its 24 bytes overwrite whatever was there. */
    method FormatHeader(item: int)
      requires 0 <= item && item + HEADER <= |mem.bytes|
      modifies mem
      ensures mem.cells == Formatted(old(mem.cells), header, item)
      ensures SameExcept(old(mem.bytes), mem.bytes, item, item + HEADER)
    {
      mem.cells := mem.cells.(used := mem.cells.used[item := false]);
      mem.cells := mem.cells.(owner := mem.cells.owner[item := header]);
      assert |seq<bv8>(HEADER, _ => 0)| == HEADER;
      var written: seq<bv8> :| |written| == HEADER;
      mem.bytes := mem.bytes[..item] + written + mem.bytes[item + HEADER..];
    }

    /** Take bytes off available_size and keep max_used_size up. */
    method Debit(bytes: int)
      modifies this`available, this`maxUsed
      ensures View() == Charge(old(View()).(available := old(available) - bytes))
    {
      available := available - bytes;
      if poolSize - available > maxUsed { maxUsed := poolSize - available; }
    }

    /** The header writes of a split. */
    method SplitFields(item: int, rest: int)
      requires SplitReady(mem.cells, header, item, rest) && 0 <= rest && rest + HEADER <= |mem.bytes|
      modifies mem
      ensures mem.cells == SplitCells(old(mem.cells), header, item, rest)
      ensures SameExcept(old(mem.bytes), mem.bytes, rest, rest + HEADER)
    {
      FormatHeader(rest);
      LinkAfter(item, rest);
      DetachFree(item);
      AttachFree(rest);
      mem.cells := mem.cells.(used := mem.cells.used[item := true]);
    }

    /** Take the front of a free block and give the rest a header of its own. */
    method SplitBlock(item: int, size: int, ghost k: nat)
      requires Valid() && k + 1 < |blocks| && !blocks[k].used && blocks[k].addr == item
      requires size >= MINIALLOC && Aligned(size) && blocks[k].size >= size + HEADER + MINIALLOC
      modifies this, mem
      ensures Valid() && View() == Take(old(View()), k, size) && SameOutside(old(mem.cells), mem.cells, header, View())
      ensures KeepsBytes(old(View()), old(mem.bytes), mem.bytes, 0, 0)
    {
      ghost var h := View();
      SplitIsReady(mem.cells, header, h, k, size);
      SplitFields(item, item + size + HEADER);
      Debit(size + HEADER);
      blocks, free := Reshape(h.blocks, k, size), ReshapeFree(h, k, size);
      SplitDone(old(mem.cells), header, h, k, size, mem.cells, View());
    }

    /** Take a whole free block. */
    method TakeBlock(item: int, freeSize: int, ghost k: nat, ghost size: int)
      requires Valid() && k + 1 < |blocks| && !blocks[k].used && blocks[k].addr == item && blocks[k].size == freeSize
      requires MINIALLOC <= size <= freeSize < size + HEADER + MINIALLOC && Aligned(size)
      modifies this, mem`cells
      ensures Valid() && View() == Take(old(View()), k, size) && SameOutside(old(mem.cells), mem.cells, header, View())
    {
      ghost var h := View();
      TakeWhole(mem.cells, header, h, k, size);
      Debit(freeSize);
      DetachFree(item);
      mem.cells := mem.cells.(used := mem.cells.used[item := true]);
      blocks, free := blocks[k := blocks[k].(used := true)], Without(free, item);
      assert View() == Take(h, k, size);
    }

    /** The free list entry at position j, or the sentinel. */
    ghost function Entry(j: nat): int
      requires j <= |free|
      reads this
    {
      if j < |free| then free[j] else header
    }

    method Alloc(n: nat) returns (ptr: int)
      requires Valid()
      modifies this, mem
      ensures Valid() && (View(), ptr) == HeapModel.Alloc(old(View()), n)
              && SameOutside(old(mem.cells), mem.cells, header, View())
      ensures KeepsBytes(old(View()), old(mem.bytes), mem.bytes, 0, 0)
    {
      ghost var h := View();
      AllocCases(h, n);
      var size := AlignUp(n);
      if size < MINIALLOC { size := MINIALLOC; }
      if size >= available { return NULL; }
      var freeSize, item := Search(size);
      if freeSize < size { return NULL; }
      ptr := item + HEADER;
      TakeFrom(item, freeSize, size, IndexOf(blocks, item));
      assert HeapModel.Alloc(h, n).0 == View() && HeapModel.Alloc(h, n).1 == ptr;
    }

    /** Allocate from the block found: split it when what is left can stand alone. */
    method TakeFrom(item: int, freeSize: int, size: int, ghost k: nat)
      requires Valid() && k + 1 < |blocks| && !blocks[k].used && blocks[k].addr == item && blocks[k].size == freeSize
      requires MINIALLOC <= size <= freeSize && Aligned(size)
      modifies this, mem
      ensures Valid() && View() == Take(old(View()), k, size) && SameOutside(old(mem.cells), mem.cells, header, View())
      ensures KeepsBytes(old(View()), old(mem.bytes), mem.bytes, 0, 0)
    {
      if freeSize >= size + HEADER + MINIALLOC {
        SplitBlock(item, size, k);
      } else {
        TakeBlock(item, freeSize, k, size);
      }
    }

    /** The search loop: the first free block, in free-list order, that is large enough. */
    method Search(size: int) returns (freeSize: int, item: int)
      requires Valid() && size > 0
      ensures var j := FirstFit(blocks, free, size);
              && item == Entry(j)
              && (freeSize >= size <==> j < |free|)
              && (j < |free| ==>
                    IndexOf(blocks, free[j]) < |blocks| && freeSize == blocks[IndexOf(blocks, free[j])].size)
    {
      ghost var h, c := View(), mem.cells;
      freeSize := 0;
      FreeStep(c, header, h, 0);
      item := mem.cells.nextFree[header];
      ghost var j := 0;
      while item != header && freeSize < size
        invariant j <= |free| && item == Entry(j)
        invariant TooSmallTo(blocks, free, size, j)
        invariant freeSize >= size ==>
                    j < |free| && IndexOf(blocks, free[j]) < |blocks|
                    && freeSize == blocks[IndexOf(blocks, free[j])].size
        decreases |free| - j, size - freeSize
      {
        FreeEntryFields(c, header, h, j);
        freeSize := mem.cells.next[item] - item - HEADER;
        if freeSize < size {
          FreeStep(c, header, h, j + 1);
          TooSmallNext(blocks, free, size, j);
          item := mem.cells.nextFree[item];
          j := j + 1;
        }
      }
      if j < |free| { FreeEntryFields(c, header, h, j); }
      FirstFitAt(blocks, free, size, j);
    }

    /** rt_memheap_free for a pointer this heap handed out. */
    method Free(ptr: int)
      requires Valid() && (ptr == NULL || Live(View(), ptr))
      modifies this, mem`cells
      ensures Valid() && View() == HeapModel.Free(old(View()), ptr)
              && SameOutside(old(mem.cells), mem.cells, header, View())
    {
      if ptr == NULL { return; }
      LiveBlock(View(), ptr);
      ReleaseBlock(ptr - HEADER, IndexOf(blocks, ptr - HEADER));
    }

    method ReleaseBlock(item: int, ghost k: nat)
      requires Valid() && k + 1 < |blocks| && blocks[k].used && blocks[k].addr == item
      modifies this, mem`cells
      ensures Valid() && View() == Release(old(View()), k) && SameOutside(old(mem.cells), mem.cells, header, View())
    {
      ghost var h := View();
      ghost var n, left, right := h.blocks[k+1].addr, LeftFree(h.blocks, k), NextFree(h.blocks, k);
      ReleaseRepresents(mem.cells, header, h, k);
      var gained := ReleaseFields(item, n, left, right);
      available := available + gained;
      blocks, free := Coalesce(h.blocks, k), FreedList(h, k);
      assert View() == Release(h, k) by { assert AdjacentAt(h.blocks, k); }
    }

    /** The header writes of a free; returns what available_size gains. */
    method ReleaseFields(item: int, ghost n: int, ghost left: bool, ghost right: bool) returns (gained: int)
      requires ReleaseReady(mem.cells, header, item, n, left, right)
      modifies mem`cells
      ensures mem.cells == Released(old(mem.cells), header, item, n, left, right)
      ensures gained == n - item - HEADER + (if left then HEADER else 0) + (if right then HEADER else 0)
    {
      var at := item;
      mem.cells := mem.cells.(used := mem.cells.used[item := false]);
      gained := mem.cells.next[item] - item - HEADER;
      var insert := true;
      if !mem.cells.used[mem.cells.prev[item]] {
        gained := gained + HEADER;
        at := mem.cells.prev[item];
        Unlink(item);
        insert := false;
      }
      var next := mem.cells.next[at];
      if !mem.cells.used[next] {
        gained := gained + HEADER;
        Unlink(next);
        DetachFree(next);
      }
      if insert {
        AttachFree(at);
      }
    }

    /** The header writes of growing. */
    method GrowFields(item: int, next: int, rest: int)
      requires GrowReady(mem.cells, header, item, next, rest) && 0 <= rest && rest + HEADER <= |mem.bytes|
      modifies mem
      ensures mem.cells == GrownCells(old(mem.cells), header, item, next, rest)
      ensures SameExcept(old(mem.bytes), mem.bytes, rest, rest + HEADER)
    {
      DetachFree(next);
      Unlink(next);
      FormatHeader(rest);
      LinkAfter(item, rest);
      AttachFree(rest);
    }

    /** Move the boundary between a used block and the free block after it up. */
    method GrowBlock(item: int, next: int, size: int, ghost k: nat)
      requires Valid() && Resizable(View(), k, size) && size > blocks[k].size && NextFree(blocks, k)
      requires blocks[k].addr == item && blocks[k+1].addr == next && next - item - HEADER == blocks[k].size
      modifies this, mem
      ensures Valid() && View() == Charge(Reshaped(old(View()), k, size, old(available) - (size - old(blocks)[k].size)))
      ensures SameOutside(old(mem.cells), mem.cells, header, View())
      ensures KeepsBytes(old(View()), old(mem.bytes), mem.bytes, 0, 0)
      ensures SameExcept(old(mem.bytes), mem.bytes, item + HEADER + size, |mem.bytes|)
    {
      GrowClear(View(), k, size);
      GrowLinks(item, next, size, k);
    }

    method GrowLinks(item: int, next: int, size: int, ghost k: nat)
      requires Valid() && Resizable(View(), k, size) && size > blocks[k].size && NextFree(blocks, k)
      requires blocks[k].addr == item && blocks[k+1].addr == next && next - item - HEADER == blocks[k].size
      requires 0 <= item + size + HEADER && item + size + 2 * HEADER <= |mem.bytes|
      modifies this, mem
      ensures Valid() && View() == Charge(Reshaped(old(View()), k, size, old(available) - (size - old(blocks)[k].size)))
      ensures SameOutside(old(mem.cells), mem.cells, header, View())
      ensures SameExcept(old(mem.bytes), mem.bytes, item + size + HEADER, item + size + 2 * HEADER)
    {
      ghost var h := View();
      GrowIsReady(mem.cells, header, h, k, size);
      Debit(size - (next - item - HEADER));
      GrowFields(item, next, item + size + HEADER);
      blocks, free := Reshape(h.blocks, k, size), ReshapeFree(h, k, size);
      GrowDone(old(mem.cells), header, h, k, size, mem.cells, View());
    }

    /** The header writes of shrinking; returns what available_size gains. */
    method ShrinkFields(item: int, rest: int, ghost n: int, ghost right: bool) returns (gained: int)
      requires ShrinkReady(mem.cells, header, item, n, rest, right) && n in mem.cells.next && 0 <= rest
               && rest + HEADER <= |mem.bytes|
      modifies mem
      ensures mem.cells == ShrunkCells(old(mem.cells), header, item, n, rest, right)
      ensures gained == n - rest - HEADER + (if right then HEADER else 0)
      ensures SameExcept(old(mem.bytes), mem.bytes, rest, rest + HEADER)
    {
      FormatHeader(rest);
      LinkAfter(item, rest);
      gained := 0;
      var next := mem.cells.next[rest];
      if !mem.cells.used[next] {
        gained := gained - (mem.cells.next[next] - next - HEADER);
        Unlink(next);
        DetachFree(next);
      }
      AttachFree(rest);
      gained := gained + (mem.cells.next[rest] - rest - HEADER);
    }

    /** Cut the end off a used block; it merges with a free right neighbour. */
    method ShrinkBlock(item: int, size: int, ghost k: nat)
      requires Valid() && Resizable(View(), k, size) && size < blocks[k].size && blocks[k].addr == item
      modifies this, mem
      ensures Valid() && View() == Reshaped(old(View()), k, size, old(available) + old(blocks)[k].size - size - HEADER
                                            + (if NextFree(old(blocks), k) then HEADER else 0))
      ensures SameOutside(old(mem.cells), mem.cells, header, View())
      ensures KeepsBytes(old(View()), old(mem.bytes), mem.bytes, item + HEADER, item + HEADER + old(blocks)[k].size)
      ensures SameExcept(old(mem.bytes), mem.bytes, item + HEADER + size, |mem.bytes|)
    {
      ShrinkClear(View(), k, size);
      ShrinkLinks(item, size, k);
    }

    method ShrinkLinks(item: int, size: int, ghost k: nat)
      requires Valid() && Resizable(View(), k, size) && size < blocks[k].size && blocks[k].addr == item
      requires 0 <= item + size + HEADER && item + size + 2 * HEADER <= |mem.bytes|
      modifies this, mem
      ensures Valid() && View() == Reshaped(old(View()), k, size, old(available) + old(blocks)[k].size - size - HEADER
                                            + (if NextFree(old(blocks), k) then HEADER else 0))
      ensures SameOutside(old(mem.cells), mem.cells, header, View())
      ensures SameExcept(old(mem.bytes), mem.bytes, item + size + HEADER, item + size + 2 * HEADER)
    {
      ghost var h := View();
      ShrinkIsReady(mem.cells, header, h, k, size);
      NextAddr(mem.cells, header, h, k);
      var gained := ShrinkFields(item, item + size + HEADER, blocks[k+1].addr, NextFree(blocks, k));
      available := available + gained;
      blocks, free := Reshape(h.blocks, k, size), ReshapeFree(h, k, size);
      ShrinkDone(old(mem.cells), header, h, k, size, mem.cells, View());
    }

    /** rt_memheap_realloc. */
    method Realloc(ptr: int, n: nat) returns (q: int)
      requires Valid() && (ptr == NULL || Live(View(), ptr))
      modifies this, mem
      ensures Valid() && (View(), q) == HeapModel.Realloc(old(View()), ptr, n)
              && SameOutside(old(mem.cells), mem.cells, header, View())
      ensures KeepsBytes(old(View()), old(mem.bytes), mem.bytes, ptr,
                         if ptr == NULL || q == NULL then ptr else ptr + SizeOf(old(View()), ptr))
      ensures n > 0 && ptr != NULL && q != NULL ==>
                Copied(old(mem.bytes), mem.bytes, ptr, q, Min(SizeOf(old(View()), ptr), Request(n)))
    {
      if n == 0 { Free(ptr); return NULL; }
      RequestFacts(n);
      var size := AlignUp(n);
      if size < MINIALLOC { size := MINIALLOC; }
      if ptr == NULL { q := Alloc(size); return; }
      ReallocCases(View(), ptr, n);
      q := Resize(ptr, size, HeapModel.Realloc(View(), ptr, n));
    }

    method Resize(ptr: int, size: int, ghost r: (Heap, int)) returns (q: int)
      requires Valid() && ResizeResult(View(), ptr, size, r)
      modifies this, mem
      ensures Valid() && (View(), q) == r && SameOutside(old(mem.cells), mem.cells, header, View())
      ensures KeepsBytes(old(View()), old(mem.bytes), mem.bytes, ptr,
                         if q == NULL then ptr else ptr + SizeOf(old(View()), ptr))
      ensures q != NULL ==> Copied(old(mem.bytes), mem.bytes, ptr, q, Min(SizeOf(old(View()), ptr), size))
    {
      ghost var h := View();
      ghost var k := IndexOf(blocks, ptr - HEADER);
      BlockFields(mem.cells, header, h, k);
      var item := ptr - HEADER;
      var oldSize := mem.cells.next[item] - item - HEADER;
      if size > oldSize {
        q := Enlarge(ptr, oldSize, size, r);
      } else if size + HEADER + MINIALLOC >= oldSize {
        CopiedInPlace(mem.bytes, mem.bytes, ptr, size, ptr + size);
        q := ptr;
      } else {
        Reduce(ptr, oldSize, size, r);
        q := ptr;
      }
    }

    /** Shrinking by more than a free block needs. */
    method Reduce(ptr: int, oldSize: int, size: int, ghost r: (Heap, int))
      requires Valid() && ResizeResult(View(), ptr, size, r) && oldSize == SizeOf(View(), ptr)
               && size + HEADER + MINIALLOC < oldSize
      modifies this, mem
      ensures Valid() && (View(), ptr) == r && SameOutside(old(mem.cells), mem.cells, header, View())
      ensures KeepsBytes(old(View()), old(mem.bytes), mem.bytes, ptr, ptr + oldSize)
      ensures Copied(old(mem.bytes), mem.bytes, ptr, ptr, size)
    {
      ShrinkBlock(ptr - HEADER, size, IndexOf(blocks, ptr - HEADER));
      CopiedInPlace(old(mem.bytes), mem.bytes, ptr, size, ptr + size);
    }

    /** Growing: into the free right neighbour when there is room, elsewhere when not. */
    method Enlarge(ptr: int, oldSize: int, size: int, ghost r: (Heap, int)) returns (q: int)
      requires Valid() && ResizeResult(View(), ptr, size, r) && oldSize == SizeOf(View(), ptr) && size > oldSize
      modifies this, mem
      ensures Valid() && (View(), q) == r && SameOutside(old(mem.cells), mem.cells, header, View())
      ensures KeepsBytes(old(View()), old(mem.bytes), mem.bytes, ptr, if q == NULL then ptr else ptr + oldSize)
      ensures q != NULL ==> Copied(old(mem.bytes), mem.bytes, ptr, q, oldSize)
    {
      ghost var h := View();
      ghost var k := IndexOf(blocks, ptr - HEADER);
      EnlargeFields(mem.cells, header, h, k);
      var item := ptr - HEADER;
      var next := mem.cells.next[item];
      if !mem.cells.used[next] && mem.cells.next[next] - next - HEADER + oldSize > size + MINIALLOC {
        GrowHere(item, next, oldSize, size, k, r);
        q := ptr;
      } else {
        LiveBlock(h, ptr);
        q := MoveBlock(ptr, oldSize, size, r);
      }
    }

    method GrowHere(item: int, next: int, oldSize: int, size: int, ghost k: nat, ghost r: (Heap, int))
      requires Valid() && ResizeResult(View(), item + HEADER, size, r) && k == IndexOf(blocks, item)
      requires oldSize == SizeOf(View(), item + HEADER) && size > oldSize && GrowsInPlace(blocks, k, size)
      requires blocks[k+1].addr == next && next - item - HEADER == oldSize
      modifies this, mem
      ensures Valid() && (View(), item + HEADER) == r && SameOutside(old(mem.cells), mem.cells, header, View())
      ensures KeepsBytes(old(View()), old(mem.bytes), mem.bytes, 0, 0)
      ensures Copied(old(mem.bytes), mem.bytes, item + HEADER, item + HEADER, oldSize)
    {
      GrowBlock(item, next, size, k);
      CopiedInPlace(old(mem.bytes), mem.bytes, item + HEADER, oldSize, item + HEADER + size);
    }

    /** rt_memcpy between payloads. */
    method CopyBytes(to: int, from: int, n: int)
      requires 0 <= from <= from + n <= |mem.bytes| && 0 <= to <= to + n <= |mem.bytes|
      modifies mem`bytes
      ensures Copied(old(mem.bytes), mem.bytes, from, to, n) && SameExcept(old(mem.bytes), mem.bytes, to, to + n)
    {
      mem.bytes := mem.bytes[..to] + mem.bytes[from..from+n] + mem.bytes[to+n..];
    }

    /** Allocate elsewhere, copy, free the old block. */
    method MoveBlock(ptr: int, oldSize: int, size: int, ghost r: (Heap, int)) returns (q: int)
      requires Valid() && Live(View(), ptr) && oldSize == SizeOf(View(), ptr) && size > oldSize >= 0
               && MoveResult(View(), ptr, size, r)
      modifies this, mem
      ensures Valid() && (View(), q) == r && SameOutside(old(mem.cells), mem.cells, header, View())
      ensures KeepsBytes(old(View()), old(mem.bytes), mem.bytes, ptr, if q == NULL then ptr else ptr + oldSize)
      ensures q != NULL ==> Copied(old(mem.bytes), mem.bytes, ptr, q, oldSize)
    {
      ghost var h, c := View(), mem.cells;
      q := AllocCopy(ptr, oldSize, size, r);
      ghost var g, d := View(), mem.cells;
      if q != NULL {
        Free(ptr);
        SameOutsideTrans(c, d, mem.cells, header, h, g);
      }
    }

    method AllocCopy(ptr: int, oldSize: int, size: int, ghost r: (Heap, int)) returns (q: int)
      requires Valid() && Live(View(), ptr) && oldSize == SizeOf(View(), ptr) && size > oldSize >= 0
               && MoveResult(View(), ptr, size, r)
      modifies this, mem
      ensures Valid() && (View(), q) == HeapModel.Alloc(old(View()), size)
              && SameOutside(old(mem.cells), mem.cells, header, View())
      ensures KeepsBytes(old(View()), old(mem.bytes), mem.bytes, 0, 0)
      ensures q != NULL ==> Copied(old(mem.bytes), mem.bytes, ptr, q, oldSize)
    {
      ghost var h := View();
      q := Alloc(size);
      ghost var mid := mem.bytes;
      if q != NULL {
        CopyBytes(q, ptr, Min(oldSize, size));
        CopiedLater(h, old(mem.bytes), mid, mem.bytes, ptr, q, oldSize);
      }
    }
  }

}
