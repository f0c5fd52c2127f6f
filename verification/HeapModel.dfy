/**
  The memory heap of memheap.c as a value: the address-ordered blocks, the free list in its own
  (last freed first) order, and the two byte counters. The pointer code in MemHeap.dfy is proved
  to compute exactly these functions; what the heap promises is proved here.
 */
module HeapModel {

  // RT_ALIGN_SIZE is 4.
  predicate Aligned(x: int) { x % 4 == 0 }
  function AlignUp(n: nat): nat { (n + 3) / 4 * 4 }
  function AlignDown(n: nat): nat { n / 4 * 4 }

  const HEADER: int := 24      // RT_MEMHEAP_SIZE: six words
  const MINIALLOC: int := 12   // RT_MEMHEAP_MINIALLOC
  const NULL: int := 0

  datatype Block = Block(addr: int, size: int, used: bool)

  datatype Heap = Heap(start: int, pool: int, blocks: seq<Block>, free: seq<int>, available: int, maxUsed: int)

  // ---------------------------------------------------------------- block lists

  /** c starts where b's payload ends; two free blocks never meet; b is large enough. */
  predicate Adjacent(b: Block, c: Block) {
    && c.addr == b.addr + HEADER + b.size
    && (b.used || c.used)
    && b.size >= MINIALLOC
    && Aligned(b.size)
  }

  predicate AdjacentAt(bs: seq<Block>, i: nat)
    requires i + 1 < |bs|
  {
    Adjacent(bs[i], bs[i+1])
  }

  ghost predicate Chain(bs: seq<Block>) {
    forall i {:trigger AdjacentAt(bs, i)} :: 0 <= i < |bs| - 1 ==> AdjacentAt(bs, i)
  }

  /** The blocks tile [start, start + pool) and end in the used, empty tail block. */
  ghost predicate Tiles(bs: seq<Block>, start: int, pool: int) {
    && |bs| >= 2
    && Chain(bs)
    && bs[0].addr == start
    && bs[|bs|-1] == Block(start + pool - HEADER, 0, true)
  }

  /** Sums over the first n blocks. */
  function FreeBytesTo(bs: seq<Block>, n: nat): int
    requires n <= |bs|
  {
    if n == 0 then 0 else FreeBytesTo(bs, n - 1) + if bs[n-1].used then 0 else bs[n-1].size
  }

  function UsedBytesTo(bs: seq<Block>, n: nat): int
    requires n <= |bs|
  {
    if n == 0 then 0 else UsedBytesTo(bs, n - 1) + if bs[n-1].used then bs[n-1].size else 0
  }

  ghost function FreeAddrsTo(bs: seq<Block>, n: nat): multiset<int>
    requires n <= |bs|
  {
    if n == 0 then multiset{} else FreeAddrsTo(bs, n - 1) + if bs[n-1].used then multiset{} else multiset{bs[n-1].addr}
  }

  function FreeBytes(bs: seq<Block>): int { FreeBytesTo(bs, |bs|) }

  function UsedBytes(bs: seq<Block>): int { UsedBytesTo(bs, |bs|) }

  ghost function FreeAddrs(bs: seq<Block>): multiset<int> { FreeAddrsTo(bs, |bs|) }

  /** The addresses on a free list, with multiplicity. */
  ghost function ListedTo(free: seq<int>, n: nat): multiset<int>
    requires n <= |free|
  {
    if n == 0 then multiset{} else ListedTo(free, n - 1) + multiset{free[n-1]}
  }

  ghost function Listed(free: seq<int>): multiset<int> { ListedTo(free, |free|) }

  /** The position of the block headed at a, or |bs|. */
  function IndexOf(bs: seq<Block>, a: int): (k: nat)
    ensures k <= |bs|
    ensures k < |bs| ==> bs[k].addr == a
    ensures forall j :: 0 <= j < k ==> bs[j].addr != a
  {
    if bs == [] || bs[0].addr == a then 0 else 1 + IndexOf(bs[1..], a)
  }

  function Position(s: seq<int>, a: int): (k: nat)
    ensures k <= |s|
    ensures k < |s| ==> s[k] == a
    ensures forall j :: 0 <= j < k ==> s[j] != a
  {
    if s == [] || s[0] == a then 0 else 1 + Position(s[1..], a)
  }

  function Without(s: seq<int>, a: int): seq<int> {
    var k := Position(s, a);
    if k < |s| then s[..k] + s[k+1..] else s
  }

  // ---------------------------------------------------------------- invariant

  ghost predicate Inv(h: Heap) {
    && h.start > 0
    && Tiles(h.blocks, h.start, h.pool)
    && Listed(h.free) == FreeAddrs(h.blocks)
    && h.available == FreeBytes(h.blocks)
    && h.maxUsed >= h.pool - h.available
  }

  /** ptr is the payload of a block handed out and not yet freed. */
  predicate Live(h: Heap, ptr: int) {
    var k := IndexOf(h.blocks, ptr - HEADER);
    k + 1 < |h.blocks| && h.blocks[k].used
  }

  function SizeOf(h: Heap, ptr: int): int
    requires Live(h, ptr)
  {
    h.blocks[IndexOf(h.blocks, ptr - HEADER)].size
  }

  // ---------------------------------------------------------------- operations

  function Request(n: nat): int {
    var size := AlignUp(n);
    if size < MINIALLOC then MINIALLOC else size
  }

  function Init(start: int, size: nat): Heap {
    var pool := AlignDown(size);
    var avail := pool - 2 * HEADER;
    Heap(start, pool, [Block(start, avail, false), Block(start + avail + HEADER, 0, true)], [start], avail,
        pool - avail)
  }

  predicate NextFree(bs: seq<Block>, k: nat) { k + 1 < |bs| && !bs[k+1].used }

  /** The payload block k would have if it swallowed a free right neighbour. */
  function Span(bs: seq<Block>, k: nat): int
    requires k < |bs|
  {
    bs[k].size + if NextFree(bs, k) then HEADER + bs[k+1].size else 0
  }

  /** Block k becomes used with the given payload; what is left of its span becomes one free block. */
  function Reshape(bs: seq<Block>, k: nat, size: int): seq<Block>
    requires k < |bs|
  {
    bs[..k]
    + [Block(bs[k].addr, size, true), Block(bs[k].addr + size + HEADER, Span(bs, k) - size - HEADER, false)]
    + bs[if NextFree(bs, k) then k + 2 else k + 1..]
  }

  /** The free-list entry that goes when block k swallows its span. */
  function Swallowed(bs: seq<Block>, k: nat): int
    requires k < |bs|
  {
    if NextFree(bs, k) then bs[k+1].addr else bs[k].addr
  }

  /** The free list after Reshape: a swallowed neighbour (or k itself) leaves, the rest goes to the front. */
  function ReshapeFree(h: Heap, k: nat, size: int): seq<int>
    requires k < |h.blocks|
  {
    [h.blocks[k].addr + size + HEADER] + Without(h.free, Swallowed(h.blocks, k))
  }

  function Reshaped(h: Heap, k: nat, size: int, available: int): Heap
    requires k < |h.blocks|
  {
    h.(blocks := Reshape(h.blocks, k, size), free := ReshapeFree(h, k, size), available := available)
  }

  function Charge(h: Heap): Heap {
    h.(maxUsed := if h.pool - h.available > h.maxUsed then h.pool - h.available else h.maxUsed)
  }

  /** The first block of the free list that holds size bytes, as a position in that list. */
  function FirstFit(bs: seq<Block>, free: seq<int>, size: int): (j: nat)
    ensures j <= |free|
  {
    if free == [] then 0
    else
      var k := IndexOf(bs, free[0]);
      if k < |bs| && bs[k].size >= size then 0 else 1 + FirstFit(bs, free[1..], size)
  }

  function Take(h: Heap, k: nat, size: int): Heap
    requires k < |h.blocks|
  {
    var b := h.blocks[k];
    if b.size >= size + HEADER + MINIALLOC then
      Charge(Reshaped(h, k, size, h.available - size - HEADER))
    else
      Charge(h.(blocks := h.blocks[k := b.(used := true)], free := Without(h.free, b.addr),
                available := h.available - b.size))
  }

  function Alloc(h: Heap, n: nat): (Heap, int) {
    var size := Request(n);
    var j := FirstFit(h.blocks, h.free, size);
    if size < h.available && j < |h.free| then
      var k := IndexOf(h.blocks, h.free[j]);
      if k < |h.blocks| then (Take(h, k, size), h.free[j] + HEADER) else (h, NULL)
    else (h, NULL)
  }

  /** Block k is given back and merged with its free neighbours. */
  function Coalesce(bs: seq<Block>, k: nat): seq<Block>
    requires k < |bs|
  {
    if LeftFree(bs, k) then
      bs[..k-1] + [Block(bs[k-1].addr, bs[k-1].size + HEADER + Span(bs, k), false)]
      + bs[if NextFree(bs, k) then k + 2 else k + 1..]
    else
      bs[..k] + [Block(bs[k].addr, Span(bs, k), false)] + bs[if NextFree(bs, k) then k + 2 else k + 1..]
  }

  predicate LeftFree(bs: seq<Block>, k: nat)
    requires k < |bs|
  {
    k > 0 && !bs[k-1].used
  }

  function FreedList(h: Heap, k: nat): seq<int>
    requires k < |h.blocks|
  {
    var rest := if NextFree(h.blocks, k) then Without(h.free, h.blocks[k+1].addr) else h.free;
    if LeftFree(h.blocks, k) then rest else [h.blocks[k].addr] + rest
  }

  function Release(h: Heap, k: nat): Heap
    requires k < |h.blocks|
  {
    var merges := (if LeftFree(h.blocks, k) then HEADER else 0) + (if NextFree(h.blocks, k) then HEADER else 0);
    h.(blocks := Coalesce(h.blocks, k), free := FreedList(h, k), available := h.available + h.blocks[k].size + merges)
  }

  function Free(h: Heap, ptr: int): Heap
    requires ptr == NULL || Live(h, ptr)
  {
    if ptr == NULL then h else Release(h, IndexOf(h.blocks, ptr - HEADER))
  }

  predicate GrowsInPlace(bs: seq<Block>, k: nat, size: int)
    requires k < |bs|
  {
    NextFree(bs, k) && bs[k+1].size + bs[k].size > size + MINIALLOC
  }

  function Realloc(h: Heap, ptr: int, n: nat): (Heap, int)
    requires ptr == NULL || Live(h, ptr)
  {
    if n == 0 then (Free(h, ptr), NULL)
    else if ptr == NULL then Alloc(h, Request(n))
    else
      var size := Request(n);
      var k := IndexOf(h.blocks, ptr - HEADER);
      var b := h.blocks[k];
      if size > b.size then
        if GrowsInPlace(h.blocks, k, size) then
          (Charge(Reshaped(h, k, size, h.available - (size - b.size))), ptr)
        else
          var (h', ptr') := Alloc(h, size);
          if ptr' == NULL then (h', NULL)
          else if Live(h', ptr) then (Free(h', ptr), ptr') else (h', ptr')
      else if size + HEADER + MINIALLOC >= b.size then (h, ptr)
      else
        var gained := b.size - size - HEADER + (if NextFree(h.blocks, k) then HEADER else 0);
        (Reshaped(h, k, size, h.available + gained), ptr)
  }
}
