/** The small-memory heap: blocks with offset links tile the pool, and a pointer remembers the lowest free one. */
module SmallHeapModel {

  /** A block header: two half-words and two offsets. */
  const HEADER := 12
  const MIN_SIZE := 12

  datatype Block = Block(addr: int, used: bool)

  /** The blocks in address order without the end stub, and the heap's counters. size is the aligned pool size. */
  datatype Heap = Heap(size: int, blocks: seq<Block>, lfree: int, usedMem: int, maxMem: int)

  function EndStub(h: Heap): int { h.size + HEADER }

  /** Where block i ends: at the next block or at the end stub. */
  function End(h: Heap, i: int): int
    requires 0 <= i < |h.blocks|
  {
    if i + 1 < |h.blocks| then h.blocks[i + 1].addr else EndStub(h)
  }

  function Payload(h: Heap, i: int): int
    requires 0 <= i < |h.blocks|
  {
    End(h, i) - h.blocks[i].addr - HEADER
  }

  // ---------------------------------------------------------------- invariant

  predicate Sound(h: Heap, i: int)
    requires 0 <= i < |h.blocks|
  {
    h.blocks[i].addr % 4 == 0 && Payload(h, i) >= 4
  }

  ghost predicate Tiled(h: Heap) {
    h.size % 4 == 0 && h.size >= MIN_SIZE && |h.blocks| > 0 && h.blocks[0].addr == 0
    && forall i {:trigger Sound(h, i)} :: 0 <= i < |h.blocks| ==> Sound(h, i)
  }

  predicate BothFree(h: Heap, i: int)
    requires 0 <= i < |h.blocks| - 1
  {
    !h.blocks[i].used && !h.blocks[i + 1].used
  }

  ghost predicate NoFreePair(h: Heap) {
    forall i {:trigger BothFree(h, i)} :: 0 <= i < |h.blocks| - 1 ==> !BothFree(h, i)
  }

  /** The total extent of the first n blocks that are used. */
  function UsedTo(h: Heap, n: nat): int
    requires n <= |h.blocks|
  {
    if n == 0 then 0 else UsedTo(h, n - 1) + (if h.blocks[n - 1].used then End(h, n - 1) - h.blocks[n - 1].addr else 0)
  }

  predicate FreeAt(h: Heap, a: int) {
    exists i {:trigger h.blocks[i]} :: 0 <= i < |h.blocks| && h.blocks[i] == Block(a, false)
  }

  /** The lowest-free pointer is at a free block, or at the end stub. */
  ghost predicate LfreeInv(h: Heap) {
    h.lfree == EndStub(h) || FreeAt(h, h.lfree)
  }

  ghost predicate Counted(h: Heap) {
    h.usedMem == UsedTo(h, |h.blocks|) <= h.maxMem
  }

  ghost predicate Inv(h: Heap) {
    Tiled(h) && NoFreePair(h) && Counted(h) && LfreeInv(h)
  }

  /** The lowest-free pointer keeps its promise. */
  ghost predicate Lowest(h: Heap) {
    forall i {:trigger h.blocks[i]} :: 0 <= i < |h.blocks| && !h.blocks[i].used ==> h.lfree <= h.blocks[i].addr
  }

  // ---------------------------------------------------------------- the primitive changes

  function SetUsed(h: Heap, i: int, used: bool): Heap
    requires 0 <= i < |h.blocks|
  {
    h.(blocks := h.blocks[i := h.blocks[i].(used := used)])
  }

  /** A free block starts inside block i. */
  function Split(h: Heap, i: int, at: int): Heap
    requires 0 <= i < |h.blocks|
  {
    h.(blocks := h.blocks[..i + 1] + [Block(at, false)] + h.blocks[i + 1..])
  }

  /** Block i swallows the next one. */
  function Merge(h: Heap, i: int): Heap
    requires 0 <= i < |h.blocks| - 1
  {
    h.(blocks := h.blocks[..i + 1] + h.blocks[i + 2..])
  }

  lemma {:induction false} Ascending(h: Heap, i: int, j: int)
    requires Tiled(h) && 0 <= i < j < |h.blocks|
    ensures End(h, i) <= h.blocks[j].addr && h.blocks[i].addr + HEADER + 4 <= h.blocks[j].addr
    decreases j
  {
    assert Sound(h, i);
    if i + 1 < j {
      Ascending(h, i, j - 1);
      assert Sound(h, j - 1);
    }
  }

  lemma {:induction false} SetUsedTiled(h: Heap, i: int, used: bool)
    requires Tiled(h) && 0 <= i < |h.blocks|
    ensures Tiled(SetUsed(h, i, used))
  {
    var r := SetUsed(h, i, used);
    forall j | 0 <= j < |r.blocks| ensures Sound(r, j) { assert Sound(h, j); }
  }

  lemma {:induction false} SplitTiled(h: Heap, i: int, at: int)
    requires Tiled(h) && 0 <= i < |h.blocks|
    requires at % 4 == 0 && h.blocks[i].addr + HEADER + 4 <= at <= End(h, i) - HEADER - 4
    ensures Tiled(Split(h, i, at))
    ensures var r := Split(h, i, at);
            End(r, i) == at && End(r, i + 1) == End(h, i) && |r.blocks| == |h.blocks| + 1
  {
    var r := Split(h, i, at);
    forall j | 0 <= j < |r.blocks| ensures Sound(r, j) {
      assert Sound(h, if j <= i then j else j - 1);
    }
  }

  lemma {:induction false} MergeTiled(h: Heap, i: int)
    requires Tiled(h) && 0 <= i < |h.blocks| - 1
    ensures Tiled(Merge(h, i)) && End(Merge(h, i), i) == End(h, i + 1)
  {
    var r := Merge(h, i);
    assert Sound(h, i) && Sound(h, i + 1);
    forall j | 0 <= j < |r.blocks| ensures Sound(r, j) {
      assert Sound(h, if j <= i then j else j + 1);
    }
  }

  // ---------------------------------------------------------------- what they do to the used total

  lemma {:induction false} SetUsedTotal(h: Heap, i: int, used: bool, n: nat)
    requires 0 <= i < |h.blocks| && n <= |h.blocks|
    ensures var d := End(h, i) - h.blocks[i].addr;
            UsedTo(SetUsed(h, i, used), n)
            == UsedTo(h, n) + (if n <= i || h.blocks[i].used == used then 0 else if used then d else -d)
  {
    if n > 0 { SetUsedTotal(h, i, used, n - 1); }
  }

  lemma {:induction false} SplitTotal(h: Heap, i: int, at: int, n: nat)
    requires 0 <= i < |h.blocks| && n <= |h.blocks|
    ensures var r := Split(h, i, at);
            (n <= i ==> UsedTo(r, n) == UsedTo(h, n))
            && (n > i ==> UsedTo(r, n + 1) == UsedTo(h, n) - (if h.blocks[i].used then End(h, i) - at else 0))
  {
    if n > 0 {
      SplitTotal(h, i, at, n - 1);
      if n == i + 1 { assert UsedTo(Split(h, i, at), n + 1) == UsedTo(Split(h, i, at), n); }
    }
  }

  lemma {:induction false} MergeTotal(h: Heap, i: int, n: nat)
    requires 0 <= i < |h.blocks| - 1 && BothFree(h, i) && n <= |h.blocks|
    ensures var r := Merge(h, i);
            (n <= i ==> UsedTo(r, n) == UsedTo(h, n)) && (n >= i + 2 ==> UsedTo(r, n - 1) == UsedTo(h, n))
  {
    if n > 0 {
      MergeTotal(h, i, n - 1);
      if n == i + 2 {
        assert UsedTo(h, n) == UsedTo(h, n - 1) == UsedTo(h, i);
        MergeTotal(h, i, i);
        assert UsedTo(Merge(h, i), i + 1) == UsedTo(Merge(h, i), i);
      }
    }
  }

  // ---------------------------------------------------------------- operations

  datatype Pointer = Null | At(a: int)

  function Align4(n: int): int { (n + 3) / 4 * 4 }

  /** What malloc asks for: aligned and at least the minimum. */
  function Request(n: nat): int {
    if Align4(n) < MIN_SIZE then MIN_SIZE else Align4(n)
  }

  /**
    Block i is one the search takes: from the lowest-free pointer on, below the loop's bound, free and large enough.
   */
  predicate Takes(h: Heap, i: int, req: int)
    requires 0 <= i < |h.blocks|
  {
    h.lfree <= h.blocks[i].addr < h.size - req && !h.blocks[i].used && Payload(h, i) >= req
  }

  function Find(h: Heap, req: int, i: nat): (k: nat)
    requires i <= |h.blocks|
    ensures i <= k <= |h.blocks| && (k < |h.blocks| ==> Takes(h, k, req))
    ensures forall j {:trigger Takes(h, j, req)} :: i <= j < k ==> !Takes(h, j, req)
    decreases |h.blocks| - i
  {
    if i == |h.blocks| || Takes(h, i, req) then i else Find(h, req, i + 1)
  }

  /** Where the walk from block i stops: at a free block or the end stub. */
  function NextFree(h: Heap, i: nat): int
    requires i <= |h.blocks|
    decreases |h.blocks| - i
  {
    if i == |h.blocks| then EndStub(h) else if !h.blocks[i].used then h.blocks[i].addr else NextFree(h, i + 1)
  }

  predicate Splits(h: Heap, i: int, req: int)
    requires 0 <= i < |h.blocks|
  {
    Payload(h, i) >= req + HEADER + MIN_SIZE
  }

  function Carve(h: Heap, i: int, req: int): Heap
    requires 0 <= i < |h.blocks|
  {
    SetUsed(if Splits(h, i, req) then Split(h, i, h.blocks[i].addr + HEADER + req) else h, i, true)
  }

  function Take(h: Heap, i: int, req: int): Heap
    requires 0 <= i < |h.blocks|
  {
    var r := Carve(h, i, req);
    var used := h.usedMem + (if Splits(h, i, req) then req + HEADER else End(h, i) - h.blocks[i].addr);
    r.(usedMem := used, maxMem := if h.maxMem < used then used else h.maxMem,
       lfree := if h.blocks[i].addr == h.lfree then NextFree(r, i) else h.lfree)
  }

  function Malloc(h: Heap, n: nat): (Heap, Pointer) {
    var k := Find(h, Request(n), 0);
    if n == 0 || Align4(n) > h.size || k == |h.blocks| then (h, Null)
    else (Take(h, k, Request(n)), At(h.blocks[k].addr + HEADER))
  }

  /** plug_holes: the free block k joins a free next block, then a free previous one. */
  function PlugForward(h: Heap, k: int): Heap
    requires 0 <= k < |h.blocks|
  {
    if k + 1 < |h.blocks| && !h.blocks[k + 1].used then
      Merge(h, k).(lfree := if h.lfree == h.blocks[k + 1].addr then h.blocks[k].addr else h.lfree)
    else h
  }

  function PlugBackward(h: Heap, k: int): Heap
    requires 0 <= k < |h.blocks|
  {
    if k > 0 && !h.blocks[k - 1].used then
      Merge(h, k - 1).(lfree := if h.lfree == h.blocks[k].addr then h.blocks[k - 1].addr else h.lfree)
    else h
  }

  function Plug(h: Heap, k: int): Heap
    requires 0 <= k < |h.blocks|
  {
    PlugBackward(PlugForward(h, k), k)
  }

  /** Block k given back, before the holes are plugged. */
  function Freed(h: Heap, k: int): Heap
    requires 0 <= k < |h.blocks|
  {
    var a := h.blocks[k].addr;
    SetUsed(h, k, false).(usedMem := h.usedMem - (End(h, k) - a), lfree := if a < h.lfree then a else h.lfree)
  }

  function Release(h: Heap, k: int): Heap
    requires 0 <= k < |h.blocks|
  {
    Plug(Freed(h, k), k)
  }

  /** The end of block k cut off, before the holes are plugged. */
  function CutOff(h: Heap, k: int, newSize: int): Heap
    requires 0 <= k < |h.blocks|
  {
    Split(h, k, h.blocks[k].addr + HEADER + newSize).(usedMem := h.usedMem - (Payload(h, k) - newSize))
  }

  function Shrink(h: Heap, k: int, newSize: int): Heap
    requires 0 <= k < |h.blocks|
  {
    Plug(CutOff(h, k, newSize), k + 1)
  }

  // ---------------------------------------------------------------- taking a block

  lemma {:induction false} NextFreeIsFree(h: Heap, i: nat)
    requires i <= |h.blocks|
    ensures NextFree(h, i) == EndStub(h) || FreeAt(h, NextFree(h, i))
    ensures Tiled(h) && (forall j {:trigger h.blocks[j]} :: 0 <= j < i ==> h.blocks[j].used) ==>
            forall j {:trigger h.blocks[j]} :: 0 <= j < |h.blocks| && !h.blocks[j].used ==>
              NextFree(h, i) <= h.blocks[j].addr
    decreases |h.blocks| - i
  {
    if i < |h.blocks| {
      if h.blocks[i].used {
        NextFreeIsFree(h, i + 1);
      } else if Tiled(h) {
        forall j {:trigger h.blocks[j]} | i < j < |h.blocks|
            ensures h.blocks[i].addr <= h.blocks[j].addr { Ascending(h, i, j); }
      }
    }
  }

  lemma {:induction false} CarvePairs(h: Heap, i: int, req: int)
    requires NoFreePair(h) && 0 <= i < |h.blocks| && !h.blocks[i].used
    ensures NoFreePair(Carve(h, i, req))
  {
    var r := Carve(h, i, req);
    var d := if Splits(h, i, req) then 1 else 0;
    forall j {:trigger BothFree(r, j)} | 0 <= j < |r.blocks| - 1 ensures !BothFree(r, j) {
      if j < i - 1 { assert !BothFree(h, j); }
      if j == i + d && j < |r.blocks| - 1 { assert !BothFree(h, i); }
      if j > i + d { assert !BothFree(h, j - d); }
    }
  }

  lemma {:induction false} CarveTiled(h: Heap, i: int, req: int)
    requires Tiled(h) && NoFreePair(h) && 0 <= i < |h.blocks| && !h.blocks[i].used
    requires req % 4 == 0 && MIN_SIZE <= req <= Payload(h, i)
    ensures Tiled(Carve(h, i, req)) && NoFreePair(Carve(h, i, req))
    ensures UsedTo(Carve(h, i, req), |Carve(h, i, req).blocks|)
         == UsedTo(h, |h.blocks|) + (if Splits(h, i, req) then req + HEADER else End(h, i) - h.blocks[i].addr)
  {
    assert Sound(h, i);
    CarvePairs(h, i, req);
    var at := h.blocks[i].addr + HEADER + req;
    var s := if Splits(h, i, req) then Split(h, i, at) else h;
    if Splits(h, i, req) {
      SplitTiled(h, i, at);
      SplitTotal(h, i, at, |h.blocks|);
    }
    SetUsedTiled(s, i, true);
    SetUsedTotal(s, i, true, |s.blocks|);
  }

  lemma {:induction false} TakeInv(h: Heap, i: int, req: int)
    requires Inv(h) && 0 <= i < |h.blocks| && req % 4 == 0 && MIN_SIZE <= req && Takes(h, i, req)
    ensures Inv(Take(h, i, req))
    ensures Lowest(h) ==> Lowest(Take(h, i, req))
  {
    var c, r := Carve(h, i, req), Take(h, i, req);
    CarveTiled(h, i, req);
    UsedSame(c, r, |r.blocks|);
    forall j | 0 <= j < |r.blocks| ensures Sound(r, j) { assert Sound(c, j); }
    forall j {:trigger BothFree(r, j)} | 0 <= j < |r.blocks| - 1 ensures !BothFree(r, j) { assert !BothFree(c, j); }
    TakeLfree(h, i, req);
  }

  /** The total depends on the blocks and the pool alone. */
  lemma {:induction false} UsedSame(h: Heap, r: Heap, n: nat)
    requires h.blocks == r.blocks && h.size == r.size && n <= |h.blocks|
    ensures UsedTo(h, n) == UsedTo(r, n)
  {
    if n > 0 { UsedSame(h, r, n - 1); }
  }

  lemma {:induction false} TakeLfree(h: Heap, i: int, req: int)
    requires Inv(h) && 0 <= i < |h.blocks| && req % 4 == 0 && MIN_SIZE <= req && Takes(h, i, req)
    ensures LfreeInv(Take(h, i, req))
    ensures Lowest(h) ==> Lowest(Take(h, i, req))
  {
    var c, r := Carve(h, i, req), Take(h, i, req);
    CarveTiled(h, i, req);
    if h.blocks[i].addr == h.lfree {
      NextFreeIsFree(c, i);
      var n := NextFree(c, i);
      if n != EndStub(c) {
        var j :| 0 <= j < |c.blocks| && c.blocks[j] == Block(n, false);
        assert r.blocks[j] == Block(n, false);
      }
      if Lowest(h) { TakeFirst(h, i, req); }
    } else {
      if h.lfree != EndStub(h) {
        var j :| 0 <= j < |h.blocks| && h.blocks[j] == Block(h.lfree, false);
        assert r.blocks[if j > i && Splits(h, i, req) then j + 1 else j] == Block(h.lfree, false);
      }
      if Lowest(h) {
        forall j {:trigger r.blocks[j]} | 0 <= j < |r.blocks| && !r.blocks[j].used ensures r.lfree <= r.blocks[j].addr {
          var d := if Splits(h, i, req) && j > i then 1 else 0;
          if d == 1 && j == i + 1 { assert h.lfree <= h.blocks[i].addr; }
              else { assert r.blocks[j] == h.blocks[j - d]; }
        }
      }
    }
  }

  /** Taking the lowest free block leaves only used ones before it. */
  lemma {:induction false} TakeFirst(h: Heap, i: int, req: int)
    requires Inv(h) && Lowest(h) && 0 <= i < |h.blocks| && req % 4 == 0 && MIN_SIZE <= req && Takes(h, i, req)
    requires h.blocks[i].addr == h.lfree
    ensures Lowest(Take(h, i, req))
  {
    var c, r := Carve(h, i, req), Take(h, i, req);
    CarveTiled(h, i, req);
    forall j {:trigger c.blocks[j]} | 0 <= j < i ensures c.blocks[j].used {
      Ascending(h, j, i);
      assert c.blocks[j] == h.blocks[j];
    }
    NextFreeIsFree(c, i);
    forall j {:trigger r.blocks[j]} | 0 <= j < |r.blocks| && !r.blocks[j].used ensures r.lfree <= r.blocks[j].addr {
      assert r.blocks[j] == c.blocks[j];
    }
  }

  lemma {:induction false} RequestIs(n: nat)
    ensures Request(n) % 4 == 0 && MIN_SIZE <= Request(n) && n <= Request(n)
    ensures forall m: int {:trigger m % 4} :: m % 4 == 0 && m >= n && m >= MIN_SIZE ==> Request(n) <= m
  {}

  lemma {:induction false} MallocInv(h: Heap, n: nat)
    requires Inv(h)
    ensures Inv(Malloc(h, n).0) && (Lowest(h) ==> Lowest(Malloc(h, n).0))
  {
    RequestIs(n);
    var k := Find(h, Request(n), 0);
    if k < |h.blocks| { TakeInv(h, k, Request(n)); }
  }

  /** Some free block is large enough. */
  ghost predicate Fits(h: Heap, req: int) {
    exists i {:trigger h.blocks[i]} :: 0 <= i < |h.blocks| && !h.blocks[i].used && Payload(h, i) >= req
  }

  /** The last block is free and exactly as large as the request, and no other free block is large enough. */
  ghost predicate OnlyExactLast(h: Heap, req: int) {
    var l := |h.blocks| - 1;
    l >= 0 && !h.blocks[l].used && Payload(h, l) == req
    && forall i {:trigger h.blocks[i]} :: 0 <= i < l && !h.blocks[i].used ==> Payload(h, i) < req
  }

  /**
    Block i is passed over although it would do: it lies below the lowest-free pointer, or it is the last one and fits
    exactly.
   */
  predicate PassedOver(h: Heap, i: int, req: int)
    requires 0 <= i < |h.blocks|
  {
    h.blocks[i].addr < h.lfree || (i == |h.blocks| - 1 && Payload(h, i) == req)
  }

  lemma {:induction false} TakesUnlessPassed(h: Heap, i: int, req: int)
    requires Inv(h) && 0 <= i < |h.blocks| && !h.blocks[i].used && Payload(h, i) >= req > 0 && req % 4 == 0
    ensures req <= h.size && (Takes(h, i, req) <==> !PassedOver(h, i, req))
  {
    var l := |h.blocks| - 1;
    assert Sound(h, i);
    if i < l { Ascending(h, i, l); assert Sound(h, l); }
    if i > 0 { Ascending(h, 0, i); }
  }

  /** In every heap a request fails exactly when every free block that would do is passed over. */
  lemma {:induction false} MallocFailsExactly(h: Heap, n: nat)
    requires Inv(h) && n > 0
    ensures Malloc(h, n).1 == Null <==>
              forall i {:trigger h.blocks[i]} :: 0 <= i < |h.blocks| && !h.blocks[i].used && Payload(h, i) >= Request(n)
                ==> PassedOver(h, i, Request(n))
  {
    RequestIs(n);
    var req, k := Request(n), Find(h, Request(n), 0);
    forall i {:trigger h.blocks[i]} | 0 <= i < |h.blocks| && !h.blocks[i].used && Payload(h, i) >= req
      ensures req <= h.size && (Takes(h, i, req) <==> !PassedOver(h, i, req))
    {
      TakesUnlessPassed(h, i, req);
    }
    if k < |h.blocks| { assert Takes(h, k, req); }
  }

  /**
    While the lowest-free pointer is right, a request fails exactly when nothing fits, or only the last block does,
    exactly.
   */
  lemma {:induction false} MallocFailsWhenLowest(h: Heap, n: nat)
    requires Inv(h) && Lowest(h) && n > 0
    ensures Malloc(h, n).1 == Null <==> !Fits(h, Request(n)) || OnlyExactLast(h, Request(n))
  {
    MallocFailsExactly(h, n);
    var req, l := Request(n), |h.blocks| - 1;
    if Fits(h, req) && !OnlyExactLast(h, req) {
      var i :| 0 <= i < |h.blocks| && !h.blocks[i].used && Payload(h, i) >= req;
      if i == l && Payload(h, i) == req {
        var j :| 0 <= j < l && !h.blocks[j].used && Payload(h, j) >= req;
        assert !PassedOver(h, j, req);
      } else {
        assert !PassedOver(h, i, req);
      }
    }
  }

  /** A fresh heap cannot hand out all of its memory at once. */
  lemma {:induction false} WholePoolRefused(size: int)
    requires size % 4 == 0 && size >= MIN_SIZE
    ensures var h := Init(size); Inv(h) && Lowest(h) && Payload(h, 0) == size && Malloc(h, size) == (h, Null)
  {
    InitInv(size);
    RequestIs(size);
    var h := Init(size);
    assert Align4(size) == size;
    assert OnlyExactLast(h, Request(size));
    MallocFailsWhenLowest(h, size);
  }

  // ---------------------------------------------------------------- the start

  function Init(size: int): Heap { Heap(size, [Block(0, false)], 0, 0, 0) }

  lemma {:induction false} InitInv(size: int)
    requires size % 4 == 0 && size >= MIN_SIZE
    ensures Inv(Init(size)) && Lowest(Init(size))
  {
    var h := Init(size);
    assert h.blocks[0] == Block(0, false);
    assert UsedTo(h, 1) == UsedTo(h, 0);
  }

  // ---------------------------------------------------------------- giving a block back

  /** Only the pairs around block k may both be free. */
  ghost predicate NoOtherPair(h: Heap, k: int) {
    forall i {:trigger BothFree(h, i)} :: 0 <= i < |h.blocks| - 1 && BothFree(h, i) ==> i == k || i == k - 1
  }

  /** Ready to be plugged: block k is free, and besides the pairs around it everything is in order. */
  ghost predicate Pluggable(h: Heap, k: int) {
    0 <= k < |h.blocks| && !h.blocks[k].used && Tiled(h) && NoOtherPair(h, k) && LfreeInv(h)
  }

  lemma {:induction false} ForwardPlugged(h: Heap, k: int)
    requires Pluggable(h, k)
    ensures var r := PlugForward(h, k);
            Pluggable(r, k) && (k + 1 < |r.blocks| ==> !BothFree(r, k)) && r.blocks[..k + 1] == h.blocks[..k + 1]
            && UsedTo(r, |r.blocks|) == UsedTo(h, |h.blocks|) && (Lowest(h) ==> Lowest(r))
  {
    var r := PlugForward(h, k);
    if k + 1 < |h.blocks| && !h.blocks[k + 1].used {
      var m := Merge(h, k);
      assert BothFree(h, k);
      MergeTiled(h, k);
      MergeTotal(h, k, |h.blocks|);
      UsedSame(m, r, |r.blocks|);
      forall j | 0 <= j < |r.blocks| ensures Sound(r, j) { assert Sound(m, j); }
      forall j {:trigger BothFree(r, j)} | 0 <= j < |r.blocks| - 1 && BothFree(r, j) ensures j == k - 1 {
        if j < k { assert BothFree(h, j); } else { assert BothFree(h, j + 1); }
      }
      Ascending(h, k, k + 1);
      MergedLfree(h, k);
    }
  }

  lemma {:induction false} MergedLfree(h: Heap, k: int)
    requires Tiled(h) && 0 <= k < |h.blocks| - 1 && BothFree(h, k) && LfreeInv(h)
    ensures var r := Merge(h, k).(lfree := if h.lfree == h.blocks[k + 1].addr then h.blocks[k].addr else h.lfree);
            LfreeInv(r) && (Lowest(h) ==> Lowest(r))
  {
    var r := Merge(h, k).(lfree := if h.lfree == h.blocks[k + 1].addr then h.blocks[k].addr else h.lfree);
    assert r.blocks[k] == h.blocks[k];
    if h.lfree != EndStub(h) && h.lfree != h.blocks[k + 1].addr {
      var j :| 0 <= j < |h.blocks| && h.blocks[j] == Block(h.lfree, false);
      assert r.blocks[if j <= k then j else j - 1] == h.blocks[j];
    }
    Ascending(h, k, k + 1);
    if Lowest(h) {
      forall j {:trigger r.blocks[j]} | 0 <= j < |r.blocks| && !r.blocks[j].used ensures r.lfree <= r.blocks[j].addr {
        assert r.blocks[j] == h.blocks[if j <= k then j else j + 1];
        assert h.lfree <= h.blocks[k].addr;
      }
    }
  }

  /** Joining the only two free neighbours leaves none. */
  lemma {:induction false} MergedPairs(h: Heap, k: int)
    requires 0 < k < |h.blocks| && NoOtherPair(h, k) && BothFree(h, k - 1) && (k + 1 < |h.blocks| ==> !BothFree(h, k))
    ensures NoFreePair(Merge(h, k - 1))
  {
    var m := Merge(h, k - 1);
    forall j {:trigger BothFree(m, j)} | 0 <= j < |m.blocks| - 1 ensures !BothFree(m, j) {
      if j < k - 1 { assert !BothFree(h, j); } else { assert !BothFree(h, j + 1); }
    }
  }

  lemma {:induction false} BackwardPlugged(h: Heap, k: int)
    requires Pluggable(h, k) && (k + 1 < |h.blocks| ==> !BothFree(h, k))
    ensures var r := PlugBackward(h, k);
            Tiled(r) && NoFreePair(r) && LfreeInv(r)
            && UsedTo(r, |r.blocks|) == UsedTo(h, |h.blocks|) && (Lowest(h) ==> Lowest(r))
  {
    var r := PlugBackward(h, k);
    if k > 0 && !h.blocks[k - 1].used {
      var m := Merge(h, k - 1);
      assert BothFree(h, k - 1);
      MergeTiled(h, k - 1);
      MergeTotal(h, k - 1, |h.blocks|);
      MergedPairs(h, k);
      TiledSame(m, r);
      forall j {:trigger BothFree(r, j)} | 0 <= j < |r.blocks| - 1 ensures !BothFree(r, j) { assert !BothFree(m, j); }
      MergedLfree(h, k - 1);
    } else {
      forall j {:trigger BothFree(h, j)} | 0 <= j < |h.blocks| - 1 ensures !BothFree(h, j) {}
    }
  }

  lemma {:induction false} PlugInv(h: Heap, k: int)
    requires Pluggable(h, k)
    ensures var r := Plug(h, k);
            Tiled(r) && NoFreePair(r) && LfreeInv(r)
            && UsedTo(r, |r.blocks|) == UsedTo(h, |h.blocks|) && (Lowest(h) ==> Lowest(r))
  {
    ForwardPlugged(h, k);
    BackwardPlugged(PlugForward(h, k), k);
  }

  lemma {:induction false} TiledSame(h: Heap, r: Heap)
    requires Tiled(h) && r.blocks == h.blocks && r.size == h.size
    ensures Tiled(r) && UsedTo(r, |r.blocks|) == UsedTo(h, |h.blocks|)
  {
    UsedSame(h, r, |r.blocks|);
    forall j | 0 <= j < |r.blocks| ensures Sound(r, j) { assert Sound(h, j); }
  }

  lemma {:induction false} FreedTiled(h: Heap, k: int)
    requires Inv(h) && 0 <= k < |h.blocks| && h.blocks[k].used
    ensures Tiled(Freed(h, k)) && NoOtherPair(Freed(h, k), k) && Counted(Freed(h, k))
  {
    var s, u := SetUsed(h, k, false), Freed(h, k);
    assert Sound(h, k);
    SetUsedTiled(h, k, false);
    SetUsedTotal(h, k, false, |h.blocks|);
    TiledSame(s, u);
    forall j {:trigger BothFree(u, j)} | 0 <= j < |u.blocks| - 1 && BothFree(u, j) ensures j == k || j == k - 1 {
      assert !BothFree(h, j);
    }
  }

  lemma {:induction false} FreedLfree(h: Heap, k: int)
    requires Inv(h) && 0 <= k < |h.blocks| && h.blocks[k].used
    ensures LfreeInv(Freed(h, k)) && (Lowest(h) ==> Lowest(Freed(h, k)))
  {
    var u, a, l := Freed(h, k), h.blocks[k].addr, |h.blocks| - 1;
    assert u.blocks[k] == Block(a, false);
    assert Sound(h, l);
    if k < l { Ascending(h, k, l); }
    if a >= h.lfree {
      var j :| 0 <= j < |h.blocks| && h.blocks[j] == Block(h.lfree, false);
      assert u.blocks[j] == h.blocks[j];
    }
    if Lowest(h) {
      forall j {:trigger u.blocks[j]} | 0 <= j < |u.blocks| && !u.blocks[j].used ensures u.lfree <= u.blocks[j].addr {
        assert u.blocks[j].addr == h.blocks[j].addr;
      }
    }
  }

  lemma {:induction false} ReleaseInv(h: Heap, k: int)
    requires Inv(h) && 0 <= k < |h.blocks| && h.blocks[k].used
    ensures Inv(Release(h, k)) && (Lowest(h) ==> Lowest(Release(h, k)))
  {
    FreedTiled(h, k);
    FreedLfree(h, k);
    PlugInv(Freed(h, k), k);
  }

  /** A block can give up its end: enough is left behind the new size for a free block. */
  predicate Shrinks(h: Heap, k: int, newSize: int)
    requires 0 <= k < |h.blocks|
  {
    newSize + HEADER + MIN_SIZE < Payload(h, k)
  }

  lemma {:induction false} CutOffTiled(h: Heap, k: int, newSize: int)
    requires Inv(h) && 0 <= k < |h.blocks| && h.blocks[k].used && newSize % 4 == 0 && newSize > 0
             && Shrinks(h, k, newSize)
    ensures var u := CutOff(h, k, newSize); Pluggable(u, k + 1) && Counted(u)
  {
    var at, u := h.blocks[k].addr + HEADER + newSize, CutOff(h, k, newSize);
    assert Sound(h, k);
    SplitTiled(h, k, at);
    SplitTotal(h, k, at, |h.blocks|);
    TiledSame(Split(h, k, at), u);
    forall j {:trigger BothFree(u, j)} | 0 <= j < |u.blocks| - 1 && (j < k || j > k + 1) ensures !BothFree(u, j) {
      if j < k { assert !BothFree(h, j); } else { assert !BothFree(h, j - 1); }
    }
    if h.lfree != EndStub(h) {
      var j :| 0 <= j < |h.blocks| && h.blocks[j] == Block(h.lfree, false);
      assert u.blocks[if j <= k then j else j + 1] == h.blocks[j];
    }
  }

  lemma {:induction false} ShrinkInv(h: Heap, k: int, newSize: int)
    requires Inv(h) && 0 <= k < |h.blocks| && h.blocks[k].used && newSize % 4 == 0 && newSize > 0
             && Shrinks(h, k, newSize)
    ensures Inv(Shrink(h, k, newSize))
  {
    CutOffTiled(h, k, newSize);
    PlugInv(CutOff(h, k, newSize), k + 1);
  }

  predicate NextIsFree(h: Heap, k: int)
    requires 0 <= k < |h.blocks|
  {
    k + 1 < |h.blocks| && !h.blocks[k + 1].used
  }

  /** Plugging joins the remainder of a shrunk block with the next one, or changes nothing. */
  lemma {:induction false} ShrinkIs(h: Heap, k: int, newSize: int)
    requires 0 <= k < |h.blocks| && h.blocks[k].used
    ensures var at, r := h.blocks[k].addr + HEADER + newSize, Shrink(h, k, newSize);
            r.lfree == (if NextIsFree(h, k) && h.lfree == h.blocks[k + 1].addr then at else h.lfree)
            && r.blocks
                == h.blocks[..k + 1] + [Block(at, false)] + h.blocks[if NextIsFree(h, k) then k + 2 else k + 1..]
  {
    var at, u := h.blocks[k].addr + HEADER + newSize, CutOff(h, k, newSize);
    assert u.blocks[k].used && u.blocks[k + 1] == Block(at, false);
    if NextIsFree(h, k) {
      assert u.blocks[k + 2] == h.blocks[k + 1];
      SkipOne(h.blocks[..k + 1], Block(at, false), h.blocks[k + 1..]);
      assert h.blocks[k + 1..][1..] == h.blocks[k + 2..];
    } else if k + 1 < |h.blocks| {
      assert u.blocks[k + 2] == h.blocks[k + 1];
    }
    assert PlugForward(u, k + 1).blocks[k] == u.blocks[k];
    assert Shrink(h, k, newSize) == PlugForward(u, k + 1);
  }

  lemma {:induction false} SkipOne(a: seq<Block>, x: Block, b: seq<Block>)
    requires |b| > 0
    ensures var s := a + [x] + b; s[..|a| + 1] + s[|a| + 2..] == a + [x] + b[1..]
  {}

  /** The remainder of a shrunk block is overlooked unless a lower block is free or it joins the next one. */
  lemma {:induction false} ShrinkLowest(h: Heap, k: int, newSize: int)
    requires Inv(h) && 0 <= k < |h.blocks| && h.blocks[k].used && newSize % 4 == 0 && newSize > 0
             && Shrinks(h, k, newSize)
    requires Lowest(h)
    ensures Lowest(Shrink(h, k, newSize)) <==> h.lfree < h.blocks[k].addr || NextIsFree(h, k)
  {
    var at := h.blocks[k].addr + HEADER + newSize;
    var r := Shrink(h, k, newSize);
    ShrinkIs(h, k, newSize);
    assert r.blocks[k + 1] == Block(at, false);
    forall j {:trigger h.blocks[j]} | 0 <= j < |h.blocks|
        ensures (j < k ==> h.blocks[j].addr < h.blocks[k].addr) && (j > k ==> h.blocks[j].addr > at) {
      if j < k { Ascending(h, j, k); }
      if j > k { Ascending(h, k, j); }
    }
    LfreePlace(h, k);
    forall j {:trigger r.blocks[j]} | 0 <= j < |r.blocks| && !r.blocks[j].used
        && (h.lfree < h.blocks[k].addr || NextIsFree(h, k))
      ensures r.lfree <= r.blocks[j].addr
    {
      if j != k + 1 {
        assert r.blocks[j] == h.blocks[if j <= k then j else if NextIsFree(h, k) then j else j - 1];
      }
    }
  }

  /** With the pointer right, it is below a used block, or at the next free one after it, or further up. */
  lemma {:induction false} LfreePlace(h: Heap, k: int)
    requires Inv(h) && Lowest(h) && 0 <= k < |h.blocks| && h.blocks[k].used
    ensures h.lfree != h.blocks[k].addr
    ensures h.lfree >= h.blocks[k].addr && NextIsFree(h, k) ==> h.lfree == h.blocks[k + 1].addr
    ensures h.lfree >= h.blocks[k].addr && !NextIsFree(h, k) ==> h.lfree >= End(h, k)
  {
    if h.lfree != EndStub(h) {
      var j :| 0 <= j < |h.blocks| && h.blocks[j] == Block(h.lfree, false);
      if j < k { Ascending(h, j, k); }
      if j > k { Ascending(h, k, j); }
    } else {
      var l := |h.blocks| - 1;
      assert Sound(h, l) && Sound(h, k);
      if k < l { Ascending(h, k, l); }
    }
  }

  // ---------------------------------------------------------------- calls

  /** The block that starts at a, or the number of blocks. */
  function Place(h: Heap, a: int, i: nat): (k: nat)
    requires i <= |h.blocks|
    ensures i <= k <= |h.blocks| && (k < |h.blocks| ==> h.blocks[k].addr == a)
    decreases |h.blocks| - i
  {
    if i == |h.blocks| || h.blocks[i].addr == a then i else Place(h, a, i + 1)
  }

  /** A pointer a caller may free or resize: none, or one handed out and not given back. */
  ghost predicate Owned(h: Heap, p: Pointer) {
    p.At? ==> exists i {:trigger h.blocks[i]} :: 0 <= i < |h.blocks| && h.blocks[i] == Block(p.a - HEADER, true)
  }

  lemma {:induction false} PlaceIs(h: Heap, i: int)
    requires Tiled(h) && 0 <= i < |h.blocks|
    ensures Place(h, h.blocks[i].addr, 0) == i
  {
    var k := Place(h, h.blocks[i].addr, 0);
    Reaches(h, h.blocks[i].addr, i, 0);
    if k < i { Ascending(h, k, i); }
  }

  lemma {:induction false} Reaches(h: Heap, a: int, k: int, i: nat)
    requires i <= k < |h.blocks| && h.blocks[k].addr == a
    ensures Place(h, a, i) <= k
    decreases k - i
  {
    if h.blocks[i].addr != a { Reaches(h, a, k, i + 1); }
  }

  function Free(h: Heap, p: Pointer): Heap {
    if p.Null? then h
    else
      var k := Place(h, p.a - HEADER, 0);
      if k == |h.blocks| then h else Release(h, k)
  }

  function Realloc(h: Heap, p: Pointer, n: nat): (Heap, Pointer) {
    var size := Align4(n);
    if size > h.size then (h, Null)
    else if size == 0 then (Free(h, p), Null)
    else if p.Null? then Malloc(h, size)
    else
      var k := Place(h, p.a - HEADER, 0);
      if k == |h.blocks| then (h, p) else Resize(h, p, k, size)
  }

  /** An owned pointer is that of a used block, which the search by address finds. */
  lemma {:induction false} OwnedBlock(h: Heap, p: Pointer) returns (k: nat)
    requires Tiled(h) && Owned(h, p) && p.At?
    ensures k == Place(h, p.a - HEADER, 0) < |h.blocks| && h.blocks[k].addr == p.a - HEADER && h.blocks[k].used
    ensures Free(h, p) == Release(h, k)
  {
    k :| 0 <= k < |h.blocks| && h.blocks[k] == Block(p.a - HEADER, true);
    PlaceIs(h, k);
  }

  lemma {:induction false} FreeInv(h: Heap, p: Pointer)
    requires Inv(h) && Owned(h, p)
    ensures Inv(Free(h, p)) && (Lowest(h) ==> Lowest(Free(h, p)))
  {
    if p.At? {
      var k := OwnedBlock(h, p);
      ReleaseInv(h, k);
    }
  }

  /** What was handed out stays handed out while more is. */
  lemma {:induction false} MallocKeepsOwned(h: Heap, n: nat, p: Pointer)
    requires Inv(h) && Owned(h, p)
    ensures Owned(Malloc(h, n).0, p)
  {
    var req, k, r := Request(n), Find(h, Request(n), 0), Malloc(h, n).0;
    if p.At? {
      var i :| 0 <= i < |h.blocks| && h.blocks[i] == Block(p.a - HEADER, true);
      if r != h {
        assert r.blocks[if i > k && Splits(h, k, req) then i + 1 else i] == h.blocks[i];
      } else {
        assert r.blocks[i] == h.blocks[i];
      }
    }
  }

  // ---------------------------------------------------------------- payloads

  /** x is the offset of a byte that somebody was handed. */
  ghost predicate Owns(h: Heap, x: int) {
    exists i {:trigger h.blocks[i]} :: 0 <= i < |h.blocks| && h.blocks[i].used
      && h.blocks[i].addr + HEADER <= x < End(h, i)
  }

  /** No byte is handed out twice: a header lies between any two payloads, used or free. */
  lemma {:induction false} PayloadsApart(h: Heap, i: int, j: int)
    requires Tiled(h) && 0 <= i < j < |h.blocks|
    ensures h.blocks[i].addr + HEADER + Payload(h, i) + HEADER <= h.blocks[j].addr + HEADER
    ensures 0 <= h.blocks[i].addr && End(h, j) <= EndStub(h)
  {
    Ascending(h, i, j);
    if i > 0 { Ascending(h, 0, i); }
    EndInside(h, j);
  }

  lemma {:induction false} EndInside(h: Heap, i: int)
    requires Tiled(h) && 0 <= i < |h.blocks|
    ensures 0 <= h.blocks[i].addr && h.blocks[i].addr + HEADER <= End(h, i) <= EndStub(h)
  {
    var l := |h.blocks| - 1;
    assert Sound(h, i) && Sound(h, l);
    if i > 0 { Ascending(h, 0, i); }
    if i < l { Ascending(h, i, l); }
  }

  /** No byte of a free block's payload belongs to anybody. */
  lemma {:induction false} FreeUnowned(h: Heap, k: int, x: int)
    requires Tiled(h) && 0 <= k < |h.blocks| && !h.blocks[k].used && h.blocks[k].addr + HEADER <= x < End(h, k)
    ensures !Owns(h, x)
  {
    forall i {:trigger h.blocks[i]} | 0 <= i < |h.blocks| && h.blocks[i].used
        ensures !(h.blocks[i].addr + HEADER <= x < End(h, i)) {
      if i < k { Ascending(h, i, k); }
      if i > k { Ascending(h, k, i); }
    }
  }

  /** The bytes handed out were nobody's, and there are at least as many as asked for. */
  lemma {:induction false} MallocGives(h: Heap, n: nat)
    requires Inv(h) && Malloc(h, n).1.At?
    ensures var a := Malloc(h, n).1.a;
            a % 4 == 0 && HEADER <= a && a + n <= EndStub(h) && Owned(Malloc(h, n).0, At(a)) && !Owned(h, At(a))
            && forall x {:trigger Owns(h, x)} :: a <= x < a + n ==> !Owns(h, x)
  {
    RequestIs(n);
    var req, k, r := Request(n), Find(h, Request(n), 0), Malloc(h, n).0;
    var a := h.blocks[k].addr + HEADER;
    assert Sound(h, k) && Takes(h, k, req);
    EndInside(h, k);
    assert r.blocks[k] == Block(a - HEADER, true);
    forall x {:trigger Owns(h, x)} | a <= x < a + n ensures !Owns(h, x) { FreeUnowned(h, k, x); }
    forall i {:trigger h.blocks[i]} | 0 <= i < |h.blocks| ensures h.blocks[i] != Block(a - HEADER, true) {
      if i < k { Ascending(h, i, k); }
      if i > k { Ascending(h, k, i); }
    }
  }

  /** The bytes that somebody was handed, outside [lo, hi), are as they were. */
  ghost predicate KeepsOwned(h: Heap, was: seq<bv8>, now: seq<bv8>, lo: int, hi: int) {
    |now| == |was| && forall x {:trigger now[x]} :: 0 <= x < |now| && Owns(h, x) && !(lo <= x < hi) ==> now[x] == was[x]
  }

  /** n bytes at from were copied to to. */
  predicate Copied(was: seq<bv8>, now: seq<bv8>, from: int, to: int, n: int) {
    0 <= from <= from + n <= |was| && 0 <= to <= to + n <= |now| && now[to..to + n] == was[from..from + n]
  }

  lemma {:induction false} MoveInv(h: Heap, p: Pointer, size: nat)
    requires Inv(h) && Owned(h, p)
    ensures Inv(Malloc(h, size).0) && Inv(Free(Malloc(h, size).0, p))
  {
    MallocInv(h, size);
    MallocKeepsOwned(h, size, p);
    FreeInv(Malloc(h, size).0, p);
  }

  /** The three ways a block that is handed out is resized. */
  function Resize(h: Heap, p: Pointer, k: nat, size: nat): (Heap, Pointer)
    requires k < |h.blocks|
  {
    if Payload(h, k) == size then (h, p)
    else if Shrinks(h, k, size) then (Shrink(h, k, size), p)
    else Moved(h, p, size)
  }

  function Moved(h: Heap, p: Pointer, size: nat): (Heap, Pointer) {
    var (r, q) := Malloc(h, size);
    if q.Null? then (r, Null) else (Free(r, p), q)
  }

  lemma {:induction false} ResizeInv(h: Heap, p: Pointer, k: nat, size: nat)
    requires Inv(h) && k < |h.blocks| && p.At? && h.blocks[k] == Block(p.a - HEADER, true) && size % 4 == 0 && size > 0
    ensures Inv(Resize(h, p, k, size).0)
  {
    if Shrinks(h, k, size) { ShrinkInv(h, k, size); } else { MoveInv(h, p, size); }
  }

  lemma {:induction false} ReallocIs(h: Heap, p: Pointer, n: nat) returns (k: nat)
    requires Tiled(h) && Owned(h, p) && p.At? && 0 < Align4(n) <= h.size
    ensures k < |h.blocks| && h.blocks[k] == Block(p.a - HEADER, true) && Place(h, p.a - HEADER, 0) == k
    ensures Realloc(h, p, n) == Resize(h, p, k, Align4(n))
  {
    k := OwnedBlock(h, p);
  }

  lemma {:induction false} ReallocInv(h: Heap, p: Pointer, n: nat)
    requires Inv(h) && Owned(h, p)
    ensures Inv(Realloc(h, p, n).0)
  {
    var size := Align4(n);
    if size == 0 {
      FreeInv(h, p);
    } else if p.Null? {
      MallocInv(h, size);
    } else if size <= h.size {
      ResizedInv(h, p, n);
    }
  }

  lemma {:induction false} ResizedInv(h: Heap, p: Pointer, n: nat)
    requires Inv(h) && Owned(h, p) && p.At? && 0 < Align4(n) <= h.size
    ensures Inv(Realloc(h, p, n).0)
  {
    var k := ReallocIs(h, p, n);
    ResizeInv(h, p, k, Align4(n));
  }

  /**
    The resize leaves a free block below the lowest-free pointer: it cuts off a block that no free one precedes or
    follows.
   */
  predicate Overlooks(h: Heap, p: Pointer, n: nat) {
    var k, size := if p.Null? then |h.blocks| else Place(h, p.a - HEADER, 0), Align4(n);
    k < |h.blocks| && 0 < size <= h.size && size != Payload(h, k) && CutsLoose(h, k, size)
  }

  predicate CutsLoose(h: Heap, k: int, size: int)
    requires 0 <= k < |h.blocks|
  {
    Shrinks(h, k, size) && h.lfree >= h.blocks[k].addr && !NextIsFree(h, k)
  }

  /** Of all resizes, moving ones included, exactly those make the lowest-free pointer wrong. */
  lemma {:induction false} ReallocLowest(h: Heap, p: Pointer, n: nat)
    requires Inv(h) && Owned(h, p) && Lowest(h)
    ensures Lowest(Realloc(h, p, n).0) <==> !Overlooks(h, p, n)
  {
    var size := Align4(n);
    if size == 0 {
      FreeInv(h, p);
    } else if p.Null? {
      MallocInv(h, size);
    } else if size <= h.size {
      ResizedLowest(h, p, n);
    }
  }

  lemma {:induction false} ResizedLowest(h: Heap, p: Pointer, n: nat)
    requires Inv(h) && Owned(h, p) && Lowest(h) && p.At? && 0 < Align4(n) <= h.size
    ensures Lowest(Realloc(h, p, n).0) <==> !Overlooks(h, p, n)
  {
    var k := ReallocIs(h, p, n);
    ResizeLowest(h, p, k, Align4(n));
  }

  lemma {:induction false} ResizeLowest(h: Heap, p: Pointer, k: nat, size: nat)
    requires Inv(h) && Lowest(h) && k < |h.blocks| && p.At? && h.blocks[k] == Block(p.a - HEADER, true)
             && size % 4 == 0 && size > 0
    ensures Lowest(Resize(h, p, k, size).0) <==> !(size != Payload(h, k) && CutsLoose(h, k, size))
  {
    if Shrinks(h, k, size) {
      ShrinkLowest(h, k, size);
    } else {
      assert h.blocks[k].used;
      MallocInv(h, size);
      MallocKeepsOwned(h, size, p);
      FreeInv(Malloc(h, size).0, p);
    }
  }

  datatype Call = DoMalloc(n: nat) | DoFree(p: Pointer) | DoRealloc(p: Pointer, n: nat)

  ghost predicate Enabled(h: Heap, c: Call) {
    match c
    case DoMalloc(_) => true
    case DoFree(p) => Owned(h, p)
    case DoRealloc(p, _) => Owned(h, p)
  }

  function Next(h: Heap, c: Call): Heap {
    match c
    case DoMalloc(n) => Malloc(h, n).0
    case DoFree(p) => Free(h, p)
    case DoRealloc(p, n) => Realloc(h, p, n).0
  }

  predicate Keeps(h: Heap, c: Call) {
    c.DoRealloc? ==> !Overlooks(h, c.p, c.n)
  }

  lemma {:induction false} StepInv(h: Heap, c: Call)
    requires Inv(h) && Enabled(h, c)
    ensures Inv(Next(h, c)) && (Lowest(h) && Keeps(h, c) ==> Lowest(Next(h, c)))
  {
    match c
    case DoMalloc(n) => MallocInv(h, n);
    case DoFree(p) => FreeInv(h, p);
    case DoRealloc(p, n) =>
      ReallocInv(h, p, n);
      if Lowest(h) { ReallocLowest(h, p, n); }
  }

  ghost predicate Admissible(h: Heap, run: seq<Call>)
    decreases |run|
  {
    run != [] ==> Enabled(h, run[0]) && Admissible(Next(h, run[0]), run[1..])
  }

  function After(h: Heap, run: seq<Call>): Heap
    decreases |run|
  {
    if run == [] then h else After(Next(h, run[0]), run[1..])
  }

  /** No resize of the run overlooks what it cuts off. */
  predicate NoneOverlooked(h: Heap, run: seq<Call>)
    decreases |run|
  {
    run != [] ==> Keeps(h, run[0]) && NoneOverlooked(Next(h, run[0]), run[1..])
  }

  lemma {:induction false} RunKeeps(h: Heap, run: seq<Call>)
    requires Inv(h) && Admissible(h, run)
    ensures Inv(After(h, run))
    ensures Lowest(h) && NoneOverlooked(h, run) ==> Lowest(After(h, run))
    decreases |run|
  {
    if run != [] {
      StepInv(h, run[0]);
      RunKeeps(Next(h, run[0]), run[1..]);
    }
  }

  /** Any run keeps the heap in order; one in which no resize overlooks a block keeps the lowest-free pointer right. */
  lemma {:induction false} RunInv(size: int, run: seq<Call>)
    requires size % 4 == 0 && size >= MIN_SIZE && Admissible(Init(size), run)
    ensures Inv(After(Init(size), run))
    ensures NoneOverlooked(Init(size), run) ==> Lowest(After(Init(size), run))
  {
    InitInv(size);
    RunKeeps(Init(size), run);
  }

  // ---------------------------------------------------------------- pools smaller than the least block

  const WORD := 0x1_0000_0000

  /** The search loop's bound, a difference of unsigned words. */
  function Bound(h: Heap, req: int): int { (h.size - req) % WORD }

  /** Where the loop stands after k rounds in which it takes nothing; the end stub leads to itself. */
  function Walk(h: Heap, k: nat): int {
    if k == 0 then h.lfree
    else
      var i := Place(h, Walk(h, k - 1), 0);
      if i < |h.blocks| then End(h, i) else EndStub(h)
  }

  /** After k rounds the loop makes another one. */
  predicate GoesOn(h: Heap, req: int, k: nat) {
    var i := Place(h, Walk(h, k), 0);
    Walk(h, k) < Bound(h, req) && !(i < |h.blocks| && !h.blocks[i].used && Payload(h, i) >= req)
  }

  /** The search in a fresh pool never ends exactly if the request passes the size test in a pool below the minimum. */
  lemma {:induction false} SearchEndsExactly(size: int, n: nat)
    requires size % 4 == 0 && 0 <= size < WORD - 2 * HEADER && 0 < Align4(n) <= size
    ensures size < MIN_SIZE <==>
            forall k: nat {:trigger GoesOn(Init(size), Request(n), k)} :: GoesOn(Init(size), Request(n), k)
  {
    var h, req := Init(size), Request(n);
    if size < MIN_SIZE {
      forall k: nat {:trigger GoesOn(h, req, k)} ensures GoesOn(h, req, k) { TinyWalk(size, k); }
    } else {
      assert !GoesOn(h, req, 0);
    }
  }

  lemma {:induction false} TinyWalk(size: int, k: nat)
    requires size % 4 == 0 && 0 < size < MIN_SIZE
    ensures Walk(Init(size), k) == if k == 0 then 0 else EndStub(Init(size))
    ensures GoesOn(Init(size), MIN_SIZE, k)
  {
    var h := Init(size);
    assert Bound(h, MIN_SIZE) == size - MIN_SIZE + WORD;
    if k > 0 { TinyWalk(size, k - 1); }
  }

  /** Calls that return leave such a pool as it is: nothing is ever handed out. */
  lemma {:induction false} TinyPoolRuns(size: int, run: seq<Call>)
    requires size % 4 == 0 && 0 <= size < MIN_SIZE && Admissible(Init(size), run)
    ensures After(Init(size), run) == Init(size)
    ensures forall n: nat {:trigger Malloc(Init(size), n)} :: Malloc(Init(size), n) == (Init(size), Null)
    decreases |run|
  {
    var h := Init(size);
    forall n: nat {:trigger Malloc(h, n)} ensures Malloc(h, n) == (h, Null) { RequestIs(n); }
    if run != [] {
      assert Next(h, run[0]) == h;
      TinyPoolRuns(size, run[1..]);
    }
  }

  // ---------------------------------------------------------------- a run after which a free block is overlooked

  /** After a resize the heap can refuse a request that a free block would hold. */
  lemma {:induction false} OverlookedAfterResize()
    ensures var h := After(Init(64), [DoMalloc(60), DoRealloc(At(HEADER), 12)]);
            Inv(h) && Fits(h, Request(12)) && Malloc(h, 12) == (h, Null)
  {
    TakenWhole();
    CutShort();
    TwoCalls(Init(64), DoMalloc(60), DoRealloc(At(HEADER), 12));
    var h := Heap(64, [Block(0, true), Block(24, false)], 76, 24, 76);
    assert h.blocks[1] == Block(24, false);
    RequestIs(12);
    MallocFailsExactly(h, 12);
  }

  lemma {:induction false} TwoCalls(h: Heap, c: Call, d: Call)
    ensures After(h, [c, d]) == Next(Next(h, c), d)
  {
    assert [c, d][1..] == [d] && [d][1..] == [];
    assert After(Next(h, c), [d]) == Next(Next(h, c), d);
  }

  lemma {:induction false} TakenWhole()
    ensures Next(Init(64), DoMalloc(60)) == Heap(64, [Block(0, true)], 76, 76, 76)
    ensures Inv(Heap(64, [Block(0, true)], 76, 76, 76))
  {
    var h := Init(64);
    assert Find(h, 60, 0) == 0;
    assert Carve(h, 0, 60).blocks == [Block(0, true)];
    assert NextFree(Carve(h, 0, 60), 0) == NextFree(Carve(h, 0, 60), 1) == 76;
    InitInv(64);
    MallocInv(h, 60);
  }

  lemma {:induction false} CutShort()
    requires Inv(Heap(64, [Block(0, true)], 76, 76, 76))
    ensures var h := Heap(64, [Block(0, true), Block(24, false)], 76, 24, 76);
            Next(Heap(64, [Block(0, true)], 76, 76, 76), DoRealloc(At(HEADER), 12)) == h && Inv(h)
  {
    var h := Heap(64, [Block(0, true)], 76, 76, 76);
    assert Place(h, 0, 0) == 0;
    assert CutOff(h, 0, 12) == Heap(64, [Block(0, true), Block(24, false)], 76, 24, 76);
    ShrinkInv(h, 0, 12);
  }
}
