/** The small-memory heap as it is stored: headers at byte offsets with next, prev and used fields. */
module SmallHeaps {
  import opened SmallHeapModel
  import opened Seqs

  /** The header fields by offset from the start of the heap. */
  datatype Cells = Cells(next: map<int, int>, prev: map<int, int>, used: map<int, bool>)

  predicate Has(c: Cells, a: int) { a in c.next && a in c.prev && a in c.used }

  function PrevAddr(h: Heap, i: int): int
    requires 0 <= i < |h.blocks|
  {
    if i == 0 then 0 else h.blocks[i - 1].addr
  }

  /** The header of block i says where it ends, where the one before it starts and whether it is used. */
  predicate Stored(c: Cells, h: Heap, i: int)
    requires 0 <= i < |h.blocks|
  {
    var a := h.blocks[i].addr;
    Has(c, a) && c.next[a] == End(h, i) && c.prev[a] == PrevAddr(h, i) && c.used[a] == h.blocks[i].used
  }

  /** The end stub counts as used and points to itself; its prev field is not kept up to date. */
  predicate StubStored(c: Cells, h: Heap) {
    Has(c, EndStub(h)) && c.next[EndStub(h)] == EndStub(h) && c.used[EndStub(h)]
  }

  ghost predicate Represents(c: Cells, h: Heap) {
    StubStored(c, h) && forall i {:trigger Stored(c, h, i)} :: 0 <= i < |h.blocks| ==> Stored(c, h, i)
  }

  function Mark(c: Cells, a: int, used: bool): Cells { c.(used := c.used[a := used]) }

  /** A header written at ptr2 inside the block at ptr; the next header is told unless it is the end stub. */
  function Insert(c: Cells, ptr: int, ptr2: int, stub: int): Cells
    requires ptr in c.next
  {
    var n := c.next[ptr];
    var prev := c.prev[ptr2 := ptr];
    Cells(c.next[ptr2 := n][ptr := ptr2], if n != stub then prev[n := ptr2] else prev, c.used[ptr2 := false])
  }

  /** The block at ptr takes over the end of the next one, and the header there is told. */
  function Join(c: Cells, ptr: int, nptr: int): Cells
    requires nptr in c.next
  {
    c.(next := c.next[ptr := c.next[nptr]], prev := c.prev[c.next[nptr] := ptr])
  }

  lemma {:induction false} AddrsApart(h: Heap, i: int, j: int)
    requires Tiled(h) && 0 <= i < |h.blocks| && 0 <= j < |h.blocks|
    ensures i != j ==> h.blocks[i].addr != h.blocks[j].addr
    ensures i < j ==> End(h, i) <= h.blocks[j].addr
    ensures 0 <= h.blocks[i].addr < End(h, i) <= EndStub(h)
  {
    if i < j { Ascending(h, i, j); }
    if j < i { Ascending(h, j, i); }
    if i > 0 { Ascending(h, 0, i); }
    var l := |h.blocks| - 1;
    assert Sound(h, i) && Sound(h, l);
    if i < l { Ascending(h, i, l); }
  }

  lemma {:induction false} MarkRepresents(c: Cells, h: Heap, i: int, used: bool)
    requires Tiled(h) && Represents(c, h) && 0 <= i < |h.blocks|
    ensures Represents(Mark(c, h.blocks[i].addr, used), SetUsed(h, i, used))
  {
    var d, r := Mark(c, h.blocks[i].addr, used), SetUsed(h, i, used);
    AddrsApart(h, i, i);
    forall j | 0 <= j < |r.blocks| ensures Stored(d, r, j) {
      assert Stored(c, h, j);
      AddrsApart(h, i, j);
    }
  }

  lemma {:induction false} InsertRepresents(c: Cells, h: Heap, i: int, at: int)
    requires Tiled(h) && Represents(c, h) && 0 <= i < |h.blocks|
    requires h.blocks[i].addr + HEADER + 4 <= at <= End(h, i) - HEADER - 4
    ensures h.blocks[i].addr in c.next
    ensures Represents(Insert(c, h.blocks[i].addr, at, EndStub(h)), Split(h, i, at))
  {
    assert Stored(c, h, i);
    var a := h.blocks[i].addr;
    var d, r := Insert(c, a, at, EndStub(h)), Split(h, i, at);
    AddrsApart(h, i, i);
    forall j | 0 <= j < |r.blocks| ensures Stored(d, r, j) {
      if j != i + 1 {
        var k := if j <= i then j else j - 1;
        assert r.blocks[j] == h.blocks[k] && Stored(c, h, k);
        AddrsApart(h, i, k);
        AddrsApart(h, k, i);
        if i + 1 < |h.blocks| { AddrsApart(h, i + 1, k); }
      }
    }
  }

  lemma {:induction false} JoinRepresents(c: Cells, h: Heap, i: int)
    requires Tiled(h) && Represents(c, h) && 0 <= i < |h.blocks| - 1
    ensures h.blocks[i + 1].addr in c.next
    ensures Represents(Join(c, h.blocks[i].addr, h.blocks[i + 1].addr), Merge(h, i))
  {
    assert Stored(c, h, i + 1);
    var a, b := h.blocks[i].addr, h.blocks[i + 1].addr;
    var d, r := Join(c, a, b), Merge(h, i);
    AddrsApart(h, i, i + 1);
    AddrsApart(h, i + 1, i + 1);
    forall j | 0 <= j < |r.blocks| ensures Stored(d, r, j) {
      var k := if j <= i then j else j + 1;
      assert r.blocks[j] == h.blocks[k] && Stored(c, h, k);
      AddrsApart(h, i, k);
      AddrsApart(h, k, i + 1);
      AddrsApart(h, i + 1, k);
      if i + 2 < |h.blocks| { AddrsApart(h, i + 2, k); }
    }
  }

  /** The two heaps have the same blocks, so the same headers describe both. */
  lemma {:induction false} SameBlocks(c: Cells, h: Heap, r: Heap)
    requires Represents(c, h) && r.blocks == h.blocks && r.size == h.size
    ensures Represents(c, r)
  {
    forall j | 0 <= j < |r.blocks| ensures Stored(c, r, j) { assert Stored(c, h, j); }
  }

  /** The payload bytes, by offset from the start of the heap. */
  class Payloads {
    var bytes: seq<bv8>
    constructor (size: nat)
      ensures |bytes| == size
    {
      bytes := seq(size, _ => 0);
    }
  }

  class SmallHeap {
    const size: int
    const payloads: Payloads
    var cells: Cells
    var lfree: int
    var usedMem: int
    var maxMem: int
    ghost var blocks: seq<Block>

    ghost function View(): Heap
      reads this
    {
      Heap(size, blocks, lfree, usedMem, maxMem)
    }

    ghost predicate Valid()
      reads this, payloads
    {
      Inv(View()) && Represents(cells, View()) && |payloads.bytes| == EndStub(View())
    }

    /** rt_system_heap_init over an aligned pool. */
    constructor (size: int)
      requires size % 4 == 0 && size >= MIN_SIZE
      ensures Valid() && fresh(payloads) && View() == Init(size) && Lowest(View())
    {
      this.size := size;
      payloads := new Payloads(size + HEADER);
      var stub := size + HEADER;
      cells := Cells(map[0 := stub, stub := stub], map[0 := 0, stub := stub], map[0 := false, stub := true]);
      lfree, usedMem, maxMem := 0, 0, 0;
      blocks := [Block(0, false)];
      InitInv(size);
      new;
      assert Stored(cells, View(), 0);
    }

    /** plug_holes around the free block at ptr. */
    method PlugHoles(ptr: int, ghost k: int)
      requires Pluggable(View(), k) && Represents(cells, View()) && ptr == blocks[k].addr
      modifies this
      ensures View() == Plug(old(View()), k) && Represents(cells, View())
    {
      ForwardPlugged(View(), k);
      PlugNext(ptr, k);
      PlugPrevious(ptr, k);
    }

    method PlugNext(ptr: int, ghost k: int)
      requires Pluggable(View(), k) && Represents(cells, View()) && ptr == blocks[k].addr
      modifies this
      ensures View() == PlugForward(old(View()), k) && Represents(cells, View())
    {
      ghost var h := View();
      assert Stored(cells, h, k);
      AddrsApart(h, k, k);
      var next := cells.next[ptr];
      if k + 1 < |blocks| { assert Stored(cells, h, k + 1); AddrsApart(h, k + 1, k + 1); }
      if ptr != next && !cells.used[next] && next != size + HEADER {
        JoinRepresents(cells, h, k);
        if lfree == next {
          lfree := ptr;
        }
        cells := Join(cells, ptr, next);
        blocks := Merge(h, k).blocks;
        SameBlocks(cells, Merge(h, k), View());
      }
    }

    method PlugPrevious(ptr: int, ghost k: int)
      requires Pluggable(View(), k) && Represents(cells, View()) && ptr == blocks[k].addr
      modifies this
      ensures View() == PlugBackward(old(View()), k) && Represents(cells, View())
    {
      ghost var h := View();
      assert Stored(cells, h, k);
      var prev := cells.prev[ptr];
      if k > 0 { assert Stored(cells, h, k - 1); AddrsApart(h, k - 1, k); }
      if prev != ptr && !cells.used[prev] {
        JoinRepresents(cells, h, k - 1);
        if lfree == ptr {
          lfree := prev;
        }
        cells := Join(cells, prev, ptr);
        blocks := Merge(h, k - 1).blocks;
        SameBlocks(cells, Merge(h, k - 1), View());
      }
    }

    /** The search loop: the first block it takes, or none. */
    method Search(req: int) returns (ptr: int, found: bool, ghost k: nat)
      requires Valid() && req >= MIN_SIZE && req <= size
      ensures k == Find(View(), req, 0) && (found <==> k < |blocks|) && (found ==> ptr == blocks[k].addr)
    {
      ghost var h := View();
      k := StartAt(req);
      ptr := lfree;
      found := false;
      while ptr < size - req
        invariant k <= |blocks| && ptr == (if k < |blocks| then blocks[k].addr else EndStub(h)) && ptr >= lfree
        invariant Find(h, req, 0) == Find(h, req, k)
        decreases |blocks| - k
      {
        assert Stored(cells, h, k);
        AddrsApart(h, k, k);
        if !cells.used[ptr] && cells.next[ptr] - (ptr + HEADER) >= req {
          found := true;
          return;
        }
        ptr := cells.next[ptr];
        k := k + 1;
      }
      PastBound(h, req, k);
      k := |blocks|;
    }

    /** The block the search starts from; no block before it is taken. */
    ghost method StartAt(req: int) returns (k: nat)
      requires Valid()
      ensures k <= |blocks| && lfree == (if k < |blocks| then blocks[k].addr else EndStub(View()))
      ensures Find(View(), req, 0) == Find(View(), req, k)
    {
      ghost var h := View();
      if lfree == EndStub(h) {
        k := |blocks|;
      } else {
        var i :| 0 <= i < |blocks| && blocks[i] == Block(lfree, false);
        k := i;
      }
      NoneBelow(h, req, 0, k);
    }

    /** The lowest-free pointer moves on past used blocks. */
    method AdvanceLfree(ghost k: nat)
      requires Tiled(View()) && Represents(cells, View()) && k <= |blocks|
      requires lfree == if k < |blocks| then blocks[k].addr else EndStub(View())
      modifies `lfree
      ensures lfree == NextFree(old(View()), k) && Represents(cells, View()) && lfree in cells.used
    {
      ghost var h := View();
      ghost var i := k;
      if i < |blocks| { assert Stored(cells, h, i); }
      while cells.used[lfree] && lfree != size + HEADER
        invariant k <= i <= |blocks| && lfree == (if i < |blocks| then blocks[i].addr else EndStub(h))
        invariant lfree in cells.used && NextFree(h, i) == NextFree(h, k)
        decreases |blocks| - i
      {
        assert Stored(cells, h, i);
        lfree := cells.next[lfree];
        i := i + 1;
        if i < |blocks| { assert Stored(cells, h, i); }
      }
      if i < |blocks| { assert Stored(cells, h, i); AddrsApart(h, i, i); }
      SameBlocks(cells, h, View());
    }

    /** The block found is carved out and counted. */
    method TakeAt(ptr: int, req: int, ghost k: nat)
      requires Valid() && k < |blocks| && ptr == blocks[k].addr && req % 4 == 0 && req >= MIN_SIZE
               && Takes(View(), k, req)
      modifies this
      ensures Valid() && View() == Take(old(View()), k, req)
    {
      ghost var h := View();
      TakeInv(h, k, req);
      CarveTiled(h, k, req);
      assert Stored(cells, h, k);
      ghost var c := Carve(h, k, req);
      CarveAt(ptr, req, k);
      assert View() == c.(usedMem := usedMem, maxMem := maxMem);
      if ptr == lfree {
        NextFreeSame(c, View(), k);
        AdvanceLfree(k);
      }
    }

    method CarveAt(ptr: int, req: int, ghost k: nat)
      requires Valid() && k < |blocks| && ptr == blocks[k].addr && req % 4 == 0 && req >= MIN_SIZE
               && Takes(View(), k, req)
      modifies this
      ensures blocks == Carve(old(View()), k, req).blocks && lfree == old(lfree)
      ensures usedMem == Take(old(View()), k, req).usedMem && maxMem == Take(old(View()), k, req).maxMem
      ensures Tiled(View()) && Represents(cells, View())
    {
      ghost var h := View();
      assert Stored(cells, h, k) && Sound(h, k);
      CarveTiled(h, k, req);
      ghost var s := h;
      if cells.next[ptr] - (ptr + HEADER) >= req + HEADER + MIN_SIZE {
        var ptr2 := ptr + HEADER + req;
        SplitTiled(h, k, ptr2);
        InsertRepresents(cells, h, k, ptr2);
        cells := Insert(cells, ptr, ptr2, size + HEADER);
        s := Split(h, k, ptr2);
        usedMem := usedMem + (req + HEADER);
      } else {
        usedMem := usedMem + (cells.next[ptr] - ptr);
      }
      if maxMem < usedMem {
        maxMem := usedMem;
      }
      MarkRepresents(cells, s, k, true);
      cells := Mark(cells, ptr, true);
      blocks := SetUsed(s, k, true).blocks;
      SameBlocks(cells, Carve(h, k, req), View());
      TiledSame(Carve(h, k, req), View());
    }

    /** rt_malloc. */
    method Malloc(n: nat) returns (p: Pointer)
      requires Valid()
      modifies this
      ensures Valid() && (View(), p) == SmallHeapModel.Malloc(old(View()), n)
    {
      if n == 0 { return Null; }
      var req := Align4(n);
      if req > size { return Null; }
      RequestIs(n);
      if req < MIN_SIZE {
        req := MIN_SIZE;
      }
      var ptr, found, k := Search(req);
      if !found { return Null; }
      TakeAt(ptr, req, k);
      p := At(ptr + HEADER);
    }

    method MarkFree(mem: int, ghost k: nat)
      requires Valid() && k < |blocks| && blocks[k] == Block(mem, true)
      modifies this
      ensures View() == Freed(old(View()), k) && Represents(cells, View())
    {
      ghost var h := View();
      assert Stored(cells, h, k);
      MarkRepresents(cells, h, k, false);
      cells := Mark(cells, mem, false);
      blocks := SetUsed(h, k, false).blocks;
      if mem < lfree {
        lfree := mem;
      }
      usedMem := usedMem - (cells.next[mem] - mem);
      SameBlocks(cells, SetUsed(h, k, false), View());
    }

    /** rt_free. */
    method Free(p: Pointer)
      requires Valid() && Owned(View(), p)
      modifies this
      ensures Valid() && View() == SmallHeapModel.Free(old(View()), p)
    {
      ghost var h := View();
      FreeInv(h, p);
      if p.Null? { return; }
      var mem := p.a - HEADER;
      ghost var k :| 0 <= k < |blocks| && blocks[k] == Block(mem, true);
      PlaceIs(h, k);
      FreedTiled(h, k);
      FreedLfree(h, k);
      MarkFree(mem, k);
      PlugHoles(mem, k);
    }

    /** rt_memcpy of n payload bytes. */
    method CopyBytes(from: int, to: int, n: nat)
      requires 0 <= from <= from + n <= |payloads.bytes| && 0 <= to <= to + n <= |payloads.bytes|
      modifies payloads
      ensures Copied(old(payloads.bytes), payloads.bytes, from, to, n) && |payloads.bytes| == |old(payloads.bytes)|
      ensures forall x {:trigger payloads.bytes[x]} :: 0 <= x < |payloads.bytes| && !(to <= x < to + n) ==>
                payloads.bytes[x] == old(payloads.bytes[x])
    {
      var b := payloads.bytes;
      payloads.bytes := b[..to] + b[from..from + n] + b[to + n..];
    }

    /** The payload size a block's header tells. */
    ghost function SizeAt(p: Pointer): int
      reads this
    {
      var k := if p.Null? then |blocks| else Place(View(), p.a - HEADER, 0);
      if k < |blocks| then Payload(View(), k) else 0
    }

    /** rt_realloc: what others hold stays, and of what was held here as much as fits. */
    method Realloc(p: Pointer, n: nat) returns (q: Pointer)
      requires Valid() && Owned(View(), p)
      modifies this, payloads
      ensures Valid() && (View(), q) == SmallHeapModel.Realloc(old(View()), p, n)
      ensures KeepsOwned(old(View()), old(payloads.bytes), payloads.bytes, 0, 0)
      ensures p.At? && q.At? ==> Copied(old(payloads.bytes), payloads.bytes, p.a, q.a, Min(old(SizeAt(p)), Align4(n)))
    {
      ghost var h := View();
      ReallocInv(h, p, n);
      var newSize := Align4(n);
      if newSize > size { return Null; }
      if newSize == 0 {
        Free(p);
        return Null;
      }
      if p.Null? {
        q := Malloc(newSize);
        return;
      }
      q := ResizeBlock(p, newSize);
    }

    /** A free header written inside block k. */
    method InsertFree(ptr: int, ptr2: int, ghost k: nat)
      requires Tiled(View()) && Represents(cells, View()) && k < |blocks| && blocks[k].addr == ptr
      requires ptr + HEADER + 4 <= ptr2 <= End(View(), k) - HEADER - 4
      modifies `cells, `blocks
      ensures View() == Split(old(View()), k, ptr2) && Represents(cells, View())
    {
      InsertRepresents(cells, View(), k, ptr2);
      cells := Insert(cells, ptr, ptr2, size + HEADER);
      blocks := Split(View(), k, ptr2).blocks;
    }

    /** The shrinking branch of rt_realloc. */
    method CutBlock(ptr: int, newSize: nat, ghost k: nat)
      requires Valid() && k < |blocks| && blocks[k] == Block(ptr, true) && newSize % 4 == 0 && newSize > 0
      requires Shrinks(View(), k, newSize)
      modifies this
      ensures View() == Shrink(old(View()), k, newSize) && Represents(cells, View())
    {
      ghost var h := View();
      assert Stored(cells, h, k);
      CutOffTiled(h, k, newSize);
      assert Sound(h, k);
      usedMem := usedMem - (cells.next[ptr] - ptr - HEADER - newSize);
      var ptr2 := ptr + HEADER + newSize;
      SameBlocks(cells, h, View());
      TiledSame(h, View());
      InsertFree(ptr, ptr2, k);
      assert View() == CutOff(h, k, newSize);
      PlugHoles(ptr2, k + 1);
    }

    method ResizeBlock(p: Pointer, newSize: nat) returns (q: Pointer)
      requires Valid() && p.At? && Owned(View(), p) && newSize % 4 == 0 && newSize > 0
      modifies this, payloads
      ensures Valid() && Place(old(View()), p.a - HEADER, 0) < |old(blocks)|
      ensures KeepsOwned(old(View()), old(payloads.bytes), payloads.bytes, 0, 0)
      ensures q.At? ==> Copied(old(payloads.bytes), payloads.bytes, p.a, q.a, Min(old(SizeAt(p)), newSize))
      ensures (View(), q) == Resize(old(View()), p, Place(old(View()), p.a - HEADER, 0), newSize)
    {
      ghost var h := View();
      var ptr := p.a - HEADER;
      ghost var k :| 0 <= k < |blocks| && blocks[k] == Block(ptr, true);
      PlaceIs(h, k);
      EndInside(h, k);
      ResizeInv(h, p, k, newSize);
      assert Stored(cells, h, k) && Sound(h, k);
      var oldSize := cells.next[ptr] - ptr - HEADER;
      if oldSize == newSize { return p; }
      if newSize + HEADER + MIN_SIZE < oldSize {
        CutBlock(ptr, newSize, k);
        return p;
      }
      q := MoveBlock(p, oldSize, newSize, k);
    }

    /** The moving branch of rt_realloc. */
    method MoveBlock(p: Pointer, oldSize: nat, newSize: nat, ghost k: nat) returns (q: Pointer)
      requires Valid() && p.At? && k < |blocks| && blocks[k] == Block(p.a - HEADER, true)
      requires newSize > 0 && oldSize == Payload(View(), k)
      modifies this, payloads
      ensures Valid() && (View(), q) == Moved(old(View()), p, newSize)
      ensures KeepsOwned(old(View()), old(payloads.bytes), payloads.bytes, 0, 0)
      ensures q.At? ==> Copied(old(payloads.bytes), payloads.bytes, p.a, q.a, Min(oldSize, newSize))
    {
      ghost var h := View();
      MallocKeepsOwned(h, newSize, p);
      q := Malloc(newSize);
      if q != Null {
        MallocGives(h, newSize);
        EndInside(h, k);
        CopyBytes(p.a, q.a, if oldSize < newSize then oldSize else newSize);
        Free(p);
      }
    }
  }

  lemma {:induction false} NextFreeSame(h: Heap, r: Heap, i: nat)
    requires h.blocks == r.blocks && h.size == r.size && i <= |h.blocks|
    ensures NextFree(h, i) == NextFree(r, i)
    decreases |h.blocks| - i
  {
    if i < |h.blocks| { NextFreeSame(h, r, i + 1); }
  }

  /** Blocks below the lowest-free pointer are not taken. */
  lemma {:induction false} NoneBelow(h: Heap, req: int, i: nat, k: nat)
    requires Tiled(h) && i <= k <= |h.blocks| && h.lfree == (if k < |h.blocks| then h.blocks[k].addr else EndStub(h))
    ensures Find(h, req, i) == Find(h, req, k)
    decreases k - i
  {
    if i < k {
      AddrsApart(h, i, i);
      if k < |h.blocks| { AddrsApart(h, i, k); }
      NoneBelow(h, req, i + 1, k);
    }
  }

  /** Nor are those from the loop's bound on. */
  lemma {:induction false} PastBound(h: Heap, req: int, k: nat)
    requires Tiled(h) && k <= |h.blocks| && (k < |h.blocks| ==> h.blocks[k].addr >= h.size - req)
    ensures Find(h, req, k) == |h.blocks|
    decreases |h.blocks| - k
  {
    if k < |h.blocks| {
      if k + 1 < |h.blocks| { AddrsApart(h, k, k + 1); }
      AddrsApart(h, k, k);
      PastBound(h, req, k + 1);
    }
  }
}
