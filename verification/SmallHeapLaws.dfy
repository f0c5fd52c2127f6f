/** What the callers of the small-memory heap see: who holds which bytes, which pointer a request gets, and its size. */
module SmallHeapLaws {
  import opened SmallHeapModel

  // ---------------------------------------------------------------- who holds what

  /** Payload address and size of block i. */
  function Item(h: Heap, i: int): (int, int)
    requires 0 <= i < |h.blocks|
  {
    (h.blocks[i].addr + HEADER, Payload(h, i))
  }

  ghost predicate HeldAt(h: Heap, i: int, x: (int, int)) {
    0 <= i < |h.blocks| && h.blocks[i].used && Item(h, i) == x
  }

  /** Everything that is handed out. */
  ghost predicate Holds(h: Heap, x: (int, int)) { exists i {:trigger HeldAt(h, i, x)} :: HeldAt(h, i, x) }

  /** What was held is held, but gone, and come is held as well. */
  ghost predicate Exchanges(h: Heap, r: Heap, gone: set<(int, int)>, come: set<(int, int)>) {
    forall x {:trigger Holds(r, x)} :: Holds(r, x) <==> (Holds(h, x) && x !in gone) || x in come
  }

  lemma {:induction false} ItemsDiffer(h: Heap, i: int, j: int)
    requires Tiled(h) && 0 <= i < |h.blocks| && 0 <= j < |h.blocks| && Item(h, i).0 == Item(h, j).0
    ensures i == j
  {
    if i < j { Ascending(h, i, j); }
    if j < i { Ascending(h, j, i); }
  }

  lemma {:induction false} SetUsedHolds(h: Heap, i: int, used: bool)
    requires Tiled(h) && 0 <= i < |h.blocks| && h.blocks[i].used != used
    ensures Exchanges(h, SetUsed(h, i, used), {Item(h, i)}, if used then {Item(h, i)} else {})
  {
    var r := SetUsed(h, i, used);
    forall x ensures Holds(r, x) <==> (Holds(h, x) && x != Item(h, i)) || (used && x == Item(h, i)) {
      if Holds(r, x) {
        var j :| HeldAt(r, j, x);
        if j != i {
          assert HeldAt(h, j, x);
          if x == Item(h, i) { ItemsDiffer(h, i, j); }
        }
      }
      if Holds(h, x) && x != Item(h, i) {
        var j :| HeldAt(h, j, x);
        assert HeldAt(r, j, x);
      }
      if used && x == Item(h, i) { assert HeldAt(r, i, x); }
    }
  }

  /** Splitting block i: a used one is held up to the cut. */
  lemma {:induction false} SplitHolds(h: Heap, i: int, at: int)
    requires Tiled(h) && 0 <= i < |h.blocks|
    ensures var a := h.blocks[i].addr + HEADER;
            Exchanges(h, Split(h, i, at), if h.blocks[i].used then {Item(h, i)} else {},
                     if h.blocks[i].used then {(a, at - a)} else {})
  {
    var r, used, a := Split(h, i, at), h.blocks[i].used, h.blocks[i].addr + HEADER;
    assert Item(r, i) == (a, at - a);
    forall x ensures Holds(r, x) <==> (Holds(h, x) && !(used && x == Item(h, i))) || (used && x == (a, at - a)) {
      if Holds(r, x) {
        var j :| HeldAt(r, j, x);
        if j != i {
          var k := if j < i then j else j - 1;
          assert HeldAt(h, k, x);
          if x == Item(h, i) { ItemsDiffer(h, i, k); }
        }
      }
      if Holds(h, x) && !(used && x == Item(h, i)) {
        var j :| HeldAt(h, j, x);
        assert HeldAt(r, if j < i then j else j + 1, x);
      }
      if used && x == (a, at - a) { assert HeldAt(r, i, x); }
    }
  }

  /** Joining free blocks: nobody notices. */
  lemma {:induction false} MergeHolds(h: Heap, i: int)
    requires 0 <= i < |h.blocks| - 1 && BothFree(h, i)
    ensures Exchanges(h, Merge(h, i), {}, {})
  {
    var r := Merge(h, i);
    forall x ensures Holds(r, x) <==> Holds(h, x) {
      if Holds(r, x) {
        var j :| HeldAt(r, j, x);
        assert HeldAt(h, if j <= i then j else j + 1, x);
      }
      if Holds(h, x) {
        var j :| HeldAt(h, j, x);
        assert HeldAt(r, if j <= i then j else j - 1, x);
      }
    }
  }

  lemma {:induction false} SameHolds(h: Heap, r: Heap)
    requires h.blocks == r.blocks && h.size == r.size
    ensures Exchanges(h, r, {}, {})
  {
    forall x ensures Holds(r, x) <==> Holds(h, x) {
      if Holds(r, x) { var j :| HeldAt(r, j, x); assert HeldAt(h, j, x); }
      if Holds(h, x) { var j :| HeldAt(h, j, x); assert HeldAt(r, j, x); }
    }
  }

  lemma {:induction false} PlugHolds(h: Heap, k: int)
    requires 0 <= k < |h.blocks| && !h.blocks[k].used
    ensures Exchanges(h, Plug(h, k), {}, {})
  {
    var f := PlugForward(h, k);
    ForwardHolds(h, k);
    assert f.blocks[k] == h.blocks[k] && (k > 0 ==> f.blocks[k - 1] == h.blocks[k - 1]);
    if k > 0 && !f.blocks[k - 1].used {
      assert BothFree(f, k - 1);
      MergeHolds(f, k - 1);
      SameHolds(Merge(f, k - 1), Plug(h, k));
    }
  }

  lemma {:induction false} ForwardHolds(h: Heap, k: int)
    requires 0 <= k < |h.blocks| && !h.blocks[k].used
    ensures Exchanges(h, PlugForward(h, k), {}, {})
  {
    if k + 1 < |h.blocks| && !h.blocks[k + 1].used {
      assert BothFree(h, k);
      MergeHolds(h, k);
      SameHolds(Merge(h, k), PlugForward(h, k));
    } else {
      SameHolds(h, h);
    }
  }

  // ---------------------------------------------------------------- allocating

  /** How large the block of a pointer is. */
  function SizeOf(h: Heap, p: Pointer): int {
    var k := if p.At? then Place(h, p.a - HEADER, 0) else |h.blocks|;
    if k < |h.blocks| then Payload(h, k) else 0
  }

  /** The block taken is the lowest one that is not passed over. */
  lemma {:induction false} MallocLowest(h: Heap, n: nat) returns (k: nat)
    requires Inv(h) && Malloc(h, n).1.At?
    ensures k < |h.blocks| && !h.blocks[k].used && Payload(h, k) >= Request(n)
            && Malloc(h, n) == (Take(h, k, Request(n)), At(Item(h, k).0))
    ensures forall i {:trigger h.blocks[i]} :: 0 <= i < k && !h.blocks[i].used && Payload(h, i) >= Request(n) ==>
              PassedOver(h, i, Request(n))
  {
    RequestIs(n);
    k := Find(h, Request(n), 0);
    assert Takes(h, k, Request(n));
    forall i {:trigger h.blocks[i]} | 0 <= i < k && !h.blocks[i].used && Payload(h, i) >= Request(n)
      ensures PassedOver(h, i, Request(n))
    {
      TakesUnlessPassed(h, i, Request(n));
      assert !Takes(h, i, Request(n));
    }
  }

  lemma {:induction false} CarveHolds(h: Heap, k: int, req: int)
    requires Inv(h) && 0 <= k < |h.blocks| && !h.blocks[k].used && req % 4 == 0 && MIN_SIZE <= req <= Payload(h, k)
    ensures var size := if Splits(h, k, req) then req else Payload(h, k);
            Exchanges(h, Carve(h, k, req), {}, {(Item(h, k).0, size)})
    ensures var c := Carve(h, k, req);
            c.blocks[k] == Block(h.blocks[k].addr, true)
            && Payload(c, k) == if Splits(h, k, req) then req else Payload(h, k)
  {
    var at := h.blocks[k].addr + HEADER + req;
    assert Sound(h, k);
    if Splits(h, k, req) {
      var s := Split(h, k, at);
      SplitTiled(h, k, at);
      SplitHolds(h, k, at);
      SetUsedHolds(s, k, true);
    } else {
      SetUsedHolds(h, k, true);
    }
    NotHeld(h, k, if Splits(h, k, req) then req else Payload(h, k));
  }

  /** Nothing is held where a block is free. */
  lemma {:induction false} NotHeld(h: Heap, k: int, size: int)
    requires Tiled(h) && 0 <= k < |h.blocks| && !h.blocks[k].used
    ensures !Holds(h, (Item(h, k).0, size))
  {
    if Holds(h, (Item(h, k).0, size)) {
      var j :| HeldAt(h, j, (Item(h, k).0, size));
      ItemsDiffer(h, j, k);
    }
  }

  /**
    A request that succeeds hands out one block more, at least as large as asked and by less than a header and a
    minimal block larger; nobody else's changes.
   */
  lemma {:induction false} MallocHolds(h: Heap, n: nat)
    requires Inv(h) && Malloc(h, n).1.At?
    ensures var (r, p) := Malloc(h, n);
            Inv(r) && Exchanges(h, r, {}, {(p.a, SizeOf(r, p))})
            && Request(n) <= SizeOf(r, p) < Request(n) + HEADER + MIN_SIZE
  {
    var k := MallocLowest(h, n);
    var (r, p) := Malloc(h, n);
    RequestIs(n);
    MallocInv(h, n);
    CarveHolds(h, k, Request(n));
    SameHolds(Carve(h, k, Request(n)), r);
    PlaceIs(r, k);
  }

  // ---------------------------------------------------------------- giving back

  /** Freeing gives back exactly the block it is asked to. */
  lemma {:induction false} FreeHolds(h: Heap, p: Pointer)
    requires Inv(h) && Owned(h, p) && p.At?
    ensures Inv(Free(h, p)) && Holds(h, (p.a, SizeOf(h, p))) && Exchanges(h, Free(h, p), {(p.a, SizeOf(h, p))}, {})
    ensures !Owned(Free(h, p), p)
  {
    var k := OwnedBlock(h, p);
    FreeInv(h, p);
    assert HeldAt(h, k, Item(h, k));
    SetUsedHolds(h, k, false);
    SameHolds(SetUsed(h, k, false), Freed(h, k));
    PlugHolds(Freed(h, k), k);
    var r := Free(h, p);
    if Owned(r, p) {
      var j :| 0 <= j < |r.blocks| && r.blocks[j] == Block(p.a - HEADER, true);
      assert HeldAt(r, j, Item(r, j));
      assert Holds(r, Item(r, j)) && Holds(h, Item(r, j));
      var i :| HeldAt(h, i, Item(r, j));
      ItemsDiffer(h, i, k);
    }
  }

  // ---------------------------------------------------------------- resizing

  /** A block stays where it is if it has the size asked for, or if enough is cut off to make a block of its own. */
  ghost predicate Stays(h: Heap, p: Pointer, size: int) {
    size == SizeOf(h, p) || size + HEADER + MIN_SIZE < SizeOf(h, p)
  }

  /**
    A resize answers with the same pointer if and only if the block stays; it fails if and only if the block does not
    stay and no new one can be had, also when less is asked for than the block has.
   */
  lemma {:induction false} ReallocExactly(h: Heap, p: Pointer, n: nat)
    requires Inv(h) && Owned(h, p) && p.At? && n > 0
    ensures var q, stays := Realloc(h, p, n).1, Stays(h, p, Align4(n));
            (q == p <==> stays) && (q == Null <==> !stays && Malloc(h, n).1 == Null)
            && (q == Null ==> Realloc(h, p, n).0 == h)
  {
    var k := OwnedBlock(h, p);
    var size := Align4(n);
    Within(h, k);
    if size <= h.size {
      var j := ReallocIs(h, p, n);
      SameRequest(h, n);
      if !Stays(h, p, size) && Malloc(h, size).1.At? { MallocGives(h, size); }
    }
  }

  lemma {:induction false} Within(h: Heap, k: int)
    requires Inv(h) && 0 <= k < |h.blocks|
    ensures 4 <= Payload(h, k) <= h.size
  {
    var l := |h.blocks| - 1;
    assert Sound(h, k) && Sound(h, l);
    if k < l { Ascending(h, k, l); }
    if k > 0 { Ascending(h, 0, k); }
  }

  lemma {:induction false} SameRequest(h: Heap, n: nat)
    ensures Malloc(h, Align4(n)) == Malloc(h, n)
  {}

  /** A block that stays becomes exactly as large as asked, rounded up to words. */
  lemma {:induction false} StayingHolds(h: Heap, p: Pointer, n: nat)
    requires Inv(h) && Owned(h, p) && p.At? && n > 0 && Stays(h, p, Align4(n))
    ensures var r := Realloc(h, p, n).0;
            Inv(r) && Exchanges(h, r, {(p.a, SizeOf(h, p))}, {(p.a, Align4(n))}) && SizeOf(r, p) == Align4(n)
  {
    var size := Align4(n);
    var k := OwnedBlock(h, p);
    Within(h, k);
    var j := ReallocIs(h, p, n);
    assert HeldAt(h, k, Item(h, k));
    if size == Payload(h, k) {
      SameHolds(h, h);
    } else {
      ShrinkHolds(h, k, size);
      ShrinkInv(h, k, size);
      PlaceIs(Shrink(h, k, size), k);
    }
  }

  lemma {:induction false} ShrinkHolds(h: Heap, k: int, size: int)
    requires Inv(h) && 0 <= k < |h.blocks| && h.blocks[k].used && size % 4 == 0 && size > 0 && Shrinks(h, k, size)
    ensures var r := Shrink(h, k, size);
            k < |r.blocks| && r.blocks[k] == h.blocks[k] && Payload(r, k) == size
            && Exchanges(h, r, {Item(h, k)}, {(Item(h, k).0, size)})
  {
    var at := h.blocks[k].addr + HEADER + size;
    SplitHolds(h, k, at);
    SameHolds(Split(h, k, at), CutOff(h, k, size));
    PlugHolds(CutOff(h, k, size), k + 1);
    ShrinkIs(h, k, size);
  }

  /** A block that moves is exchanged for a fresh one that is large enough. */
  lemma {:induction false} MovedHolds(h: Heap, p: Pointer, n: nat)
    requires Inv(h) && Owned(h, p) && p.At? && n > 0 && Realloc(h, p, n).1 !in {p, Null}
    ensures var (r, q) := Realloc(h, p, n); var s := SizeOf(Malloc(h, n).0, q);
            Inv(r) && Exchanges(h, r, {(p.a, SizeOf(h, p))}, {(q.a, s)})
            && Request(n) <= s < Request(n) + HEADER + MIN_SIZE
  {
    ReallocExactly(h, p, n);
    var k := ReallocIs(h, p, n);
    SameRequest(h, n);
    var (g, q) := Malloc(h, n);
    MallocHolds(h, n);
    MallocGives(h, n);
    MallocKeepsOwned(h, n, p);
    FreeHolds(g, p);
    FreeHolds(h, p);
    HeldOnce(g, p, SizeOf(h, p));
  }

  /** An address is held with one size only. */
  lemma {:induction false} HeldOnce(h: Heap, p: Pointer, size: int)
    requires Inv(h) && p.At? && Owned(h, p)
    ensures Holds(h, (p.a, size)) ==> size == SizeOf(h, p)
  {
    var k := OwnedBlock(h, p);
    if Holds(h, (p.a, size)) {
      var j :| HeldAt(h, j, (p.a, size));
      ItemsDiffer(h, j, k);
    }
  }

  /** Without a pointer a resize is an allocation, and to nothing it is a free. */
  lemma {:induction false} ReallocEnds(h: Heap, p: Pointer, n: nat)
    requires h.size >= 0
    ensures Realloc(h, Null, n) == Malloc(h, n) && Realloc(h, p, 0) == (Free(h, p), Null)
  {
    SameRequest(h, n);
  }

  /** A resize to less can fail: a block of 64 bytes is not kept for a request of 56, and there is no other. */
  lemma {:induction false} SmallerRefused()
    ensures var h := After(Init(64), [DoMalloc(60)]);
            Inv(h) && Owned(h, At(HEADER)) && SizeOf(h, At(HEADER)) == 64 && Realloc(h, At(HEADER), 56) == (h, Null)
  {
    TakenWhole();
    var h := Heap(64, [Block(0, true)], 76, 76, 76);
    assert [DoMalloc(60)][1..] == [] && After(h, []) == h;
    assert h.blocks[0] == Block(0, true);
    PlaceIs(h, 0);
    RequestIs(56);
    MallocFailsExactly(h, 56);
    ReallocExactly(h, At(HEADER), 56);
  }

  // ---------------------------------------------------------------- what runs leave

  /** When nothing is held any more the pool is one free block again. */
  lemma {:induction false} RunDrains(size: int, run: seq<Call>)
    requires size % 4 == 0 && size >= MIN_SIZE && Admissible(Init(size), run)
    requires forall x {:trigger Holds(After(Init(size), run), x)} :: !Holds(After(Init(size), run), x)
    ensures var h := After(Init(size), run);
            h.blocks == Init(size).blocks && h.usedMem == 0 && (Lowest(h) ==> h.lfree == 0)
  {
    RunInv(size, run);
    var h := After(Init(size), run);
    forall i {:trigger h.blocks[i]} | 0 <= i < |h.blocks| ensures !h.blocks[i].used {
      var x := Item(h, i);
      assert !Holds(h, x);
      assert HeldAt(h, i, x) <==> h.blocks[i].used;
    }
    if |h.blocks| > 1 { assert BothFree(h, 0); }
    assert UsedTo(h, 1) == UsedTo(h, 0);
    if Lowest(h) && h.lfree != 0 { assert h.lfree <= h.blocks[0].addr; AtStart(h); }
  }

  lemma {:induction false} AtStart(h: Heap)
    requires Inv(h)
    ensures h.lfree >= 0
  {
    if h.lfree != EndStub(h) {
      var i :| 0 <= i < |h.blocks| && h.blocks[i] == Block(h.lfree, false);
      if i > 0 { Ascending(h, 0, i); }
    }
  }

  // ---------------------------------------------------------------- the high-water mark

  function Greater(a: int, b: int): int { if a < b then b else a }

  /** The most that is used while a call runs: a move holds the new block before it gives the old one back. */
  function Peak(h: Heap, c: Call): int {
    if c.DoRealloc? && c.n > 0 && c.p.At? && Realloc(h, c.p, c.n).1 !in {c.p, Null} then Malloc(h, c.n).0.usedMem
    else Next(h, c).usedMem
  }

  lemma {:induction false} MallocMark(h: Heap, n: nat)
    requires Inv(h)
    ensures Malloc(h, n).0.maxMem == Greater(h.maxMem, Malloc(h, n).0.usedMem)
  {}

  lemma {:induction false} PlugMarks(h: Heap, k: int)
    requires 0 <= k < |h.blocks|
    ensures Plug(h, k).maxMem == h.maxMem && Plug(h, k).usedMem == h.usedMem
  {}

  lemma {:induction false} FreeMark(h: Heap, p: Pointer)
    requires Inv(h) && Owned(h, p)
    ensures Free(h, p).maxMem == h.maxMem && Free(h, p).usedMem <= h.usedMem
  {
    if p.At? {
      var k := OwnedBlock(h, p);
      PlugMarks(Freed(h, k), k);
      Within(h, k);
    }
  }

  lemma {:induction false} StayMark(h: Heap, p: Pointer, n: nat)
    requires Inv(h) && Owned(h, p) && p.At? && n > 0 && Stays(h, p, Align4(n))
    ensures Realloc(h, p, n).0.maxMem == h.maxMem && Realloc(h, p, n).0.usedMem <= h.usedMem
  {
    var size := Align4(n);
    var k := OwnedBlock(h, p);
    Within(h, k);
    var j := ReallocIs(h, p, n);
    if size != Payload(h, k) { PlugMarks(CutOff(h, k, size), k + 1); }
  }

  /** max_mem is the most that has been in use so far. */
  lemma {:induction false} MarkExactly(h: Heap, c: Call)
    requires Inv(h) && Enabled(h, c)
    ensures Next(h, c).maxMem == Greater(h.maxMem, Peak(h, c))
  {
    match c
    case DoMalloc(n) => MallocMark(h, n);
    case DoFree(p) => FreeMark(h, p);
    case DoRealloc(p, n) =>
      ReallocEnds(h, p, n);
      if n == 0 { FreeMark(h, p); }
      else if p.Null? { MallocMark(h, n); }
      else { ReallocMark(h, p, n); }
  }

  lemma {:induction false} ReallocMark(h: Heap, p: Pointer, n: nat)
    requires Inv(h) && Owned(h, p) && p.At? && n > 0
    ensures Realloc(h, p, n).0.maxMem == Greater(h.maxMem, Peak(h, DoRealloc(p, n)))
  {
    ReallocExactly(h, p, n);
    if Stays(h, p, Align4(n)) {
      StayMark(h, p, n);
    } else if Malloc(h, n).1.At? {
      var k := ReallocIs(h, p, n);
      SameRequest(h, n);
      MallocMark(h, n);
      MallocInv(h, n);
      MallocKeepsOwned(h, n, p);
      FreeMark(Malloc(h, n).0, p);
    }
  }

  /** m is the most in use at any time of the run. */
  ghost predicate IsPeak(h: Heap, run: seq<Call>, m: int)
    decreases |run|
  {
    if run == [] then m == h.usedMem
    else exists k {:trigger IsPeak(Next(h, run[0]), run[1..], k)} ::
           IsPeak(Next(h, run[0]), run[1..], k) && m == Greater(Greater(h.usedMem, Peak(h, run[0])), k)
  }

  lemma {:induction false} RunMark(h: Heap, run: seq<Call>) returns (m: int)
    requires Inv(h) && Admissible(h, run)
    ensures IsPeak(h, run, m) && After(h, run).maxMem == Greater(h.maxMem, m)
    decreases |run|
  {
    m := h.usedMem;
    if run != [] {
      StepInv(h, run[0]);
      MarkExactly(h, run[0]);
      var k := RunMark(Next(h, run[0]), run[1..]);
      assert IsPeak(Next(h, run[0]), run[1..], k);
      m := Greater(Greater(h.usedMem, Peak(h, run[0])), k);
    }
  }

  /** From initialisation on it is exactly the most that has ever been in use at once. */
  lemma {:induction false} RunHighWater(size: int, run: seq<Call>)
    requires size % 4 == 0 && size >= MIN_SIZE && Admissible(Init(size), run)
    ensures IsPeak(Init(size), run, After(Init(size), run).maxMem)
  {
    InitInv(size);
    var m := RunMark(Init(size), run);
    AtLeastStart(Init(size), run, m);
  }

  lemma {:induction false} AtLeastStart(h: Heap, run: seq<Call>, m: int)
    requires IsPeak(h, run, m)
    ensures m >= h.usedMem
  {}
}
