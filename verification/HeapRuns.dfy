/** Who owns which bytes: the effect of every memheap operation on the set of live allocations, over all runs. */
module HeapRuns {
  import opened HeapModel
  import opened HeapTheorems

  /** (payload address, payload size) of every block handed out and not yet freed. */
  ghost function Allocations(h: Heap): set<(int, int)> {
    Owned(h.blocks)
  }

  ghost function Owned(bs: seq<Block>): set<(int, int)> {
    set b | b in bs && b.used && b.size != 0 :: Payload(b)
  }

  function Payload(b: Block): (int, int) { (b.addr + HEADER, b.size) }

  lemma {:induction false} AllocationsAre(h: Heap, p: int, s: int)
    requires Inv(h)
    ensures (p, s) in Allocations(h) <==> Live(h, p) && SizeOf(h, p) == s
  {
    var k := IndexOf(h.blocks, p - HEADER);
    if (p, s) in Allocations(h) {
      var b :| b in h.blocks && b.used && b.size != 0 && (p, s) == Payload(b);
      var i :| 0 <= i < |h.blocks| && h.blocks[i] == b;
      IndexUnique(h.blocks, i);
    }
    if Live(h, p) && SizeOf(h, p) == s {
      LiveBlock(h, p);
      assert h.blocks[k] in h.blocks;
    }
  }

  /** Distinct allocations occupy disjoint payloads, inside the pool and clear of every header. */
  lemma {:induction false} LiveDisjoint(h: Heap, p: int, q: int)
    requires Inv(h) && Live(h, p) && Live(h, q) && p < q
    ensures p + SizeOf(h, p) + HEADER <= q
  {
    LiveBlock(h, p);
    LiveBlock(h, q);
    var i, j := IndexOf(h.blocks, p - HEADER), IndexOf(h.blocks, q - HEADER);
    if j < i { Ordered(h.blocks, j, i); }
    Ordered(h.blocks, i, j);
  }

  lemma {:induction false} BlocksDistinct(bs: seq<Block>, i: nat, j: nat)
    requires Chain(bs) && i < |bs| && j < |bs| && bs[i] == bs[j]
    ensures i == j
  {
    IndexUnique(bs, i);
    IndexUnique(bs, j);
  }

  /** Splicing keeps exactly the blocks outside the replaced stretch. */
  lemma {:induction false} SpliceMembers(bs: seq<Block>, lo: nat, hi: nat, mid: seq<Block>, b: Block)
    requires lo <= hi <= |bs| && Chain(bs)
    ensures b in bs[..lo] + mid + bs[hi..] <==> b in mid || (b in bs && b !in bs[lo..hi])
  {
    if b in bs {
      var i :| 0 <= i < |bs| && bs[i] == b;
      if lo <= i < hi { assert bs[lo..hi][i-lo] == b; }
      if i < lo { assert bs[..lo][i] == b; }
      if hi <= i { assert bs[hi..][i-hi] == b; }
      forall j | lo <= j < hi && bs[j] == b ensures i == j { BlocksDistinct(bs, i, j); }
      forall j | 0 <= j < |bs| && bs[j] == b ensures i == j { BlocksDistinct(bs, i, j); }
    }
  }

  ghost predicate UsedAre(bs: seq<Block>, r: seq<Block>, gone: Block, come: Block) {
    forall b: Block :: b.used && b.size != 0 ==> (b in r <==> (b in bs && b != gone) || b == come)
  }

  lemma {:induction false} ReshapeUsed(h: Heap, k: nat, size: int)
    requires Inv(h) && k + 1 < |h.blocks| && size != 0
    ensures UsedAre(h.blocks, Reshape(h.blocks, k, size), h.blocks[k], Block(h.blocks[k].addr, size, true))
  {
    var bs := h.blocks;
    SpanFacts(bs, h.start, h.pool, k);
    forall b: Block | b.used && b.size != 0
      ensures b in Reshape(bs, k, size) <==> (b in bs && b != bs[k]) || b == Block(bs[k].addr, size, true)
    {
      SpliceMembers(bs, k, After(bs, k), ShapedPair(bs, k, size), b);
      assert b in bs[k..After(bs, k)] <==> b == bs[k];
    }
  }

  lemma {:induction false} OwnedChange(bs: seq<Block>, r: seq<Block>, gone: Block, come: Block)
    requires UsedAre(bs, r, gone, come) && come.size != 0
    ensures Owned(r) == (if gone.used then Owned(bs) - {Payload(gone)} else Owned(bs))
                        + (if come.used then {Payload(come)} else {})
  {
    forall p: int, s: int
      ensures (p, s) in Owned(r) <==>
              ((p, s) in Owned(bs) && !(gone.used && (p, s) == Payload(gone))) || (come.used && (p, s) == Payload(come))
    {
      OwnedHas(bs, p, s);
      OwnedHas(r, p, s);
    }
  }

  lemma {:induction false} OwnedHas(bs: seq<Block>, p: int, s: int)
    ensures (p, s) in Owned(bs) <==> Block(p - HEADER, s, true) in bs && s != 0
  {
    var b := Block(p - HEADER, s, true);
    assert Payload(b) == (p, s);
  }

  lemma {:induction false} MarkUsedIs(h: Heap, k: nat)
    requires Inv(h) && k < |h.blocks|
    ensures var c := h.blocks[k].(used := true); UsedAre(h.blocks, h.blocks[k := c], h.blocks[k], c)
  {
    var bs, c := h.blocks, h.blocks[k].(used := true);
    assert bs[k := c] == bs[..k] + [c] + bs[k+1..];
    forall x: Block | x.used && x.size != 0 ensures x in bs[k := c] <==> (x in bs && x != bs[k]) || x == c {
      SpliceMembers(bs, k, k + 1, [c], x);
      assert bs[k..k+1] == [bs[k]];
    }
  }

  lemma {:induction false} TakeUsed(h: Heap, k: nat, size: int)
    requires Inv(h) && k + 1 < |h.blocks| && !h.blocks[k].used
    requires MINIALLOC <= size <= h.blocks[k].size
    ensures var b := h.blocks[k];
            var s := if b.size >= size + HEADER + MINIALLOC then size else b.size;
            Allocations(Take(h, k, size)) == Allocations(h) + {(b.addr + HEADER, s)}
  {
    var bs, b := h.blocks, h.blocks[k];
    if b.size >= size + HEADER + MINIALLOC {
      ReshapeUsed(h, k, size);
      OwnedChange(bs, Reshape(bs, k, size), b, Block(b.addr, size, true));
    } else {
      MarkUsedIs(h, k);
      OwnedChange(bs, bs[k := b.(used := true)], b, b.(used := true));
    }
  }

  /**
    A successful allocation adds one aligned payload of at least the asked size, from free space, and touches no
    other.
   */
  lemma {:induction false} AllocTakes(h: Heap, n: nat)
    requires Inv(h) && Alloc(h, n).1 != NULL
    ensures var (h', p) := Alloc(h, n);
            && !Live(h, p) && Live(h', p) && Aligned(p - h.start)
            && Request(n) <= SizeOf(h', p) < Request(n) + HEADER + MINIALLOC
            && Allocations(h') == Allocations(h) + {(p, SizeOf(h', p))}
  {
    var k := AllocIs(h, n);
    RequestFacts(n);
    TakenPayload(h, k, Request(n));
  }

  /** The block a successful allocation takes. */
  lemma {:induction false} AllocIs(h: Heap, n: nat) returns (k: nat)
    requires Inv(h) && Alloc(h, n).1 != NULL
    ensures k + 1 < |h.blocks| && !h.blocks[k].used && h.blocks[k].size >= Request(n)
    ensures Alloc(h, n).0 == Take(h, k, Request(n)) && Alloc(h, n).1 == h.blocks[k].addr + HEADER
    ensures IndexOf(h.blocks, h.blocks[k].addr) == k && Aligned(Alloc(h, n).1 - h.start)
  {
    FirstFitExact(h, Request(n));
    k := IndexOf(h.blocks, h.free[FirstFit(h.blocks, h.free, Request(n))]);
    AddrsAligned(h.blocks, k);
  }

  lemma {:induction false} TakenPayload(h: Heap, k: nat, size: int)
    requires Inv(h) && k + 1 < |h.blocks| && !h.blocks[k].used && MINIALLOC <= size <= h.blocks[k].size && Aligned(size)
    requires IndexOf(h.blocks, h.blocks[k].addr) == k
    ensures var g, p := Take(h, k, size), h.blocks[k].addr + HEADER;
            && !Live(h, p) && Live(g, p) && size <= SizeOf(g, p) < size + HEADER + MINIALLOC
            && Allocations(g) == Allocations(h) + {(p, SizeOf(g, p))}
  {
    var g, p, b := Take(h, k, size), h.blocks[k].addr + HEADER, h.blocks[k];
    var s := if b.size >= size + HEADER + MINIALLOC then size else b.size;
    TakeInv(h, k, size);
    TakeUsed(h, k, size);
    assert (p, s) in Allocations(g);
    AllocationsAre(g, p, s);
    LiveBlock(g, p);
  }

  lemma {:induction false} CoalesceUsed(h: Heap, k: nat)
    requires Inv(h) && k + 1 < |h.blocks| && h.blocks[k].used
    ensures UsedAre(h.blocks, Coalesce(h.blocks, k), h.blocks[k], Block(0, 1, false))
  {
    var bs := h.blocks;
    var hi := After(bs, k);
    var lo := if LeftFree(bs, k) then k - 1 else k;
    var mid := [Block(bs[lo].addr, Span(bs, k) + (if LeftFree(bs, k) then bs[k-1].size + HEADER else 0), false)];
    SpanFacts(bs, h.start, h.pool, k);
    assert Coalesce(bs, k) == bs[..lo] + mid + bs[hi..];
    forall b: Block | b.used && b.size != 0 ensures b in Coalesce(bs, k) <==> b in bs && b != bs[k] {
      SpliceMembers(bs, lo, hi, mid, b);
      assert b in bs[lo..hi] <==> b == bs[k] by {
        assert bs[lo..hi][k-lo] == bs[k];
      }
    }
  }

  /** Freeing removes exactly the freed payload from the live allocations. */
  lemma {:induction false} FreeGives(h: Heap, p: int)
    requires Inv(h) && Live(h, p)
    ensures Allocations(Free(h, p)) == Allocations(h) - {(p, SizeOf(h, p))}
    ensures !Live(Free(h, p), p)
  {
    LiveBlock(h, p);
    var k := IndexOf(h.blocks, p - HEADER);
    CoalesceUsed(h, k);
    OwnedChange(h.blocks, Coalesce(h.blocks, k), h.blocks[k], Block(0, 1, false));
    FreeInv(h, p);
    if Live(Free(h, p), p) {
      AllocationsAre(Free(h, p), p, SizeOf(Free(h, p), p));
      AllocationsAre(h, p, SizeOf(Free(h, p), p));
    }
  }

  lemma {:induction false} ReshapedOwned(h: Heap, k: nat, size: int, p: int, was: int)
    requires Inv(h) && k + 1 < |h.blocks| && h.blocks[k].used && size != 0 && Payload(h.blocks[k]) == (p, was)
    ensures Owned(Reshape(h.blocks, k, size)) == Owned(h.blocks) - {(p, was)} + {(p, size)}
  {
    ReshapeUsed(h, k, size);
    OwnedChange(h.blocks, Reshape(h.blocks, k, size), h.blocks[k], Block(h.blocks[k].addr, size, true));
  }

  /** The three ways realloc keeps the block where it is. */
  predicate StaysPut(h: Heap, p: int, n: nat)
    requires Live(h, p)
  {
    Request(n) <= SizeOf(h, p) || GrowsInPlace(h.blocks, IndexOf(h.blocks, p - HEADER), Request(n))
  }

  lemma {:induction false} ReshapeKeeps(h: Heap, k: nat, size: int, available: int)
    requires Inv(h) && k + 1 < |h.blocks| && h.blocks[k].used && size >= MINIALLOC && Aligned(size)
    requires Span(h.blocks, k) >= size + HEADER + MINIALLOC
    requires available == h.available - (if NextFree(h.blocks, k) then h.blocks[k+1].size else 0)
                          + Span(h.blocks, k) - size - HEADER
    ensures Inv(Charge(Reshaped(h, k, size, available)))
  {
    SliceSums(h.blocks, k);
    ReshapedInv(h, k, size, available);
  }

  lemma {:induction false} ReshapeInPlace(h: Heap, p: int, size: int, available: int)
    requires Inv(h) && Live(h, p) && size >= MINIALLOC && Aligned(size)
    requires Span(h.blocks, IndexOf(h.blocks, p - HEADER)) >= size + HEADER + MINIALLOC
    requires var k := IndexOf(h.blocks, p - HEADER);
             available == h.available - (if NextFree(h.blocks, k) then h.blocks[k+1].size else 0)
                          + Span(h.blocks, k) - size - HEADER
    ensures var h' := Charge(Reshaped(h, IndexOf(h.blocks, p - HEADER), size, available));
            && Inv(h') && Live(h', p) && SizeOf(h', p) == size
            && Allocations(h') == Allocations(h) - {(p, SizeOf(h, p))} + {(p, size)}
  {
    LiveBlock(h, p);
    var k := IndexOf(h.blocks, p - HEADER);
    ReshapeKeeps(h, k, size, available);
    ReshapedOwned(h, k, size, p, SizeOf(h, p));
    var h' := Charge(Reshaped(h, k, size, available));
    AllocationsAre(h', p, size);
  }

  /** A block that stays put keeps its address and becomes at least as large as asked; nothing else moves. */
  lemma {:induction false} InPlace(h: Heap, p: int, n: nat)
    requires Inv(h) && Live(h, p) && n > 0 && StaysPut(h, p, n)
    ensures var (h', q) := Realloc(h, p, n);
            q == p && Inv(h') && Live(h', p) && SizeOf(h', p) >= Request(n)
            && Allocations(h') == Allocations(h) - {(p, SizeOf(h, p))} + {(p, SizeOf(h', p))}
  {
    RequestFacts(n);
    LiveBlock(h, p);
    var k, size := IndexOf(h.blocks, p - HEADER), Request(n);
    var (h', q) := Realloc(h, p, n);
    if size <= h.blocks[k].size && size + HEADER + MINIALLOC >= h.blocks[k].size {
      AllocationsAre(h, p, SizeOf(h, p));
    } else {
      SpanFacts(h.blocks, h.start, h.pool, k);
      ReshapeInPlace(h, p, size, h'.available);
      if size <= h.blocks[k].size {
        assert h' == Charge(h');
      }
    }
  }

  /** A failed move changes nothing. */
  lemma {:induction false} MoveFails(h: Heap, p: int, n: nat)
    requires Inv(h) && Live(h, p) && n > 0 && !StaysPut(h, p, n)
    ensures Alloc(h, Request(n)).1 == NULL ==> Realloc(h, p, n) == (h, NULL)
  {
    RequestFacts(n);
    AllocFailsExactly(h, Request(n));
  }

  lemma {:induction false} OldStaysLive(h: Heap, p: int, n: nat)
    requires Inv(h) && Live(h, p) && Alloc(h, n).1 != NULL
    ensures var (g, q) := Alloc(h, n); Inv(g) && Live(g, p) && SizeOf(g, p) == SizeOf(h, p) && p != q
  {
    var (g, q) := Alloc(h, n);
    AllocInv(h, n);
    AllocTakes(h, n);
    AllocationsAre(h, p, SizeOf(h, p));
    AllocationsAre(g, p, SizeOf(h, p));
  }

  /** A move is an allocation followed by a free of the old block, which is still live. */
  lemma {:induction false} MoveIs(h: Heap, p: int, n: nat)
    requires Inv(h) && Live(h, p) && n > 0 && !StaysPut(h, p, n) && Alloc(h, Request(n)).1 != NULL
    ensures var (g, q) := Alloc(h, Request(n));
            Inv(g) && Live(g, p) && SizeOf(g, p) == SizeOf(h, p) && p != q && Realloc(h, p, n) == (Free(g, p), q)
  {
    RequestFacts(n);
    OldStaysLive(h, p, Request(n));
  }

  lemma {:induction false} Exchanged(a: set<(int, int)>, b: set<(int, int)>, c: set<(int, int)>, x: (int, int),
      y: (int, int))
    requires b == a + {y} && c == b - {x} && x != y
    ensures c == a - {x} + {y} && y in c
  {
  }

  /** A move exchanges the old allocation for a fresh, large enough one; nothing else moves. */
  lemma {:induction false} Moves(h: Heap, p: int, n: nat)
    requires Inv(h) && Live(h, p) && n > 0 && !StaysPut(h, p, n) && Alloc(h, Request(n)).1 != NULL
    ensures var (h', q) := Realloc(h, p, n);
            && Inv(h') && !Live(h, q) && Live(h', q) && SizeOf(h', q) >= Request(n)
            && Allocations(h') == Allocations(h) - {(p, SizeOf(h, p))} + {(q, SizeOf(h', q))}
  {
    MoveIs(h, p, n);
    var (g, q) := Alloc(h, Request(n));
    RequestFacts(n);
    AllocTakes(h, Request(n));
    FreeInv(g, p);
    FreeGives(g, p);
    Exchanged(Allocations(h), Allocations(g), Allocations(Free(g, p)), (p, SizeOf(h, p)), (q, SizeOf(g, q)));
    AllocationsAre(Free(g, p), q, SizeOf(g, q));
  }

  // ---------------------------------------------------------------- what one call undoes

  lemma {:induction false} CoalesceUndoesReshape(bs: seq<Block>, start: int, pool: int, k: nat, size: int)
    requires Tiles(bs, start, pool) && k + 1 < |bs| && !bs[k].used
    ensures Coalesce(Reshape(bs, k, size), k) == bs
  {
    SpanFacts(bs, start, pool, k);
    if k > 0 { assert AdjacentAt(bs, k-1); }
    var r := Reshape(bs, k, size);
    assert r[k+2..] == bs[k+1..] && r[..k] == bs[..k];
    assert Coalesce(r, k) == bs[..k] + [bs[k]] + bs[k+1..];
  }

  lemma {:induction false} CoalesceUndoesMark(bs: seq<Block>, start: int, pool: int, k: nat)
    requires Tiles(bs, start, pool) && k + 1 < |bs| && !bs[k].used
    ensures Coalesce(bs[k := bs[k].(used := true)], k) == bs
  {
    SpanFacts(bs, start, pool, k);
    if k > 0 { assert AdjacentAt(bs, k-1); }
  }

  /** Freeing what was just allocated restores the blocks and the free total. */
  lemma {:induction false} FreeUndoesAlloc(h: Heap, n: nat)
    requires Inv(h) && Alloc(h, n).1 != NULL
    ensures var (g, p) := Alloc(h, n);
            Live(g, p) && Free(g, p).blocks == h.blocks && Free(g, p).available == h.available
            && Listed(Free(g, p).free) == Listed(h.free)
  {
    var k := AllocIs(h, n);
    RequestFacts(n);
    TakeUndone(h, k, Request(n));
  }

  lemma {:induction false} TakeUndone(h: Heap, k: nat, size: int)
    requires Inv(h) && k + 1 < |h.blocks| && !h.blocks[k].used && MINIALLOC <= size <= h.blocks[k].size && Aligned(size)
    requires IndexOf(h.blocks, h.blocks[k].addr) == k
    ensures var g, p := Take(h, k, size), h.blocks[k].addr + HEADER;
            Live(g, p) && Free(g, p).blocks == h.blocks && Free(g, p).available == h.available
            && Listed(Free(g, p).free) == Listed(h.free)
  {
    var g, p := Take(h, k, size), h.blocks[k].addr + HEADER;
    TakenPayload(h, k, size);
    TakeInv(h, k, size);
    FreeInv(g, p);
    CoalesceUndoesTake(h, k, size);
    assert g.blocks[k].addr == h.blocks[k].addr;
    IndexUnique(g.blocks, k);
    FreeAt(g, p, k);
  }

  lemma {:induction false} FreeAt(h: Heap, p: int, k: nat)
    requires Inv(h) && Live(h, p) && IndexOf(h.blocks, p - HEADER) == k
    ensures Free(h, p) == Release(h, k) && Free(h, p).blocks == Coalesce(h.blocks, k)
  {
    LiveBlock(h, p);
  }

  lemma {:induction false} CoalesceUndoesTake(h: Heap, k: nat, size: int)
    requires Inv(h) && k + 1 < |h.blocks| && !h.blocks[k].used
    ensures k < |Take(h, k, size).blocks| && Coalesce(Take(h, k, size).blocks, k) == h.blocks
  {
    if h.blocks[k].size >= size + HEADER + MINIALLOC {
      CoalesceUndoesReshape(h.blocks, h.start, h.pool, k, size);
    } else {
      CoalesceUndoesMark(h.blocks, h.start, h.pool, k);
    }
  }

  // ---------------------------------------------------------------- runs

  datatype Call = CallAlloc(n: nat) | CallFree(p: int) | CallRealloc(q: int, m: nat)

  /** Callers only hand back what they hold. */
  predicate Admissible(h: Heap, c: Call) {
    match c
    case CallAlloc(_) => true
    case CallFree(p) => p == NULL || Live(h, p)
    case CallRealloc(q, _) => q == NULL || Live(h, q)
  }

  function Apply(h: Heap, c: Call): Heap
    requires Admissible(h, c)
  {
    match c
    case CallAlloc(n) => Alloc(h, n).0
    case CallFree(p) => Free(h, p)
    case CallRealloc(q, m) => Realloc(h, q, m).0
  }

  predicate RunTo(h: Heap, calls: seq<Call>, h': Heap)
    decreases |calls|
  {
    if calls == [] then h == h'
    else Admissible(h, calls[0]) && RunTo(Apply(h, calls[0]), calls[1..], h')
  }

  /** A realloc that returns nothing left everything as it was. */
  lemma {:induction false} ReallocFails(h: Heap, p: int, n: nat)
    requires Inv(h) && Live(h, p) && n > 0 && Realloc(h, p, n).1 == NULL
    ensures Realloc(h, p, n).0 == h && Request(n) > SizeOf(h, p) && Alloc(h, n).1 == NULL
  {
    LiveBlock(h, p);
    RequestFacts(n);
    if StaysPut(h, p, n) {
      InPlace(h, p, n);
    } else {
      MoveFails(h, p, n);
      if Alloc(h, Request(n)).1 != NULL { MoveIs(h, p, n); }
    }
  }

  lemma {:induction false} ReallocInv(h: Heap, q: int, m: nat)
    requires Inv(h) && (q == NULL || Live(h, q))
    ensures Inv(Realloc(h, q, m).0)
  {
    if m == 0 {
      FreeInv(h, q);
    } else if q == NULL {
      AllocInv(h, Request(m));
    } else if StaysPut(h, q, m) {
      InPlace(h, q, m);
    } else {
      MoveFails(h, q, m);
      if Alloc(h, Request(m)).1 != NULL {
        Moves(h, q, m);
      }
    }
  }

  lemma {:induction false} ApplyPool(h: Heap, c: Call)
    requires Admissible(h, c)
    ensures Apply(h, c).start == h.start && Apply(h, c).pool == h.pool
  {
  }

  lemma {:induction false} ApplyInv(h: Heap, c: Call)
    requires Inv(h) && Admissible(h, c)
    ensures Inv(Apply(h, c))
  {
    match c {
      case CallAlloc(n) => AllocInv(h, n);
      case CallFree(p) => FreeInv(h, p);
      case CallRealloc(q, m) => ReallocInv(h, q, m);
    }
  }

  /** Every state any run reaches satisfies the invariant. */
  lemma {:induction false} RunInv(h: Heap, calls: seq<Call>, h': Heap)
    requires Inv(h) && RunTo(h, calls, h')
    ensures Inv(h') && h'.start == h.start && h'.pool == h.pool
    decreases |calls|
  {
    if calls != [] {
      ApplyInv(h, calls[0]);
      ApplyPool(h, calls[0]);
      RunInv(Apply(h, calls[0]), calls[1..], h');
    }
  }

  lemma {:induction false} ConservationTo(bs: seq<Block>, n: nat)
    requires Chain(bs) && n < |bs|
    ensures FreeBytesTo(bs, n) + UsedBytesTo(bs, n) + HEADER * n == bs[n].addr - bs[0].addr
  {
    if n > 0 {
      ConservationTo(bs, n - 1);
      assert AdjacentAt(bs, n - 1);
    }
  }

  lemma {:induction false} Conservation(bs: seq<Block>)
    requires |bs| > 0 && Chain(bs)
    ensures FreeBytes(bs) + UsedBytes(bs) + HEADER * |bs| == bs[|bs|-1].addr + HEADER + bs[|bs|-1].size - bs[0].addr
  {
    ConservationTo(bs, |bs| - 1);
  }

  /** Free payloads, live payloads and headers always add up to the pool; max_used_size bounds what is in use. */
  lemma {:induction false} RunConserves(start: int, size: nat, calls: seq<Call>, h: Heap)
    requires Inv(Init(start, size)) && RunTo(Init(start, size), calls, h)
    ensures h.available + UsedBytes(h.blocks) + HEADER * |h.blocks| == AlignDown(size)
    ensures UsedBytes(h.blocks) + HEADER * |h.blocks| <= h.maxUsed
  {
    RunInv(Init(start, size), calls, h);
    Conservation(h.blocks);
  }

  /** Once every allocation has been freed the pool is one free block again, whatever happened before. */
  lemma {:induction false} RunDrains(start: int, size: nat, calls: seq<Call>, h: Heap)
    requires Inv(Init(start, size)) && RunTo(Init(start, size), calls, h)
    requires Allocations(h) == {}
    ensures h.blocks == Init(start, size).blocks && h.free == [start] && h.available == Init(start, size).available
  {
    RunInv(Init(start, size), calls, h);
    var bs := h.blocks;
    forall i | 0 <= i < |bs| - 1 ensures !bs[i].used {
      assert AdjacentAt(bs, i);
      OwnedHas(bs, bs[i].addr + HEADER, bs[i].size);
      assert bs[i] in bs;
    }
    assert AdjacentAt(bs, 0);
    assert bs == Init(start, size).blocks;
    InitInv(start, size);
    assert Listed(h.free) == Listed(Init(start, size).free);
    OneElement(h.free, start);
  }

  lemma {:induction false} ListedSize(s: seq<int>, n: nat)
    requires n <= |s|
    ensures |ListedTo(s, n)| == n
  {
    if n > 0 { ListedSize(s, n - 1); }
  }

  lemma {:induction false} OneElement(s: seq<int>, a: int)
    requires Listed(s) == Listed([a])
    ensures s == [a]
  {
    ListedSize(s, |s|);
    ListedSize([a], 1);
    ListedHas([a], s[0]);
    ListedHas(s, s[0]);
  }
}
