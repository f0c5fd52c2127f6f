/** Which heap serves a request over several heaps, and what a resize answers. */
module HeapSystemAnswers {
  import opened HeapModel
  import opened HeapTheorems
  import opened HeapRuns
  import opened HeapAnswers
  import opened MemHeaps
  import opened HeapSites

  /** The system heap is asked first, then the others in their order: whoever was asked before refused. */
  lemma {:induction false} MallocOrder(sites: seq<Site>, at: nat, n: nat) returns (j: nat)
    requires at < |sites| && Malloc(sites, at, n).1 != NULL
    ensures j < |sites| && Malloc(sites, at, n).1 == Alloc(sites[j].heap, n).1
            && Malloc(sites, at, n).0 == With(sites, j, Alloc(sites[j].heap, n).0)
    ensures j != at ==> Alloc(sites[at].heap, n).1 == NULL
    ensures forall k {:trigger sites[k]} :: 0 <= k < j && k != at && j != at ==> Alloc(sites[k].heap, n).1 == NULL
  {
    if Alloc(sites[at].heap, n).1 != NULL { j := at; } else { j := OthersOrder(sites, at, 0, n); }
  }

  lemma {:induction false} OthersOrder(sites: seq<Site>, at: nat, i: nat, n: nat) returns (j: nat)
    requires i <= |sites| && MallocOthers(sites, at, i, n).1 != NULL
    ensures i <= j < |sites| && j != at
    ensures MallocOthers(sites, at, i, n) == (With(sites, j, Alloc(sites[j].heap, n).0), Alloc(sites[j].heap, n).1)
    ensures forall k {:trigger sites[k]} :: i <= k < j && k != at ==> Alloc(sites[k].heap, n).1 == NULL
    decreases |sites| - i
  {
    if i == at || Alloc(sites[i].heap, n).1 == NULL { j := OthersOrder(sites, at, i + 1, n); } else { j := i; }
  }

  /** Heap i keeps the block where it is. */
  ghost predicate KeepsBlock(sites: seq<Site>, i: nat, p: int, n: nat)
    requires i < |sites| && Live(sites[i].heap, p)
  {
    Request(n) <= SizeOf(sites[i].heap, p) || RoomBehind(sites[i].heap, p, Request(n))
  }

  /** What an allocation hands out was not live anywhere. */
  lemma {:induction false} FreshPointer(c: Cells, sites: seq<Site>, at: nat, i: nat, p: int, n: nat)
    requires AllHold(c, sites) && at < |sites| && i < |sites| && Live(sites[i].heap, p)
    ensures Malloc(sites, at, n).1 != p
  {
    assert HoldsAt(c, sites[i]);
    LiveBlock(sites[i].heap, p);
    if Malloc(sites, at, n).1 != NULL { ServedElsewhere(c, sites, at, i, p, n); }
  }

  lemma {:induction false} ServedElsewhere(c: Cells, sites: seq<Site>, at: nat, i: nat, p: int, n: nat)
    requires AllHold(c, sites) && at < |sites| && i < |sites| && Live(sites[i].heap, p)
             && Malloc(sites, at, n).1 != NULL
    ensures Malloc(sites, at, n).1 != p
  {
    var j := MallocFrom(sites, at, n);
    var g := sites[j].heap;
    assert HoldsAt(c, sites[j]) && HoldsAt(c, sites[i]);
    AllocTakes(g, n);
    var k := AllocIs(g, n);
    if j != i {
      assert ApartSites(sites[i], sites[j]);
      InPool(sites[i].heap, IndexOf(sites[i].heap.blocks, p - HEADER));
      InPool(g, k);
      LiveBlock(sites[i].heap, p);
    }
  }

  lemma {:induction false} InPool(h: Heap, k: nat)
    requires Inv(h) && k + 1 < |h.blocks|
    ensures h.start <= h.blocks[k].addr < h.start + h.pool
  {
    Ordered(h.blocks, k, |h.blocks| - 1);
    assert AdjacentAt(h.blocks, k);
    if k > 0 { Ordered(h.blocks, 0, k); assert AdjacentAt(h.blocks, 0); }
  }

  /**
    A resize over several heaps answers with the same pointer if and only if the owning heap keeps the block in place,
    and with none if and only if it does not and no heap can serve a new block.
   */
  lemma {:induction false} ResizeExactly(c: Cells, sites: seq<Site>, at: nat, i: nat, p: int, n: nat)
    requires AllHold(c, sites) && at < |sites| && i < |sites| && Live(sites[i].heap, p) && n > 0
    ensures var q := Resized(sites, at, i, p, n).1;
            (q == p <==> KeepsBlock(sites, i, p, n))
            && (q == NULL <==> !KeepsBlock(sites, i, p, n)
                               && forall j {:trigger sites[j]} :: 0 <= j < |sites| ==> !Serves(sites[j], n))
  {
    var h := sites[i].heap;
    assert HoldsAt(c, sites[i]);
    ReallocExactly(h, p, n);
    LiveBlock(h, p);
    MallocFailsExactly(c, sites, at, n);
    if Realloc(h, p, n).1 == NULL {
      FreshPointer(c, sites, at, i, p, n);
    } else if Realloc(h, p, n).1 != p {
      AllocFailsExactly(h, n);
      assert Serves(sites[i], n);
    }
  }

  /** A resize to nothing gives the block back to its heap, and to no other. */
  lemma {:induction false} ResizeToNothing(c: Cells, sites: seq<Site>, at: nat, i: nat, p: int)
    requires AllHold(c, sites) && at < |sites| && i < |sites| && Live(sites[i].heap, p)
    ensures var (after, q) := Resized(sites, at, i, p, 0);
            q == NULL && |after| == |sites|
            && Allocations(after[i].heap) == Allocations(sites[i].heap) - {(p, SizeOf(sites[i].heap, p))}
            && forall j {:trigger sites[j]} :: 0 <= j < |sites| && j != i ==> after[j] == sites[j]
  {
    assert HoldsAt(c, sites[i]);
    FreeGives(sites[i].heap, p);
  }

  /** A resize the owning heap can serve, in place or by a block of its own, leaves the other heaps alone. */
  lemma {:induction false} ResizeAtHome(c: Cells, sites: seq<Site>, at: nat, i: nat, p: int, n: nat)
    requires AllHold(c, sites) && at < |sites| && i < |sites| && Live(sites[i].heap, p) && n > 0
    requires KeepsBlock(sites, i, p, n) || Serves(sites[i], n)
    ensures var (after, q) := Resized(sites, at, i, p, n);
            q == Realloc(sites[i].heap, p, n).1 && q != NULL
            && forall j {:trigger sites[j]} :: 0 <= j < |sites| && j != i ==> after[j] == sites[j]
  {
    assert HoldsAt(c, sites[i]);
    ReallocExactly(sites[i].heap, p, n);
    AllocFailsExactly(sites[i].heap, n);
  }
}
