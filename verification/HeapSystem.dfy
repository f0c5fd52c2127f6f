/** rt_malloc, rt_free and rt_realloc over several heaps that share one memory, as functions of all heaps. */
module HeapSites {
  import opened HeapModel
  import opened HeapTheorems
  import opened HeapRuns
  import opened Rings
  import opened MemHeaps

  datatype Site = Site(heap: Heap, header: int)

  /** Two heaps share no byte, no header and no sentinel. */
  ghost predicate Apart(g: Heap, gHeader: int, h: Heap, hHeader: int) {
    && (g.start + g.pool <= h.start || h.start + h.pool <= g.start)
    && Outside(g, gHeader, hHeader) && Outside(h, hHeader, gHeader)
  }

  ghost predicate HoldsAt(c: Cells, s: Site) { s.header != NULL && Holds(c, s.header, s.heap) }

  ghost predicate ApartSites(s: Site, t: Site) { Apart(s.heap, s.header, t.heap, t.header) }

  /** All heaps are spelled out in the one memory, each in its own place. */
  ghost predicate AllHold(c: Cells, sites: seq<Site>) {
    && (forall i {:trigger sites[i]} :: 0 <= i < |sites| ==> HoldsAt(c, sites[i]))
    && (forall i, j {:trigger sites[i], sites[j]} :: 0 <= i < |sites| && 0 <= j < |sites| && i != j ==>
          ApartSites(sites[i], sites[j]))
  }

  lemma {:induction false} StillApart(c: Cells, sites: seq<Site>, i: nat, g: Heap, j: nat, k: nat)
    requires AllHold(c, sites) && i < |sites| && j < |sites| && k < |sites| && j != k
    requires g.start == sites[i].heap.start && g.pool == sites[i].heap.pool
    ensures var after := sites[i := Site(g, sites[i].header)]; ApartSites(after[j], after[k])
  {
    assert ApartSites(sites[j], sites[k]);
  }

  lemma {:induction false} StillHolds(c: Cells, d: Cells, sites: seq<Site>, i: nat, g: Heap, j: nat)
    requires AllHold(c, sites) && i < |sites| && Holds(d, sites[i].header, g) && j < |sites|
    requires g.start == sites[i].heap.start && g.pool == sites[i].heap.pool && SameOutside(c, d, sites[i].header, g)
    ensures HoldsAt(d, sites[i := Site(g, sites[i].header)][j])
  {
    assert HoldsAt(c, sites[j]) && HoldsAt(c, sites[i]);
    if j != i {
      assert ApartSites(sites[i], sites[j]);
      OtherHolds(c, d, g, sites[i].header, sites[j].heap, sites[j].header);
    }
  }

  /** One heap changes within its own place: all heaps still hold. */
  lemma {:induction false} AllHoldAfter(c: Cells, d: Cells, sites: seq<Site>, i: nat, g: Heap)
    requires AllHold(c, sites) && i < |sites| && Holds(d, sites[i].header, g)
    requires g.start == sites[i].heap.start && g.pool == sites[i].heap.pool && SameOutside(c, d, sites[i].header, g)
    ensures AllHold(d, sites[i := Site(g, sites[i].header)])
  {
    var after := sites[i := Site(g, sites[i].header)];
    forall j | 0 <= j < |after| ensures HoldsAt(d, after[j]) { StillHolds(c, d, sites, i, g, j); }
    forall j, k | 0 <= j < |after| && 0 <= k < |after| && j != k ensures ApartSites(after[j], after[k]) {
      StillApart(c, sites, i, g, j, k);
    }
  }

  /** What one heap does leaves every other heap's representation alone. */
  lemma {:induction false} OtherHolds(c: Cells, d: Cells, g: Heap, gHeader: int, h: Heap, hHeader: int)
    requires SameOutside(c, d, gHeader, g) && Holds(c, hHeader, h) && Apart(g, gHeader, h, hHeader)
    ensures Holds(d, hHeader, h)
  {
    BlockAddrsDistinct(h);
    FreeRingDistinct(h, hHeader);
    var s, f := Addrs(h.blocks), [hHeader] + h.free;
    forall a | a in s ensures Outside(g, gHeader, a) && SameAt(c, d, a) && a in c.next && a in c.prev {
      var i :| 0 <= i < |s| && s[i] == a;
      RingAt(c.next, c.prev, s, i);
      OutsideOther(g, gHeader, h, hHeader, a);
    }
    RingFrame(c.next, c.prev, s, d.next, d.prev);
    forall a | a in f ensures SameAt(c, d, a) && a in c.nextFree && a in c.prevFree {
      var i :| 0 <= i < |f| && f[i] == a;
      RingAt(c.nextFree, c.prevFree, f, i);
      if i > 0 { OutsideOther(g, gHeader, h, hHeader, a); }
    }
    RingFrame(c.nextFree, c.prevFree, f, d.nextFree, d.prevFree);
    forall i | 0 <= i < |h.blocks|
      ensures var a := h.blocks[i].addr;
              a in d.used && d.used[a] == h.blocks[i].used && a in d.owner && d.owner[a] == hHeader
    {
      AddrIn(h.blocks, i);
      assert h.blocks[i].addr in c.used && h.blocks[i].addr in c.owner;
    }
  }

  lemma {:induction false} OutsideOther(g: Heap, gHeader: int, h: Heap, hHeader: int, a: int)
    requires Apart(g, gHeader, h, hHeader) && h.start <= a < h.start + h.pool
    ensures Outside(g, gHeader, a)
  {
  }

  // ---------------------------------------------------------------- initialising

  /** What rt_memheap_init is given: the heap object's free-list header, and the pool. */
  datatype Pool = Pool(header: int, start: int, size: nat)

  /** The pool lies in the memory, has room for a heap, and its heap object lies outside it. */
  predicate Suitable(p: Pool, memory: int) {
    p.start > 0 && AlignDown(p.size) >= 2 * HEADER + MINIALLOC && p.start + AlignDown(p.size) <= memory
    && p.header != NULL && (p.header < p.start || p.start + AlignDown(p.size) <= p.header)
  }

  function Fresh(p: Pool): Site { Site(Init(p.start, p.size), p.header) }

  function FreshSites(pools: seq<Pool>): seq<Site> {
    seq(|pools|, i requires 0 <= i < |pools| => Fresh(pools[i]))
  }

  ghost predicate Separate(pools: seq<Pool>) {
    forall i, j :: 0 <= i < j < |pools| ==> ApartSites(Fresh(pools[i]), Fresh(pools[j]))
  }

  /** x is a byte of none of the pools. */
  predicate InNoPool(pools: seq<Pool>, x: int) {
    forall i {:trigger pools[i]} :: 0 <= i < |pools| ==>
      x < pools[i].start || pools[i].start + AlignDown(pools[i].size) <= x
  }

  ghost predicate OutsideKept(pools: seq<Pool>, was: seq<bv8>, now: seq<bv8>) {
    |now| == |was| && forall x {:trigger now[x]} :: 0 <= x < |now| && InNoPool(pools, x) ==> now[x] == was[x]
  }

  /** One more heap in a place of its own: all hold. */
  lemma {:induction false} AllHoldMore(c: Cells, d: Cells, sites: seq<Site>, s: Site)
    requires AllHold(c, sites) && HoldsAt(d, s) && SameOutside(c, d, s.header, s.heap)
    requires forall i {:trigger sites[i]} :: 0 <= i < |sites| ==> ApartSites(sites[i], s)
    ensures AllHold(d, sites + [s])
  {
    var after := sites + [s];
    forall i | 0 <= i < |after| ensures HoldsAt(d, after[i]) {
      if i < |sites| {
        assert after[i] == sites[i] && HoldsAt(c, sites[i]) && ApartSites(sites[i], s);
        OtherHolds(c, d, s.heap, s.header, sites[i].heap, sites[i].header);
      }
    }
    forall i, j | 0 <= i < |after| && 0 <= j < |after| && i != j ensures ApartSites(after[i], after[j]) {
      if i < |sites| { assert after[i] == sites[i]; }
      if j < |sites| { assert after[j] == sites[j]; }
    }
  }

  // ---------------------------------------------------------------- the calls as functions of all heaps

  function With(sites: seq<Site>, i: nat, g: Heap): seq<Site>
    requires i < |sites|
  {
    sites[i := Site(g, sites[i].header)]
  }

  /** Try the heaps from position i on, in list order, passing over the system heap. */
  function MallocOthers(sites: seq<Site>, at: nat, i: nat, n: nat): (r: (seq<Site>, int))
    requires i <= |sites|
    ensures |r.0| == |sites|
    decreases |sites| - i
  {
    if i == |sites| then (sites, NULL)
    else if i == at || Alloc(sites[i].heap, n).1 == NULL then MallocOthers(sites, at, i + 1, n)
    else (With(sites, i, Alloc(sites[i].heap, n).0), Alloc(sites[i].heap, n).1)
  }

  /** rt_malloc: the system heap first, then the others. */
  function Malloc(sites: seq<Site>, at: nat, n: nat): (r: (seq<Site>, int))
    requires at < |sites|
    ensures |r.0| == |sites|
  {
    if Alloc(sites[at].heap, n).1 != NULL then (With(sites, at, Alloc(sites[at].heap, n).0), Alloc(sites[at].heap, n).1)
    else MallocOthers(sites, at, 0, n)
  }

  /** Exchange payload p of heap i for one from any heap. */
  function Elsewhere(sites: seq<Site>, at: nat, i: nat, p: int, n: nat): (seq<Site>, int)
    requires at < |sites| && i < |sites|
  {
    var (after, r) := Malloc(sites, at, n);
    if r == NULL || !Live(after[i].heap, p) then (after, r)
    else (With(after, i, Free(after[i].heap, p)), r)
  }

  /** rt_realloc of a payload that heap i handed out. */
  function Resized(sites: seq<Site>, at: nat, i: nat, p: int, n: nat): (seq<Site>, int)
    requires at < |sites| && i < |sites| && Live(sites[i].heap, p)
  {
    if n == 0 then (With(sites, i, Free(sites[i].heap, p)), NULL)
    else
      var (g, q) := Realloc(sites[i].heap, p, n);
      if q != NULL then (With(sites, i, g), q) else Elsewhere(sites, at, i, p, n)
  }

  // ---------------------------------------------------------------- what they promise

  /** A byte no caller may see changed: live in its heap, or outside every pool. */
  ghost predicate KeptByAll(sites: seq<Site>, x: int) {
    forall i {:trigger sites[i]} :: 0 <= i < |sites| ==> Kept(sites[i].heap, x)
  }

  ghost predicate Serves(s: Site, n: nat) { Request(n) < s.heap.available && Fits(s.heap, Request(n)) }

  ghost predicate AllKeepBytes(sites: seq<Site>, was: seq<bv8>, now: seq<bv8>, lo: int, hi: int) {
    |now| == |was|
        && forall x {:trigger now[x]} :: 0 <= x < |now| && KeptByAll(sites, x) && (x < lo || hi <= x) ==>
             now[x] == was[x]
  }

  lemma {:induction false} MallocOthersFails(sites: seq<Site>, at: nat, i: nat, n: nat)
    requires i <= |sites|
    ensures MallocOthers(sites, at, i, n).1 == NULL
       <==> forall j {:trigger sites[j]} :: i <= j < |sites| && j != at ==> Alloc(sites[j].heap, n).1 == NULL
    ensures MallocOthers(sites, at, i, n).1 == NULL ==> MallocOthers(sites, at, i, n).0 == sites
    decreases |sites| - i
  {
    if i < |sites| {
      MallocOthersFails(sites, at, i + 1, n);
      assert Alloc(sites[i].heap, n).1 == NULL || Alloc(sites[i].heap, n).1 != NULL;
    }
  }

  /** An allocation fails exactly when no heap can serve it, and then nothing changes. */
  lemma {:induction false} MallocFailsExactly(c: Cells, sites: seq<Site>, at: nat, n: nat)
    requires AllHold(c, sites) && at < |sites|
    ensures Malloc(sites, at, n).1 == NULL
            <==> forall j {:trigger sites[j]} :: 0 <= j < |sites| ==> !Serves(sites[j], n)
    ensures Malloc(sites, at, n).1 == NULL ==> Malloc(sites, at, n).0 == sites
  {
    MallocOthersFails(sites, at, 0, n);
    forall j | 0 <= j < |sites| ensures Alloc(sites[j].heap, n).1 == NULL <==> !Serves(sites[j], n) {
      assert HoldsAt(c, sites[j]);
      AllocFailsExactly(sites[j].heap, n);
    }
  }

  lemma {:induction false} MallocOthersFrom(sites: seq<Site>, at: nat, i: nat, n: nat) returns (j: nat)
    requires i <= |sites| && MallocOthers(sites, at, i, n).1 != NULL
    ensures i <= j < |sites| && j != at
    ensures MallocOthers(sites, at, i, n) == (With(sites, j, Alloc(sites[j].heap, n).0), Alloc(sites[j].heap, n).1)
    decreases |sites| - i
  {
    if i == at || Alloc(sites[i].heap, n).1 == NULL { j := MallocOthersFrom(sites, at, i + 1, n); } else { j := i; }
  }

  /** A successful allocation comes from one heap's own allocator; every other heap is untouched. */
  lemma {:induction false} MallocFrom(sites: seq<Site>, at: nat, n: nat) returns (j: nat)
    requires at < |sites| && Malloc(sites, at, n).1 != NULL
    ensures j < |sites|
            && Malloc(sites, at, n) == (With(sites, j, Alloc(sites[j].heap, n).0), Alloc(sites[j].heap, n).1)
    ensures j == at <==> Alloc(sites[at].heap, n).1 != NULL
  {
    if Alloc(sites[at].heap, n).1 != NULL { j := at; } else { j := MallocOthersFrom(sites, at, 0, n); }
  }

  /** What moving payload p of heap i anywhere must produce, and what makes copying it safe. */
  ghost predicate ElsewhereResult(sites: seq<Site>, memory: int, at: nat, i: nat, p: int, n: nat, r: (seq<Site>, int)) {
    && at < |sites| && i < |sites| && Live(sites[i].heap, p)
    && var (after, q) := Malloc(sites, at, n);
    && (q == NULL ==> r == (after, NULL))
    && (q != NULL ==>
          && Live(after[i].heap, p) && SizeOf(after[i].heap, p) == SizeOf(sites[i].heap, p)
          && r == (With(after, i, Free(after[i].heap, p)), q)
          && 0 < p <= p + SizeOf(sites[i].heap, p) <= memory && 0 < q && q + n <= memory
          && (forall y {:trigger KeptByAll(sites, y)} :: KeptByAll(sites, y) ==> y < q || q + n <= y)
          && (forall y {:trigger KeptByAll(sites, y)} :: p <= y < p + SizeOf(sites[i].heap, p) ==> KeptByAll(sites, y)))
  }

  lemma {:induction false} LiveKeptByAll(c: Cells, sites: seq<Site>, i: nat, p: int, y: int)
    requires AllHold(c, sites) && i < |sites| && Live(sites[i].heap, p) && p <= y < p + SizeOf(sites[i].heap, p)
    ensures KeptByAll(sites, y)
  {
    assert HoldsAt(c, sites[i]);
    LiveBlock(sites[i].heap, p);
    OwnsPayload(sites[i].heap, p, y);
    forall k | 0 <= k < |sites| ensures Kept(sites[k].heap, y) {
      if k != i { assert ApartSites(sites[i], sites[k]); }
    }
  }

  lemma {:induction false} PayloadKept(c: Cells, sites: seq<Site>, i: nat, p: int)
    requires AllHold(c, sites) && i < |sites| && Live(sites[i].heap, p)
    ensures forall y {:trigger KeptByAll(sites, y)} :: p <= y < p + SizeOf(sites[i].heap, p) ==> KeptByAll(sites, y)
  {
    forall y | p <= y < p + SizeOf(sites[i].heap, p) ensures KeptByAll(sites, y) { LiveKeptByAll(c, sites, i, p, y); }
  }

  lemma {:induction false} FreshClearOfAll(c: Cells, sites: seq<Site>, at: nat, n: nat, y: int)
    requires AllHold(c, sites) && at < |sites| && Malloc(sites, at, n).1 != NULL && KeptByAll(sites, y)
    ensures var r := Malloc(sites, at, n).1; y < r || r + n <= y
  {
    var j := MallocFrom(sites, at, n);
    assert HoldsAt(c, sites[j]) && Kept(sites[j].heap, y);
    AllocTakes(sites[j].heap, n);
    RequestFacts(n);
    FreshClear(sites[j].heap, n, y);
  }

  ghost predicate InMemory(sites: seq<Site>, memory: int) {
    forall j {:trigger sites[j]} :: 0 <= j < |sites| ==> sites[j].heap.start + sites[j].heap.pool <= memory
  }

  lemma {:induction false} FreshInside(c: Cells, sites: seq<Site>, memory: int, at: nat, n: nat)
    requires AllHold(c, sites) && InMemory(sites, memory) && at < |sites| && Malloc(sites, at, n).1 != NULL
    ensures var q := Malloc(sites, at, n).1; 0 < q && q + n <= memory
  {
    var j := MallocFrom(sites, at, n);
    assert HoldsAt(c, sites[j]);
    LiveAfter(sites[j].heap, n);
    RequestFacts(n);
  }

  lemma {:induction false} CopyKeeps(sites: seq<Site>, mid: seq<bv8>, now: seq<bv8>, to: int, n: int)
    requires SameExcept(mid, now, to, to + n)
    requires forall y {:trigger KeptByAll(sites, y)} :: KeptByAll(sites, y) ==> y < to || to + n <= y
    ensures AllKeepBytes(sites, mid, now, 0, 0)
  {
  }

  /** Keeping bytes, then keeping bytes and copying: the copy is of the original bytes. */
  lemma {:induction false} CopiedChain(sites: seq<Site>, was: seq<bv8>, mid: seq<bv8>, now: seq<bv8>, from: int,
      to: int, n: int, lo: int, hi: int)
    requires AllKeepBytes(sites, was, mid, 0, 0) && AllKeepBytes(sites, mid, now, lo, hi)
    requires forall y {:trigger KeptByAll(sites, y)} :: from <= y < from + n ==> KeptByAll(sites, y)
    ensures AllKeepBytes(sites, was, now, lo, hi)
    ensures Copied(mid, now, from, to, n) ==> Copied(was, now, from, to, n)
  {
    forall x | 0 <= x < |now| && KeptByAll(sites, x) && (x < lo || hi <= x)
        ensures now[x] == was[x] { assert mid[x] == was[x]; }
    if Copied(mid, now, from, to, n) {
      forall y | from <= y < from + n ensures mid[y] == was[y] { assert KeptByAll(sites, y); }
      assert mid[from..from+n] == was[from..from+n];
    }
  }

  lemma {:induction false} CopiedLess(was: seq<bv8>, now: seq<bv8>, from: int, to: int, n: int, m: int)
    requires Copied(was, now, from, to, n) && 0 <= m <= n
    ensures Copied(was, now, from, to, m)
  {
    assert now[to..to+m] == now[to..to+n][..m];
    assert was[from..from+m] == was[from..from+n][..m];
  }

  lemma {:induction false} OneKeepsAll(sites: seq<Site>, i: nat, was: seq<bv8>, now: seq<bv8>, lo: int, hi: int)
    requires i < |sites| && KeepsBytes(sites[i].heap, was, now, lo, hi)
    ensures AllKeepBytes(sites, was, now, lo, hi)
  {
    forall x | 0 <= x < |now| && KeptByAll(sites, x) && (x < lo || hi <= x) ensures now[x] == was[x] {
      assert Kept(sites[i].heap, x);
    }
  }

  lemma {:induction false} OldStaysLiveIn(c: Cells, sites: seq<Site>, at: nat, i: nat, p: int, n: nat)
    requires AllHold(c, sites) && at < |sites| && i < |sites| && Live(sites[i].heap, p)
             && Malloc(sites, at, n).1 != NULL
    ensures var after := Malloc(sites, at, n).0;
            Live(after[i].heap, p) && SizeOf(after[i].heap, p) == SizeOf(sites[i].heap, p)
  {
    var j := MallocFrom(sites, at, n);
    assert HoldsAt(c, sites[i]);
    if j == i { OldStaysLive(sites[i].heap, p, n); }
  }

  /** The old payload is still live, and whole, after the new one has been allocated; the new one is clear of it. */
  lemma {:induction false} ElsewhereSafe(c: Cells, sites: seq<Site>, memory: int, at: nat, i: nat, p: int, n: nat)
    requires AllHold(c, sites) && InMemory(sites, memory) && at < |sites| && i < |sites| && Live(sites[i].heap, p)
    ensures ElsewhereResult(sites, memory, at, i, p, n, Elsewhere(sites, at, i, p, n))
  {
    if Malloc(sites, at, n).1 != NULL {
      OldStaysLiveIn(c, sites, at, i, p, n);
      FreshInside(c, sites, memory, at, n);
      assert HoldsAt(c, sites[i]);
      LiveBlock(sites[i].heap, p);
      forall y | KeptByAll(sites, y)
          ensures var q := Malloc(sites, at, n).1; y < q || q + n <= y { FreshClearOfAll(c, sites, at, n, y); }
      forall y | p <= y < p + SizeOf(sites[i].heap, p) ensures KeptByAll(sites, y) { LiveKeptByAll(c, sites, i, p, y); }
    }
  }

  /** Live payloads never overlap, whichever heaps they come from. */
  lemma {:induction false} LiveDisjointEverywhere(c: Cells, sites: seq<Site>, i: nat, j: nat, p: int, q: int)
    requires AllHold(c, sites) && i < |sites| && j < |sites|
    requires Live(sites[i].heap, p) && Live(sites[j].heap, q) && (i, p) != (j, q)
    ensures p + SizeOf(sites[i].heap, p) <= q || q + SizeOf(sites[j].heap, q) <= p
  {
    assert HoldsAt(c, sites[i]) && HoldsAt(c, sites[j]);
    LiveBlock(sites[i].heap, p);
    LiveBlock(sites[j].heap, q);
    if i == j {
      if p < q { LiveDisjoint(sites[i].heap, p, q); } else { LiveDisjoint(sites[i].heap, q, p); }
    } else {
      assert ApartSites(sites[i], sites[j]);
    }
  }

  lemma {:induction false} SizeField(c: Cells, sites: seq<Site>, i: nat, p: int)
    requires AllHold(c, sites) && i < |sites| && Live(sites[i].heap, p)
    ensures p - HEADER in c.next && c.next[p - HEADER] - (p - HEADER) - HEADER == SizeOf(sites[i].heap, p)
  {
    assert HoldsAt(c, sites[i]);
    LiveBlock(sites[i].heap, p);
    BlockFields(c, sites[i].header, sites[i].heap, IndexOf(sites[i].heap.blocks, p - HEADER));
  }

  /** The heap that handed p out is the one its header's pool_ptr names. */
  lemma {:induction false} OwnerUnique(c: Cells, sites: seq<Site>, i: nat, j: nat, p: int)
    requires AllHold(c, sites) && i < |sites| && j < |sites| && Live(sites[i].heap, p)
    ensures p - HEADER in c.owner && (c.owner[p - HEADER] == sites[j].header <==> i == j)
  {
    assert HoldsAt(c, sites[i]);
    LiveBlock(sites[i].heap, p);
    BlockFields(c, sites[i].header, sites[i].heap, IndexOf(sites[i].heap.blocks, p - HEADER));
    if i != j { assert ApartSites(sites[i], sites[j]); }
  }

  lemma {:induction false} FailedAlloc(c: Cells, sites: seq<Site>, i: nat, n: nat)
    requires AllHold(c, sites) && i < |sites|
    ensures Alloc(sites[i].heap, n).1 == NULL ==> With(sites, i, Alloc(sites[i].heap, n).0) == sites
  {
    assert HoldsAt(c, sites[i]);
    AllocFailsExactly(sites[i].heap, n);
  }

}

/** The kernel's allocation calls, walking the list of heap objects. */
module HeapSystems {
  import opened HeapModel
  import opened Seqs
  import opened HeapTheorems
  import opened HeapRuns
  import opened MemHeaps
  import opened HeapSites

  lemma {:induction false} FailedRealloc(c: Cells, sites: seq<Site>, i: nat, p: int, n: nat)
    requires AllHold(c, sites) && i < |sites| && Live(sites[i].heap, p) && n > 0
    ensures HeapModel.Realloc(sites[i].heap, p, n).1 == NULL
            ==> With(sites, i, HeapModel.Realloc(sites[i].heap, p, n).0) == sites
    ensures Request(n) >= n
  {
    assert HoldsAt(c, sites[i]);
    RequestFacts(n);
    if HeapModel.Realloc(sites[i].heap, p, n).1 == NULL { ReallocFails(sites[i].heap, p, n); }
  }

  ghost predicate AllSuitable(pools: seq<Pool>, memory: int) {
    (forall i {:trigger pools[i]} :: 0 <= i < |pools| ==> Suitable(pools[i], memory)) && Separate(pools)
  }

  /** rt_memheap_init for one more pool. */
  method InitNext(memory: Memory, pools: seq<Pool>, n: nat) returns (heap: MemHeap)
    requires AllSuitable(pools, |memory.bytes|) && n < |pools| && AllHold(memory.cells, FreshSites(pools[..n]))
    modifies memory
    ensures fresh(heap) && heap.mem == memory && heap.header == pools[n].header
    ensures heap.View() == Init(pools[n].start, pools[n].size)
    ensures AllHold(memory.cells, FreshSites(pools[..n + 1])) && OutsideKept(pools, old(memory.bytes), memory.bytes)
  {
    var p := pools[n];
    ghost var c, sites := memory.cells, FreshSites(pools[..n]);
    heap := new MemHeap(memory, p.header, p.start, p.size);
    forall i {:trigger sites[i]} | 0 <= i < |sites| ensures ApartSites(sites[i], Fresh(p)) {
      assert sites[i] == Fresh(pools[i]);
    }
    AllHoldMore(c, memory.cells, sites, Fresh(p));
    assert FreshSites(pools[..n + 1]) == sites + [Fresh(p)];
  }

  /** The heap objects are those of the first pools, freshly initialised. */
  ghost predicate Initialised(heaps: seq<MemHeap>, memory: Memory, pools: seq<Pool>)
    reads heaps
  {
    |heaps| <= |pools|
    && (forall i {:trigger heaps[i]} :: 0 <= i < |heaps| ==>
          heaps[i].mem == memory && heaps[i].header == pools[i].header
          && heaps[i].View() == Init(pools[i].start, pools[i].size))
    && (forall i, j :: 0 <= i < j < |heaps| ==> heaps[i] != heaps[j])
  }

  /** rt_memheap_init for each of several pools. */
  method InitHeaps(memory: Memory, pools: seq<Pool>) returns (heaps: seq<MemHeap>)
    requires AllSuitable(pools, |memory.bytes|)
    modifies memory
    ensures Initialised(heaps, memory, pools) && |heaps| == |pools| && AllHold(memory.cells, FreshSites(pools))
    ensures forall i {:trigger heaps[i]} :: 0 <= i < |heaps| ==> fresh(heaps[i])
    ensures OutsideKept(pools, old(memory.bytes), memory.bytes)
  {
    heaps := [];
    while |heaps| < |pools|
      invariant Initialised(heaps, memory, pools) && AllHold(memory.cells, FreshSites(pools[..|heaps|]))
      invariant forall i {:trigger heaps[i]} :: 0 <= i < |heaps| ==> fresh(heaps[i])
      invariant OutsideKept(pools, old(memory.bytes), memory.bytes)
      decreases |pools| - |heaps|
    {
      var heap := InitNext(memory, pools, |heaps|);
      heaps := heaps + [heap];
    }
    assert pools[..|heaps|] == pools;
  }

  class HeapSystem {
    const mem: Memory
    const objects: seq<MemHeap>    // the registered memheap objects, in list order
    const systemAt: nat            // where _heap stands in that list

    /** A memory with one or more heaps in disjoint pools, one of them the system heap. */
    constructor (memory: Memory, pools: seq<Pool>, at: nat)
      requires AllSuitable(pools, |memory.bytes|) && at < |pools|
      modifies memory
      ensures Valid() && mem == memory && systemAt == at && Sites() == FreshSites(pools)
      ensures forall i {:trigger objects[i]} :: 0 <= i < |objects| ==> fresh(objects[i])
      ensures OutsideKept(pools, old(memory.bytes), memory.bytes)
    {
      var heaps := InitHeaps(memory, pools);
      mem, objects, systemAt := memory, heaps, at;
      new;
      assert Sites() == FreshSites(pools);
    }

    ghost function Sites(): (s: seq<Site>)
      reads objects
      ensures |s| == |objects| && forall i :: 0 <= i < |s| ==> s[i] == Site(objects[i].View(), objects[i].header)
    {
      seq(|objects|, i requires 0 <= i < |objects| reads objects => Site(objects[i].View(), objects[i].header))
    }

    ghost predicate Valid()
      reads this, mem, objects
    {
      && systemAt < |objects|
      && (forall i {:trigger objects[i]} :: 0 <= i < |objects| ==> objects[i].mem == mem)
      && (forall i, j :: 0 <= i < j < |objects| ==> objects[i] != objects[j])
      && AllHold(mem.cells, Sites())
      && (forall i {:trigger objects[i]} :: 0 <= i < |objects| ==>
            objects[i].start + objects[i].poolSize <= |mem.bytes|)
    }

    /** One heap object has changed within its own pool: the system is in order again. */
    twostate lemma {:induction false} Rejoins(i: nat)
      requires old(Valid()) && i < |objects|
      requires objects[i].Valid() && objects[i].mem == mem && |mem.bytes| == |old(mem.bytes)|
      requires objects[i].start == old(objects[i].start) && objects[i].poolSize == old(objects[i].poolSize)
      requires forall j {:trigger objects[j]} :: 0 <= j < |objects| && j != i ==> unchanged(objects[j])
      requires SameOutside(old(mem.cells), mem.cells, objects[i].header, objects[i].View())
      ensures Valid() && Sites() == With(old(Sites()), i, objects[i].View())
    {
      assert Sites() == With(old(Sites()), i, objects[i].View());
      AllHoldAfter(old(mem.cells), mem.cells, old(Sites()), i, objects[i].View());
    }

    method AllocFrom(i: nat, n: nat) returns (ptr: int)
      requires Valid() && i < |objects|
      modifies mem, objects
      ensures Valid()
              && Sites() == old(Sites())[i := Site(HeapModel.Alloc(old(objects[i].View()), n).0, objects[i].header)]
      ensures ptr == HeapModel.Alloc(old(objects[i].View()), n).1
      ensures KeepsBytes(old(objects[i].View()), old(mem.bytes), mem.bytes, 0, 0)
    {
      assert HoldsAt(mem.cells, Sites()[i]);
      ApplyPool(objects[i].View(), CallAlloc(n));
      ptr := objects[i].Alloc(n);
      Rejoins(i);
    }

    /** rt_malloc. */
    method Malloc(n: nat) returns (ptr: int)
      requires Valid()
      modifies mem, objects
      ensures Valid() && (Sites(), ptr) == HeapSites.Malloc(old(Sites()), systemAt, n)
      ensures AllKeepBytes(old(Sites()), old(mem.bytes), mem.bytes, 0, 0)
    {
      FailedAlloc(mem.cells, Sites(), systemAt, n);
      ptr := AllocFrom(systemAt, n);
      if ptr == NULL {
        ptr := MallocRest(n);
      }
    }

    /** The walk over the other heaps. */
    method MallocRest(n: nat) returns (ptr: int)
      requires Valid()
      modifies mem, objects
      ensures Valid() && (Sites(), ptr) == MallocOthers(old(Sites()), systemAt, 0, n)
      ensures AllKeepBytes(old(Sites()), old(mem.bytes), mem.bytes, 0, 0)
    {
      ghost var sites, was := Sites(), mem.bytes;
      ghost var goal := MallocOthers(sites, systemAt, 0, n);
      ptr := NULL;
      var i := 0;
      while i < |objects|
        invariant i <= |objects| && Valid() && ptr == NULL && Sites() == sites
        invariant goal == MallocOthers(sites, systemAt, i, n)
        invariant AllKeepBytes(sites, was, mem.bytes, 0, 0)
      {
        if i != systemAt {
          FailedAlloc(mem.cells, sites, i, n);
          ptr := AllocFrom(i, n);
          if ptr != NULL { return; }
        }
        i := i + 1;
      }
    }

    /** Follow a header's pool_ptr to the heap object it names. */
    method PoolOf(ptr: int, ghost at: nat) returns (i: nat)
      requires Valid() && at < |objects| && Live(objects[at].View(), ptr)
      ensures i == at
    {
      OwnerUnique(mem.cells, Sites(), at, at, ptr);
      var pool := mem.cells.owner[ptr - HEADER];
      i := 0;
      while objects[i].header != pool
        invariant i <= at
        decreases at - i
      {
        i := i + 1;
      }
      OwnerUnique(mem.cells, Sites(), at, i, ptr);
    }

    /** rt_free: the block goes back to the heap it came from. */
    method Free(ptr: int, ghost at: nat)
      requires Valid() && (ptr != NULL ==> at < |objects| && Live(objects[at].View(), ptr))
      modifies mem, objects
      ensures Valid() && mem.bytes == old(mem.bytes)
      ensures Sites() == if ptr == NULL then old(Sites())
              else With(old(Sites()), at, HeapModel.Free(old(objects[at].View()), ptr))
    {
      if ptr == NULL { return; }
      var i := PoolOf(ptr, at);
      FreeIn(i, ptr);
    }

    method FreeIn(i: nat, ptr: int)
      requires Valid() && i < |objects| && Live(objects[i].View(), ptr)
      modifies mem, objects
      ensures Valid() && mem.bytes == old(mem.bytes)
      ensures Sites() == With(old(Sites()), i, HeapModel.Free(old(objects[i].View()), ptr))
    {
      assert HoldsAt(mem.cells, Sites()[i]);
      ApplyPool(objects[i].View(), CallFree(ptr));
      objects[i].Free(ptr);
      Rejoins(i);
    }

    /** The owning heap resizes; every other heap still holds. */
    method ResizeIn(i: nat, ptr: int, n: nat) returns (q: int)
      requires Valid() && i < |objects| && Live(objects[i].View(), ptr) && n > 0
      modifies mem, objects
      ensures Valid() && q == HeapModel.Realloc(old(objects[i].View()), ptr, n).1
      ensures Sites() == With(old(Sites()), i, HeapModel.Realloc(old(objects[i].View()), ptr, n).0)
      ensures KeepsBytes(old(objects[i].View()), old(mem.bytes), mem.bytes, ptr,
                         if q == NULL then ptr else ptr + SizeOf(old(objects[i].View()), ptr))
      ensures q != NULL
              ==> Copied(old(mem.bytes), mem.bytes, ptr, q, Min(SizeOf(old(objects[i].View()), ptr), Request(n)))
    {
      assert HoldsAt(mem.cells, Sites()[i]);
      assert ptr != NULL by { LiveBlock(objects[i].View(), ptr); }
      ApplyPool(objects[i].View(), CallRealloc(ptr, n));
      q := objects[i].Realloc(ptr, n);
      Rejoins(i);
    }

    method ReallocIn(i: nat, ptr: int, n: nat) returns (q: int)
      requires Valid() && i < |objects| && Live(objects[i].View(), ptr) && n > 0
      modifies mem, objects
      ensures Valid() && q == HeapModel.Realloc(old(objects[i].View()), ptr, n).1
      ensures Sites() == With(old(Sites()), i, HeapModel.Realloc(old(objects[i].View()), ptr, n).0)
      ensures AllKeepBytes(old(Sites()), old(mem.bytes), mem.bytes, ptr,
                           if q == NULL then ptr else ptr + SizeOf(old(objects[i].View()), ptr))
      ensures q != NULL ==> Copied(old(mem.bytes), mem.bytes, ptr, q, Min(SizeOf(old(objects[i].View()), ptr), n))
    {
      ghost var sites, size := Sites(), SizeOf(objects[i].View(), ptr);
      q := ResizeIn(i, ptr, n);
      OneKeepsAll(sites, i, old(mem.bytes), mem.bytes, ptr, if q == NULL then ptr else ptr + size);
      RequestFacts(n);
      if q != NULL { CopiedLess(old(mem.bytes), mem.bytes, ptr, q, Min(size, Request(n)), Min(size, n)); }
    }

    /** rt_realloc. */
    method Realloc(ptr: int, n: nat, ghost at: nat) returns (q: int)
      requires Valid() && (ptr != NULL ==> at < |objects| && Live(objects[at].View(), ptr))
      modifies mem, objects
      ensures Valid()
      ensures (Sites(), q) == if ptr == NULL then HeapSites.Malloc(old(Sites()), systemAt, n)
                              else Resized(old(Sites()), systemAt, at, ptr, n)
      ensures AllKeepBytes(old(Sites()), old(mem.bytes), mem.bytes, ptr,
                           if ptr == NULL || q == NULL then ptr else ptr + SizeOf(old(objects[at].View()), ptr))
      ensures ptr != NULL && q != NULL ==>
                Copied(old(mem.bytes), mem.bytes, ptr, q, Min(SizeOf(old(objects[at].View()), ptr), n))
    {
      if ptr == NULL { q := Malloc(n); return; }
      if n == 0 { Free(ptr, at); return NULL; }
      q := ReallocLive(ptr, n, at);
    }

    method ReallocLive(ptr: int, n: nat, ghost at: nat) returns (q: int)
      requires Valid() && at < |objects| && Live(objects[at].View(), ptr) && n > 0
      modifies mem, objects
      ensures Valid() && (Sites(), q) == Resized(old(Sites()), systemAt, at, ptr, n)
      ensures AllKeepBytes(old(Sites()), old(mem.bytes), mem.bytes, ptr,
                           if q == NULL then ptr else ptr + SizeOf(old(objects[at].View()), ptr))
      ensures q != NULL ==> Copied(old(mem.bytes), mem.bytes, ptr, q, Min(SizeOf(old(objects[at].View()), ptr), n))
    {
      ghost var sites, c := Sites(), mem.cells;
      FailedRealloc(c, sites, at, ptr, n);
      var i := PoolOf(ptr, at);
      q := ReallocIn(i, ptr, n);
      if q == NULL {
        ghost var mid, size := mem.bytes, SizeOf(sites[i].heap, ptr);
        q := Relocate(i, ptr, n);
        PayloadKept(c, sites, i, ptr);
        CopiedChain(sites, old(mem.bytes), mid, mem.bytes, ptr, q, Min(size, n), ptr,
            if q == NULL then ptr else ptr + size);
      }
    }

    /** Allocate from any heap, copy and free. */
    method Relocate(i: nat, ptr: int, n: nat) returns (q: int)
      requires Valid() && i < |objects| && Live(objects[i].View(), ptr) && n > 0
      modifies mem, objects
      ensures Valid() && (Sites(), q) == Elsewhere(old(Sites()), systemAt, i, ptr, n)
      ensures AllKeepBytes(old(Sites()), old(mem.bytes), mem.bytes, ptr,
                           if q == NULL then ptr else ptr + SizeOf(old(objects[i].View()), ptr))
      ensures q != NULL ==> Copied(old(mem.bytes), mem.bytes, ptr, q, Min(SizeOf(old(objects[i].View()), ptr), n))
    {
      ElsewhereSafe(mem.cells, Sites(), |mem.bytes|, systemAt, i, ptr, n);
      q := ReallocElsewhere(i, ptr, n, Elsewhere(Sites(), systemAt, i, ptr, n));
    }

    method ReallocElsewhere(i: nat, ptr: int, n: nat, ghost r: (seq<Site>, int)) returns (q: int)
      requires Valid() && n > 0 && ElsewhereResult(Sites(), |mem.bytes|, systemAt, i, ptr, n, r)
      modifies mem, objects
      ensures Valid() && (Sites(), q) == r
      ensures AllKeepBytes(old(Sites()), old(mem.bytes), mem.bytes, ptr,
                           if q == NULL then ptr else ptr + SizeOf(old(objects[i].View()), ptr))
      ensures q != NULL ==> Copied(old(mem.bytes), mem.bytes, ptr, q, Min(SizeOf(old(objects[i].View()), ptr), n))
    {
      q := MallocCopy(i, ptr, n, r);
      if q != NULL { Free(ptr, i); }
    }

    method MallocCopy(i: nat, ptr: int, n: nat, ghost r: (seq<Site>, int)) returns (q: int)
      requires Valid() && n > 0 && ElsewhereResult(Sites(), |mem.bytes|, systemAt, i, ptr, n, r)
      modifies mem, objects
      ensures Valid() && (Sites(), q) == HeapSites.Malloc(old(Sites()), systemAt, n)
      ensures AllKeepBytes(old(Sites()), old(mem.bytes), mem.bytes, 0, 0)
      ensures q != NULL ==> Copied(old(mem.bytes), mem.bytes, ptr, q, Min(SizeOf(old(objects[i].View()), ptr), n))
    {
      ghost var sites := Sites();
      q := Malloc(n);
      ghost var mid, k := mem.bytes, Min(SizeOf(sites[i].heap, ptr), n);
      if q != NULL {
        CopyPayload(i, ptr, q, n, sites);
        CopiedChain(sites, old(mem.bytes), mid, mem.bytes, ptr, q, k, 0, 0);
      }
    }

    /** Copy as much of a payload as fits into n bytes elsewhere. */
    method CopyPayload(i: nat, ptr: int, q: int, n: nat, ghost kept: seq<Site>)
      requires Valid() && i < |objects| && Live(objects[i].View(), ptr)
      requires 0 < ptr <= ptr + SizeOf(objects[i].View(), ptr) <= |mem.bytes| && 0 < q && q + n <= |mem.bytes|
      requires forall y {:trigger KeptByAll(kept, y)} :: KeptByAll(kept, y) ==> y < q || q + n <= y
      modifies mem`bytes
      ensures Valid() && Sites() == old(Sites())
      ensures Copied(old(mem.bytes), mem.bytes, ptr, q, Min(SizeOf(objects[i].View(), ptr), n))
      ensures AllKeepBytes(kept, old(mem.bytes), mem.bytes, 0, 0)
    {
      SizeField(mem.cells, Sites(), i, ptr);
      var oldSize := mem.cells.next[ptr - HEADER] - (ptr - HEADER) - HEADER;
      objects[i].CopyBytes(q, ptr, if n > oldSize then oldSize else n);
      CopyKeeps(kept, old(mem.bytes), mem.bytes, q, n);
    }
  }
}
