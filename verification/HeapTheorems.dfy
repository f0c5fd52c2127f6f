/** What memheap.c promises, proved of the value model. */
module HeapTheorems {
  import opened HeapModel

  // ---------------------------------------------------------------- sums over block lists

  lemma {:induction false} SumsPrefix(a: seq<Block>, b: seq<Block>, n: nat)
    requires n <= |a|
    ensures FreeBytesTo(a + b, n) == FreeBytesTo(a, n)
    ensures UsedBytesTo(a + b, n) == UsedBytesTo(a, n)
    ensures FreeAddrsTo(a + b, n) == FreeAddrsTo(a, n)
  {
    if n > 0 { SumsPrefix(a, b, n - 1); }
  }

  lemma {:induction false} SumsSuffix(a: seq<Block>, b: seq<Block>, n: nat)
    requires n <= |b|
    ensures FreeBytesTo(a + b, |a| + n) == FreeBytes(a) + FreeBytesTo(b, n)
    ensures UsedBytesTo(a + b, |a| + n) == UsedBytes(a) + UsedBytesTo(b, n)
  {
    if n == 0 {
      SumsPrefix(a, b, |a|);
    } else {
      SumsSuffix(a, b, n - 1);
      assert (a + b)[|a| + n - 1] == b[n-1];
    }
  }

  lemma {:induction false} MultisetAssoc(a: multiset<int>, b: multiset<int>, c: multiset<int>)
    ensures a + b + c == a + (b + c)
  {
  }

  lemma {:induction false} AddrsSuffix(a: seq<Block>, b: seq<Block>, n: nat)
    requires n <= |b|
    ensures FreeAddrsTo(a + b, |a| + n) == FreeAddrs(a) + FreeAddrsTo(b, n)
  {
    if n == 0 {
      SumsPrefix(a, b, |a|);
    } else {
      AddrsSuffix(a, b, n - 1);
      assert (a + b)[|a| + n - 1] == b[n-1];
      MultisetAssoc(FreeAddrs(a), FreeAddrsTo(b, n - 1), if b[n-1].used then multiset{} else multiset{b[n-1].addr});
    }
  }

  lemma {:induction false} SumsAppend(a: seq<Block>, b: seq<Block>)
    ensures FreeBytes(a + b) == FreeBytes(a) + FreeBytes(b)
    ensures UsedBytes(a + b) == UsedBytes(a) + UsedBytes(b)
    ensures FreeAddrs(a + b) == FreeAddrs(a) + FreeAddrs(b)
  {
    SumsSuffix(a, b, |b|);
    AddrsSuffix(a, b, |b|);
  }

  /** Replacing bs[lo..hi] by mid changes every sum by the difference. */
  lemma {:induction false} SumsSplice(bs: seq<Block>, lo: nat, hi: nat, mid: seq<Block>)
    requires lo <= hi <= |bs|
    ensures var r := bs[..lo] + mid + bs[hi..];
            && FreeBytes(r) == FreeBytes(bs) - FreeBytes(bs[lo..hi]) + FreeBytes(mid)
            && UsedBytes(r) == UsedBytes(bs) - UsedBytes(bs[lo..hi]) + UsedBytes(mid)
            && FreeAddrs(r) == FreeAddrs(bs) - FreeAddrs(bs[lo..hi]) + FreeAddrs(mid)
            && FreeAddrs(bs[lo..hi]) <= FreeAddrs(bs)
  {
    assert bs == bs[..lo] + bs[lo..hi] + bs[hi..];
    SumsAppend(bs[..lo], bs[lo..hi]);
    SumsAppend(bs[..lo] + bs[lo..hi], bs[hi..]);
    SumsAppend(bs[..lo], mid);
    SumsAppend(bs[..lo] + mid, bs[hi..]);
  }

  lemma {:induction false} SumsOfOne(b: Block)
    ensures FreeBytes([b]) == if b.used then 0 else b.size
    ensures FreeAddrs([b]) == if b.used then multiset{} else multiset{b.addr}
  {
    assert FreeBytesTo([b], 1) == FreeBytesTo([b], 0) + if b.used then 0 else b.size;
    assert FreeAddrsTo([b], 1) == FreeAddrsTo([b], 0) + if b.used then multiset{} else multiset{b.addr};
  }

  lemma {:induction false} SumsOfTwo(b: Block, c: Block)
    ensures FreeBytes([b, c]) == FreeBytes([b]) + FreeBytes([c])
    ensures FreeAddrs([b, c]) == FreeAddrs([b]) + FreeAddrs([c])
  {
    SumsAppend([b], [c]);
    assert [b, c] == [b] + [c];
  }

  lemma {:induction false} ChainSplice(bs: seq<Block>, lo: nat, hi: nat, mid: seq<Block>)
    requires lo < hi < |bs| && Chain(bs) && Chain(mid) && |mid| > 0
    requires lo > 0 ==> Adjacent(bs[lo-1], mid[0])
    requires Adjacent(mid[|mid|-1], bs[hi])
    ensures Chain(bs[..lo] + mid + bs[hi..])
  {
    var r := bs[..lo] + mid + bs[hi..];
    forall i | 0 <= i < |r| - 1 ensures AdjacentAt(r, i) {
      if i + 1 < lo {
        assert AdjacentAt(bs, i) && r[i] == bs[i] && r[i+1] == bs[i+1];
      } else if i + 1 == lo {
        assert r[i] == bs[lo-1] && r[i+1] == mid[0];
      } else if i + 1 < lo + |mid| {
        assert AdjacentAt(mid, i - lo) && r[i] == mid[i-lo] && r[i+1] == mid[i+1-lo];
      } else if i + 1 == lo + |mid| {
        assert r[i] == mid[|mid|-1] && r[i+1] == bs[hi];
      } else {
        var j := i - lo - |mid| + hi;
        assert AdjacentAt(bs, j) && r[i] == bs[j] && r[i+1] == bs[j+1];
      }
    }
  }

  lemma {:induction false} ListedPrefix(s: seq<int>, t: seq<int>, n: nat)
    requires n <= |s|
    ensures ListedTo(s + t, n) == ListedTo(s, n)
  {
    if n > 0 { ListedPrefix(s, t, n - 1); }
  }

  lemma {:induction false} ListedSuffix(s: seq<int>, t: seq<int>, n: nat)
    requires n <= |t|
    ensures ListedTo(s + t, |s| + n) == Listed(s) + ListedTo(t, n)
  {
    if n == 0 {
      ListedPrefix(s, t, |s|);
    } else {
      ListedSuffix(s, t, n - 1);
      assert (s + t)[|s| + n - 1] == t[n-1];
      MultisetAssoc(Listed(s), ListedTo(t, n - 1), multiset{t[n-1]});
    }
  }

  lemma {:induction false} ListedAppend(s: seq<int>, t: seq<int>)
    ensures Listed(s + t) == Listed(s) + Listed(t)
  {
    ListedSuffix(s, t, |t|);
  }

  lemma {:induction false} ListedHasTo(s: seq<int>, n: nat, a: int)
    requires n <= |s|
    ensures a in ListedTo(s, n) <==> exists i :: 0 <= i < n && s[i] == a
  {
    if n > 0 { ListedHasTo(s, n - 1, a); }
  }

  lemma {:induction false} ListedHas(s: seq<int>, a: int)
    ensures a in Listed(s) <==> a in s
  {
    ListedHasTo(s, |s|, a);
  }

  lemma {:induction false} WithoutListed(s: seq<int>, a: int)
    ensures Listed(Without(s, a)) == Listed(s) - multiset{a}
  {
    var k := Position(s, a);
    if k < |s| {
      assert s == s[..k] + ([s[k]] + s[k+1..]);
      ListedAppend(s[..k], [s[k]] + s[k+1..]);
      ListedPush(s[k], s[k+1..]);
      ListedAppend(s[..k], s[k+1..]);
    } else {
      ListedHas(s, a);
    }
  }

  lemma {:induction false} ListedPush(a: int, s: seq<int>)
    ensures Listed([a] + s) == Listed(s) + multiset{a}
  {
    ListedAppend([a], s);
    assert ListedTo([a], 1) == ListedTo([a], 0) + multiset{a};
  }

  // ---------------------------------------------------------------- order and uniqueness of headers

  /** Later blocks start after earlier ones end. */
  lemma {:induction false} Ordered(bs: seq<Block>, i: nat, j: nat)
    requires Chain(bs) && i < j < |bs|
    ensures bs[i].addr + HEADER + bs[i].size <= bs[j].addr
    decreases j - i
  {
    assert AdjacentAt(bs, i);
    if i + 1 < j {
      assert AdjacentAt(bs, i+1);
      Ordered(bs, i + 1, j);
    }
  }

  lemma {:induction false} IndexUnique(bs: seq<Block>, k: nat)
    requires Chain(bs) && k < |bs|
    ensures IndexOf(bs, bs[k].addr) == k
  {
    var j := IndexOf(bs, bs[k].addr);
    if j < k {
      assert AdjacentAt(bs, j);
      Ordered(bs, j, k);
    }
  }

  lemma {:induction false} AddrsAligned(bs: seq<Block>, i: nat)
    requires Chain(bs) && i < |bs|
    ensures Aligned(bs[i].addr - bs[0].addr)
  {
    if i > 0 {
      AddrsAligned(bs, i - 1);
      assert AdjacentAt(bs, i-1);
    }
  }

  /** The free addresses are those of the unused blocks. */
  lemma {:induction false} FreeAddrsMember(bs: seq<Block>, n: nat, a: int)
    requires n <= |bs|
    ensures a in FreeAddrsTo(bs, n) <==> exists i :: 0 <= i < n && bs[i].addr == a && !bs[i].used
  {
    if n > 0 { FreeAddrsMember(bs, n - 1, a); }
  }

  lemma {:induction false} FreeAddrsOnce(bs: seq<Block>, n: nat, a: int)
    requires Chain(bs) && n <= |bs|
    ensures FreeAddrsTo(bs, n)[a] <= 1
  {
    if n > 0 {
      FreeAddrsOnce(bs, n - 1, a);
      FreeAddrsMember(bs, n - 1, a);
      forall i | 0 <= i < n - 1 ensures bs[i].addr != bs[n-1].addr {
        assert AdjacentAt(bs, i);
        Ordered(bs, i, n - 1);
      }
    }
  }

  /** A free-list entry heads an unused block, which is not the tail. */
  lemma {:induction false} FreeEntry(h: Heap, a: int)
    requires Inv(h) && a in h.free
    ensures var k := IndexOf(h.blocks, a); k + 1 < |h.blocks| && !h.blocks[k].used && h.blocks[k].addr == a
  {
    ListedHas(h.free, a);
    FreeAddrsMember(h.blocks, |h.blocks|, a);
    var i :| 0 <= i < |h.blocks| && h.blocks[i].addr == a && !h.blocks[i].used;
    IndexUnique(h.blocks, i);
  }

  lemma {:induction false} UnusedListed(h: Heap, k: nat)
    requires Inv(h) && k < |h.blocks| && !h.blocks[k].used
    ensures h.blocks[k].addr in h.free
  {
    FreeAddrsMember(h.blocks, |h.blocks|, h.blocks[k].addr);
    ListedHas(h.free, h.blocks[k].addr);
  }

  lemma {:induction false} FreeDistinct(h: Heap, i: nat, j: nat)
    requires Inv(h) && i < j < |h.free|
    ensures h.free[i] != h.free[j]
  {
    FreeAddrsOnce(h.blocks, |h.blocks|, h.free[i]);
    var s := h.free;
    assert s == s[..j] + s[j..];
    ListedAppend(s[..j], s[j..]);
    assert s[..j][i] in s[..j] && s[j..][0] in s[j..];
    ListedHas(s[..j], s[i]);
    ListedHas(s[j..], s[j]);
    assert s[i] == s[j] ==> Listed(s)[s[i]] >= 2;
  }

  // ---------------------------------------------------------------- every operation keeps the invariant

  lemma {:induction false} InitInv(start: int, size: nat)
    requires start > 0
    ensures Inv(Init(start, size)) <==> AlignDown(size) >= 2 * HEADER + MINIALLOC
  {
    var h := Init(start, size);
    SumsOfTwo(h.blocks[0], h.blocks[1]);
    SumsOfOne(h.blocks[0]);
    SumsOfOne(h.blocks[1]);
    assert h.blocks == [h.blocks[0], h.blocks[1]];
    assert AdjacentAt(h.blocks, 0) <==> h.available >= MINIALLOC;
    assert ListedTo(h.free, 1) == ListedTo(h.free, 0) + multiset{start};
  }

  /** The end of what block k may swallow. */
  function After(bs: seq<Block>, k: nat): nat { if NextFree(bs, k) then k + 2 else k + 1 }

  /** The right neighbour that Span leaves is used. */
  lemma {:induction false} SpanFacts(bs: seq<Block>, start: int, pool: int, k: nat)
    requires Tiles(bs, start, pool) && k + 1 < |bs|
    ensures After(bs, k) < |bs| && bs[After(bs, k)].used
    ensures bs[After(bs, k)].addr == bs[k].addr + HEADER + Span(bs, k)
    ensures Aligned(Span(bs, k)) && Span(bs, k) >= bs[k].size >= MINIALLOC && Aligned(bs[k].size)
    ensures NextFree(bs, k) ==> bs[k].used
  {
    assert AdjacentAt(bs, k);
    if NextFree(bs, k) {
      assert AdjacentAt(bs, k+1);
    }
  }

  /** The sums over block k and the free neighbour it may swallow. */
  lemma {:induction false} SliceSums(bs: seq<Block>, k: nat)
    requires k + 1 < |bs| && (NextFree(bs, k) ==> bs[k].used)
    ensures FreeBytes(bs[k..After(bs, k)])
         == if NextFree(bs, k) then bs[k+1].size else if bs[k].used then 0 else bs[k].size
    ensures FreeAddrs(bs[k..After(bs, k)])
         == if NextFree(bs, k) then multiset{bs[k+1].addr} else if bs[k].used then multiset{} else multiset{bs[k].addr}
  {
    SumsOfOne(bs[k]);
    if NextFree(bs, k) {
      assert bs[k..k+2] == [bs[k], bs[k+1]];
      SumsOfTwo(bs[k], bs[k+1]);
      SumsOfOne(bs[k+1]);
    } else {
      assert bs[k..k+1] == [bs[k]];
    }
  }

  function ShapedPair(bs: seq<Block>, k: nat, size: int): seq<Block>
    requires k < |bs|
  {
    [Block(bs[k].addr, size, true), Block(bs[k].addr + size + HEADER, Span(bs, k) - size - HEADER, false)]
  }

  lemma {:induction false} ShapedPairSums(bs: seq<Block>, k: nat, size: int)
    requires k < |bs|
    ensures FreeBytes(ShapedPair(bs, k, size)) == Span(bs, k) - size - HEADER
    ensures FreeAddrs(ShapedPair(bs, k, size)) == multiset{bs[k].addr + size + HEADER}
  {
    var mid := ShapedPair(bs, k, size);
    SumsOfTwo(mid[0], mid[1]);
    SumsOfOne(mid[0]);
    SumsOfOne(mid[1]);
  }

  lemma {:induction false} ReshapeTiles(bs: seq<Block>, start: int, pool: int, k: nat, size: int)
    requires Tiles(bs, start, pool) && k + 1 < |bs|
    requires size >= MINIALLOC && Aligned(size) && Span(bs, k) >= size + HEADER + MINIALLOC
    ensures Tiles(Reshape(bs, k, size), start, pool)
  {
    SpanFacts(bs, start, pool, k);
    var mid := ShapedPair(bs, k, size);
    assert AdjacentAt(mid, 0);
    if k > 0 { assert AdjacentAt(bs, k-1); }
    assert Adjacent(mid[1], bs[After(bs, k)]);
    ChainSplice(bs, k, After(bs, k), mid);
  }

  /** What the free blocks add up to after Reshape. */
  lemma {:induction false} ReshapeSums(bs: seq<Block>, k: nat, size: int)
    requires k + 1 < |bs| && (NextFree(bs, k) ==> bs[k].used)
    ensures FreeBytes(Reshape(bs, k, size))
            == FreeBytes(bs) - FreeBytes(bs[k..After(bs, k)]) + Span(bs, k) - size - HEADER
    ensures FreeAddrs(Reshape(bs, k, size))
         == FreeAddrs(bs) - FreeAddrs(bs[k..After(bs, k)]) + multiset{bs[k].addr + size + HEADER}
  {
    SumsSplice(bs, k, After(bs, k), ShapedPair(bs, k, size));
    ShapedPairSums(bs, k, size);
  }

  /** A used block's address is not on the free list. */
  lemma {:induction false} UsedUnlisted(h: Heap, k: nat)
    requires Inv(h) && k < |h.blocks| && h.blocks[k].used
    ensures h.blocks[k].addr !in h.free
  {
    IndexUnique(h.blocks, k);
    if h.blocks[k].addr in h.free {
      FreeEntry(h, h.blocks[k].addr);
    }
  }

  /** Taking the swallowed address off the free list leaves exactly the other free addresses. */
  lemma {:induction false} SwallowedFree(h: Heap, k: nat)
    requires Inv(h) && k + 1 < |h.blocks|
    ensures var bs := h.blocks;
            Listed(Without(h.free, Swallowed(bs, k))) == FreeAddrs(bs) - FreeAddrs(bs[k..After(bs, k)])
    ensures !NextFree(h.blocks, k) && h.blocks[k].used ==> FreeAddrs(h.blocks[k..After(h.blocks, k)]) == multiset{}
    ensures NextFree(h.blocks, k) ==> h.blocks[k].used
  {
    var bs := h.blocks;
    SpanFacts(bs, h.start, h.pool, k);
    SliceSums(bs, k);
    WithoutListed(h.free, Swallowed(bs, k));
    if bs[k].used {
      UsedUnlisted(h, k);
    }
  }

  lemma {:induction false} ReshapeFreeListed(h: Heap, k: nat, size: int)
    requires k < |h.blocks|
    ensures Listed(ReshapeFree(h, k, size))
            == Listed(Without(h.free, Swallowed(h.blocks, k))) + multiset{h.blocks[k].addr + size + HEADER}
  {
    ListedPush(h.blocks[k].addr + size + HEADER, Without(h.free, Swallowed(h.blocks, k)));
  }

  lemma {:induction false} ReshapedFree(h: Heap, k: nat, size: int)
    requires k + 1 < |h.blocks| && (NextFree(h.blocks, k) ==> h.blocks[k].used)
    requires Listed(Without(h.free, Swallowed(h.blocks, k)))
             == FreeAddrs(h.blocks) - FreeAddrs(h.blocks[k..After(h.blocks, k)])
    ensures Listed(ReshapeFree(h, k, size)) == FreeAddrs(Reshape(h.blocks, k, size))
  {
    ReshapeSums(h.blocks, k, size);
    ReshapeFreeListed(h, k, size);
  }

  lemma {:induction false} ReshapedInv(h: Heap, k: nat, size: int, available: int)
    requires Inv(h) && k + 1 < |h.blocks|
    requires size >= MINIALLOC && Aligned(size) && Span(h.blocks, k) >= size + HEADER + MINIALLOC
    requires available == h.available - FreeBytes(h.blocks[k..After(h.blocks, k)]) + Span(h.blocks, k) - size - HEADER
    ensures var h' := Reshaped(h, k, size, available); h.pool - available <= h'.maxUsed ==> Inv(h')
    ensures Inv(Charge(Reshaped(h, k, size, available)))
  {
    SpanFacts(h.blocks, h.start, h.pool, k);
    ReshapeTiles(h.blocks, h.start, h.pool, k, size);
    ReshapeSums(h.blocks, k, size);
    SwallowedFree(h, k);
    ReshapedFree(h, k, size);
  }

  lemma {:induction false} RequestFacts(n: nat)
    ensures Request(n) >= n && Request(n) >= MINIALLOC && Aligned(Request(n))
    ensures Request(Request(n)) == Request(n)
  {
  }

  /** Request rounds up to the least admissible payload. */
  lemma {:induction false} RequestIsLeast(n: nat, s: int)
    requires s >= n && s >= MINIALLOC && Aligned(s)
    ensures s >= Request(n)
  {
  }

  lemma {:induction false} MarkUsedTiles(bs: seq<Block>, start: int, pool: int, k: nat)
    requires Tiles(bs, start, pool) && k + 1 < |bs| && !bs[k].used
    ensures Tiles(bs[k := bs[k].(used := true)], start, pool)
  {
    var mid := [bs[k].(used := true)];
    assert bs[k := mid[0]] == bs[..k] + mid + bs[k+1..];
    if k > 0 { assert AdjacentAt(bs, k-1); }
    assert AdjacentAt(bs, k);
    ChainSplice(bs, k, k + 1, mid);
  }

  lemma {:induction false} MarkUsedSums(bs: seq<Block>, k: nat)
    requires k < |bs| && !bs[k].used
    ensures var r := bs[k := bs[k].(used := true)];
            FreeBytes(r) == FreeBytes(bs) - bs[k].size && FreeAddrs(r) == FreeAddrs(bs) - multiset{bs[k].addr}
  {
    var mid := [bs[k].(used := true)];
    assert bs[k := mid[0]] == bs[..k] + mid + bs[k+1..];
    SumsSplice(bs, k, k + 1, mid);
    assert bs[k..k+1] == [bs[k]];
    SumsOfOne(bs[k]);
    SumsOfOne(mid[0]);
  }

  lemma {:induction false} TakeInv(h: Heap, k: nat, size: int)
    requires Inv(h) && k + 1 < |h.blocks| && !h.blocks[k].used
    requires MINIALLOC <= size <= h.blocks[k].size && Aligned(size)
    ensures Inv(Take(h, k, size))
  {
    var bs := h.blocks;
    SpanFacts(bs, h.start, h.pool, k);
    if bs[k].size >= size + HEADER + MINIALLOC {
      SliceSums(bs, k);
      ReshapedInv(h, k, size, h.available - size - HEADER);
    } else {
      MarkUsedTiles(bs, h.start, h.pool, k);
      MarkUsedSums(bs, k);
      WithoutListed(h.free, bs[k].addr);
    }
  }

  /** FirstFit walks the list in order and stops at the first block that is large enough. */
  lemma {:induction false} FirstFitIsFirst(bs: seq<Block>, free: seq<int>, size: int)
    ensures var j := FirstFit(bs, free, size);
            && (j < |free| ==> IndexOf(bs, free[j]) < |bs| && bs[IndexOf(bs, free[j])].size >= size)
            && forall i :: 0 <= i < j ==> IndexOf(bs, free[i]) < |bs| ==> bs[IndexOf(bs, free[i])].size < size
  {
    if free != [] {
      FirstFitIsFirst(bs, free[1..], size);
      var j := FirstFit(bs, free, size);
      forall i | 0 <= i < j ensures IndexOf(bs, free[i]) < |bs| ==> bs[IndexOf(bs, free[i])].size < size {
        if i > 0 { assert free[i] == free[1..][i-1]; }
      }
    }
  }

  predicate Fits(h: Heap, size: int) {
    exists k :: 0 <= k < |h.blocks| && !h.blocks[k].used && h.blocks[k].size >= size
  }

  lemma {:induction false} FirstFitExact(h: Heap, size: int)
    requires Inv(h)
    ensures var j := FirstFit(h.blocks, h.free, size);
            && (j < |h.free| <==> Fits(h, size))
            && (j < |h.free| ==> var k := IndexOf(h.blocks, h.free[j]);
                 k + 1 < |h.blocks| && !h.blocks[k].used && h.blocks[k].addr == h.free[j] && h.blocks[k].size >= size)
  {
    FirstFitIsFirst(h.blocks, h.free, size);
    var j := FirstFit(h.blocks, h.free, size);
    if j < |h.free| {
      FreeEntry(h, h.free[j]);
    }
    forall k | 0 <= k < |h.blocks| && !h.blocks[k].used && h.blocks[k].size >= size ensures j < |h.free| {
      UnusedListed(h, k);
      IndexUnique(h.blocks, k);
      var p := Position(h.free, h.blocks[k].addr);
      assert h.free[p] == h.blocks[k].addr;
    }
  }

  /** An allocation fails exactly when the rounded size is not below the free total or no block holds it. */
  lemma {:induction false} AllocFailsExactly(h: Heap, n: nat)
    requires Inv(h)
    ensures Alloc(h, n).1 == NULL <==> Request(n) >= h.available || !Fits(h, Request(n))
    ensures Alloc(h, n).1 == NULL ==> Alloc(h, n).0 == h
  {
    FirstFitExact(h, Request(n));
    var j := FirstFit(h.blocks, h.free, Request(n));
    if j < |h.free| {
      var k := IndexOf(h.blocks, h.free[j]);
      if k > 0 { assert AdjacentAt(h.blocks, 0); Ordered(h.blocks, 0, k); }
    }
  }

  lemma {:induction false} AllocInv(h: Heap, n: nat)
    requires Inv(h)
    ensures Inv(Alloc(h, n).0)
  {
    RequestFacts(n);
    FirstFitExact(h, Request(n));
    var j := FirstFit(h.blocks, h.free, Request(n));
    if j < |h.free| {
      TakeInv(h, IndexOf(h.blocks, h.free[j]), Request(n));
    }
  }

  /** Putting one block in the place of a few keeps the tiling. */
  lemma {:induction false} JoinTiles(bs: seq<Block>, start: int, pool: int, lo: nat, hi: nat, m: Block)
    requires Tiles(bs, start, pool) && lo < hi < |bs| && m.addr == bs[lo].addr && !m.used
    requires lo > 0 ==> Adjacent(bs[lo-1], m)
    requires Adjacent(m, bs[hi])
    ensures Tiles(bs[..lo] + [m] + bs[hi..], start, pool)
  {
    ChainSplice(bs, lo, hi, [m]);
  }

  /** The blocks around block k, when the left one is free: it is large enough, aligned and follows a used one. */
  lemma {:induction false} LeftFacts(bs: seq<Block>, k: nat)
    requires Chain(bs) && k < |bs| && LeftFree(bs, k)
    ensures bs[k-1].addr + HEADER + bs[k-1].size == bs[k].addr && bs[k-1].size >= MINIALLOC && Aligned(bs[k-1].size)
    ensures k > 1 ==> Adjacent(bs[k-2], bs[k-1]) && bs[k-2].used
  {
    assert AdjacentAt(bs, k-1);
    if k > 1 { assert AdjacentAt(bs, k-2); }
  }

  lemma {:induction false} CoalesceTiles(bs: seq<Block>, start: int, pool: int, k: nat)
    requires Tiles(bs, start, pool) && k + 1 < |bs| && bs[k].used
    ensures Tiles(Coalesce(bs, k), start, pool)
  {
    if LeftFree(bs, k) { LeftTiles(bs, start, pool, k); } else { RightTiles(bs, start, pool, k); }
  }

  lemma {:induction false} LeftTiles(bs: seq<Block>, start: int, pool: int, k: nat)
    requires Tiles(bs, start, pool) && k + 1 < |bs| && bs[k].used && LeftFree(bs, k)
    ensures Tiles(Coalesce(bs, k), start, pool)
  {
    SpanFacts(bs, start, pool, k);
    LeftFacts(bs, k);
    JoinTiles(bs, start, pool, k - 1, After(bs, k), Block(bs[k-1].addr, bs[k-1].size + HEADER + Span(bs, k), false));
  }

  lemma {:induction false} RightTiles(bs: seq<Block>, start: int, pool: int, k: nat)
    requires Tiles(bs, start, pool) && k + 1 < |bs| && bs[k].used && !LeftFree(bs, k)
    ensures Tiles(Coalesce(bs, k), start, pool)
  {
    SpanFacts(bs, start, pool, k);
    if k > 0 { assert AdjacentAt(bs, k-1); }
    JoinTiles(bs, start, pool, k, After(bs, k), Block(bs[k].addr, Span(bs, k), false));
  }

  lemma {:induction false} LeftSliceSums(bs: seq<Block>, k: nat)
    requires 0 < k && k + 1 < |bs| && !bs[k-1].used && bs[k].used
    ensures FreeBytes(bs[k-1..After(bs, k)]) == bs[k-1].size + FreeBytes(bs[k..After(bs, k)])
    ensures FreeAddrs(bs[k-1..After(bs, k)]) == multiset{bs[k-1].addr} + FreeAddrs(bs[k..After(bs, k)])
  {
    assert bs[k-1..After(bs, k)] == [bs[k-1]] + bs[k..After(bs, k)];
    SumsAppend([bs[k-1]], bs[k..After(bs, k)]);
    SumsOfOne(bs[k-1]);
  }

  lemma {:induction false} CoalesceSums(bs: seq<Block>, k: nat)
    requires k + 1 < |bs| && bs[k].used
    ensures FreeBytes(Coalesce(bs, k)) == FreeBytes(bs) + bs[k].size
              + (if LeftFree(bs, k) then HEADER else 0) + (if NextFree(bs, k) then HEADER else 0)
    ensures FreeAddrs(Coalesce(bs, k)) == FreeAddrs(bs) - FreeAddrs(bs[k..After(bs, k)])
              + (if LeftFree(bs, k) then multiset{} else multiset{bs[k].addr})
  {
    var hi := After(bs, k);
    SliceSums(bs, k);
    if LeftFree(bs, k) {
      var mid := Block(bs[k-1].addr, bs[k-1].size + HEADER + Span(bs, k), false);
      SumsSplice(bs, k - 1, hi, [mid]);
      SumsOfOne(mid);
      LeftSliceSums(bs, k);
    } else {
      var mid := Block(bs[k].addr, Span(bs, k), false);
      SumsSplice(bs, k, hi, [mid]);
      SumsOfOne(mid);
    }
  }

  lemma {:induction false} LiveBlock(h: Heap, ptr: int)
    requires Inv(h) && Live(h, ptr)
    ensures var k := IndexOf(h.blocks, ptr - HEADER);
            k + 1 < |h.blocks| && h.blocks[k].used && h.blocks[k].addr == ptr - HEADER
    ensures h.start + HEADER <= ptr && ptr + SizeOf(h, ptr) <= h.start + h.pool - HEADER && Aligned(ptr - h.start)
    ensures SizeOf(h, ptr) >= MINIALLOC
  {
    var k := IndexOf(h.blocks, ptr - HEADER);
    assert AdjacentAt(h.blocks, k);
    AddrsAligned(h.blocks, k);
    if k > 0 { assert AdjacentAt(h.blocks, 0); Ordered(h.blocks, 0, k); }
    Ordered(h.blocks, k, |h.blocks| - 1);
  }

  lemma {:induction false} FreedListMatches(h: Heap, k: nat)
    requires Inv(h) && k + 1 < |h.blocks| && h.blocks[k].used
    ensures Listed(FreedList(h, k)) == FreeAddrs(Coalesce(h.blocks, k))
  {
    var bs := h.blocks;
    SwallowedFree(h, k);
    CoalesceSums(bs, k);
    ListedPush(bs[k].addr, if NextFree(bs, k) then Without(h.free, bs[k+1].addr) else h.free);
  }

  lemma {:induction false} ReleaseBytes(bs: seq<Block>, k: nat)
    requires k + 1 < |bs| && bs[k].used
    ensures FreeBytes(Coalesce(bs, k)) == FreeBytes(bs) + bs[k].size
              + (if LeftFree(bs, k) then HEADER else 0) + (if NextFree(bs, k) then HEADER else 0)
  {
    CoalesceSums(bs, k);
  }

  lemma {:induction false} ReleaseInv(h: Heap, k: nat)
    requires Inv(h) && k + 1 < |h.blocks| && h.blocks[k].used
    ensures Inv(Release(h, k))
  {
    SpanFacts(h.blocks, h.start, h.pool, k);
    CoalesceTiles(h.blocks, h.start, h.pool, k);
    ReleaseBytes(h.blocks, k);
    FreedListMatches(h, k);
  }

  lemma {:induction false} FreeInv(h: Heap, ptr: int)
    requires Inv(h) && (ptr == NULL || Live(h, ptr))
    ensures Inv(Free(h, ptr))
  {
    if ptr != NULL {
      LiveBlock(h, ptr);
      ReleaseInv(h, IndexOf(h.blocks, ptr - HEADER));
    }
  }
}
