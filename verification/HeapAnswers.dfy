/**
  What the heap's callers see: which pointer a request gets, how large the block is, and in which order it is reused.
 */
module HeapAnswers {
  import opened HeapModel
  import opened HeapTheorems
  import opened HeapRuns

  // ---------------------------------------------------------------- resizing

  /** The block right behind p's payload is unused, and both payloads together exceed size by more than the minimum. */
  ghost predicate RoomBehind(h: Heap, p: int, size: int)
    requires Live(h, p)
  {
    exists b :: b in h.blocks && !b.used && b.addr == p + SizeOf(h, p) && b.size + SizeOf(h, p) > size + MINIALLOC
  }

  lemma {:induction false} RoomIsNext(h: Heap, p: int, size: int)
    requires Inv(h) && Live(h, p)
    ensures RoomBehind(h, p, size) <==> GrowsInPlace(h.blocks, IndexOf(h.blocks, p - HEADER), size)
  {
    LiveBlock(h, p);
    var bs, k := h.blocks, IndexOf(h.blocks, p - HEADER);
    assert AdjacentAt(bs, k);
    assert bs[k + 1] in bs;
    forall b | b in bs && b.addr == p + SizeOf(h, p) ensures b == bs[k + 1] {
      var i :| 0 <= i < |bs| && bs[i] == b;
      IndexUnique(bs, i);
      IndexUnique(bs, k + 1);
    }
  }

  /**
    A resize answers with the same pointer if and only if the block is large enough or there is room behind it, and
    with none if and only if neither holds and no new block can be had.
   */
  lemma {:induction false} ReallocExactly(h: Heap, p: int, n: nat)
    requires Inv(h) && Live(h, p) && n > 0
    ensures var stays, q := Request(n) <= SizeOf(h, p) || RoomBehind(h, p, Request(n)), Realloc(h, p, n).1;
            (q == p <==> stays) && (q == NULL <==> !stays && Alloc(h, n).1 == NULL)
  {
    RoomIsNext(h, p, Request(n));
    RequestFacts(n);
    LiveBlock(h, p);
    if StaysPut(h, p, n) {
      InPlace(h, p, n);
    } else {
      MoveFails(h, p, n);
      if Alloc(h, Request(n)).1 != NULL { MoveIs(h, p, n); }
    }
  }

  /** A block that stays becomes as large as asked, unless what is left over would not make a block of its own. */
  lemma {:induction false} StayingSize(h: Heap, p: int, n: nat)
    requires Inv(h) && Live(h, p) && n > 0 && Realloc(h, p, n).1 == p
    ensures var h', old', size := Realloc(h, p, n).0, SizeOf(h, p), Request(n);
            Live(h', p) && SizeOf(h', p) == if size <= old' <= size + HEADER + MINIALLOC then old' else size
  {
    ReallocExactly(h, p, n);
    RoomIsNext(h, p, Request(n));
    RequestFacts(n);
    LiveBlock(h, p);
    var k, size := IndexOf(h.blocks, p - HEADER), Request(n);
    var (h', q) := Realloc(h, p, n);
    if !(size <= h.blocks[k].size <= size + HEADER + MINIALLOC) {
      SpanFacts(h.blocks, h.start, h.pool, k);
      ReshapeInPlace(h, p, size, h'.available);
      if size <= h.blocks[k].size { assert h' == Charge(h'); }
    }
  }

  /** A block that moves is fresh, and as large as one that is allocated. */
  lemma {:induction false} MovedSize(h: Heap, p: int, n: nat)
    requires Inv(h) && Live(h, p) && n > 0 && Realloc(h, p, n).1 !in {p, NULL}
    ensures var (h', q) := Realloc(h, p, n);
            !Live(h, q) && Live(h', q) && !Live(h', p)
            && Request(n) <= SizeOf(h', q) < Request(n) + HEADER + MINIALLOC
  {
    ReallocExactly(h, p, n);
    RoomIsNext(h, p, Request(n));
    RequestFacts(n);
    MoveIs(h, p, n);
    Moves(h, p, n);
    AllocTakes(h, Request(n));
    var (g, q) := Alloc(h, Request(n));
    FreeGives(g, p);
    AllocationsAre(g, q, SizeOf(Free(g, p), q));
    AllocationsAre(Free(g, p), q, SizeOf(Free(g, p), q));
  }

  /** Without a pointer a resize is an allocation, and to nothing it is a free. */
  lemma {:induction false} ReallocEnds(h: Heap, p: int, n: nat)
    requires p == NULL || Live(h, p)
    ensures n > 0 ==> Realloc(h, NULL, n) == Alloc(h, n)
    ensures Realloc(h, p, 0) == (Free(h, p), NULL)
  {
    RequestFacts(n);
  }

  // ---------------------------------------------------------------- which block is handed out

  lemma {:induction false} PositionIs(s: seq<int>, j: nat)
    requires j < |s| && forall i :: 0 <= i < j ==> s[i] != s[j]
    ensures Position(s, s[j]) == j
  {
    var k := Position(s, s[j]);
  }

  /** The block handed out is free and large enough, and every one listed before it is too small. */
  lemma {:induction false} AllocFirst(h: Heap, n: nat)
    requires Inv(h) && Alloc(h, n).1 != NULL
    ensures var p := Alloc(h, n).1; var j := Position(h.free, p - HEADER);
            j < |h.free| && (forall b :: b in h.blocks && b.addr == p - HEADER ==> b.size >= Request(n))
            && forall b :: b in h.blocks && b.addr in h.free[..j] ==> b.size < Request(n)
  {
    var k := AllocIs(h, n);
    var j := FirstFit(h.blocks, h.free, Request(n));
    FirstFitExact(h, Request(n));
    FirstFitIsFirst(h.blocks, h.free, Request(n));
    FreeEntry(h, h.free[j]);
    forall i | 0 <= i < j ensures h.free[i] != h.free[j] { FreeDistinct(h, i, j); }
    PositionIs(h.free, j);
    forall b | b in h.blocks ensures h.blocks[IndexOf(h.blocks, b.addr)] == b {
      var i :| 0 <= i < |h.blocks| && h.blocks[i] == b;
      IndexUnique(h.blocks, i);
    }
  }

  lemma {:induction false} HeadTaken(h: Heap, a: int, n: nat)
    requires Inv(h) && h.free != [] && h.free[0] == a && Request(n) < h.available
    requires exists b :: b in h.blocks && b.addr == a && b.size >= Request(n)
    ensures Alloc(h, n).1 == a + HEADER
  {
    var b :| b in h.blocks && b.addr == a && b.size >= Request(n);
    var i :| 0 <= i < |h.blocks| && h.blocks[i] == b;
    IndexUnique(h.blocks, i);
  }

  lemma {:induction false} WithoutHas(s: seq<int>, a: int)
    ensures forall b :: b in Without(s, a) ==> b in s
  {
    var k := Position(s, a);
  }

  /** Memory that is freed and does not join a free block before it is handed out before any other that fits. */
  lemma {:induction false} FreedFirst(h: Heap, p: int, n: nat)
    requires Inv(h) && Live(h, p) && Request(n) < Free(h, p).available
    requires exists b :: b in Free(h, p).blocks && !b.used && b.addr == p - HEADER && b.size >= Request(n)
    ensures Alloc(Free(h, p), n).1 == p
  {
    var r := Free(h, p);
    FreeInv(h, p);
    var b :| b in r.blocks && !b.used && b.addr == p - HEADER && b.size >= Request(n);
    var i :| 0 <= i < |r.blocks| && r.blocks[i] == b;
    UnusedListed(r, i);
    FreedIsHead(h, p);
    HeadTaken(r, p - HEADER, n);
  }

  lemma {:induction false} FreedIsHead(h: Heap, p: int)
    requires Inv(h) && Live(h, p) && p - HEADER in Free(h, p).free
    ensures Free(h, p).free[0] == p - HEADER
  {
    LiveBlock(h, p);
    var k := IndexOf(h.blocks, p - HEADER);
    UsedUnlisted(h, k);
    if NextFree(h.blocks, k) { WithoutHas(h.free, h.blocks[k + 1].addr); }
  }

  // ---------------------------------------------------------------- the free list is a stack

  /** a is b with some elements left out. */
  predicate Subsequence(a: seq<int>, b: seq<int>) {
    if a == [] then true
    else if b == [] then false
    else if a[0] == b[0] then Subsequence(a[1..], b[1..])
    else Subsequence(a, b[1..])
  }

  /** Entries may leave a list anywhere; those that come are put in front of all that were there. */
  ghost predicate Stacked(was: seq<int>, now: seq<int>) {
    exists n {:trigger now[n..]} ::
      0 <= n <= |now| && (forall i :: 0 <= i < n ==> now[i] !in was) && Subsequence(now[n..], was)
  }

  lemma {:induction false} Itself(s: seq<int>)
    ensures Subsequence(s, s)
  {
    if s != [] { Itself(s[1..]); }
  }

  lemma {:induction false} Fewer(s: seq<int>, a: int)
    ensures Subsequence(Without(s, a), s)
  {
    if s == [] {
    } else if s[0] == a {
      assert Without(s, a) == s[1..];
      Itself(s[1..]);
      Later(s[1..], s);
    } else {
      Fewer(s[1..], a);
      assert Without(s, a) == [s[0]] + Without(s[1..], a);
    }
  }

  lemma {:induction false} Later(a: seq<int>, b: seq<int>)
    requires b != [] && Subsequence(a, b[1..])
    ensures Subsequence(a, b)
  {
    if a != [] && a[0] == b[0] { Shorter(a, b[1..]); }
  }

  lemma {:induction false} Shorter(a: seq<int>, b: seq<int>)
    requires a != [] && Subsequence(a, b)
    ensures Subsequence(a[1..], b)
  {
    if a[0] == b[0] { Later(a[1..], b); } else { Shorter(a, b[1..]); if a[1..] != [] { Later(a[1..], b); } }
  }

  lemma {:induction false} Transitive(a: seq<int>, b: seq<int>, c: seq<int>)
    requires Subsequence(a, b) && Subsequence(b, c)
    ensures Subsequence(a, c)
    decreases |b| + |c|
  {
    if a != [] {
      if b[0] != c[0] {
        Transitive(a, b, c[1..]);
        Later(a, c);
      } else if a[0] == b[0] {
        Transitive(a[1..], b[1..], c[1..]);
      } else {
        Transitive(a, b[1..], c[1..]);
        Later(a, c);
      }
    }
  }

  lemma {:induction false} OneOn(a: seq<int>, h: int, t: seq<int>)
    requires a != [] && Subsequence(a, [h] + t)
    ensures if a[0] == h then Subsequence(a[1..], t) else Subsequence(a, t)
  {
    assert ([h] + t)[1..] == t;
  }

  lemma {:induction false} TakenOn(a: seq<int>, x: seq<int>, m: nat)
    requires a != [] && x != [] && a[0] == x[0] && m < |a| && forall i :: 0 <= i < m ==> a[1..][i] in x[1..]
    ensures a[m + 1..] == a[1..][m..] && forall i :: 0 <= i < m + 1 ==> a[i] in x
  {
    forall i | 0 <= i < m + 1 ensures a[i] in x {
      if i > 0 { assert a[i] == a[1..][i - 1] && a[i] in x[1..]; }
    }
  }

  /** A subsequence of two parts is one of each. */
  lemma {:induction false} Parts(a: seq<int>, x: seq<int>, y: seq<int>) returns (n: nat)
    requires Subsequence(a, x + y)
    ensures n <= |a| && Subsequence(a[n..], y) && forall i :: 0 <= i < n ==> a[i] in x
    decreases |x|
  {
    n := 0;
    assert a[0..] == a;
    if x == [] {
      assert x + y == y;
    } else if a != [] {
      assert x + y == [x[0]] + (x[1..] + y);
      OneOn(a, x[0], x[1..] + y);
      if a[0] == x[0] {
        var m := Parts(a[1..], x[1..], y);
        TakenOn(a, x, m);
        n := m + 1;
      } else {
        n := Parts(a, x[1..], y);
      }
    }
  }

  lemma {:induction false} Pushed(a: int, s: seq<int>, was: seq<int>)
    requires a !in was && Subsequence(s, was)
    ensures Stacked(was, [a] + s) && Stacked(was, s)
  {
    assert ([a] + s)[1..] == s && s[0..] == s;
  }

  lemma {:induction false} StackedOn(a: seq<int>, b: seq<int>, c: seq<int>)
    requires Stacked(a, b) && Stacked(b, c) && forall x :: x in c && x in a ==> x in b
    ensures Stacked(a, c)
  {
    var n :| 0 <= n <= |b| && (forall i :: 0 <= i < n ==> b[i] !in a) && Subsequence(b[n..], a);
    var m :| 0 <= m <= |c| && (forall i :: 0 <= i < m ==> c[i] !in b) && Subsequence(c[m..], b);
    assert b == b[..n] + b[n..];
    var k := Parts(c[m..], b[..n], b[n..]);
    assert c[m..][k..] == c[m + k..];
    Transitive(c[m + k..], b[n..], a);
    forall x | x in b[..n] ensures x !in a {
      var j :| 0 <= j < n && b[..n][j] == x;
      assert b[j] !in a;
    }
    var d := c[m..];
    forall i | 0 <= i < m + k ensures c[i] !in a {
      var x := c[i];
      assert x in c;
      if i < m { assert x !in b; } else { assert x == d[i - m] && x in b[..n]; }
    }
  }

  lemma {:induction false} NoBlockAt(h: Heap, k: nat, a: int)
    requires Inv(h) && k + 1 < |h.blocks| && h.blocks[k].addr < a < h.blocks[k + 1].addr + HEADER + h.blocks[k + 1].size
    requires a != h.blocks[k + 1].addr
    ensures a !in h.free
  {
    if a in h.free {
      FreeEntry(h, a);
      var i := IndexOf(h.blocks, a);
      assert AdjacentAt(h.blocks, i);
      if i < k { Ordered(h.blocks, i, k); }
      if k + 1 < i { Ordered(h.blocks, k + 1, i); }
    }
  }

  lemma {:induction false} ReshapeStacked(h: Heap, k: nat, size: int)
    requires Inv(h) && k + 1 < |h.blocks| && size >= MINIALLOC && Span(h.blocks, k) >= size + HEADER + MINIALLOC
    requires NextFree(h.blocks, k) ==> size + HEADER + h.blocks[k].addr != h.blocks[k + 1].addr
    ensures Stacked(h.free, ReshapeFree(h, k, size))
  {
    Fewer(h.free, Swallowed(h.blocks, k));
    assert AdjacentAt(h.blocks, k);
    if k + 2 < |h.blocks| { assert AdjacentAt(h.blocks, k + 1); }
    NoBlockAt(h, k, h.blocks[k].addr + size + HEADER);
    Pushed(h.blocks[k].addr + size + HEADER, Without(h.free, Swallowed(h.blocks, k)), h.free);
  }

  lemma {:induction false} TakeStacked(h: Heap, k: nat, size: int)
    requires Inv(h) && k + 1 < |h.blocks| && !h.blocks[k].used && MINIALLOC <= size <= h.blocks[k].size
    ensures Stacked(h.free, Take(h, k, size).free)
  {
    SpanFacts(h.blocks, h.start, h.pool, k);
    if h.blocks[k].size >= size + HEADER + MINIALLOC {
      ReshapeStacked(h, k, size);
    } else {
      Fewer(h.free, h.blocks[k].addr);
      Kept(h.free, Without(h.free, h.blocks[k].addr));
    }
  }

  lemma {:induction false} Kept(was: seq<int>, now: seq<int>)
    requires Subsequence(now, was)
    ensures Stacked(was, now)
  {
    assert now[0..] == now;
  }

  lemma {:induction false} AllocStacked(h: Heap, n: nat)
    requires Inv(h)
    ensures Stacked(h.free, Alloc(h, n).0.free)
  {
    RequestFacts(n);
    if Alloc(h, n).1 != NULL {
      var k := AllocIs(h, n);
      TakeStacked(h, k, Request(n));
    } else {
      AllocFailsExactly(h, n);
      Itself(h.free);
      Kept(h.free, h.free);
    }
  }

  lemma {:induction false} RestOf(h: Heap, k: nat)
    requires k < |h.blocks|
    ensures var rest := if NextFree(h.blocks, k) then Without(h.free, h.blocks[k + 1].addr) else h.free;
            Subsequence(rest, h.free) && forall a :: a in rest ==> a in h.free
  {
    if NextFree(h.blocks, k) {
      Fewer(h.free, h.blocks[k + 1].addr);
      WithoutHas(h.free, h.blocks[k + 1].addr);
    } else {
      Itself(h.free);
    }
  }

  lemma {:induction false} ReleaseStacked(h: Heap, k: nat)
    requires k < |h.blocks| && h.blocks[k].addr !in h.free
    ensures Stacked(h.free, FreedList(h, k))
    ensures forall a :: a in FreedList(h, k) ==> a in h.free || a == h.blocks[k].addr
  {
    RestOf(h, k);
    Pushed(h.blocks[k].addr, if NextFree(h.blocks, k) then Without(h.free, h.blocks[k + 1].addr) else h.free, h.free);
  }

  /** What is freed is put in front, unless it joins a free block before it; the right neighbour it joins leaves. */
  lemma {:induction false} FreeStacked(h: Heap, p: int)
    requires Inv(h) && (p == NULL || Live(h, p))
    ensures Stacked(h.free, Free(h, p).free)
    ensures p != NULL ==> forall a :: a in Free(h, p).free ==> a in h.free || a == p - HEADER
  {
    if p == NULL {
      Itself(h.free);
      Kept(h.free, h.free);
    } else {
      LiveBlock(h, p);
      UsedUnlisted(h, IndexOf(h.blocks, p - HEADER));
      ReleaseStacked(h, IndexOf(h.blocks, p - HEADER));
    }
  }

  lemma {:induction false} MoveStacked(h: Heap, p: int, n: nat)
    requires Inv(h) && Live(h, p) && n > 0 && !StaysPut(h, p, n)
    ensures Stacked(h.free, Realloc(h, p, n).0.free)
  {
    MoveFails(h, p, n);
    AllocStacked(h, Request(n));
    if Alloc(h, Request(n)).1 == NULL {
      AllocFailsExactly(h, Request(n));
    } else {
      MoveIs(h, p, n);
      var g := Alloc(h, Request(n)).0;
      FreeStacked(g, p);
      LiveBlock(h, p);
      UsedUnlisted(h, IndexOf(h.blocks, p - HEADER));
      StackedOn(h.free, g.free, Free(g, p).free);
    }
  }

  lemma {:induction false} StayStacked(h: Heap, p: int, n: nat)
    requires Inv(h) && Live(h, p) && n > 0 && StaysPut(h, p, n)
    ensures Stacked(h.free, Realloc(h, p, n).0.free)
  {
    RequestFacts(n);
    LiveBlock(h, p);
    var k, size := IndexOf(h.blocks, p - HEADER), Request(n);
    SpanFacts(h.blocks, h.start, h.pool, k);
    assert AdjacentAt(h.blocks, k);
    if size <= h.blocks[k].size <= size + HEADER + MINIALLOC {
      Itself(h.free);
      Kept(h.free, h.free);
    } else {
      ReshapeStacked(h, k, size);
    }
  }

  /** Over every call the free list is a stack that entries may leave from anywhere: what was freed last comes first. */
  lemma {:induction false} FreeListStacked(h: Heap, c: Call)
    requires Inv(h) && Admissible(h, c)
    ensures Stacked(h.free, Apply(h, c).free)
  {
    match c
    case CallAlloc(n) => AllocStacked(h, n);
    case CallFree(p) => FreeStacked(h, p);
    case CallRealloc(q, m) =>
      if m == 0 { FreeStacked(h, q); }
      else if q == NULL { AllocStacked(h, Request(m)); }
      else if StaysPut(h, q, m) { StayStacked(h, q, m); }
      else { MoveStacked(h, q, m); }
  }

  // ---------------------------------------------------------------- the high-water mark

  /** The bytes of the pool that are not free payload. */
  function Use(h: Heap): int { h.pool - h.available }

  function Greater(a: int, b: int): int { if a < b then b else a }

  /** The most that is in use while a call runs: a move holds the new block before it gives the old one back. */
  function Peak(h: Heap, c: Call): int
    requires Admissible(h, c)
  {
    if c.CallRealloc? && c.m > 0 && c.q != NULL && Realloc(h, c.q, c.m).1 !in {c.q, NULL} then Use(Alloc(h, c.m).0)
    else Use(Apply(h, c))
  }

  lemma {:induction false} TakeMark(h: Heap, n: nat)
    requires Inv(h)
    ensures Alloc(h, n).0.maxUsed == Greater(h.maxUsed, Use(Alloc(h, n).0))
  {
    if Alloc(h, n).1 == NULL { AllocFailsExactly(h, n); } else { var k := AllocIs(h, n); }
  }

  lemma {:induction false} FreeMark(h: Heap, p: int)
    requires Inv(h) && (p == NULL || Live(h, p))
    ensures Free(h, p).maxUsed == Greater(h.maxUsed, Use(Free(h, p))) && Free(h, p).maxUsed == h.maxUsed
  {
    if p != NULL { LiveBlock(h, p); }
  }

  lemma {:induction false} ReallocMark(h: Heap, p: int, n: nat)
    requires Inv(h) && Live(h, p) && n > 0 && p != NULL
    ensures Realloc(h, p, n).0.maxUsed == Greater(h.maxUsed, Peak(h, CallRealloc(p, n)))
  {
    ReallocExactly(h, p, n);
    RoomIsNext(h, p, Request(n));
    RequestFacts(n);
    LiveBlock(h, p);
    if StaysPut(h, p, n) {
      StayMark(h, p, n);
    } else {
      MoveFails(h, p, n);
      TakeMark(h, Request(n));
      if Alloc(h, Request(n)).1 != NULL {
        MoveIs(h, p, n);
        FreeMark(Alloc(h, Request(n)).0, p);
      }
    }
  }

  lemma {:induction false} StayMark(h: Heap, p: int, n: nat)
    requires Inv(h) && Live(h, p) && n > 0 && StaysPut(h, p, n)
    ensures Realloc(h, p, n).0.maxUsed == Greater(h.maxUsed, Use(Realloc(h, p, n).0))
  {
    LiveBlock(h, p);
    SpanFacts(h.blocks, h.start, h.pool, IndexOf(h.blocks, p - HEADER));
  }

  /** The mark is the most that has been in use so far. */
  lemma {:induction false} MarkExactly(h: Heap, c: Call)
    requires Inv(h) && Admissible(h, c)
    ensures Apply(h, c).maxUsed == Greater(h.maxUsed, Peak(h, c))
  {
    match c
    case CallAlloc(n) => TakeMark(h, n);
    case CallFree(p) => FreeMark(h, p);
    case CallRealloc(q, m) =>
      if m == 0 { FreeMark(h, q); }
      else if q == NULL { TakeMark(h, Request(m)); }
      else { ReallocMark(h, q, m); }
  }

  /** m is the most in use at any time of the run. */
  ghost predicate IsPeak(h: Heap, calls: seq<Call>, m: int)
    decreases |calls|
  {
    if calls == [] then m == Use(h)
    else
      Admissible(h, calls[0])
      && exists k {:trigger IsPeak(Apply(h, calls[0]), calls[1..], k)} ::
           IsPeak(Apply(h, calls[0]), calls[1..], k) && m == Greater(Greater(Use(h), Peak(h, calls[0])), k)
  }

  lemma {:induction false} RunMark(h: Heap, calls: seq<Call>, h': Heap) returns (m: int)
    requires Inv(h) && RunTo(h, calls, h')
    ensures IsPeak(h, calls, m) && h'.maxUsed == Greater(h.maxUsed, m)
    decreases |calls|
  {
    m := Use(h);
    if calls != [] {
      var r := Apply(h, calls[0]);
      ApplyInv(h, calls[0]);
      MarkExactly(h, calls[0]);
      var k := RunMark(r, calls[1..], h');
      assert IsPeak(r, calls[1..], k);
      m := Greater(Greater(Use(h), Peak(h, calls[0])), k);
    }
  }

  /** From initialisation on max_used_size is exactly the most that has ever been in use at once. */
  lemma {:induction false} RunHighWater(start: int, size: nat, calls: seq<Call>, h: Heap)
    requires Inv(Init(start, size)) && RunTo(Init(start, size), calls, h)
    ensures IsPeak(Init(start, size), calls, h.maxUsed)
  {
    var m := RunMark(Init(start, size), calls, h);
    AtLeastStart(Init(start, size), calls, m);
  }

  lemma {:induction false} AtLeastStart(h: Heap, calls: seq<Call>, m: int)
    requires IsPeak(h, calls, m)
    ensures m >= Use(h)
  {
  }
}
