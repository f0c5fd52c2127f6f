/** Kernel lists and the threads waiting on an IPC object. */
module WaitLists {
  import opened Rings

  datatype Flag = Fifo | Prio

  type Priorities = map<int, int>

  ghost predicate Known(ws: seq<int>, prio: Priorities) {
    forall i {:trigger ws[i]} :: 0 <= i < |ws| ==> ws[i] in prio
  }

  /** The first waiter from i on that is less urgent than p; the lower number is the more urgent. */
  function Place(ws: seq<int>, i: nat, p: int, prio: Priorities): (k: nat)
    requires i <= |ws| && Known(ws, prio)
    ensures i <= k <= |ws|
    decreases |ws| - i
  {
    if i == |ws| || p < prio[ws[i]] then i else Place(ws, i + 1, p, prio)
  }

  function InsertAt(ws: seq<int>, k: nat, t: int): seq<int>
    requires k <= |ws|
  {
    ws[..k] + [t] + ws[k..]
  }

  /** The wait list after a thread joins it. */
  function Join(ws: seq<int>, t: int, prio: Priorities, flag: Flag): seq<int>
    requires Known(ws, prio) && t in prio
  {
    InsertAt(ws, if flag.Fifo? then |ws| else Place(ws, 0, prio[t], prio), t)
  }

  function Without(ws: seq<int>, k: nat): seq<int>
    requires k < |ws|
  {
    ws[..k] + ws[k + 1..]
  }

  /** The list without thread t: it was served, timed out or given up. */
  function Drop(ws: seq<int>, t: int): seq<int> {
    if ws == [] then [] else if ws[0] == t then ws[1..] else [ws[0]] + Drop(ws[1..], t)
  }

  lemma {:induction false} DropFacts(ws: seq<int>, t: int)
    requires Distinct(ws)
    ensures Distinct(Drop(ws, t)) && forall u :: u in Drop(ws, t) <==> u in ws && u != t
  {
    if ws != [] {
      assert ws == [ws[0]] + ws[1..];
      assert ws[0] !in ws[1..];
      if ws[0] != t { DropFacts(ws[1..], t); }
    }
  }

  lemma {:induction false} JoinFacts(ws: seq<int>, t: int, prio: Priorities, flag: Flag)
    requires Distinct(ws) && Known(ws, prio) && t in prio && t !in ws
    ensures var r := Join(ws, t, prio, flag);
            Distinct(r) && Known(r, prio) && forall u :: u in r <==> u in ws || u == t
  {
    var k := if flag.Fifo? then |ws| else Place(ws, 0, prio[t], prio);
    var r := Join(ws, t, prio, flag);
    forall i | 0 <= i < |r| ensures r[i] == if i == k then t else ws[if i < k then i else i - 1] {}
    forall u ensures u in r <==> u in ws || u == t {
      if u in ws {
        var i :| 0 <= i < |ws| && ws[i] == u;
        assert r[if i < k then i else i + 1] == u;
      }
      assert r[k] == t;
    }
  }

  lemma {:induction false} KnownIn(ws: seq<int>, us: seq<int>, prio: Priorities)
    requires Known(ws, prio) && forall u :: u in us ==> u in ws
    ensures Known(us, prio)
  {
    forall i | 0 <= i < |us| ensures us[i] in prio {
      var u := us[i];
      assert u in us;
      var j :| 0 <= j < |ws| && ws[j] == u;
    }
  }

  lemma {:induction false} FirstLeaves(ws: seq<int>)
    requires Distinct(ws) && ws != []
    ensures Distinct(ws[1..]) && ws[0] in ws && forall u :: u in ws[1..] <==> u in ws && u != ws[0]
  {
    assert ws == [ws[0]] + ws[1..] && ws[0] !in ws[1..];
  }

  lemma {:induction false} DropAt(ws: seq<int>, t: int) returns (k: nat)
    ensures k <= |ws| && Drop(ws, t) == if k < |ws| then Without(ws, k) else ws
    ensures if k < |ws| then ws[k] == t else t !in ws
  {
    if ws == [] || ws[0] == t {
      k := 0;
    } else {
      var rest := ws[1..];
      var i := DropAt(rest, t);
      k := i + 1;
      assert ws == [ws[0]] + rest;
      if i < |rest| { assert Without(ws, k) == [ws[0]] + Without(rest, i); }
    }
  }

  lemma {:induction false} InsertedDropped(ws: seq<int>, k: nat, t: int)
    requires k <= |ws| && t !in ws[..k]
    ensures Drop(InsertAt(ws, k, t), t) == ws
    decreases k
  {
    var r := InsertAt(ws, k, t);
    if k == 0 {
      assert r == [t] + ws && r[1..] == ws;
    } else {
      assert r[0] == ws[..k][0] == ws[0];
      assert r[1..] == InsertAt(ws[1..], k - 1, t);
      assert ws[1..][..k - 1] == ws[..k][1..];
      InsertedDropped(ws[1..], k - 1, t);
      assert ws == [ws[0]] + ws[1..];
    }
  }

  /** Who joins a list is in it, and without it the list is what it was. */
  lemma {:induction false} JoinDropped(ws: seq<int>, t: int, prio: Priorities, flag: Flag)
    requires Known(ws, prio) && t in prio && t !in ws
    ensures t in Join(ws, t, prio, flag) && Drop(Join(ws, t, prio, flag), t) == ws
  {
    var k := if flag.Fifo? then |ws| else Place(ws, 0, prio[t], prio);
    InsertedDropped(ws, k, t);
    assert Join(ws, t, prio, flag)[k] == t;
  }

  // ---------------------------------------------------------------- order

  type Stamps = map<int, nat>

  /** s is served before t: by urgency, then by arrival; on a FIFO object by arrival alone. */
  ghost predicate Before(s: int, t: int, prio: Priorities, at: Stamps, flag: Flag)
    requires s in prio && t in prio && s in at && t in at
  {
    if flag.Fifo? then at[s] < at[t] else prio[s] < prio[t] || (prio[s] == prio[t] && at[s] < at[t])
  }

  ghost predicate Stamped(ws: seq<int>, at: Stamps, now: nat) {
    forall i {:trigger ws[i]} :: 0 <= i < |ws| ==> ws[i] in at && at[ws[i]] < now
  }

  /** Everyone in the list is served in order of urgency and arrival. */
  ghost predicate Ordered(ws: seq<int>, prio: Priorities, at: Stamps, flag: Flag)
    requires Known(ws, prio)
  {
    (forall i {:trigger ws[i]} :: 0 <= i < |ws| ==> ws[i] in at)
    && forall i, j :: 0 <= i < j < |ws| ==> Before(ws[i], ws[j], prio, at, flag)
  }

  lemma {:induction false} PlaceSplits(ws: seq<int>, i: nat, p: int, prio: Priorities)
    requires i <= |ws| && Known(ws, prio)
    ensures var k := Place(ws, i, p, prio);
            (forall j :: i <= j < k ==> prio[ws[j]] <= p) && (k < |ws| ==> p < prio[ws[k]])
    decreases |ws| - i
  {
    if i < |ws| && p >= prio[ws[i]] { PlaceSplits(ws, i + 1, p, prio); }
  }

  /** t may stand at place k: everyone before it is served before it, everyone after it after it. */
  ghost predicate FitsAt(ws: seq<int>, k: nat, t: int, prio: Priorities, flag: Flag)
    requires Known(ws, prio) && t in prio
  {
    k <= |ws| && if flag.Fifo? then k == |ws| else
      (forall i {:trigger ws[i]} :: 0 <= i < k ==> prio[ws[i]] <= prio[t])
      && (forall i {:trigger ws[i]} :: k <= i < |ws| ==> prio[t] < prio[ws[i]])
  }

  /** Nobody stands before someone more urgent. */
  ghost predicate Sorted(ws: seq<int>, prio: Priorities)
    requires Known(ws, prio)
  {
    forall i, j :: 0 <= i < j < |ws| ==> prio[ws[i]] <= prio[ws[j]]
  }

  lemma {:induction false} OrderedSorted(ws: seq<int>, prio: Priorities, at: Stamps)
    requires Known(ws, prio) && Ordered(ws, prio, at, Prio)
    ensures Sorted(ws, prio)
  {
    forall i, j | 0 <= i < j < |ws| ensures prio[ws[i]] <= prio[ws[j]] {
      assert Before(ws[i], ws[j], prio, at, Prio);
    }
  }

  lemma {:induction false} JoinFits(ws: seq<int>, t: int, prio: Priorities, flag: Flag)
    requires Known(ws, prio) && t in prio && (flag.Prio? ==> Sorted(ws, prio))
    ensures FitsAt(ws, if flag.Fifo? then |ws| else Place(ws, 0, prio[t], prio), t, prio, flag)
  {
    PlaceSplits(ws, 0, prio[t], prio);
  }

  lemma {:induction false} JoinSorted(ws: seq<int>, t: int, prio: Priorities)
    requires Known(ws, prio) && t in prio && Sorted(ws, prio)
    ensures var r := Join(ws, t, prio, Prio); Known(r, prio) && Sorted(r, prio)
  {
    var k := Place(ws, 0, prio[t], prio);
    JoinFits(ws, t, prio, Prio);
    var r := Join(ws, t, prio, Prio);
    forall i | 0 <= i < |r| ensures r[i] == if i == k then t else ws[if i < k then i else i - 1] {}
  }

  /** A thread that joins last is served after its equals and before everyone less urgent. */
  lemma {:induction false} JoinOrdered(ws: seq<int>, t: int, prio: Priorities, at: Stamps, now: nat, flag: Flag)
    requires Known(ws, prio) && t in prio && t !in ws
    requires Ordered(ws, prio, at, flag) && Stamped(ws, at, now)
    ensures var r := Join(ws, t, prio, flag);
            Known(r, prio) && Ordered(r, prio, at[t := now], flag) && Stamped(r, at[t := now], now + 1)
  {
    var k := if flag.Fifo? then |ws| else Place(ws, 0, prio[t], prio);
    if flag.Prio? { OrderedSorted(ws, prio, at); }
    JoinFits(ws, t, prio, flag);
    InsertOrdered(ws, k, t, prio, at, now, flag);
  }

  lemma {:induction false} InsertOrdered(ws: seq<int>, k: nat, t: int, prio: Priorities, at: Stamps, now: nat,
      flag: Flag)
    requires Known(ws, prio) && t in prio && t !in ws && FitsAt(ws, k, t, prio, flag)
    requires Ordered(ws, prio, at, flag) && Stamped(ws, at, now)
    ensures var r := InsertAt(ws, k, t);
            Known(r, prio) && Ordered(r, prio, at[t := now], flag) && Stamped(r, at[t := now], now + 1)
  {
    var r, at' := InsertAt(ws, k, t), at[t := now];
    forall i | 0 <= i < |r| ensures r[i] in prio && r[i] in at' && at'[r[i]] < now + 1 {
      if i != k { assert r[i] == ws[if i < k then i else i - 1]; }
    }
    forall i, j | 0 <= i < j < |r| ensures Before(r[i], r[j], prio, at', flag) {
      var u, v := if i < k then i else i - 1, if j < k then j else j - 1;
      if i != k { assert r[i] == ws[u] && ws[u] != t; }
      if j != k { assert r[j] == ws[v] && ws[v] != t; }
      if i != k && j != k { assert Before(ws[u], ws[v], prio, at, flag); }
    }
  }

  /** Whoever leaves, served or timed out, the others keep their order. */
  lemma {:induction false} LeaveOrdered(ws: seq<int>, k: nat, prio: Priorities, at: Stamps, flag: Flag)
    requires Known(ws, prio) && Ordered(ws, prio, at, flag) && k < |ws|
    ensures Known(Without(ws, k), prio) && Ordered(Without(ws, k), prio, at, flag)
  {
    var r := Without(ws, k);
    forall i | 0 <= i < |r| ensures r[i] in prio && r[i] in at {
      assert r[i] == ws[if i < k then i else i + 1];
    }
    forall i, j | 0 <= i < j < |r| ensures Before(r[i], r[j], prio, at, flag) {
      assert r[i] == ws[if i < k then i else i + 1] && r[j] == ws[if j < k then j else j + 1];
    }
  }

  lemma {:induction false} Member(s: seq<int>) returns (u: int)
    requires s != []
    ensures u == s[0] && u in s
  {
    u := s[0];
  }

  /** The order leaves no choice: two ordered lists of the same threads are the same list. */
  lemma {:induction false} OrderUnique(ws: seq<int>, us: seq<int>, prio: Priorities, at: Stamps, flag: Flag)
    requires Known(ws, prio) && Known(us, prio) && Ordered(ws, prio, at, flag) && Ordered(us, prio, at, flag)
    requires forall t :: t in ws <==> t in us
    ensures ws == us
    decreases |ws|
  {
    if ws == [] {
      if us != [] { var u := Member(us); }
    } else {
      var w := ws[0];
      assert w in ws;
      assert w in us;
      var u := us[0];
      assert u in us;
      assert u in ws;
      var i :| 0 <= i < |us| && us[i] == w;
      var j :| 0 <= j < |ws| && ws[j] == u;
      assert i > 0 ==> Before(us[0], us[i], prio, at, flag);
      assert j > 0 ==> Before(ws[0], ws[j], prio, at, flag);
      assert ws[0] == us[0];
      SameRest(ws, us, prio, at, flag);
      assert Without(ws, 0) == ws[1..] && Without(us, 0) == us[1..];
      LeaveOrdered(ws, 0, prio, at, flag);
      LeaveOrdered(us, 0, prio, at, flag);
      OrderUnique(ws[1..], us[1..], prio, at, flag);
    }
  }

  lemma {:induction false} SameRest(ws: seq<int>, us: seq<int>, prio: Priorities, at: Stamps, flag: Flag)
    requires Known(ws, prio) && Known(us, prio) && Ordered(ws, prio, at, flag) && Ordered(us, prio, at, flag)
    requires ws != [] && us != [] && ws[0] == us[0] && forall t :: t in ws <==> t in us
    ensures forall t :: t in ws[1..] <==> t in us[1..]
  {
    forall t ensures t in ws[1..] <==> t in us[1..] {
      if t in ws[1..] {
        var i :| 0 <= i < |ws[1..]| && ws[1..][i] == t;
        assert ws[i + 1] == t && Before(ws[0], ws[i + 1], prio, at, flag);
        assert t in us;
        var j :| 0 <= j < |us| && us[j] == t;
        assert us[1..][j - 1] == t;
      }
      if t in us[1..] {
        var i :| 0 <= i < |us[1..]| && us[1..][i] == t;
        assert us[i + 1] == t && Before(us[0], us[i + 1], prio, at, flag);
        assert t in ws;
        var j :| 0 <= j < |ws| && ws[j] == t;
        assert ws[1..][j - 1] == t;
      }
    }
  }

  // ---------------------------------------------------------------- priorities that change

  /** t's neighbours in the list are served before and after it also if its priority is p. */
  ghost predicate KeepsPlace(ws: seq<int>, k: nat, p: int, prio: Priorities, at: Stamps, flag: Flag)
    requires Known(ws, prio) && (forall i {:trigger ws[i]} :: 0 <= i < |ws| ==> ws[i] in at) && k < |ws|
  {
    var q := prio[ws[k] := p];
    (k > 0 ==> Before(ws[k - 1], ws[k], q, at, flag)) && (k + 1 < |ws| ==> Before(ws[k], ws[k + 1], q, at, flag))
  }

  /**
    A waiting thread whose priority changes stays where it is; the order survives exactly if that is still between its
    neighbours.
   */
  lemma {:induction false} RepriceOrdered(ws: seq<int>, k: nat, p: int, prio: Priorities, at: Stamps, flag: Flag)
    requires Distinct(ws) && Known(ws, prio) && Ordered(ws, prio, at, flag) && k < |ws|
    ensures Ordered(ws, prio[ws[k] := p], at, flag) <==> KeepsPlace(ws, k, p, prio, at, flag)
  {
    var q := prio[ws[k] := p];
    if KeepsPlace(ws, k, p, prio, at, flag) {
      forall i, j | 0 <= i < j < |ws| ensures Before(ws[i], ws[j], q, at, flag) {
        assert Before(ws[i], ws[j], prio, at, flag);
        if j == k && i < k - 1 { assert Before(ws[i], ws[k - 1], prio, at, flag); }
        if i == k && j > k + 1 { assert Before(ws[k + 1], ws[j], prio, at, flag); }
      }
    }
  }

  lemma {:induction false} OthersReprice(ws: seq<int>, t: int, p: int, prio: Priorities, at: Stamps, flag: Flag)
    requires Known(ws, prio) && Ordered(ws, prio, at, flag) && t !in ws
    ensures Ordered(ws, prio[t := p], at, flag)
  {
    forall i, j | 0 <= i < j < |ws| ensures Before(ws[i], ws[j], prio[t := p], at, flag) {
      assert Before(ws[i], ws[j], prio, at, flag);
      assert ws[i] in ws && ws[j] in ws;
    }
  }

  /** The priorities of the threads, changed by rt_thread_control. */
  class Threads {
    var priority: Priorities
  }

  // ---------------------------------------------------------------- the linked lists

  /** Only the links of the nodes in s and of t may have changed. */
  ghost predicate SameBut(was: Links, now: Links, s: seq<int>, t: int) {
    forall a :: a in was && a !in s && a != t ==> a in now && now[a] == was[a]
  }

  /** A list that shares no node with those changed is still a list. */
  lemma {:induction false} OtherList(next: Links, prev: Links, next': Links, prev': Links, s: seq<int>, t: int,
                                     r: seq<int>)
    requires Ring(next, prev, r) && SameBut(next, next', s, t) && SameBut(prev, prev', s, t)
    requires forall a :: a in r ==> a !in s && a != t
    ensures Ring(next', prev', r)
  {
    forall a | a in r ensures a in next && a in prev {
      var i :| 0 <= i < |r| && r[i] == a;
      RingAt(next, prev, r, i);
    }
    RingFrame(next, prev, r, next', prev');
  }

  /**
    A thread's one node is in one wait list at most: no links spell out two lists that share a thread, unless one
    list's head is in the other list.
   */
  lemma {:induction false} OneList(next: Links, prev: Links, head: int, ws: seq<int>, other: int, us: seq<int>, t: int)
    requires Ring(next, prev, [head] + ws) && Ring(next, prev, [other] + us) && head !in [other] + us
    ensures !(t in ws && t in us)
  {
    if t in ws && t in us {
      var s, r := [head] + ws, [other] + us;
      var i :| 0 <= i < |ws| && ws[i] == t;
      assert s[i + 1] == t && t in r;
      RingsShare(next, prev, s, i + 1, r, 0);
    }
  }

  /** The list nodes of threads and list heads, by address. */
  class ListNodes {
    var next: Links
    var prev: Links

    /** From the head, next visits the waiters in order and returns; prev mirrors it. */
    ghost predicate IsList(head: int, ws: seq<int>)
      reads this
    {
      Distinct([head] + ws) && Ring(next, prev, [head] + ws)
    }

    /** rt_list_init. */
    method InitList(head: int)
      modifies this
      ensures IsList(head, []) && next == old(next)[head := head] && prev == old(prev)[head := head]
    {
      next, prev := next[head := head], prev[head := head];
    }

    /** rt_list_insert_before. */
    method InsertBefore(l: int, n: int, ghost s: seq<int>, ghost k: nat)
      requires Distinct(s) && Ring(next, prev, s) && k < |s| && s[k] == l && n !in s
      modifies this
      ensures Ring(next, prev, InsertAt(s, if k == 0 then |s| else k, n))
      ensures SameBut(old(next), next, s, n) && SameBut(old(prev), prev, s, n)
      ensures old(l in prev) && next == old(next)[old(prev[l]) := n][n := l]
              && prev == old(prev)[n := old(prev[l])][l := n]
    {
      ghost var h := if k == 0 then |s| - 1 else k - 1;
      RingAt(next, prev, s, k);
      RingInsert(next, prev, s, h, n);
      var before := prev[l];
      assert before == s[h] && next[before] == l && before in s && l in s;
      ghost var u, v := next[n := l][before := n], prev[n := before][l := n];
      next := next[before := n];
      prev := prev[n := before];
      prev := prev[l := n];
      next := next[n := l];
      assert next == u && prev == v;
      assert Put(s, h, n) == InsertAt(s, h + 1, n);
    }

    /** rt_list_insert_after. */
    method InsertAfter(l: int, n: int, ghost s: seq<int>, ghost k: nat)
      requires Distinct(s) && Ring(next, prev, s) && k < |s| && s[k] == l && n !in s
      modifies this
      ensures Ring(next, prev, InsertAt(s, k + 1, n))
      ensures old(l in next) && next == old(next)[n := old(next[l])][l := n]
              && prev == old(prev)[old(next[l]) := n][n := l]
    {
      RingAt(next, prev, s, k);
      RingInsert(next, prev, s, k, n);
      var after := next[l];
      ghost var u, v := next[n := after][l := n], prev[n := l][after := n];
      prev := prev[after := n];
      next := next[n := after];
      next := next[l := n];
      prev := prev[n := l];
      assert next == u && prev == v;
    }

    /** rt_list_remove: the others close up and the node is a list by itself. */
    method Remove(n: int, ghost s: seq<int>, ghost k: nat)
      requires Distinct(s) && Ring(next, prev, s) && k < |s| && s[k] == n && |s| >= 2
      modifies this
      ensures Ring(next, prev, Without(s, k)) && Ring(next, prev, [n])
      ensures old(n in next && n in prev) && SameBut(old(next), next, s, n) && SameBut(old(prev), prev, s, n)
      ensures next == old(next)[old(prev[n]) := old(next[n])][n := n]
      ensures prev == old(prev)[old(next[n]) := old(prev[n])][n := n]
    {
      RingAt(next, prev, s, k);
      RingRemove(next, prev, s, k);
      assert prev[n] in s && next[n] in s;
      prev := prev[next[n] := prev[n]];
      next := next[prev[n] := next[n]];
      assert Cut(s, k) == Without(s, k);
      ghost var nx, pv, r := next, prev, Without(s, k);
      forall a | a in r ensures a in nx && a in pv && a != n {
        var i :| 0 <= i < |r| && r[i] == a;
        RingAt(nx, pv, r, i);
        assert r[i] == s[if i < k then i else i + 1];
      }
      next, prev := next[n := n], prev[n := n];
      RingFrame(nx, pv, Without(s, k), next, prev);
    }

    method IsEmpty(head: int, ghost ws: seq<int>) returns (empty: bool)
      requires IsList(head, ws)
      ensures empty <==> ws == []
    {
      ghost var s := [head] + ws;
      RingAt(next, prev, s, 0);
      assert ws != [] ==> s[0] != s[1];
      empty := next[head] == head;
    }

    /** rt_ipc_list_suspend's walk and insertion: the thread joins where the flag says. */
    method Suspend(head: int, t: int, prio: Priorities, flag: Flag, ghost ws: seq<int>)
      requires IsList(head, ws) && Known(ws, prio) && t in prio && t != head && t !in ws
      modifies this
      ensures IsList(head, Join(ws, t, prio, flag))
      ensures SameBut(old(next), next, [head] + ws, t) && SameBut(old(prev), prev, [head] + ws, t)
    {
      ghost var s := [head] + ws;
      if flag.Fifo? {
        InsertBefore(head, t, s, 0);
        Joined(head, ws, |ws|, t);
      } else {
        RingAt(next, prev, s, 0);
        var n := next[head];
        ghost var k := 0;
        while n != head && prio[t] >= prio[n]
          invariant next == old(next) && prev == old(prev)
          invariant 0 <= k <= |ws| && n == (if k < |ws| then ws[k] else head)
          invariant Place(ws, k, prio[t], prio) == Place(ws, 0, prio[t], prio)
          decreases |ws| - k
        {
          assert s[k + 1] == ws[k];
          RingAt(next, prev, s, k + 1);
          n := next[n];
          k := k + 1;
        }
        assert k < |ws| ==> s[k + 1] == ws[k];
        InsertBefore(n, t, s, if k == |ws| then 0 else k + 1);
        Joined(head, ws, k, t);
      }
    }

    lemma Joined(head: int, ws: seq<int>, k: nat, t: int)
      requires k <= |ws| && t != head && t !in ws && Distinct([head] + ws)
      ensures InsertAt([head] + ws, k + 1, t) == [head] + InsertAt(ws, k, t)
      ensures Distinct([head] + InsertAt(ws, k, t))
    {
      var s, r := [head] + ws, InsertAt([head] + ws, k + 1, t);
      assert r == [head] + InsertAt(ws, k, t);
      forall i, j | 0 <= i < j < |r| ensures r[i] != r[j] {
        if i != k + 1 { assert r[i] == s[if i < k + 1 then i else i - 1]; }
        if j != k + 1 { assert r[j] == s[if j < k + 1 then j else j - 1]; }
      }
    }

    /** rt_ipc_list_resume's unlinking: the first waiter leaves. */
    method Resume(head: int, ghost ws: seq<int>) returns (t: int)
      requires IsList(head, ws) && ws != []
      modifies this
      ensures t == ws[0] && IsList(head, ws[1..]) && Ring(next, prev, [t])
      ensures SameBut(old(next), next, [head] + ws, t) && SameBut(old(prev), prev, [head] + ws, t)
    {
      ghost var s := [head] + ws;
      RingAt(next, prev, s, 0);
      t := next[head];
      assert s[1] == ws[0];
      Remove(t, s, 1);
      NodeLeft(head, ws, 0);
    }

    /** rt_list_remove on the node of a waiting thread, wherever it stands. */
    method Unlink(head: int, t: int, ghost ws: seq<int>)
      requires IsList(head, ws) && t in ws
      modifies this
      ensures IsList(head, Drop(ws, t)) && Ring(next, prev, [t])
      ensures SameBut(old(next), next, [head] + ws, t) && SameBut(old(prev), prev, [head] + ws, t)
    {
      ghost var s := [head] + ws;
      ghost var k := DropAt(ws, t);
      RingAt(next, prev, s, k + 1);
      assert s[k + 1] == ws[k];
      Remove(t, s, k + 1);
      NodeLeft(head, ws, k);
    }

    lemma NodeLeft(head: int, ws: seq<int>, k: nat)
      requires Distinct([head] + ws) && k < |ws|
      ensures Without([head] + ws, k + 1) == [head] + Without(ws, k) && Distinct([head] + Without(ws, k))
      ensures Without(ws, 0) == ws[1..]
    {
      var s, r := [head] + ws, Without([head] + ws, k + 1);
      assert r == [head] + Without(ws, k);
      forall i, j | 0 <= i < j < |r| ensures r[i] != r[j] {
        assert r[i] == s[if i < k + 1 then i else i + 1] && r[j] == s[if j < k + 1 then j else j + 1];
      }
    }
  }
}
