/** The uniprocessor scheduler: a bit for every non-empty ready list, and the most urgent thread runs. */
module Schedulers {
  import opened Bits
  import opened FirstSet
  import opened Rings
  import opened WaitLists

  datatype Stat = Init | Ready | Suspend | Running | Close

  const LEVELS := 32

  /** No thread runs before the scheduler is started. */
  const NONE := -1

  /** waits: the threads waiting on each list of an IPC object, and flags: how each list is ordered. */
  datatype Sched = Sched(group: nat, table: seq<seq<int>>, current: int, stat: map<int, Stat>, prio: Priorities,
                         lock: int, waits: map<int, seq<int>>, flags: map<int, Flag>)

  // ---------------------------------------------------------------- what always holds

  /** Bit p of the group is set exactly when somebody is ready at level p. */
  ghost predicate GroupInv(s: Sched) {
    |s.table| == LEVELS
    && forall p: nat {:trigger Bit(s.group, p)} :: Bit(s.group, p) == (p < LEVELS && s.table[p] != [])
  }

  ghost predicate ListInv(s: Sched, p: nat, l: seq<int>) {
    Distinct(l) && forall i {:trigger l[i]} :: 0 <= i < |l| ==>
      l[i] in s.stat && l[i] in s.prio && s.stat[l[i]] == Ready && s.prio[l[i]] == p && l[i] != s.current
  }

  /**
    A thread is in one place only: a ready list holds the ready threads of its level, and the current one is in none.
   */
  ghost predicate PlaceInv(s: Sched) {
    |s.table| == LEVELS
    && (forall p {:trigger s.table[p]} :: 0 <= p < LEVELS ==> ListInv(s, p, s.table[p]))
    && (forall t :: t in s.stat && s.stat[t] == Ready ==> Queued(s, t))
    && (forall t :: t in s.stat && s.stat[t] == Running ==> t == s.current)
  }

  predicate Queued(s: Sched, t: int)
    requires |s.table| == LEVELS
  {
    t in s.prio && 0 <= s.prio[t] < LEVELS && t in s.table[s.prio[t]]
  }

  ghost predicate ThreadsInv(s: Sched) {
    s.stat.Keys == s.prio.Keys && NONE !in s.stat && s.lock >= 0
    && (forall t :: t in s.prio ==> 0 <= s.prio[t] < LEVELS)
    && (s.current == NONE || (s.current in s.stat && s.stat[s.current] !in {Init, Ready}))
  }

  /** A wait list holds suspended threads, and none of them waits on another list. */
  ghost predicate WaitInv(s: Sched) {
    s.waits.Keys == s.flags.Keys
    && (forall o :: o in s.waits ==> Distinct(s.waits[o]))
    && (forall o, t :: o in s.waits && t in s.waits[o] ==> t in s.stat && s.stat[t] == Suspend)
    && (forall o, q, t :: o in s.waits && q in s.waits && t in s.waits[o] && t in s.waits[q] ==> o == q)
  }

  ghost predicate Inv(s: Sched) {
    ThreadsInv(s) && GroupInv(s) && PlaceInv(s) && WaitInv(s)
  }

  /**
    Every thread is in one place only: it runs, or is ready in the list of its level, or waits on one list, or is in
    no list.
   */
  lemma {:induction false} OnePlace(s: Sched, t: int)
    requires Inv(s) && t in s.stat
    ensures s.stat[t] == Ready <==> exists p {:trigger s.table[p]} :: 0 <= p < LEVELS && t in s.table[p]
    ensures forall p {:trigger s.table[p]} :: 0 <= p < LEVELS && t in s.table[p] ==> p == s.prio[t]
    ensures s.stat[t] == Running ==> t == s.current
    ensures forall o :: o in s.waits && t in s.waits[o] ==> s.stat[t] == Suspend
    ensures forall o, q :: o in s.waits && q in s.waits && t in s.waits[o] && t in s.waits[q] ==> o == q
  {
    if s.stat[t] == Ready { assert Queued(s, t); }
    forall p {:trigger s.table[p]} | 0 <= p < LEVELS && t in s.table[p] ensures p == s.prio[t] && s.stat[t] == Ready {
      assert ListInv(s, p, s.table[p]);
    }
  }

  // ---------------------------------------------------------------- the wait lists

  /** rt_list_remove on the node of a thread that is in no ready list: it leaves the list it waits on. */
  function Unlink(s: Sched, t: int): Sched {
    s.(waits := map o | o in s.waits :: Drop(s.waits[o], t))
  }

  lemma {:induction false} UnlinkInv(s: Sched, t: int)
    requires WaitInv(s)
    ensures WaitInv(Unlink(s, t))
    ensures forall o, u :: o in s.waits ==> (u in Unlink(s, t).waits[o] <==> u in s.waits[o] && u != t)
  {
    forall o | o in s.waits
      ensures Distinct(Drop(s.waits[o], t)) && forall u :: u in Drop(s.waits[o], t) <==> u in s.waits[o] && u != t
    {
      DropFacts(s.waits[o], t);
    }
  }

  /** The wait lists stay in order while those who wait stay suspended. */
  lemma {:induction false} WaitKept(s: Sched, r: Sched)
    requires WaitInv(s) && r.waits == s.waits && r.flags == s.flags
    requires forall o, u :: o in s.waits && u in s.waits[o] ==> u in r.stat && r.stat[u] == Suspend
    ensures WaitInv(r)
  {
  }

  lemma {:induction false} NotWaiting(s: Sched, t: int)
    requires WaitInv(s) && t in s.stat && s.stat[t] != Suspend
    ensures forall o, u :: o in s.waits && u in s.waits[o] ==> u != t && u in s.stat && s.stat[u] == Suspend
  {
  }

  lemma {:induction false} WaitersKnown(s: Sched, o: int)
    requires ThreadsInv(s) && WaitInv(s) && o in s.waits
    ensures Known(s.waits[o], s.prio)
  {
    forall i | 0 <= i < |s.waits[o]| ensures s.waits[o][i] in s.prio { var u := s.waits[o][i]; assert u in s.waits[o]; }
  }

  lemma {:induction false} GroupBound(s: Sched)
    requires GroupInv(s)
    ensures s.group < 0x1_0000_0000
  {
    SmallPowers();
    if s.group >= Pow2(32) {
      var n := TopBit(s.group);
      if n < 32 { Pow2Grows(n + 1, 32); }
    }
  }

  /** The level _get_highest_priority_thread finds. */
  function Highest(s: Sched): nat
    requires 0 < s.group < 0x1_0000_0000
  {
    if Ffs(s.group) == 0 then 0 else Ffs(s.group) - 1
  }

  lemma {:induction false} HighestIsFirst(s: Sched)
    requires GroupInv(s) && s.group != 0
    ensures s.group < 0x1_0000_0000
    ensures var p := Highest(s);
            p < LEVELS && s.table[p] != [] && forall q {:trigger s.table[q]} :: 0 <= q < p ==> s.table[q] == []
  {
    GroupBound(s);
    FfsIsLowest(s.group);
    var p := Highest(s);
    assert Bit(s.group, p);
    forall q {:trigger s.table[q]} | 0 <= q < p ensures s.table[q] == [] { assert !Bit(s.group, q); }
  }

  lemma {:induction false} GroupZero(s: Sched)
    requires GroupInv(s)
    ensures s.group == 0 <==> forall q {:trigger s.table[q]} :: 0 <= q < LEVELS ==> s.table[q] == []
  {
    if s.group == 0 {
      forall q {:trigger s.table[q]} | 0 <= q < LEVELS ensures s.table[q] == [] { ZeroBit(q); assert !Bit(s.group, q); }
    } else {
      HighestIsFirst(s);
    }
  }

  // ---------------------------------------------------------------- the ready lists

  /** rt_schedule_insert_thread. */
  function Insert(s: Sched, t: int): Sched
    requires |s.table| == LEVELS && t in s.prio && 0 <= s.prio[t] < LEVELS
  {
    if t == s.current then s.(stat := s.stat[t := Running])
    else
      var p := s.prio[t];
      s.(stat := s.stat[t := Ready], table := s.table[p := s.table[p] + [t]], group := Or(s.group, Pow2(p)))
  }

  /** rt_schedule_remove_thread. */
  function Remove(s: Sched, t: int): Sched
    requires |s.table| == LEVELS && t in s.prio && 0 <= s.prio[t] < LEVELS
  {
    var p := s.prio[t];
    var l := Drop(s.table[p], t);
    s.(table := s.table[p := l], group := if l == [] then AndNot(s.group, Pow2(p)) else s.group)
  }

  lemma {:induction false} InsertGroup(s: Sched, t: int)
    requires GroupInv(s) && t in s.prio && 0 <= s.prio[t] < LEVELS
    ensures GroupInv(Insert(s, t))
  {
    if t != s.current {
      var p, r := s.prio[t], Insert(s, t);
      forall q: nat {:trigger Bit(r.group, q)} ensures Bit(r.group, q) == (q < LEVELS && r.table[q] != []) {
        OrBit(s.group, Pow2(p), q);
        Pow2Bit(p, q);
      }
    }
  }

  lemma {:induction false} RemoveGroup(s: Sched, t: int)
    requires GroupInv(s) && t in s.prio && 0 <= s.prio[t] < LEVELS
    ensures GroupInv(Remove(s, t))
  {
    var p, r := s.prio[t], Remove(s, t);
    forall q: nat {:trigger Bit(r.group, q)} ensures Bit(r.group, q) == (q < LEVELS && r.table[q] != []) {
      AndNotBit(s.group, Pow2(p), q);
      Pow2Bit(p, q);
      assert Bit(s.group, q) == (q < LEVELS && s.table[q] != []);
    }
  }

  /** Everything but the thread t, which is in no list. */
  ghost predicate PlaceBut(s: Sched, t: int) {
    |s.table| == LEVELS
    && (forall p {:trigger s.table[p]} :: 0 <= p < LEVELS ==> ListInv(s, p, s.table[p]) && t !in s.table[p])
    && (forall u :: u in s.stat && s.stat[u] == Ready && u != t ==> Queued(s, u))
    && (forall u :: u in s.stat && s.stat[u] == Running && u != t ==> u == s.current)
  }

  lemma {:induction false} InsertPlace(s: Sched, t: int)
    requires ThreadsInv(s) && PlaceBut(s, t) && t in s.stat
    ensures PlaceInv(Insert(s, t))
  {
    var p, r := s.prio[t], Insert(s, t);
    forall q {:trigger r.table[q]} | 0 <= q < LEVELS ensures ListInv(r, q, r.table[q]) {
      var l := s.table[q];
      assert ListInv(s, q, l) && t !in l;
      forall i | 0 <= i < |l| ensures l[i] != t { var u := l[i]; assert u in l; }
    }
  }

  lemma {:induction false} DropListInv(s: Sched, p: nat, l: seq<int>, t: int)
    requires ListInv(s, p, l)
    ensures ListInv(s, p, Drop(l, t)) && forall u :: u in Drop(l, t) <==> u in l && u != t
  {
    DropFacts(l, t);
    var k := DropAt(l, t);
  }

  lemma {:induction false} RemovePlace(s: Sched, t: int)
    requires ThreadsInv(s) && PlaceInv(s) && t in s.stat
    ensures PlaceBut(Remove(s, t), t)
  {
    var p, r := s.prio[t], Remove(s, t);
    assert ListInv(s, p, s.table[p]);
    DropListInv(s, p, s.table[p], t);
    forall q {:trigger r.table[q]} | 0 <= q < LEVELS ensures ListInv(r, q, r.table[q]) && t !in r.table[q] {
      assert ListInv(s, q, s.table[q]);
    }
    forall u | u in r.stat && r.stat[u] == Ready && u != t ensures Queued(r, u) { assert Queued(s, u); }
  }

  // ---------------------------------------------------------------- scheduling

  /** rt_schedule. */
  function Scheduled(s: Sched): Sched
    requires Inv(s) && s.current != NONE
  {
    if s.lock != 0 || s.group == 0 then s
    else
      HighestIsFirst(s);
      var p := Highest(s);
      var running := s.stat[s.current] == Running;
      if running && s.prio[s.current] < p then
        var r := Remove(s, s.current);
        r.(stat := r.stat[s.current := Running])
      else
        SwitchTo(s, s.table[p][0], running)
  }

  /** The first of the most urgent threads becomes the current one; a running one goes back to the end of its list. */
  function SwitchTo(s: Sched, to: int, running: bool): Sched
    requires |s.table| == LEVELS && s.current in s.prio && 0 <= s.prio[s.current] < LEVELS && to in s.prio
             && 0 <= s.prio[to] < LEVELS
  {
    var r := s.(current := to);
    var u := if running then Insert(r, s.current) else r;
    var v := Remove(u, to);
    v.(stat := v.stat[to := Running])
  }

  /** The same switch in the other order: take the new thread out first, then put the old one back. */
  function SwitchBack(s: Sched, to: int, running: bool): Sched
    requires |s.table| == LEVELS && s.current in s.prio && 0 <= s.prio[s.current] < LEVELS && to in s.prio
             && 0 <= s.prio[to] < LEVELS
  {
    var r := Remove(s, to);
    var u := r.(current := to, stat := r.stat[to := Running]);
    if running then Insert(u, s.current) else u
  }

  lemma {:induction false} SwitchOrders(s: Sched, to: int, running: bool)
    requires |s.table| == LEVELS && s.current in s.prio && 0 <= s.prio[s.current] < LEVELS && to in s.prio
             && 0 <= s.prio[to] < LEVELS
    requires to != s.current && s.table[s.prio[to]] != [] && s.table[s.prio[to]][0] == to
    ensures var w, b := SwitchTo(s, to, running), SwitchBack(s, to, running);
            w.table == b.table && w.stat == b.stat && w.current == b.current && w.prio == b.prio && w.lock == b.lock
  {
    var l := s.table[s.prio[to]];
    assert (l + [s.current])[1..] == l[1..] + [s.current];
  }

  lemma {:induction false} SwitchPlace(s: Sched, to: int, running: bool)
    requires Inv(s) && s.current != NONE && to in s.stat && s.stat[to] == Ready
             && running == (s.stat[s.current] == Running)
    ensures PlaceInv(SwitchBack(s, to, running))
  {
    var from := s.current;
    var r := Remove(s, to);
    var u := r.(current := to, stat := r.stat[to := Running]);
    RemovePlace(s, to);
    forall p {:trigger u.table[p]} | 0 <= p < LEVELS ensures ListInv(u, p, u.table[p]) && from !in u.table[p] {
      var l := r.table[p];
      assert ListInv(r, p, l) && to !in l;
      forall i | 0 <= i < |l| ensures l[i] != to { var t := l[i]; assert t in l; }
      assert forall i {:trigger l[i]} :: 0 <= i < |l| ==> l[i] != s.current;
    }
    if running {
      InsertPlace(u, from);
    }
  }

  lemma {:induction false} SwitchInv(s: Sched, to: int, running: bool)
    requires Inv(s) && s.current != NONE && to in s.stat && s.stat[to] == Ready
             && running == (s.stat[s.current] == Running)
    requires Queued(s, to) && s.table[s.prio[to]][0] == to
    ensures Inv(SwitchTo(s, to, running))
  {
    var r := s.(current := to);
    var u := if running then Insert(r, s.current) else r;
    if running { InsertGroup(r, s.current); }
    RemoveGroup(u, to);
    SwitchOrders(s, to, running);
    SwitchPlace(s, to, running);
    WaitKept(s, SwitchTo(s, to, running));
    SamePlace(SwitchTo(s, to, running), SwitchBack(s, to, running));
  }

  lemma {:induction false} SamePlace(s: Sched, r: Sched)
    requires PlaceInv(r) && s.table == r.table && s.stat == r.stat && s.current == r.current && s.prio == r.prio
    ensures PlaceInv(s)
  {
    forall p {:trigger s.table[p]} | 0 <= p < LEVELS
        ensures ListInv(s, p, s.table[p]) { assert ListInv(r, p, r.table[p]); }
    forall t | t in s.stat && s.stat[t] == Ready ensures Queued(s, t) { assert Queued(r, t); }
  }

  /** The head of the first non-empty list is a ready thread of that level. */
  lemma {:induction false} HeadIsReady(s: Sched, p: nat)
    requires PlaceInv(s) && p < LEVELS && s.table[p] != []
    ensures var t := s.table[p][0];
            t in s.stat && t in s.prio && s.stat[t] == Ready && s.prio[t] == p && t != s.current && Queued(s, t)
  {
    assert ListInv(s, p, s.table[p]);
  }

  lemma {:induction false} ScheduleInv(s: Sched)
    requires Inv(s) && s.current != NONE
    ensures Inv(Scheduled(s))
  {
    if s.lock == 0 && s.group != 0 {
      HighestIsFirst(s);
      var p := Highest(s);
      HeadIsReady(s, p);
      if s.stat[s.current] == Running && s.prio[s.current] < p {
        StaysInv(s);
      } else {
        SwitchInv(s, s.table[p][0], s.stat[s.current] == Running);
      }
    }
  }

  /** Removing the running thread changes nothing: it is in no list. */
  lemma {:induction false} StaysInv(s: Sched)
    requires Inv(s) && s.current != NONE && s.stat[s.current] == Running
    ensures var r := Remove(s, s.current);
            Inv(r.(stat := r.stat[s.current := Running])) && r.table == s.table && r.stat == s.stat
  {
    var t := s.current;
    RemoveGroup(s, t);
    RemovePlace(s, t);
    var l := s.table[s.prio[t]];
    assert ListInv(s, s.prio[t], l);
    NothingDropped(l, t);
    SamePlace(Remove(s, t), s);
    assert Remove(s, t).stat[t := Running] == s.stat;
  }

  lemma {:induction false} NothingDropped(ws: seq<int>, t: int)
    requires forall i {:trigger ws[i]} :: 0 <= i < |ws| ==> ws[i] != t
    ensures Drop(ws, t) == ws
  {
    if ws != [] { NothingDropped(ws[1..], t); }
  }

  // ---------------------------------------------------------------- who runs

  /** The current thread is running and at least as urgent as every ready one. */
  ghost predicate MostUrgentRuns(s: Sched)
    requires ThreadsInv(s)
  {
    s.current != NONE && s.stat[s.current] == Running
    && forall t :: t in s.stat && s.stat[t] == Ready ==> s.prio[s.current] <= s.prio[t]
  }

  lemma {:induction false} ReadyBelow(s: Sched, t: int)
    requires Inv(s) && t in s.stat && s.stat[t] == Ready
    ensures s.group != 0 && s.group < 0x1_0000_0000 && Highest(s) <= s.prio[t]
  {
    assert Queued(s, t);
    GroupZero(s);
    HighestIsFirst(s);
  }

  /** After a scheduling with the lock released the most urgent thread runs, unless nobody can. */
  lemma {:induction false} ScheduleRunsMostUrgent(s: Sched)
    requires Inv(s) && s.current != NONE && s.lock == 0
    ensures Inv(Scheduled(s))
    ensures MostUrgentRuns(Scheduled(s))
            <==> (s.stat[s.current] == Running || exists t :: t in s.stat && s.stat[t] == Ready)
  {
    ScheduleInv(s);
    GroupZero(s);
    if s.group == 0 {
      forall t | t in s.stat && s.stat[t] == Ready ensures false { ReadyBelow(s, t); }
    } else {
      HighestIsFirst(s);
      var p := Highest(s);
      HeadIsReady(s, p);
      var to := s.table[p][0];
      var r := Scheduled(s);
      assert r.prio == s.prio;
      forall t | t in r.stat && r.stat[t] == Ready ensures r.prio[r.current] <= r.prio[t] {
        if s.stat[t] == Ready { ReadyBelow(s, t); }
      }
    }
  }

  /** Scheduling only moves the processor: who is ready or running stays so, and nothing else changes. */
  lemma {:induction false} ScheduleKeepsThreads(s: Sched, t: int)
    requires Inv(s) && s.current != NONE && t in s.stat
    ensures var r := Scheduled(s);
            r.prio == s.prio && r.lock == s.lock && t in r.stat
            && (r.stat[t] in {Ready, Running} <==> s.stat[t] in {Ready, Running})
            && (s.stat[t] !in {Ready, Running} ==> r.stat[t] == s.stat[t])
            && (s.lock != 0 ==> r == s)
  {
    if s.lock == 0 && s.group != 0 {
      HighestIsFirst(s);
      HeadIsReady(s, Highest(s));
    }
  }

  // ---------------------------------------------------------------- round robin

  function Turn(s: seq<int>): (r: seq<int>)
    ensures |r| == |s|
  {
    if s == [] then [] else s[1..] + [s[0]]
  }

  function Turns(s: seq<int>, k: nat): seq<int>
    decreases k
  {
    if k == 0 then s else Turns(Turn(s), k - 1)
  }

  /** The threads of the running one's level, the running one first. */
  function Peers(s: Sched): seq<int>
    requires |s.table| == LEVELS && s.current in s.prio && 0 <= s.prio[s.current] < LEVELS
  {
    [s.current] + s.table[s.prio[s.current]]
  }

  /** The running thread shares the highest level with other ready ones. */
  ghost predicate Sharing(s: Sched) {
    Inv(s) && s.current != NONE && s.lock == 0 && MostUrgentRuns(s) && s.table[s.prio[s.current]] != []
  }

  lemma {:induction false} ScheduleTurns(s: Sched)
    requires Sharing(s)
    ensures Sharing(Scheduled(s)) && Peers(Scheduled(s)) == Turn(Peers(s))
            && Scheduled(s).prio[Scheduled(s).current] == s.prio[s.current]
  {
    var p := s.prio[s.current];
    SharedIsHighest(s, p);
    HeadIsReady(s, p);
    ScheduleRunsMostUrgent(s);
    var to, l := s.table[p][0], s.table[p];
    assert (l + [s.current])[0] == to && (l + [s.current])[1..] == l[1..] + [s.current];
    assert Scheduled(s) == SwitchTo(s, to, true);
    assert Scheduled(s).table[p] == l[1..] + [s.current];
    assert Peers(s)[1..] == l && [to] + l[1..] == l;
    assert [to] + (l[1..] + [s.current]) == l + [s.current];
  }

  lemma {:induction false} SharedIsHighest(s: Sched, p: nat)
    requires Sharing(s) && p == s.prio[s.current]
    ensures 0 < s.group < 0x1_0000_0000 && Highest(s) == p
  {
    GroupZero(s);
    HighestIsFirst(s);
    var q := Highest(s);
    HeadIsReady(s, q);
  }

  /** k schedulings in a row turn the peers k times. */
  ghost function Schedules(s: Sched, k: nat): (r: Sched)
    requires Sharing(s)
    ensures Sharing(r) && Peers(r) == Turns(Peers(s), k)
    decreases k
  {
    if k == 0 then s
    else
      ScheduleTurns(s);
      Schedules(Scheduled(s), k - 1)
  }

  lemma {:induction false} TurnsAre(s: seq<int>, k: nat)
    requires k <= |s|
    ensures Turns(s, k) == s[k..] + s[..k]
    decreases k
  {
    if k > 0 {
      TurnsAre(Turn(s), k - 1);
      assert Turn(s)[k - 1..] == s[k..] + [s[0]] && Turn(s)[..k - 1] == s[1..k];
      assert s[..k] == [s[0]] + s[1..k];
    }
  }

  /** Equals take turns: after k schedulings the k-th peer runs, and after one round everything is as it was. */
  lemma {:induction false} RoundRobin(s: Sched, k: nat)
    requires Sharing(s) && k <= |Peers(s)|
    ensures var r := Schedules(s, k);
            (k < |Peers(s)| ==> r.current == Peers(s)[k]) && (k == |Peers(s)| ==> Peers(r) == Peers(s))
  {
    var r, p := Schedules(s, k), Peers(s);
    TurnsAre(p, k);
    assert r.current == Peers(r)[0];
  }

  // ---------------------------------------------------------------- the other kernel calls

  datatype Call =
    | Startup(t: int, level: int)
    | SuspendThread(t: int)
    | Resume(t: int)
    | SetPriority(t: int, level: int)
    | TimeOut(t: int)
    | Delete(t: int)
    | EnterCritical
    | ExitCritical
    | Reschedule
    | Start
    | Block(o: int)
    | Wake(o: int)

  ghost predicate Enabled(s: Sched, c: Call) {
    match c
    case Startup(t, level) => t in s.stat && s.stat[t] == Init && 0 <= level < LEVELS
    case SuspendThread(t) => t in s.stat
    case Resume(t) => t in s.stat
    case SetPriority(t, level) => t in s.stat && 0 <= level < LEVELS
    case TimeOut(t) => t in s.stat && s.stat[t] == Suspend && s.current != NONE
    case Delete(t) => t in s.stat && s.stat[t] != Close
    case EnterCritical => true
    case ExitCritical => true
    case Reschedule => s.current != NONE
    case Start => s.current == NONE && s.group != 0
    case Block(o) => Executes(s) && WaitsNowhere(s, s.current) && o in s.waits
    case Wake(o) => o in s.waits && s.waits[o] != []
  }

  /** The current thread runs, or was suspended and not yet switched away from. */
  predicate Executes(s: Sched) {
    s.current in s.stat && s.stat[s.current] in {Running, Suspend}
  }

  ghost predicate WaitsNowhere(s: Sched, t: int) {
    forall o :: o in s.waits ==> t !in s.waits[o]
  }

  function Resumed(s: Sched, t: int): Sched
    requires Inv(s) && t in s.stat
  {
    if s.stat[t] == Suspend then Insert(Unlink(s, t), t) else s
  }

  function Suspended(s: Sched, t: int): Sched
    requires Inv(s) && t in s.stat
  {
    if s.stat[t] !in {Ready, Running} then s else var r := Remove(s, t); r.(stat := r.stat[t := Suspend])
  }

  function Reprioritised(s: Sched, t: int, level: int): Sched
    requires Inv(s) && t in s.stat && 0 <= level < LEVELS
  {
    if s.stat[t] == Ready then
      var r := Remove(s, t);
      Insert(r.(prio := r.prio[t := level]), t)
    else s.(prio := s.prio[t := level])
  }

  function Deleted(s: Sched, t: int): Sched
    requires Inv(s) && t in s.stat
  {
    var r := if s.stat[t] != Init then Remove(Unlink(s, t), t) else s;
    r.(stat := r.stat[t := Close])
  }

  /** rt_ipc_list_suspend: the current thread joins a wait list. */
  function Blocked(s: Sched, o: int): Sched
    requires Inv(s) && Executes(s) && o in s.waits
  {
    var r := Suspended(s, s.current);
    WaitersKnown(s, o);
    r.(waits := s.waits[o := Join(s.waits[o], s.current, s.prio, s.flags[o])])
  }

  /** rt_ipc_list_resume: the first waiter is resumed. */
  function Woken(s: Sched, o: int): Sched
    requires Inv(s) && Enabled(s, Wake(o))
  {
    assert s.waits[o][0] in s.waits[o];
    Resumed(s, s.waits[o][0])
  }

  function Reschedules(s: Sched): Sched
    requires Inv(s)
  {
    if s.current == NONE then s else Scheduled(s)
  }

  function Starts(s: Sched): Sched
    requires Inv(s) && s.current == NONE && s.group != 0
  {
    HighestIsFirst(s);
    HeadIsReady(s, Highest(s));
    Dispatch(s, s.table[Highest(s)][0])
  }

  function Dispatch(s: Sched, to: int): Sched
    requires |s.table| == LEVELS && to in s.prio && 0 <= s.prio[to] < LEVELS
  {
    var v := Remove(s.(current := to), to);
    v.(stat := v.stat[to := Running])
  }

  function Next(s: Sched, c: Call): Sched
    requires Inv(s) && Enabled(s, c)
  {
    match c
    case Startup(t, level) =>
      StartupInv(s, t, level);
      Reschedules(Resumed(s.(prio := s.prio[t := level], stat := s.stat[t := Suspend]), t))
    case SuspendThread(t) => Suspended(s, t)
    case Resume(t) => Resumed(s, t)
    case SetPriority(t, level) => Reprioritised(s, t, level)
    case TimeOut(t) => ResumedInv(s, t); Scheduled(Resumed(s, t))
    case Delete(t) => Deleted(s, t)
    case EnterCritical => s.(lock := s.lock + 1)
    case ExitCritical =>
      if s.lock <= 1 then UnlockInv(s, 0); Reschedules(s.(lock := 0)) else s.(lock := s.lock - 1)
    case Reschedule => Scheduled(s)
    case Start => Starts(s)
    case Block(o) => Blocked(s, o)
    case Wake(o) => Woken(s, o)
  }

  /** A thread that is not ready is in no list. */
  lemma {:induction false} Unlisted(s: Sched, t: int)
    requires PlaceInv(s) && t in s.stat && s.stat[t] != Ready
    ensures PlaceBut(s, t)
  {
    forall p {:trigger s.table[p]} | 0 <= p < LEVELS ensures ListInv(s, p, s.table[p]) && t !in s.table[p] {
      assert ListInv(s, p, s.table[p]);
    }
  }

  lemma {:induction false} Restat(s: Sched, t: int, x: Stat)
    requires PlaceBut(s, t) && t in s.stat && (x in {Init, Suspend, Close} || (x == Running && t == s.current))
    ensures PlaceInv(s.(stat := s.stat[t := x]))
  {
    var r := s.(stat := s.stat[t := x]);
    forall p {:trigger r.table[p]} | 0 <= p < LEVELS ensures ListInv(r, p, r.table[p]) {
      var l := s.table[p];
      assert ListInv(s, p, l) && t !in l;
      forall i | 0 <= i < |l| ensures l[i] != t { var u := l[i]; assert u in l; }
    }
  }

  lemma {:induction false} Relevel(s: Sched, t: int, level: int)
    requires PlaceBut(s, t) && t in s.prio && 0 <= level < LEVELS
    ensures PlaceBut(s.(prio := s.prio[t := level]), t)
  {
    var r := s.(prio := s.prio[t := level]);
    forall p {:trigger r.table[p]} | 0 <= p < LEVELS ensures ListInv(r, p, r.table[p]) && t !in r.table[p] {
      var l := s.table[p];
      assert ListInv(s, p, l) && t !in l;
      forall i | 0 <= i < |l| ensures l[i] != t { var u := l[i]; assert u in l; }
    }
    forall u | u in r.stat && r.stat[u] == Ready && u != t ensures Queued(r, u) { assert Queued(s, u); }
  }

  lemma {:induction false} UnlockInv(s: Sched, lock: nat)
    requires Inv(s)
    ensures Inv(s.(lock := lock))
  {
    SamePlace(s.(lock := lock), s);
    WaitKept(s, s.(lock := lock));
  }

  lemma {:induction false} ResumedInv(s: Sched, t: int)
    requires Inv(s) && t in s.stat
    ensures Inv(Resumed(s, t))
  {
    if s.stat[t] == Suspend {
      var u := Unlink(s, t);
      UnlinkInv(s, t);
      SamePlace(u, s);
      Unlisted(u, t);
      InsertGroup(u, t);
      InsertPlace(u, t);
      WaitKept(u, Insert(u, t));
    }
  }

  lemma {:induction false} StartupInv(s: Sched, t: int, level: int)
    requires Inv(s) && Enabled(s, Startup(t, level))
    ensures var r := s.(prio := s.prio[t := level], stat := s.stat[t := Suspend]); Inv(r) && Inv(Resumed(r, t))
  {
    Unlisted(s, t);
    Relevel(s, t, level);
    Restat(s.(prio := s.prio[t := level]), t, Suspend);
    WaitKept(s, s.(prio := s.prio[t := level], stat := s.stat[t := Suspend]));
    ResumedInv(s.(prio := s.prio[t := level], stat := s.stat[t := Suspend]), t);
  }

  lemma {:induction false} SuspendedInv(s: Sched, t: int)
    requires Inv(s) && t in s.stat
    ensures Inv(Suspended(s, t))
  {
    if s.stat[t] in {Ready, Running} {
      RemoveGroup(s, t);
      RemovePlace(s, t);
      Restat(Remove(s, t), t, Suspend);
      WaitKept(s, Suspended(s, t));
    }
  }

  lemma {:induction false} DeletedInv(s: Sched, t: int)
    requires Inv(s) && t in s.stat
    ensures Inv(Deleted(s, t))
  {
    if s.stat[t] == Init {
      Unlisted(s, t);
      Restat(s, t, Close);
      WaitKept(s, Deleted(s, t));
    } else {
      var u := Unlink(s, t);
      UnlinkInv(s, t);
      SamePlace(u, s);
      RemoveGroup(u, t);
      RemovePlace(u, t);
      Restat(Remove(u, t), t, Close);
      WaitKept(u, Deleted(s, t));
    }
  }

  lemma {:induction false} ReprioritisedInv(s: Sched, t: int, level: int)
    requires Inv(s) && t in s.stat && 0 <= level < LEVELS
    ensures Inv(Reprioritised(s, t, level))
  {
    WaitKept(s, Reprioritised(s, t, level));
    if s.stat[t] == Ready {
      var r := Remove(s, t);
      var u := r.(prio := r.prio[t := level]);
      RemoveGroup(s, t);
      RemovePlace(s, t);
      Relevel(r, t, level);
      InsertGroup(u, t);
      InsertPlace(u, t);
    } else {
      Unlisted(s, t);
      Relevel(s, t, level);
      var u := s.(prio := s.prio[t := level]);
      forall v | v in u.stat && u.stat[v] == Ready ensures Queued(u, v) { assert v != t; }
    }
  }

  lemma {:induction false} StartsInv(s: Sched)
    requires Inv(s) && s.current == NONE && s.group != 0
    ensures Inv(Starts(s)) && MostUrgentRuns(Starts(s))
  {
    HighestIsFirst(s);
    var p := Highest(s);
    HeadIsReady(s, p);
    var to := s.table[p][0];
    RemoveGroup(s, to);
    RemovePlace(s, to);
    var u := Remove(s, to).(current := to);
    forall q {:trigger u.table[q]} | 0 <= q < LEVELS ensures ListInv(u, q, u.table[q]) && to !in u.table[q] {
      var l := Remove(s, to).table[q];
      assert ListInv(Remove(s, to), q, l) && to !in l;
      forall i | 0 <= i < |l| ensures l[i] != to { var t := l[i]; assert t in l; }
    }
    Restat(u, to, Running);
    var r := Starts(s);
    WaitKept(s, r);
    forall t | t in r.stat && r.stat[t] == Ready ensures r.prio[to] <= r.prio[t] { ReadyBelow(s, t); }
  }

  /** A list that is joined by a thread already in it holds the thread twice. */
  lemma {:induction false} JoinedTwice(ws: seq<int>, t: int, prio: Priorities, flag: Flag)
    requires Known(ws, prio) && t in prio && t in ws
    ensures !Distinct(Join(ws, t, prio, flag))
  {
    var k := if flag.Fifo? then |ws| else Place(ws, 0, prio[t], prio);
    var r := Join(ws, t, prio, flag);
    var i :| 0 <= i < |ws| && ws[i] == t;
    assert r[k] == t && r[if i < k then i else i + 1] == t;
  }

  lemma {:induction false} Joins(ws: seq<int>, t: int, prio: Priorities, flag: Flag)
    requires Known(ws, prio) && t in prio
    ensures t in Join(ws, t, prio, flag)
  {
    var k := if flag.Fifo? then |ws| else Place(ws, 0, prio[t], prio);
    assert Join(ws, t, prio, flag)[k] == t;
  }

  /** What the other threads see of it, and the lists that are not joined. */
  lemma {:induction false} BlockedPlace(s: Sched, o: int)
    requires Inv(s) && Executes(s) && o in s.waits
    ensures var r := Blocked(s, o); ThreadsInv(r) && GroupInv(r) && PlaceInv(r)
  {
    SuspendedInv(s, s.current);
    SamePlace(Blocked(s, o), Suspended(s, s.current));
  }

  lemma {:induction false} BlockedInv(s: Sched, o: int)
    requires Inv(s) && Enabled(s, Block(o))
    ensures Inv(Blocked(s, o))
  {
    var t, r := s.current, Blocked(s, o);
    BlockedPlace(s, o);
    WaitersKnown(s, o);
    JoinFacts(s.waits[o], t, s.prio, s.flags[o]);
    assert r.waits[o] == Join(s.waits[o], t, s.prio, s.flags[o]);
  }

  lemma {:induction false} BlockedBreaks(s: Sched, o: int, q: int)
    requires Inv(s) && Executes(s) && o in s.waits && q in s.waits && s.current in s.waits[q]
    ensures !WaitInv(Blocked(s, o))
  {
    var t, r := s.current, Blocked(s, o);
    WaitersKnown(s, o);
    Joins(s.waits[o], t, s.prio, s.flags[o]);
    assert r.waits[o] == Join(s.waits[o], t, s.prio, s.flags[o]);
    if q == o { JoinedTwice(s.waits[o], t, s.prio, s.flags[o]); } else { assert t in r.waits[q] && t in r.waits[o]; }
  }

  /**
    The suspending is refused to a thread that is suspended already, and its node is linked all the same: everything
    stays in order if and only if the thread waited on no list.
   */
  lemma {:induction false} BlockedExactly(s: Sched, o: int)
    requires Inv(s) && Executes(s) && o in s.waits
    ensures WaitInv(Blocked(s, o)) <==> WaitsNowhere(s, s.current)
    ensures Inv(Blocked(s, o)) <==> WaitsNowhere(s, s.current)
  {
    if WaitsNowhere(s, s.current) {
      BlockedInv(s, o);
    } else {
      var q :| q in s.waits && s.current in s.waits[q];
      BlockedBreaks(s, o, q);
    }
  }

  /** A running thread waits nowhere. */
  lemma {:induction false} RunningWaitsNowhere(s: Sched)
    requires Inv(s) && s.current in s.stat && s.stat[s.current] == Running
    ensures WaitsNowhere(s, s.current)
  {
    NotWaiting(s, s.current);
  }

  /**
    Who blocks gives up the processor exactly if the lock is released and somebody is ready; else it runs on,
    suspended.
   */
  lemma {:induction false} BlockSwitches(s: Sched, o: int)
    requires Inv(s) && Enabled(s, Block(o))
    ensures var b := Blocked(s, o);
            Inv(b) && b.current == s.current && b.stat[s.current] == Suspend && s.current in b.waits[o]
            && (Scheduled(b).current != s.current <==> s.lock == 0 && s.group != 0)
  {
    BlockedInv(s, o);
    WaitersKnown(s, o);
    Joins(s.waits[o], s.current, s.prio, s.flags[o]);
    if s.stat[s.current] == Running { RunningUnlisted(s); }
    var b := Blocked(s, o);
    if b.lock == 0 && b.group != 0 {
      HighestIsFirst(b);
      HeadIsReady(b, Highest(b));
    }
  }

  /** Taking the running thread out of the ready lists changes none of them. */
  lemma {:induction false} RunningUnlisted(s: Sched)
    requires Inv(s) && s.current in s.stat && s.stat[s.current] == Running
    ensures var r := Remove(s, s.current); r.table == s.table && (r.group == 0 <==> s.group == 0)
  {
    StaysInv(s);
    RemoveGroup(s, s.current);
    GroupZero(s);
    GroupZero(Remove(s, s.current));
  }

  lemma {:induction false} WokenInv(s: Sched, o: int)
    requires Inv(s) && Enabled(s, Wake(o))
    ensures Inv(Woken(s, o))
  {
    assert s.waits[o][0] in s.waits[o];
    ResumedInv(s, s.waits[o][0]);
  }

  lemma {:induction false} StepInv(s: Sched, c: Call)
    requires Inv(s) && Enabled(s, c)
    ensures Inv(Next(s, c))
  {
    match c
    case Startup(t, level) =>
      StartupInv(s, t, level);
      var r := Resumed(s.(prio := s.prio[t := level], stat := s.stat[t := Suspend]), t);
      if r.current != NONE { ScheduleInv(r); }
    case SuspendThread(t) => SuspendedInv(s, t);
    case Resume(t) => ResumedInv(s, t);
    case SetPriority(t, level) => ReprioritisedInv(s, t, level);
    case TimeOut(t) => ResumedInv(s, t); ScheduleInv(Resumed(s, t));
    case Delete(t) => DeletedInv(s, t);
    case EnterCritical => UnlockInv(s, s.lock + 1);
    case ExitCritical =>
      UnlockInv(s, if s.lock <= 1 then 0 else s.lock - 1);
      if s.lock <= 1 && s.current != NONE { ScheduleInv(s.(lock := 0)); }
    case Reschedule => ScheduleInv(s);
    case Start => StartsInv(s);
    case Block(o) => BlockedInv(s, o);
    case Wake(o) => WokenInv(s, o);
  }

  ghost predicate Admissible(s: Sched, run: seq<Call>)
    decreases |run|
  {
    run != [] ==> Inv(s) && Enabled(s, run[0]) && Admissible(Next(s, run[0]), run[1..])
  }

  ghost function After(s: Sched, run: seq<Call>): Sched
    requires Admissible(s, run)
    decreases |run|
  {
    if run == [] then s else After(Next(s, run[0]), run[1..])
  }

  /** Over every run of kernel calls from a system of unstarted threads. */
  lemma {:induction false} RunInv(threads: set<int>, lists: map<int, Flag>, run: seq<Call>)
    requires NONE !in threads && Admissible(Fresh(threads, lists), run)
    ensures Inv(After(Fresh(threads, lists), run))
  {
    FreshInv(threads, lists);
    RunKeepsInv(Fresh(threads, lists), run);
  }

  lemma {:induction false} RunKeepsInv(s: Sched, run: seq<Call>)
    requires Inv(s) && Admissible(s, run)
    ensures Inv(After(s, run))
    decreases |run|
  {
    if run != [] {
      StepInv(s, run[0]);
      RunKeepsInv(Next(s, run[0]), run[1..]);
    }
  }

  lemma {:induction false} FirstCall(s: Sched, c: Call, run: seq<Call>)
    requires Inv(s) && Enabled(s, c) && Admissible(Next(s, c), run)
    ensures Admissible(s, [c] + run) && After(s, [c] + run) == After(Next(s, c), run)
  {
    assert ([c] + run)[1..] == run;
  }

  /** The lock is held by a thread that executes and waits on list 7. */
  ghost predicate WaitsLocked(s: Sched, lists: map<int, Flag>) {
    Inv(s) && s.current == 1 && Executes(s) && s.stat[1] == Suspend && s.lock == 1 && s.waits.Keys == lists.Keys
    && 7 in s.waits && 1 in s.waits[7]
  }

  lemma {:induction false} Started(s: Sched)
    requires Inv(s) && s.stat == map[1 := Init] && s.current == NONE
    ensures Enabled(s, Startup(1, 5)) && var r := Next(s, Startup(1, 5));
            Inv(r) && Enabled(r, Call.Start) && r.stat == map[1 := Ready]
            && r.waits.Keys == s.waits.Keys && r.lock == s.lock
  {
    StepInv(s, Startup(1, 5));
    var r := Next(s, Startup(1, 5));
    assert r.stat == map[1 := Ready] && r.current == NONE;
    ReadyBelow(r, 1);
  }

  lemma {:induction false} Dispatched(s: Sched)
    requires Inv(s) && Enabled(s, Call.Start) && s.stat == map[1 := Ready]
    ensures var r := Next(s, Call.Start);
            Inv(r) && r.current == 1 && r.stat == map[1 := Running] && r.waits == s.waits && r.lock == s.lock
  {
    StepInv(s, Call.Start);
    HighestIsFirst(s);
    HeadIsReady(s, Highest(s));
  }

  lemma {:induction false} LockedBlocks(s: Sched, lists: map<int, Flag>)
    requires Inv(s) && s.current == 1 && s.stat == map[1 := Running] && s.lock == 0
    requires 7 in lists && s.waits.Keys == lists.Keys
    ensures Inv(Next(s, EnterCritical)) && Enabled(Next(s, EnterCritical), Block(7))
    ensures WaitsLocked(Next(Next(s, EnterCritical), Block(7)), lists)
  {
    var v := Next(s, EnterCritical);
    StepInv(s, EnterCritical);
    RunningWaitsNowhere(v);
    BlockSwitches(v, 7);
  }

  lemma {:induction false} LastCalls(s: Sched, c: Call, d: Call)
    requires Inv(s) && Enabled(s, c) && Inv(Next(s, c)) && Enabled(Next(s, c), d)
    ensures Admissible(s, [c, d]) && After(s, [c, d]) == Next(Next(s, c), d)
  {
    FirstCall(Next(s, c), d, []);
    assert [d] + [] == [d];
    FirstCall(s, c, [d]);
    assert [c] + [d] == [c, d];
  }

  const LOCKED := [Startup(1, 5), Call.Start, EnterCritical, Block(7)]

  lemma {:induction false} FromRunning(s: Sched, lists: map<int, Flag>)
    requires Inv(s) && s.current == 1 && s.stat == map[1 := Running] && s.lock == 0
    requires 7 in lists && s.waits.Keys == lists.Keys
    ensures Admissible(s, LOCKED[2..]) && WaitsLocked(After(s, LOCKED[2..]), lists)
  {
    LockedBlocks(s, lists);
    LastCalls(s, EnterCritical, Block(7));
    assert LOCKED[2..] == [EnterCritical, Block(7)];
  }

  lemma {:induction false} FromReady(s: Sched, lists: map<int, Flag>)
    requires Inv(s) && Enabled(s, Call.Start) && s.stat == map[1 := Ready] && s.lock == 0
    requires 7 in lists && s.waits.Keys == lists.Keys
    ensures Admissible(s, LOCKED[1..]) && WaitsLocked(After(s, LOCKED[1..]), lists)
  {
    Dispatched(s);
    FromRunning(Next(s, Call.Start), lists);
    FirstCall(s, Call.Start, LOCKED[2..]);
    assert LOCKED[1..] == [Call.Start] + LOCKED[2..];
  }

  lemma {:induction false} FromUnstarted(s: Sched, lists: map<int, Flag>)
    requires Inv(s) && s.stat == map[1 := Init] && s.current == NONE && s.lock == 0
    requires 7 in lists && s.waits.Keys == lists.Keys
    ensures Admissible(s, LOCKED) && WaitsLocked(After(s, LOCKED), lists)
  {
    Started(s);
    FromReady(Next(s, Startup(1, 5)), lists);
    FirstCall(s, Startup(1, 5), LOCKED[1..]);
    assert LOCKED == [Startup(1, 5)] + LOCKED[1..];
  }

  /** A thread that blocks inside a critical section is suspended and on the list, and goes on executing. */
  lemma {:induction false} BlockedUnderLock(lists: map<int, Flag>)
    requires 7 in lists
    ensures Admissible(Fresh({1}, lists), LOCKED)
    ensures var r := After(Fresh({1}, lists), LOCKED); WaitsLocked(r, lists) && Scheduled(r) == r
  {
    FreshInv({1}, lists);
    assert Fresh({1}, lists).stat == map[1 := Init];
    FromUnstarted(Fresh({1}, lists), lists);
    StaysLocked(After(Fresh({1}, lists), LOCKED), lists);
  }

  lemma {:induction false} StaysLocked(s: Sched, lists: map<int, Flag>)
    requires WaitsLocked(s, lists)
    ensures Scheduled(s) == s
  {
    assert s.lock == 1 && s.current != NONE;
  }

  /** When it then blocks on a second list it is on both. */
  lemma {:induction false} BlockedTwice(lists: map<int, Flag>)
    requires 7 in lists && 8 in lists
    ensures Admissible(Fresh({1}, lists), LOCKED)
    ensures var r := After(Fresh({1}, lists), LOCKED);
            WaitsLocked(r, lists) && !WaitInv(Blocked(r, 8))
            && 1 in Blocked(r, 8).waits[7] && 1 in Blocked(r, 8).waits[8]
  {
    BlockedUnderLock(lists);
    OnBoth(After(Fresh({1}, lists), LOCKED), lists);
  }

  lemma {:induction false} OnBoth(s: Sched, lists: map<int, Flag>)
    requires WaitsLocked(s, lists) && 8 in lists
    ensures !WaitInv(Blocked(s, 8)) && 1 in Blocked(s, 8).waits[7] && 1 in Blocked(s, 8).waits[8]
  {
    BlockedBreaks(s, 8, 7);
    WaitersKnown(s, 8);
    Joins(s.waits[8], 1, s.prio, s.flags[8]);
  }

  /** rt_system_scheduler_init. */
  function Fresh(threads: set<int>, lists: map<int, Flag>): Sched {
    Sched(0, seq(LEVELS, _ => []), NONE, map t | t in threads :: Init, map t | t in threads :: 0, 0,
        map o | o in lists :: [], lists)
  }

  lemma {:induction false} FreshInv(threads: set<int>, lists: map<int, Flag>)
    requires NONE !in threads
    ensures Inv(Fresh(threads, lists))
  {
    var s := Fresh(threads, lists);
    forall p: nat {:trigger Bit(s.group, p)} ensures !Bit(s.group, p) { ZeroBit(p); }
  }

  // ---------------------------------------------------------------- the object

  class Scheduler {
    var readyPriorityGroup: nat
    var priorityTable: array<seq<int>>
    var currentThread: int
    var stat: map<int, Stat>
    var prio: Priorities
    var lockNest: int
    var waits: map<int, seq<int>>
    const flags: map<int, Flag>

    ghost function View(): Sched
      reads this, priorityTable
    {
      Sched(readyPriorityGroup, priorityTable[..], currentThread, stat, prio, lockNest, waits, flags)
    }

    /** rt_system_scheduler_init, over threads that are initialised and not started. */
    constructor (threads: set<int>, lists: map<int, Flag>)
      requires NONE !in threads
      ensures fresh(priorityTable) && View() == Fresh(threads, lists) && Inv(View())
    {
      priorityTable := new seq<int>[LEVELS](_ => []);
      readyPriorityGroup, currentThread, lockNest := 0, NONE, 0;
      stat, prio := map t | t in threads :: Init, map t | t in threads :: 0;
      waits, flags := map o | o in lists :: [], lists;
      new;
      assert priorityTable[..] == seq(LEVELS, _ => []);
      FreshInv(threads, lists);
    }

    method InsertThread(t: int)
      requires priorityTable.Length == LEVELS && t in prio && 0 <= prio[t] < LEVELS
      modifies this, priorityTable
      ensures priorityTable == old(priorityTable) && View() == Insert(old(View()), t)
    {
      if t == currentThread {
        stat := stat[t := Running];
        return;
      }
      stat := stat[t := Ready];
      priorityTable[prio[t]] := priorityTable[prio[t]] + [t];
      readyPriorityGroup := Or(readyPriorityGroup, Pow2(prio[t]));
    }

    method RemoveThread(t: int)
      requires priorityTable.Length == LEVELS && t in prio && 0 <= prio[t] < LEVELS
      modifies this, priorityTable
      ensures priorityTable == old(priorityTable) && View() == Remove(old(View()), t)
    {
      priorityTable[prio[t]] := Drop(priorityTable[prio[t]], t);
      if priorityTable[prio[t]] == [] {
        readyPriorityGroup := AndNot(readyPriorityGroup, Pow2(prio[t]));
      }
    }

    /** _get_highest_priority_thread. */
    method HighestPriorityThread() returns (t: int, level: nat)
      requires Inv(View()) && readyPriorityGroup != 0
      ensures readyPriorityGroup < 0x1_0000_0000 && level == Highest(View())
      ensures level < LEVELS && View().table[level] != [] && t == View().table[level][0]
      ensures t in stat && stat[t] == Ready && prio[t] == level
              && forall u :: u in stat && stat[u] == Ready ==> level <= prio[u]
    {
      HighestIsFirst(View());
      FfsIsLowest(readyPriorityGroup);
      level := Ffs(readyPriorityGroup) - 1;
      t := priorityTable[level][0];
      HeadIsReady(View(), level);
      forall u | u in stat && stat[u] == Ready ensures level <= prio[u] { ReadyBelow(View(), u); }
    }

    /** rt_schedule. */
    method Schedule()
      requires Inv(View()) && currentThread != NONE
      modifies this, priorityTable
      ensures priorityTable == old(priorityTable) && Inv(View()) && View() == Scheduled(old(View()))
    {
      ScheduleInv(View());
      if lockNest != 0 || readyPriorityGroup == 0 { return; }
      var to, highest := HighestPriorityThread();
      var needInsert := false;
      if stat[currentThread] == Running {
        if prio[currentThread] < highest {
          to := currentThread;
        } else {
          needInsert := true;
        }
      }
      if to != currentThread {
        SwitchThread(to, needInsert);
      } else {
        RemoveThread(currentThread);
        stat := stat[currentThread := Running];
      }
    }

    /** The branch of rt_schedule that changes the current thread. */
    method SwitchThread(to: int, needInsert: bool)
      requires priorityTable.Length == LEVELS && currentThread in prio && 0 <= prio[currentThread] < LEVELS
      requires to in prio && 0 <= prio[to] < LEVELS
      modifies this, priorityTable
      ensures priorityTable == old(priorityTable) && View() == SwitchTo(old(View()), to, needInsert)
    {
      var from := currentThread;
      currentThread := to;
      if needInsert {
        InsertThread(from);
      }
      RemoveThread(to);
      stat := stat[to := Running];
    }

    /** rt_thread_suspend. */
    method SuspendThread(t: int) returns (ok: bool)
      requires Inv(View()) && t in stat
      modifies this, priorityTable
      ensures priorityTable == old(priorityTable) && Inv(View()) && View() == Suspended(old(View()), t)
      ensures ok == (old(stat)[t] in {Ready, Running})
    {
      SuspendedInv(View(), t);
      ok := stat[t] == Ready || stat[t] == Running;
      if ok {
        RemoveThread(t);
        stat := stat[t := Suspend];
      }
    }

    /** rt_thread_resume. */
    method ResumeThread(t: int) returns (ok: bool)
      requires Inv(View()) && t in stat
      modifies this, priorityTable
      ensures priorityTable == old(priorityTable) && Inv(View()) && View() == Resumed(old(View()), t)
      ensures ok == (old(stat)[t] == Suspend)
    {
      ResumedInv(View(), t);
      ok := stat[t] == Suspend;
      if ok {
        ListRemove(t);
        InsertThread(t);
      }
    }

    /** rt_list_remove on the node of a suspended thread. */
    method ListRemove(t: int)
      modifies `waits
      ensures View() == Unlink(old(View()), t)
    {
      waits := map o | o in waits :: Drop(waits[o], t);
    }

    /** rt_ipc_list_suspend with the current thread. */
    method IpcListSuspend(o: int)
      requires Inv(View()) && Enabled(View(), Call.Block(o))
      modifies this, priorityTable
      ensures priorityTable == old(priorityTable) && Inv(View()) && View() == Blocked(old(View()), o)
    {
      BlockedInv(View(), o);
      WaitersKnown(View(), o);
      var thread := currentThread;
      var _ := SuspendThread(thread);
      waits := waits[o := Join(waits[o], thread, prio, flags[o])];
    }

    /** rt_ipc_list_resume. */
    method IpcListResume(o: int) returns (t: int)
      requires Inv(View()) && Enabled(View(), Call.Wake(o))
      modifies this, priorityTable
      ensures priorityTable == old(priorityTable) && Inv(View()) && View() == Woken(old(View()), o)
      ensures t == old(waits)[o][0] && old(stat)[t] == Suspend
    {
      t := waits[o][0];
      assert t in waits[o];
      var _ := ResumeThread(t);
    }

    /** rt_thread_delete. */
    method DeleteThread(t: int)
      requires Inv(View()) && Enabled(View(), Call.Delete(t))
      modifies this, priorityTable
      ensures priorityTable == old(priorityTable) && Inv(View()) && View() == Deleted(old(View()), t)
    {
      DeletedInv(View(), t);
      if stat[t] != Init {
        ListRemove(t);
        RemoveThread(t);
      }
      stat := stat[t := Close];
    }

    /** rt_thread_control with RT_THREAD_CTRL_CHANGE_PRIORITY. */
    method ChangePriority(t: int, level: int)
      requires Inv(View()) && t in stat && 0 <= level < LEVELS
      modifies this, priorityTable
      ensures priorityTable == old(priorityTable) && Inv(View()) && View() == Reprioritised(old(View()), t, level)
    {
      ReprioritisedInv(View(), t, level);
      if stat[t] == Ready {
        RemoveThread(t);
        prio := prio[t := level];
        InsertThread(t);
      } else {
        prio := prio[t := level];
      }
    }

    /** rt_thread_timeout. */
    method TimeOut(t: int)
      requires Inv(View()) && Enabled(View(), Call.TimeOut(t))
      modifies this, priorityTable
      ensures priorityTable == old(priorityTable) && Inv(View()) && View() == Next(old(View()), Call.TimeOut(t))
    {
      ResumedInv(View(), t);
      ListRemove(t);
      InsertThread(t);
      Schedule();
    }

    /** rt_thread_startup. */
    method Startup(t: int, initPriority: int)
      requires Inv(View()) && Enabled(View(), Call.Startup(t, initPriority))
      modifies this, priorityTable
      ensures priorityTable == old(priorityTable) && Inv(View())
              && View() == Next(old(View()), Call.Startup(t, initPriority))
    {
      StartupInv(View(), t, initPriority);
      prio := prio[t := initPriority];
      stat := stat[t := Suspend];
      var _ := ResumeThread(t);
      if currentThread != NONE {
        Schedule();
      }
    }

    /** rt_system_scheduler_start. */
    method Start()
      requires Inv(View()) && Enabled(View(), Call.Start)
      modifies this, priorityTable
      ensures priorityTable == old(priorityTable) && Inv(View()) && MostUrgentRuns(View())
              && View() == Starts(old(View()))
    {
      StartsInv(View());
      var to, _ := HighestPriorityThread();
      currentThread := to;
      RemoveThread(to);
      stat := stat[to := Running];
    }

    method EnterCritical()
      requires Inv(View())
      modifies `lockNest
      ensures Inv(View()) && View() == Next(old(View()), Call.EnterCritical)
    {
      UnlockInv(View(), lockNest + 1);
      lockNest := lockNest + 1;
    }

    method ExitCritical()
      requires Inv(View())
      modifies this, priorityTable
      ensures priorityTable == old(priorityTable) && Inv(View()) && View() == Next(old(View()), Call.ExitCritical)
    {
      UnlockInv(View(), if lockNest <= 1 then 0 else lockNest - 1);
      lockNest := lockNest - 1;
      if lockNest <= 0 {
        lockNest := 0;
        if currentThread != NONE {
          Schedule();
        }
      }
    }
  }
}
