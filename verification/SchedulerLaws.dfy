/**
  What the calls of the scheduler promise: who runs afterwards, what happens to the thread named, and that the others
  stay.
 */
module SchedulerLaws {
  import opened Rings
  import opened WaitLists
  import opened Schedulers

  // ---------------------------------------------------------------- who runs after a call that schedules

  /** The thread can run: it is ready, or it is running. */
  predicate Runnable(s: Sched, t: int) { t in s.stat && s.stat[t] in {Ready, Running} }

  /** The same threads can run, and every priority and wait list is the same. */
  ghost predicate SameThreads(s: Sched, r: Sched) {
    r.prio == s.prio && r.waits == s.waits && r.stat.Keys == s.stat.Keys
    && forall t :: t in s.stat ==> (Runnable(r, t) <==> Runnable(s, t)) && (Runnable(s, t) || r.stat[t] == s.stat[t])
  }

  lemma {:induction false} ScheduledSame(s: Sched)
    requires Inv(s) && s.current != NONE
    ensures SameThreads(s, Scheduled(s)) && Scheduled(s).lock == s.lock
  {
    forall t | t in s.stat ensures t in Scheduled(s).stat && (Runnable(Scheduled(s), t) <==> Runnable(s, t))
                               && (Runnable(s, t) || Scheduled(s).stat[t] == s.stat[t]) {
      ScheduleKeepsThreads(s, t);
    }
    if s.lock == 0 && s.group != 0 {
      HighestIsFirst(s);
      HeadIsReady(s, Highest(s));
    }
  }

  /**
    The outermost unlock releases the scheduler and schedules: the most urgent thread runs, if and only if the current
    one did or somebody is ready.
   */
  lemma {:induction false} UnlockSchedules(s: Sched)
    requires Inv(s) && s.lock <= 1 && s.current != NONE
    ensures var r := Next(s, ExitCritical);
            Inv(r) && r.lock == 0 && SameThreads(s, r)
            && (MostUrgentRuns(r) <==> s.stat[s.current] == Running || exists t :: t in s.stat && s.stat[t] == Ready)
  {
    UnlockInv(s, 0);
    ScheduleRunsMostUrgent(s.(lock := 0));
    ScheduledSame(s.(lock := 0));
  }

  /** So does a call of the scheduler that finds it released; one that finds it locked changes nothing. */
  lemma {:induction false} RescheduleSchedules(s: Sched)
    requires Inv(s) && s.current != NONE
    ensures var r := Next(s, Reschedule);
            Inv(r) && r.lock == s.lock && SameThreads(s, r) && (s.lock != 0 ==> r == s)
            && (s.lock == 0 ==>
                  (MostUrgentRuns(r)
                   <==> s.stat[s.current] == Running || exists t :: t in s.stat && s.stat[t] == Ready))
  {
    ScheduledSame(s);
    if s.lock == 0 { ScheduleRunsMostUrgent(s); } else { ScheduleInv(s); }
  }

  /**
    Any other unlock, and any lock, moves nobody: only the nesting is counted; before the start nobody is scheduled.
   */
  lemma {:induction false} LockCounts(s: Sched)
    requires Inv(s)
    ensures Next(s, EnterCritical) == s.(lock := s.lock + 1)
    ensures s.lock > 1 ==> Next(s, ExitCritical) == s.(lock := s.lock - 1)
    ensures s.current == NONE && s.lock <= 1 ==> Next(s, ExitCritical) == s.(lock := 0)
  {}

  /** So a critical section that encloses calls leaves the nesting as it was. */
  lemma {:induction false} LockNests(s: Sched)
    requires Inv(s) && s.lock >= 1
    ensures Inv(Next(s, EnterCritical)) && Next(Next(s, EnterCritical), ExitCritical) == s
  {
    var r := s.(lock := s.lock + 1);
    UnlockInv(s, s.lock + 1);
    LockCounts(s);
    LockCounts(r);
    assert r.(lock := r.lock - 1) == s;
  }

  /** A timeout makes its thread runnable and schedules: with the lock released the most urgent thread runs. */
  lemma {:induction false} TimeOutSchedules(s: Sched, t: int)
    requires Inv(s) && Enabled(s, TimeOut(t))
    ensures var r := Next(s, TimeOut(t));
            Inv(r) && Runnable(r, t) && WaitsNowhere(r, t) && (if s.lock == 0 then MostUrgentRuns(r)
                                                               else r.current == s.current)
  {
    ResumedExactly(s, t);
    var u := Resumed(s, t);
    ScheduledSame(u);
    ScheduleInv(u);
    if s.lock == 0 { ScheduleRunsMostUrgent(u); }
  }

  /** Starting a thread gives it its level and makes it ready, and schedules if the system runs. */
  lemma {:induction false} StartupSchedules(s: Sched, t: int, level: int)
    requires Inv(s) && Enabled(s, Startup(t, level))
    ensures var r := Next(s, Startup(t, level));
            Inv(r) && Runnable(r, t) && r.prio == s.prio[t := level]
            && (if s.lock == 0 && s.current != NONE then MostUrgentRuns(r) else r.current == s.current)
  {
    var v := s.(prio := s.prio[t := level], stat := s.stat[t := Suspend]);
    StartupInv(s, t, level);
    ResumedExactly(v, t);
    var u := Resumed(v, t);
    if s.current != NONE {
      ScheduledSame(u);
      ScheduleInv(u);
      if s.lock == 0 { ScheduleRunsMostUrgent(u); }
    }
  }

  /** A running thread that is not more urgent than the first ready one gives way to it and goes behind its equals. */
  lemma {:induction false} Preempted(s: Sched)
    requires Inv(s) && s.current != NONE && s.lock == 0 && s.stat[s.current] == Running
    ensures var r := Scheduled(s);
            r.current != s.current <==> exists t :: t in s.stat && s.stat[t] == Ready && s.prio[t] <= s.prio[s.current]
    ensures var r := Scheduled(s);
            Inv(r) && (r.current != s.current ==>
                         r.stat[s.current] == Ready && IsLast(r.table[s.prio[s.current]], s.current))
  {
    ScheduleInv(s);
    GroupZero(s);
    if s.group == 0 {
      forall t | t in s.stat && s.stat[t] == Ready ensures false { ReadyBelow(s, t); }
    } else {
      HighestIsFirst(s);
      var p := Highest(s);
      HeadIsReady(s, p);
      var to := s.table[p][0];
      forall t | t in s.stat && s.stat[t] == Ready ensures p <= s.prio[t] { ReadyBelow(s, t); }
      if p <= s.prio[s.current] { PreemptedLast(s, to); }
    }
  }

  lemma {:induction false} PreemptedLast(s: Sched, to: int)
    requires Inv(s) && s.current in s.stat && to in s.stat && to != s.current && s.table[s.prio[to]] != []
             && s.table[s.prio[to]][0] == to
    ensures var r := SwitchTo(s, to, true); r.stat[s.current] == Ready && IsLast(r.table[s.prio[s.current]], s.current)
  {
    var l := s.table[s.prio[s.current]];
    var m := l + [s.current];
    if s.prio[to] == s.prio[s.current] { assert Drop(m, to) == l[1..] + [s.current]; }
  }

  // ---------------------------------------------------------------- what a call does to the thread it names

  predicate IsLast(l: seq<int>, t: int) { l != [] && l[|l| - 1] == t }

  /** t aside, nothing changes: the other threads are where they were, in the same order. */
  ghost predicate OthersStay(s: Sched, r: Sched, t: int) {
    r.current == s.current && r.lock == s.lock && r.flags == s.flags && |r.table| == |s.table|
    && (forall u :: u != t ==> (u in r.stat <==> u in s.stat) && (u in r.prio <==> u in s.prio))
    && (forall u :: u != t && u in s.stat && u in r.stat ==> r.stat[u] == s.stat[u])
    && (forall u :: u != t && u in s.prio && u in r.prio ==> r.prio[u] == s.prio[u])
    && (forall p {:trigger r.table[p]} :: 0 <= p < |r.table| ==> Drop(r.table[p], t) == Drop(s.table[p], t))
    && r.waits.Keys == s.waits.Keys && forall o :: o in s.waits ==> Drop(r.waits[o], t) == Drop(s.waits[o], t)
  }

  lemma {:induction false} DropAgain(l: seq<int>, t: int)
    requires Distinct(l)
    ensures Drop(Drop(l, t), t) == Drop(l, t) && Drop(l + [t], t) == if t in l then Drop(l, t) + [t] else Drop(l, t)
  {
    if l == [] {
      assert [] + [t] == [t];
    } else {
      assert l == [l[0]] + l[1..] && l[0] !in l[1..];
      assert (l + [t])[1..] == l[1..] + [t];
      if l[0] == t { NothingDropped(l[1..], t); } else { DropAgain(l[1..], t); }
    }
  }

  lemma {:induction false} ListsDistinct(s: Sched, t: int)
    requires Inv(s)
    ensures forall p {:trigger s.table[p]} :: 0 <= p < LEVELS ==>
              Distinct(s.table[p]) && Drop(Drop(s.table[p], t), t) == Drop(s.table[p], t)
              && (t in s.stat && s.stat[t] != Ready ==>
                    t !in s.table[p] && Drop(s.table[p] + [t], t) == Drop(s.table[p], t))
    ensures forall o :: o in s.waits ==> Drop(Drop(s.waits[o], t), t) == Drop(s.waits[o], t)
  {
    forall p {:trigger s.table[p]} | 0 <= p < LEVELS
      ensures Distinct(s.table[p]) && Drop(Drop(s.table[p], t), t) == Drop(s.table[p], t)
      ensures t in s.stat && s.stat[t] != Ready ==> t !in s.table[p] && Drop(s.table[p] + [t], t) == Drop(s.table[p], t)
    {
      assert ListInv(s, p, s.table[p]);
      DropAgain(s.table[p], t);
    }
    forall o | o in s.waits ensures Drop(Drop(s.waits[o], t), t) == Drop(s.waits[o], t) { DropAgain(s.waits[o], t); }
  }

  /**
    Resuming a suspended thread takes it off its wait list and makes it the last of its level, or running if it is the
    current one; on any other thread it does nothing.
   */
  lemma {:induction false} ResumedExactly(s: Sched, t: int)
    requires Inv(s) && t in s.stat
    ensures var r := Resumed(s, t);
            Inv(r) && OthersStay(s, r, t) && r.prio == s.prio
            && if s.stat[t] != Suspend then r == s
               else WaitsNowhere(r, t)
                    && (if t == s.current then r.stat[t] == Running
                        else r.stat[t] == Ready && IsLast(r.table[s.prio[t]], t))
  {
    ResumedInv(s, t);
    ListsDistinct(s, t);
    UnlinkInv(s, t);
  }

  /** Suspending a ready or running thread takes it out of the ready lists; on any other it does nothing. */
  lemma {:induction false} SuspendedExactly(s: Sched, t: int)
    requires Inv(s) && t in s.stat
    ensures var r := Suspended(s, t);
            Inv(r) && OthersStay(s, r, t) && r.prio == s.prio && r.waits == s.waits
            && (forall p {:trigger r.table[p]} :: 0 <= p < LEVELS && Runnable(s, t) ==> t !in r.table[p])
            && if Runnable(s, t) then r.stat[t] == Suspend else r == s
  {
    SuspendedInv(s, t);
    ListsDistinct(s, t);
    var r := Suspended(s, t);
    forall p {:trigger r.table[p]} | 0 <= p < LEVELS && Runnable(s, t) ensures t !in r.table[p] {
      assert ListInv(r, p, r.table[p]);
    }
  }

  /** A new priority changes the thread's level and nothing else; a ready one becomes the last there. */
  lemma {:induction false} ReprioritisedExactly(s: Sched, t: int, level: int)
    requires Inv(s) && t in s.stat && 0 <= level < LEVELS
    ensures var r := Reprioritised(s, t, level);
            Inv(r) && OthersStay(s, r, t) && r.stat == s.stat && r.waits == s.waits && r.prio[t] == level
            && (s.stat[t] == Ready ==> IsLast(r.table[level], t))
  {
    ReprioritisedInv(s, t, level);
    assert Reprioritised(s, t, level).prio == s.prio[t := level];
    if s.stat[t] == Ready { MovedLevel(s, t, level); }
  }

  lemma {:induction false} MovedLevel(s: Sched, t: int, level: int)
    requires Inv(s) && t in s.stat && 0 <= level < LEVELS && s.stat[t] == Ready
    ensures var r := Reprioritised(s, t, level);
            r.stat == s.stat && IsLast(r.table[level], t)
            && forall p {:trigger r.table[p]} :: 0 <= p < LEVELS ==> Drop(r.table[p], t) == Drop(s.table[p], t)
  {
    var r := Reprioritised(s, t, level);
    forall p {:trigger r.table[p]} | 0 <= p < LEVELS ensures Drop(r.table[p], t) == Drop(s.table[p], t) {
      var l := s.table[p];
      assert ListInv(s, p, l);
      DropAgain(l, t);
      DropFacts(l, t);
      DropAgain(Drop(l, t), t);
      if p != s.prio[t] { assert t !in l by { OnePlace(s, t); } }
    }
  }

  /** A deleted thread is closed, and in no list. */
  lemma {:induction false} DeletedExactly(s: Sched, t: int)
    requires Inv(s) && t in s.stat
    ensures var r := Deleted(s, t);
            Inv(r) && OthersStay(s, r, t) && r.prio == s.prio && r.stat[t] == Close && WaitsNowhere(r, t)
            && forall p {:trigger r.table[p]} :: 0 <= p < LEVELS ==> t !in r.table[p]
  {
    DeletedInv(s, t);
    ListsDistinct(s, t);
    var r := Deleted(s, t);
    forall p {:trigger r.table[p]} | 0 <= p < LEVELS ensures t !in r.table[p] { assert ListInv(r, p, r.table[p]); }
  }

  lemma {:induction false} BlockedOthers(s: Sched, o: int)
    requires Inv(s) && Enabled(s, Block(o))
    ensures var t, w := s.current, Suspended(s, s.current);
            OthersStay(s, w, t) && w.prio == s.prio && w.stat[t] == Suspend && w.waits == s.waits
  {
    SuspendedExactly(s, s.current);
  }

  lemma {:induction false} BlockedList(s: Sched, o: int)
    requires Inv(s) && Enabled(s, Block(o))
    ensures var t, ws := s.current, Blocked(s, o).waits;
            ws.Keys == s.waits.Keys && t in ws[o] && Drop(ws[o], t) == Drop(s.waits[o], t)
            && forall q :: q in s.waits && q != o ==> ws[q] == s.waits[q]
  {
    WaitersKnown(s, o);
    JoinDropped(s.waits[o], s.current, s.prio, s.flags[o]);
    NothingDropped(s.waits[o], s.current);
  }

  /** Blocking suspends the current thread and puts it in one list; the other lists stay. */
  lemma {:induction false} BlockedPuts(s: Sched, o: int)
    requires Inv(s) && Enabled(s, Block(o))
    ensures var t, r := s.current, Blocked(s, o);
            Inv(r) && OthersStay(s, r, t) && r.prio == s.prio && r.stat[t] == Suspend && t in r.waits[o]
            && forall q :: q in s.waits && q != o ==> r.waits[q] == s.waits[q]
  {
    BlockedInv(s, o);
    BlockedOthers(s, o);
    BlockedList(s, o);
  }

  /** Waking a list resumes its first thread, and the others wait on in their order. */
  lemma {:induction false} WokenFirst(s: Sched, o: int)
    requires Inv(s) && Enabled(s, Wake(o))
    ensures var t, r := s.waits[o][0], Woken(s, o);
            Inv(r) && OthersStay(s, r, t) && Runnable(r, t) && r.waits[o] == s.waits[o][1..]
            && forall q :: q in s.waits && q != o ==> r.waits[q] == s.waits[q]
  {
    var t := s.waits[o][0];
    assert t in s.waits[o];
    ResumedExactly(s, t);
    forall q | q in s.waits && q != o ensures Drop(s.waits[q], t) == s.waits[q] { NothingDropped(s.waits[q], t); }
  }
}
