/**
  A mutex inside the kernel: a take can move a ready owner to another ready list or change the priority of an owner
  that waits elsewhere, and the release that gives the mutex up restores it.
 */
module KernelMutexes {
  import opened WaitLists
  import opened KernelCalls
  import M = Mutexes
  import Sched = Schedulers

  /** The mutex's own fields beside the scheduler's state; o is its wait list. */
  datatype State = State(sched: Sched.Sched, o: int, value: nat, owner: M.Owner, hold: nat, original: int, depth: nat)

  /** The current thread takes or releases, and any other kernel call happens in between. */
  datatype Step = Take(block: bool) | Release | Other(c: Sched.Call)

  /** What the mutex's own system sees of the kernel. */
  function View(k: State): M.State
    requires k.o in k.sched.waits
  {
    M.State(M.Core(k.value, k.owner, k.hold, k.original, k.sched.waits[k.o]), k.sched.prio, k.depth)
  }

  /** The owner has been started, and was so at a level there is. */
  ghost predicate OwnerInv(k: State) {
    k.owner.By? ==>
      k.owner.t in k.sched.stat && k.sched.stat[k.owner.t] != Sched.Init && 0 <= k.original < Sched.LEVELS
  }

  ghost predicate Inv(k: State) {
    Sched.Inv(k.sched) && k.o in k.sched.waits && M.Inv(View(k)) && OwnerInv(k)
  }

  function Flag(k: State): Flag
    requires Inv(k)
  {
    k.sched.flags[k.o]
  }

  /** The take finds the mutex owned by somebody else and may wait. */
  predicate Waits(k: State, block: bool) {
    k.owner != M.By(k.sched.current) && k.value == 0 && block
  }

  ghost predicate Enabled(k: State, a: Step)
    requires k.o in k.sched.waits
  {
    match a
    case Take(block) =>
      Sched.Executes(k.sched) && k.sched.current !in k.sched.waits[k.o]
      && (Waits(k, block) ==> Sched.WaitsNowhere(k.sched, k.sched.current))
    case Release => Sched.Executes(k.sched)
    case Other(c) => Sched.Enabled(k.sched, c) && c != Sched.Block(k.o) && c != Sched.Wake(k.o)
  }

  /** The owner's priority is raised to p if it is lower. */
  function Boosted(s: Sched.Sched, owner: int, p: int): Sched.Sched
    requires Sched.Inv(s) && owner in s.prio && 0 <= p < Sched.LEVELS
  {
    if p < s.prio[owner] then Sched.Reprioritised(s, owner, p) else s
  }

  function Restored(s: Sched.Sched, t: int, p: int): Sched.Sched
    requires Sched.Inv(s) && t in s.prio && 0 <= p < Sched.LEVELS
  {
    if p != s.prio[t] then Sched.Reprioritised(s, t, p) else s
  }

  lemma {:induction false} BoostedKeeps(s: Sched.Sched, owner: int, p: int)
    requires Sched.Inv(s) && owner in s.prio && 0 <= p < Sched.LEVELS && owner != s.current && Sched.Executes(s)
    ensures var r := Boosted(s, owner, p);
            Sched.Inv(r) && Sched.Executes(r) && r.current == s.current && r.waits == s.waits && r.flags == s.flags
            && r.stat == s.stat && r.prio == M.Raise(s.prio, owner, p)
  {
    if p < s.prio[owner] { Sched.ReprioritisedInv(s, owner, p); }
  }

  lemma {:induction false} RestoredKeeps(s: Sched.Sched, t: int, p: int)
    requires Sched.Inv(s) && t in s.prio && 0 <= p < Sched.LEVELS && t == s.current
    ensures var r := Restored(s, t, p);
            Sched.Inv(r) && r.current == s.current && r.waits == s.waits && r.flags == s.flags && r.stat == s.stat
            && r.prio == s.prio[t := p]
  {
    if p != s.prio[t] { Sched.ReprioritisedInv(s, t, p); } else { assert s.prio[t := p] == s.prio; }
  }

  /** The branch of rt_mutex_take that waits. */
  function Waiting(k: State): State
    requires Inv(k) && Enabled(k, Take(true)) && Waits(k, true)
  {
    var s := k.sched;
    BoostedKeeps(s, k.owner.t, s.prio[s.current]);
    k.(sched := Sched.Blocked(Boosted(s, k.owner.t, s.prio[s.current]), k.o))
  }

  /** The branch of rt_mutex_release that gives the mutex up, and passes it on if somebody waits. */
  function GivenUp(k: State): State
    requires Inv(k) && Sched.Executes(k.sched) && k.owner == M.By(k.sched.current)
  {
    var s := k.sched;
    RestoredKeeps(s, s.current, k.original);
    var r := Restored(s, s.current, k.original);
    if s.waits[k.o] == [] then State(r, k.o, k.value + 1, M.Nobody, 0, M.NO_PRIORITY, 0)
    else
      var first := s.waits[k.o][0];
      assert first in s.waits[k.o];
      State(Sched.Woken(r, k.o), k.o, k.value, M.By(first), M.Up(0), r.prio[first], 1)
  }

  function Next(k: State, a: Step): State
    requires Inv(k) && Enabled(k, a)
  {
    var s := k.sched;
    match a
    case Take(block) =>
      if k.owner == M.By(s.current) then k.(hold := M.Up(k.hold), depth := k.depth + 1)
      else if k.value > 0 then
        State(s, k.o, k.value - 1, M.By(s.current), M.Up(k.hold), s.prio[s.current], k.depth + 1)
      else if !block then k
      else Waiting(k)
    case Release =>
      if k.owner != M.By(s.current) then k
      else if M.Down(k.hold) != 0 then k.(hold := M.Down(k.hold), depth := k.depth - 1)
      else GivenUp(k)
    case Other(c) => k.(sched := Sched.Next(s, c))
  }

  /** The steps of the mutex's system that a step of the kernel amounts to: one or none. */
  function Seen(k: State, a: Step): seq<M.Step>
    requires k.o in k.sched.waits
  {
    match a
    case Take(block) => [M.Take(k.sched.current, block)]
    case Release => [M.Release(k.sched.current)]
    case Other(c) =>
      match EffectOf(k.sched, k.o, c)
      case Same => []
      case Leaves(t) => [M.TimeOut(t)]
      case Reprices(t, level) => [M.SetPriority(t, level)]
  }

  // ---------------------------------------------------------------- the kernel's mutex is the mutex

  /** The kernel after a step looks like the mutex's system after the steps seen. */
  ghost predicate Agrees(k: State, a: Step)
    requires Inv(k) && Enabled(k, a)
  {
    var r, seen := Next(k, a), Seen(k, a);
    k.o in r.sched.waits && r.o == k.o && r.sched.flags == k.sched.flags
    && (seen == [] ==> View(r) == View(k))
    && (seen != [] ==> M.Enabled(View(k), seen[0]) && View(r) == M.Next(View(k), seen[0], Flag(k)))
  }

  lemma {:induction false} TakeAgrees(k: State, block: bool)
    requires Inv(k) && Enabled(k, Take(block))
    ensures Agrees(k, Take(block))
  {
    if Waits(k, block) {
      var s := k.sched;
      BoostedKeeps(s, k.owner.t, s.prio[s.current]);
      BlockedWaits(Boosted(s, k.owner.t, s.prio[s.current]), k.o, k.o);
    }
  }

  lemma {:induction false} ReleaseAgrees(k: State)
    requires Inv(k) && Enabled(k, Release)
    ensures Agrees(k, Release)
  {
    var s := k.sched;
    if k.owner == M.By(s.current) && M.Down(k.hold) == 0 {
      RestoredKeeps(s, s.current, k.original);
      if s.waits[k.o] != [] { WokenWaits(Restored(s, s.current, k.original), k.o, k.o); }
    }
  }

  lemma {:induction false} CallAgrees(k: State, c: Sched.Call)
    requires Inv(k) && Enabled(k, Other(c))
    ensures Agrees(k, Other(c))
  {
    CallShows(k.sched, k.o, c);
  }

  /** Every step of the kernel is what its mutex's system does, seen from the mutex. */
  lemma {:induction false} StepAgrees(k: State, a: Step)
    requires Inv(k) && Enabled(k, a)
    ensures Agrees(k, a)
  {
    match a
    case Take(block) => TakeAgrees(k, block);
    case Release => ReleaseAgrees(k);
    case Other(c) => CallAgrees(k, c);
  }

  // ---------------------------------------------------------------- what every step keeps

  ghost predicate IsStarted(s: Sched.Sched, t: int) { t in s.stat && s.stat[t] != Sched.Init }

  lemma {:induction false} UnlockedStarted(s: Sched.Sched, t: int)
    requires Sched.Inv(s) && IsStarted(s, t)
    ensures IsStarted(Sched.Next(s, Sched.ExitCritical), t)
  {
    if s.lock <= 1 && s.current != Sched.NONE {
      Sched.UnlockInv(s, 0);
      Sched.ScheduleKeepsThreads(s.(lock := 0), t);
    }
  }

  lemma {:induction false} TimedOutStarted(s: Sched.Sched, u: int, t: int)
    requires Sched.Inv(s) && Sched.Enabled(s, Sched.TimeOut(u)) && IsStarted(s, t)
    ensures IsStarted(Sched.Next(s, Sched.TimeOut(u)), t)
  {
    Sched.ResumedInv(s, u);
    Sched.ScheduleKeepsThreads(Sched.Resumed(s, u), t);
  }

  lemma {:induction false} StartupStarted(s: Sched.Sched, u: int, level: int, t: int)
    requires Sched.Inv(s) && Sched.Enabled(s, Sched.Startup(u, level)) && IsStarted(s, t)
    ensures IsStarted(Sched.Next(s, Sched.Startup(u, level)), t)
  {
    Sched.StartupInv(s, u, level);
    var v := Sched.Resumed(s.(prio := s.prio[u := level], stat := s.stat[u := Sched.Suspend]), u);
    if v.current != Sched.NONE { Sched.ScheduleKeepsThreads(v, t); }
  }

  lemma {:induction false} DispatchStarted(s: Sched.Sched, t: int)
    requires Sched.Inv(s) && Sched.Enabled(s, Sched.Start) && IsStarted(s, t)
    ensures IsStarted(Sched.Next(s, Sched.Start), t)
  {
    Sched.HighestIsFirst(s);
    Sched.HeadIsReady(s, Sched.Highest(s));
  }

  /** No call takes a thread back to before its start. */
  lemma {:induction false} StaysStarted(s: Sched.Sched, c: Sched.Call, t: int)
    requires Sched.Inv(s) && Sched.Enabled(s, c) && IsStarted(s, t)
    ensures IsStarted(Sched.Next(s, c), t)
  {
    match c
    case Reschedule => Sched.ScheduleKeepsThreads(s, t);
    case ExitCritical => UnlockedStarted(s, t);
    case TimeOut(u) => TimedOutStarted(s, u, t);
    case Startup(u, level) => StartupStarted(s, u, level, t);
    case Start => DispatchStarted(s, t);
    case _ =>
  }

  lemma {:induction false} WaitingInv(k: State)
    requires Inv(k) && Enabled(k, Take(true)) && Waits(k, true)
    ensures Sched.Inv(Waiting(k).sched) && OwnerInv(Waiting(k))
  {
    var s := k.sched;
    var b := Boosted(s, k.owner.t, s.prio[s.current]);
    BoostedKeeps(s, k.owner.t, s.prio[s.current]);
    Sched.BlockedInv(b, k.o);
  }

  lemma {:induction false} GivenUpInv(k: State)
    requires Inv(k) && Sched.Executes(k.sched) && k.owner == M.By(k.sched.current)
    ensures Sched.Inv(GivenUp(k).sched) && OwnerInv(GivenUp(k))
  {
    var s := k.sched;
    var r := Restored(s, s.current, k.original);
    RestoredKeeps(s, s.current, k.original);
    if s.waits[k.o] != [] {
      var first := s.waits[k.o][0];
      assert first in s.waits[k.o];
      Sched.WokenInv(r, k.o);
    }
  }

  /** The scheduler's and the mutex's invariants survive every step together. */
  lemma {:induction false} StepInv(k: State, a: Step)
    requires Inv(k) && Enabled(k, a)
    ensures Inv(Next(k, a))
  {
    StepAgrees(k, a);
    var seen := Seen(k, a);
    if seen != [] { M.StepInv(View(k), seen[0], Flag(k)); }
    match a
    case Take(block) => if Waits(k, block) { WaitingInv(k); }
    case Release =>
      if k.owner == M.By(k.sched.current) && M.Down(k.hold) == 0 { GivenUpInv(k); }
    case Other(c) =>
      Sched.StepInv(k.sched, c);
      if k.owner.By? { StaysStarted(k.sched, c, k.owner.t); }
  }

  // ---------------------------------------------------------------- runs

  ghost predicate Admissible(k: State, run: seq<Step>)
    decreases |run|
  {
    run != [] ==> Inv(k) && Enabled(k, run[0]) && Admissible(Next(k, run[0]), run[1..])
  }

  ghost function After(k: State, run: seq<Step>): State
    requires Admissible(k, run)
    decreases |run|
  {
    if run == [] then k else After(Next(k, run[0]), run[1..])
  }

  ghost function SeenRun(k: State, run: seq<Step>): seq<M.Step>
    requires Admissible(k, run)
    decreases |run|
  {
    if run == [] then [] else Seen(k, run[0]) + SeenRun(Next(k, run[0]), run[1..])
  }

  lemma {:induction false} HeadRefines(k: State, a: Step, rest: seq<M.Step>)
    requires Inv(k) && Enabled(k, a) && Agrees(k, a)
    requires M.Admissible(View(Next(k, a)), rest, Flag(k))
    ensures M.Admissible(View(k), Seen(k, a) + rest, Flag(k))
    ensures M.After(View(k), Seen(k, a) + rest, Flag(k)) == M.After(View(Next(k, a)), rest, Flag(k))
  {
    var seen := Seen(k, a);
    if seen == [] {
      assert seen + rest == rest;
    } else {
      assert seen == [seen[0]];
      M.FirstStep(View(k), seen[0], rest, Flag(k));
    }
  }

  /** Whatever the threads do, the kernel's mutex behaves as its own system does, so all its theorems hold there. */
  lemma {:induction false} RunRefines(k: State, run: seq<Step>)
    requires Inv(k) && Admissible(k, run)
    ensures var r := After(k, run);
            Inv(r) && r.o == k.o && Flag(r) == Flag(k)
            && M.Admissible(View(k), SeenRun(k, run), Flag(k))
            && View(r) == M.After(View(k), SeenRun(k, run), Flag(k))
    decreases |run|
  {
    if run != [] {
      var r := Next(k, run[0]);
      StepAgrees(k, run[0]);
      StepInv(k, run[0]);
      RunRefines(r, run[1..]);
      HeadRefines(k, run[0], SeenRun(r, run[1..]));
    }
  }

  // ---------------------------------------------------------------- urgency

  /** The step changes a priority from outside, past a neighbour among the owner and the waiters. */
  ghost predicate Passes(k: State, a: Step)
    requires Inv(k)
  {
    a.Other? && a.c.SetPriority? && !M.KeepsUrgency(View(k), M.SetPriority(a.c.t, a.c.level))
  }

  /** A thread that is yet to be started is neither the owner nor waiting. */
  lemma {:induction false} StartedOutside(k: State, t: int, level: int)
    requires Inv(k) && t in k.sched.stat && k.sched.stat[t] == Sched.Init
    ensures M.KeepsUrgency(View(k), M.SetPriority(t, level))
  {
    var c := M.Chain(View(k));
    forall i {:trigger c[i]} | 0 <= i < |c| ensures c[i] != t {
      if i > 0 { assert c[i] == k.sched.waits[k.o][i - 1] && c[i] in k.sched.waits[k.o]; }
    }
  }

  /** On a PRIO mutex a step keeps the urgency exactly unless it is such a change; boosts and restorations included. */
  lemma {:induction false} StepUrgent(k: State, a: Step)
    requires Inv(k) && Enabled(k, a) && Flag(k).Prio? && M.Urgent(View(k))
    ensures Inv(Next(k, a)) && (M.Urgent(View(Next(k, a))) <==> !Passes(k, a))
  {
    StepAgrees(k, a);
    StepInv(k, a);
    var seen := Seen(k, a);
    if seen != [] { M.StepInherits(View(k), seen[0]); }
    if a.Other? && a.c.Startup? { StartedOutside(k, a.c.t, a.c.level); }
  }

  ghost predicate NonePasses(k: State, run: seq<Step>)
    requires Admissible(k, run)
    decreases |run|
  {
    run != [] ==> !Passes(k, run[0]) && NonePasses(Next(k, run[0]), run[1..])
  }

  lemma {:induction false} RunUrgent(k: State, run: seq<Step>)
    requires Inv(k) && Flag(k).Prio? && M.Urgent(View(k)) && Admissible(k, run)
    ensures Inv(After(k, run)) && (NonePasses(k, run) ==> M.Urgent(View(After(k, run))))
    decreases |run|
  {
    RunRefines(k, run);
    if run != [] && NonePasses(k, run) {
      var r := Next(k, run[0]);
      StepUrgent(k, run[0]);
      StepAgrees(k, run[0]);
      RunUrgent(r, run[1..]);
    }
  }

  // ---------------------------------------------------------------- the priority at acquisition

  /** t owns the mutex in every state of the run. */
  ghost predicate Owns(k: State, run: seq<Step>, t: int)
    requires Admissible(k, run)
    decreases |run|
  {
    k.owner == M.By(t) && (run != [] ==> Owns(Next(k, run[0]), run[1..], t))
  }

  /** Becoming the owner records the priority held then; staying the owner keeps the record. */
  lemma {:induction false} Records(k: State, a: Step, t: int)
    requires Inv(k) && Enabled(k, a) && Next(k, a).owner == M.By(t)
    ensures t in k.sched.prio
    ensures Next(k, a).original == if k.owner == M.By(t) then k.original else k.sched.prio[t]
  {
    var s := k.sched;
    if a.Release? && k.owner == M.By(s.current) && M.Down(k.hold) == 0 && s.waits[k.o] != [] {
      assert s.waits[k.o][0] in s.waits[k.o];
      RestoredKeeps(s, s.current, k.original);
    }
  }

  lemma {:induction false} RecordStays(k: State, run: seq<Step>, t: int)
    requires Inv(k) && Admissible(k, run) && Owns(k, run, t)
    ensures Inv(After(k, run)) && After(k, run).original == k.original && After(k, run).owner == M.By(t)
    decreases |run|
  {
    if run != [] {
      StepInv(k, run[0]);
      Records(k, run[0], t);
      RecordStays(Next(k, run[0]), run[1..], t);
    }
  }

  /**
    Whatever boosts and other calls come in between, giving the mutex up sets the scheduler's priority of the thread
    back to what it was when it got the mutex.
   */
  lemma {:induction false} Restores(k: State, a: Step, run: seq<Step>, t: int)
    requires Inv(k) && Enabled(k, a) && k.owner != M.By(t)
    requires var r := Next(k, a); Admissible(r, run) && Owns(r, run, t)
    requires var u := After(Next(k, a), run); u.sched.current == t && Sched.Executes(u.sched) && u.hold == 1
    ensures var u := After(Next(k, a), run);
            Inv(u) && Enabled(u, Release) && t in k.sched.prio
            && var v := Next(u, Release); v.owner != M.By(t) && t in v.sched.prio && v.sched.prio[t] == k.sched.prio[t]
  {
    var r := Next(k, a);
    StepInv(k, a);
    Records(k, a, t);
    RecordStays(r, run, t);
    var u := After(r, run);
    GivesBack(u);
  }

  lemma {:induction false} GivesBack(k: State)
    requires Inv(k) && Enabled(k, Release) && k.owner == M.By(k.sched.current) && k.hold == 1
    ensures var v, t := Next(k, Release), k.sched.current;
            v.owner != M.By(t) && t in v.sched.prio && v.sched.prio[t] == k.original
  {
    var s := k.sched;
    RestoredKeeps(s, s.current, k.original);
    assert M.Down(k.hold) == 0;
    if s.waits[k.o] != [] {
      assert s.waits[k.o][0] in s.waits[k.o];
      WokenWaits(Restored(s, s.current, k.original), k.o, k.o);
    }
  }

  // ---------------------------------------------------------------- from the start

  /** A kernel with unstarted threads, empty wait lists and a free mutex. */
  function Start(threads: set<int>, lists: map<int, Flag>, o: int): State {
    State(Sched.Fresh(threads, lists), o, 1, M.Nobody, 0, M.NO_PRIORITY, 0)
  }

  /**
    Over every run of the kernel from its start the scheduler's and the mutex's invariants hold together, and on a
    PRIO mutex the owner is at least as urgent as every waiter, unless a change of priority passes a neighbour.
   */
  lemma {:induction false} RunInv(threads: set<int>, lists: map<int, Flag>, o: int, run: seq<Step>)
    requires Sched.NONE !in threads && o in lists && Admissible(Start(threads, lists, o), run)
    ensures Inv(Start(threads, lists, o)) && Inv(After(Start(threads, lists, o), run))
    ensures lists[o].Prio? && NonePasses(Start(threads, lists, o), run) ==>
              M.Urgent(View(After(Start(threads, lists, o), run)))
  {
    var k := Start(threads, lists, o);
    Sched.FreshInv(threads, lists);
    RunRefines(k, run);
    if lists[o].Prio? { RunUrgent(k, run); }
  }

  /**
    So no thread less urgent than a waiter runs while the owner can: after a scheduling with the lock released the
    current thread is at least as urgent as everyone who waits for the mutex.
   */
  lemma {:induction false} NoInversion(k: State, w: int)
    requires Inv(k) && M.Urgent(View(k)) && k.sched.current != Sched.NONE && k.sched.lock == 0
    requires k.owner.By? && k.sched.stat[k.owner.t] in {Sched.Ready, Sched.Running} && w in k.sched.waits[k.o]
    ensures var r := Sched.Scheduled(k.sched);
            r.current in r.prio && w in r.prio && r.prio[r.current] <= r.prio[w]
  {
    var s := k.sched;
    var r := Sched.Scheduled(s);
    Sched.ScheduleRunsMostUrgent(s);
    Sched.ScheduleKeepsThreads(s, k.owner.t);
    var i :| 0 <= i < |s.waits[k.o]| && s.waits[k.o][i] == w;
    assert View(k).m.waiters[i] == w;
    assert s.prio[k.owner.t] <= s.prio[w];
  }
}
