/**
  A semaphore inside the kernel: its wait list is one of the scheduler's, and everything that moves threads moves them
  there too.
 */
module Kernels {
  import opened WaitLists
  import opened KernelCalls
  import Sem = Semaphores
  import Sched = Schedulers

  /** The semaphore's own fields beside the scheduler's state; o is its wait list. */
  datatype State = State(sched: Sched.Sched, o: int, value: nat, at: Stamps, now: nat)

  /** The current thread takes, anybody releases, and any other kernel call happens in between. */
  datatype Step = Take(block: bool) | Release | Other(c: Sched.Call)

  /** What the semaphore's own system sees of the kernel. */
  function View(k: State): Sem.State
    requires k.o in k.sched.waits
  {
    Sem.State(k.value, k.sched.waits[k.o], k.at, k.now, k.sched.prio)
  }

  ghost predicate Inv(k: State) {
    Sched.Inv(k.sched) && k.o in k.sched.waits && Sem.Inv(View(k))
  }

  function Flag(k: State): Flag
    requires Inv(k)
  {
    k.sched.flags[k.o]
  }

  /** Only the semaphore's own calls put threads on its list or wake the first one there. */
  ghost predicate Enabled(k: State, a: Step)
    requires k.o in k.sched.waits
  {
    match a
    case Take(block) =>
      Sched.Executes(k.sched) && k.sched.current !in k.sched.waits[k.o]
      && (k.value == 0 && block ==> Sched.WaitsNowhere(k.sched, k.sched.current))
    case Release => true
    case Other(c) => Sched.Enabled(k.sched, c) && c != Sched.Block(k.o) && c != Sched.Wake(k.o)
  }

  function Next(k: State, a: Step): State
    requires Inv(k) && Enabled(k, a)
  {
    match a
    case Take(block) =>
      if k.value > 0 then k.(value := k.value - 1)
      else if !block then k
      else k.(sched := Sched.Blocked(k.sched, k.o), at := k.at[k.sched.current := k.now], now := k.now + 1)
    case Release =>
      if k.sched.waits[k.o] != [] then k.(sched := Sched.Woken(k.sched, k.o)) else k.(value := (k.value + 1) % 0x1_0000)
    case Other(c) => k.(sched := Sched.Next(k.sched, c))
  }

  /** The steps of the semaphore's system that a step of the kernel amounts to: one or none. */
  function Seen(k: State, a: Step): seq<Sem.Step>
    requires k.o in k.sched.waits
  {
    match a
    case Take(block) => [Sem.Take(k.sched.current, block)]
    case Release => [Sem.Release]
    case Other(c) =>
      match EffectOf(k.sched, k.o, c)
      case Same => []
      case Leaves(t) => [Sem.TimeOut(t)]
      case Reprices(t, level) => [Sem.SetPriority(t, level)]
  }

  // ---------------------------------------------------------------- the kernel's semaphore is the semaphore

  /** The kernel after a step looks like the semaphore's system after the steps seen. */
  ghost predicate Agrees(k: State, a: Step)
    requires Inv(k) && Enabled(k, a)
  {
    var r, seen := Next(k, a), Seen(k, a);
    k.o in r.sched.waits && r.o == k.o && r.sched.flags == k.sched.flags
    && (seen == [] ==> View(r) == View(k))
    && (seen != [] ==> Sem.Enabled(View(k), seen[0]) && View(r) == Sem.Next(View(k), seen[0], Flag(k)))
  }

  lemma {:induction false} CallAgrees(k: State, c: Sched.Call)
    requires Inv(k) && Enabled(k, Other(c))
    ensures Agrees(k, Other(c))
  {
    CallShows(k.sched, k.o, c);
  }

  /** Every step of the kernel is what its semaphore's system does, seen from the semaphore. */
  lemma {:induction false} StepAgrees(k: State, a: Step)
    requires Inv(k) && Enabled(k, a)
    ensures Agrees(k, a)
  {
    match a
    case Take(block) => if k.value == 0 && block { BlockedWaits(k.sched, k.o, k.o); }
    case Release => if k.sched.waits[k.o] != [] { WokenWaits(k.sched, k.o, k.o); }
    case Other(c) => CallAgrees(k, c);
  }

  lemma {:induction false} StepInv(k: State, a: Step)
    requires Inv(k) && Enabled(k, a)
    ensures Inv(Next(k, a))
  {
    StepAgrees(k, a);
    var seen := Seen(k, a);
    if seen != [] { Sem.StepInv(View(k), seen[0], Flag(k)); }
    match a
    case Take(block) => if k.value == 0 && block { Sched.BlockedInv(k.sched, k.o); }
    case Release => if k.sched.waits[k.o] != [] { Sched.WokenInv(k.sched, k.o); }
    case Other(c) => Sched.StepInv(k.sched, c);
  }

  /**
    A take that has to wait returns all the same, without a grant and with the thread on the list, if and only if the
    lock is held or nobody is ready.
   */
  lemma {:induction false} ReturnsUngranted(k: State)
    requires Inv(k) && Enabled(k, Take(true)) && k.value == 0
    ensures var b := Next(k, Take(true));
            Inv(b) && Sem.Granted(View(k), Sem.Take(k.sched.current, true)) == []
            && k.sched.current in b.sched.waits[k.o] && b.sched.current == k.sched.current
            && (Sched.Scheduled(b.sched).current == k.sched.current <==> k.sched.lock != 0 || k.sched.group == 0)
  {
    StepInv(k, Take(true));
    Sched.BlockSwitches(k.sched, k.o);
  }

  // ---------------------------------------------------------------- runs

  ghost predicate Admissible(k: State, run: seq<Step>)
    decreases |run|
  {
    run != [] ==> Inv(k) && Enabled(k, run[0]) && Admissible(Next(k, run[0]), run[1..])
  }

  ghost function After(k: State, run: seq<Step>): State
    requires Admissible(k, run)
    decreases |run|
  {
    if run == [] then k else After(Next(k, run[0]), run[1..])
  }

  /** The run of the semaphore's system that a run of the kernel amounts to. */
  ghost function SeenRun(k: State, run: seq<Step>): seq<Sem.Step>
    requires Admissible(k, run)
    decreases |run|
  {
    if run == [] then [] else Seen(k, run[0]) + SeenRun(Next(k, run[0]), run[1..])
  }

  /** What follows the first step of the kernel follows what is seen of that step. */
  lemma {:induction false} HeadRefines(k: State, a: Step, rest: seq<Sem.Step>)
    requires Inv(k) && Enabled(k, a) && Agrees(k, a)
    requires Sem.Admissible(View(Next(k, a)), rest, Flag(k))
    ensures Sem.Admissible(View(k), Seen(k, a) + rest, Flag(k))
    ensures Sem.After(View(k), Seen(k, a) + rest, Flag(k)) == Sem.After(View(Next(k, a)), rest, Flag(k))
  {
    var seen := Seen(k, a);
    if seen == [] {
      assert seen + rest == rest;
    } else {
      assert seen == [seen[0]];
      Sem.FirstStep(View(k), seen[0], rest, Flag(k));
    }
  }

  /**
    Whatever the threads of the kernel do, the semaphore behaves as its own system does, so all its theorems hold
    there.
   */
  lemma {:induction false} RunRefines(k: State, run: seq<Step>)
    requires Inv(k) && Admissible(k, run)
    ensures var r := After(k, run);
            Inv(r) && r.o == k.o && Flag(r) == Flag(k)
            && Sem.Admissible(View(k), SeenRun(k, run), Flag(k))
                && View(r) == Sem.After(View(k), SeenRun(k, run), Flag(k))
    decreases |run|
  {
    if run != [] {
      var r := Next(k, run[0]);
      StepAgrees(k, run[0]);
      StepInv(k, run[0]);
      RunRefines(r, run[1..]);
      HeadRefines(k, run[0], SeenRun(r, run[1..]));
    }
  }

  /**
    Over every run of the kernel a positive count means that nobody is on the semaphore's list, and the count
    balances.
   */
  lemma {:induction false} RunBalance(k: State, run: seq<Step>)
    requires Inv(k) && Admissible(k, run)
    ensures var r, seen := After(k, run), SeenRun(k, run);
            Inv(r) && r.o == k.o && (r.value > 0 ==> r.sched.waits[k.o] == []) && Sem.Admissible(View(k), seen, Flag(k))
            && k.value + Sem.Releases(seen)
               == r.value + Sem.Grants(View(k), seen, Flag(k)) + 0x1_0000 * Sem.Overflowing(View(k), seen, Flag(k))
  {
    RunRefines(k, run);
    Sem.RunBalance(View(k), SeenRun(k, run), Flag(k));
  }

  /** A kernel with unstarted threads and empty wait lists. */
  function Start(threads: set<int>, lists: map<int, Flag>, o: int, value: nat): State {
    State(Sched.Fresh(threads, lists), o, value, map[], 0)
  }

  lemma {:induction false} StartInv(threads: set<int>, lists: map<int, Flag>, o: int, value: nat)
    requires Sched.NONE !in threads && o in lists && value <= 0xFFFF
    ensures Inv(Start(threads, lists, o, value))
  {
    Sched.FreshInv(threads, lists);
  }

  /** From that start on, whatever the threads do. */
  lemma {:induction false} RunInv(threads: set<int>, lists: map<int, Flag>, o: int, value: nat, run: seq<Step>)
    requires Sched.NONE !in threads && o in lists && value <= 0xFFFF
    requires Admissible(Start(threads, lists, o, value), run)
    ensures Inv(After(Start(threads, lists, o, value), run))
  {
    StartInv(threads, lists, o, value);
    RunRefines(Start(threads, lists, o, value), run);
  }
}
