/** The counting semaphore: its count, its queue of waiting threads, and the balance of releases and grants. */
module Semaphores {
  import opened Rings
  import opened WaitLists

  /** at: when each waiting thread joined; now: the time of the next arrival; prio: the priorities of all threads. */
  datatype State = State(value: nat, waiters: seq<int>, at: Stamps, now: nat, prio: Priorities)

  /** What the semaphore's callers do, and what happens to the threads: timeouts and changes of priority. */
  datatype Step = Take(t: int, block: bool) | Release | TimeOut(t: int) | SetPriority(t: int, p: int)

  /** Whom a step lets through: the caller, the first waiter, or nobody. */
  function Granted(s: State, a: Step): seq<int> {
    match a
    case Take(t, _) => if s.value > 0 then [t] else []
    case Release => if s.waiters == [] then [] else [s.waiters[0]]
    case TimeOut(_) => []
    case SetPriority(_, _) => []
  }

  /** A 16-bit count starts over past its largest value. */
  predicate Overflows(s: State, a: Step) {
    a.Release? && s.waiters == [] && s.value == 0xFFFF
  }

  ghost predicate Enabled(s: State, a: Step) {
    match a
    case Take(t, _) => t in s.prio && t !in s.waiters
    case Release => true
    case TimeOut(t) => t in s.waiters
    case SetPriority(t, _) => t in s.prio
  }

  function Next(s: State, a: Step, flag: Flag): State
    requires Inv(s) && Enabled(s, a)
  {
    match a
    case Take(t, block) =>
      if s.value > 0 then s.(value := s.value - 1)
      else if !block then s
      else s.(waiters := Join(s.waiters, t, s.prio, flag), at := s.at[t := s.now], now := s.now + 1)
    case Release =>
      if s.waiters != [] then s.(waiters := s.waiters[1..]) else s.(value := (s.value + 1) % 0x1_0000)
    case TimeOut(t) => s.(waiters := Drop(s.waiters, t))
    case SetPriority(t, p) => s.(prio := s.prio[t := p])
  }

  // ---------------------------------------------------------------- what every step keeps

  /** Nobody waits while the count is positive. */
  ghost predicate Inv(s: State) {
    s.value <= 0xFFFF && (s.value > 0 ==> s.waiters == [])
    && Distinct(s.waiters) && Known(s.waiters, s.prio) && Stamped(s.waiters, s.at, s.now)
  }

  /** Who waits is served by urgency and arrival, or by arrival alone. */
  ghost predicate InOrder(s: State, flag: Flag)
    requires Inv(s)
  {
    Ordered(s.waiters, s.prio, s.at, flag)
  }

  lemma {:induction false} LeaveInv(s: State, k: nat)
    requires Inv(s) && k < |s.waiters|
    ensures Inv(s.(waiters := Without(s.waiters, k)))
  {
    var r := Without(s.waiters, k);
    forall i | 0 <= i < |r| ensures r[i] == s.waiters[if i < k then i else i + 1] {}
  }

  lemma {:induction false} JoinInv(s: State, t: int, flag: Flag)
    requires Inv(s) && t in s.prio && t !in s.waiters && s.value == 0
    ensures Inv(Next(s, Take(t, true), flag))
  {
    JoinFacts(s.waiters, t, s.prio, flag);
    var k := if flag.Fifo? then |s.waiters| else Place(s.waiters, 0, s.prio[t], s.prio);
    var r := Join(s.waiters, t, s.prio, flag);
    forall i | 0 <= i < |r| ensures r[i] == t || (r[i] in s.at && s.at[r[i]] < s.now) {
      if i != k { assert r[i] == s.waiters[if i < k then i else i - 1]; }
    }
  }

  lemma {:induction false} StepInv(s: State, a: Step, flag: Flag)
    requires Inv(s) && Enabled(s, a)
    ensures Inv(Next(s, a, flag))
  {
    match a
    case Take(t, block) => if s.value == 0 && block { JoinInv(s, t, flag); }
    case Release =>
      if s.waiters != [] {
        LeaveInv(s, 0);
        assert Without(s.waiters, 0) == s.waiters[1..];
      }
    case TimeOut(t) =>
      var k := DropAt(s.waiters, t);
      if k < |s.waiters| { LeaveInv(s, k); }
    case SetPriority(t, p) =>
  }

  /**
    A take is granted if and only if the count is positive, and takes one; else it waits if it may, and the others keep
    their order; and is refused otherwise, which changes nothing.
   */
  lemma {:induction false} TakeExactly(s: State, t: int, block: bool, flag: Flag)
    requires Inv(s) && Enabled(s, Take(t, block))
    ensures var r := Next(s, Take(t, block), flag);
            (Granted(s, Take(t, block)) == [t] <==> s.value > 0) && r.prio == s.prio
            && if s.value > 0 then r.value == s.value - 1 && r.waiters == s.waiters
               else if block then r.value == 0 && t in r.waiters && Drop(r.waiters, t) == s.waiters
               else r == s
  {
    if s.value == 0 && block { JoinDropped(s.waiters, t, s.prio, flag); }
  }

  /**
    A release lets the first waiter through and leaves the others in their order; without waiters it adds one to the
    count. A timeout only takes its thread off the list.
   */
  lemma {:induction false} ReleaseExactly(s: State, t: int, flag: Flag)
    requires Inv(s)
    ensures var r := Next(s, Release, flag);
            r.prio == s.prio
            && if s.waiters == [] then r.waiters == [] && r.value == if s.value == 0xFFFF then 0 else s.value + 1
               else s.waiters == Granted(s, Release) + r.waiters && |Granted(s, Release)| == 1 && r.value == s.value
    ensures t in s.waiters ==>
              var r := Next(s, TimeOut(t), flag);
              r.prio == s.prio && r.value == s.value && forall u :: u in r.waiters <==> u in s.waiters && u != t
  {
    DropFacts(s.waiters, t);
    if s.waiters != [] { assert s.waiters == [s.waiters[0]] + s.waiters[1..]; }
  }

  // ---------------------------------------------------------------- the order of service

  /** The step does not move a waiting thread's priority past that of a neighbour in the list. */
  ghost predicate KeepsOrder(s: State, a: Step, flag: Flag)
    requires Inv(s)
  {
    a.SetPriority? ==> forall k {:trigger s.waiters[k]} :: 0 <= k < |s.waiters| && s.waiters[k] == a.t ==>
      KeepsPlace(s.waiters, k, a.p, s.prio, s.at, flag)
  }

  /**
    A wait list in order stays in order exactly through the steps that do not change a waiter's priority past its
    neighbours'.
   */
  lemma {:induction false} OrderKeptExactly(s: State, a: Step, flag: Flag)
    requires Inv(s) && Enabled(s, a) && InOrder(s, flag)
    ensures Inv(Next(s, a, flag)) && (InOrder(Next(s, a, flag), flag) <==> KeepsOrder(s, a, flag))
  {
    StepInv(s, a, flag);
    match a
    case Take(t, block) => JoinOrdered(s.waiters, t, s.prio, s.at, s.now, flag);
    case Release =>
      if s.waiters != [] {
        LeaveOrdered(s.waiters, 0, s.prio, s.at, flag);
        assert Without(s.waiters, 0) == s.waiters[1..];
      }
    case TimeOut(t) =>
      var k := DropAt(s.waiters, t);
      if k < |s.waiters| { LeaveOrdered(s.waiters, k, s.prio, s.at, flag); }
    case SetPriority(t, p) => RepriceOrder(s, t, p, flag);
  }

  lemma {:induction false} RepriceOrder(s: State, t: int, p: int, flag: Flag)
    requires Inv(s) && t in s.prio && InOrder(s, flag)
    ensures Ordered(s.waiters, s.prio[t := p], s.at, flag) <==> KeepsOrder(s, SetPriority(t, p), flag)
  {
    if t in s.waiters {
      var k :| 0 <= k < |s.waiters| && s.waiters[k] == t;
      RepriceOrdered(s.waiters, k, p, s.prio, s.at, flag);
    } else {
      OthersReprice(s.waiters, t, p, s.prio, s.at, flag);
      forall k {:trigger s.waiters[k]} | 0 <= k < |s.waiters|
          ensures s.waiters[k] != t { var u := s.waiters[k]; assert u in s.waiters; }
    }
  }

  /** On a FIFO semaphore priorities play no part. */
  lemma {:induction false} FifoOrderKept(s: State, a: Step)
    requires Inv(s) && Enabled(s, a) && InOrder(s, Fifo)
    ensures KeepsOrder(s, a, Fifo)
  {
    if a.SetPriority? {
      forall k {:trigger s.waiters[k]} | 0 <= k < |s.waiters| && s.waiters[k] == a.t
        ensures KeepsPlace(s.waiters, k, a.p, s.prio, s.at, Fifo)
      {
        if k > 0 { assert Before(s.waiters[k - 1], s.waiters[k], s.prio, s.at, Fifo); }
        if k + 1 < |s.waiters| { assert Before(s.waiters[k], s.waiters[k + 1], s.prio, s.at, Fifo); }
      }
    }
  }

  /**
    A release lets the first waiter through: while the list is in order nobody is more urgent, nor as urgent and
    earlier.
   */
  lemma {:induction false} GrantsFirst(s: State, flag: Flag, t: int)
    requires Inv(s) && InOrder(s, flag) && t in s.waiters
    ensures Granted(s, Release) == [s.waiters[0]] && s.waiters[0] in s.prio && s.waiters[0] in s.at && t in s.at
            && t in s.prio
    ensures t != s.waiters[0] ==> Before(s.waiters[0], t, s.prio, s.at, flag)
  {
    var i :| 0 <= i < |s.waiters| && s.waiters[i] == t;
    if i > 0 { assert Before(s.waiters[0], s.waiters[i], s.prio, s.at, flag); }
  }

  // ---------------------------------------------------------------- runs

  ghost predicate Admissible(s: State, run: seq<Step>, flag: Flag)
    decreases |run|
  {
    run != [] ==> Inv(s) && Enabled(s, run[0]) && Admissible(Next(s, run[0], flag), run[1..], flag)
  }

  ghost function After(s: State, run: seq<Step>, flag: Flag): State
    requires Admissible(s, run, flag)
    decreases |run|
  {
    if run == [] then s else After(Next(s, run[0], flag), run[1..], flag)
  }

  /** No step of the run moves a waiter's priority past a neighbour's. */
  ghost predicate KeepsOrderAlong(s: State, run: seq<Step>, flag: Flag)
    requires Admissible(s, run, flag)
    decreases |run|
  {
    run != [] ==> KeepsOrder(s, run[0], flag) && KeepsOrderAlong(Next(s, run[0], flag), run[1..], flag)
  }

  function Releases(run: seq<Step>): nat {
    if run == [] then 0 else (if run[0].Release? then 1 else 0) + Releases(run[1..])
  }

  ghost function Grants(s: State, run: seq<Step>, flag: Flag): nat
    requires Admissible(s, run, flag)
    decreases |run|
  {
    if run == [] then 0 else |Granted(s, run[0])| + Grants(Next(s, run[0], flag), run[1..], flag)
  }

  ghost function Overflowing(s: State, run: seq<Step>, flag: Flag): nat
    requires Admissible(s, run, flag)
    decreases |run|
  {
    if run == [] then 0
        else (if Overflows(s, run[0]) then 1 else 0) + Overflowing(Next(s, run[0], flag), run[1..], flag)
  }

  lemma {:induction false} RunInv(s: State, run: seq<Step>, flag: Flag)
    requires Inv(s) && Admissible(s, run, flag)
    ensures Inv(After(s, run, flag))
    decreases |run|
  {
    if run != [] {
      StepInv(s, run[0], flag);
      RunInv(Next(s, run[0], flag), run[1..], flag);
    }
  }

  /**
    The list is in order after every run on a FIFO semaphore, and on a PRIO one unless some change of priority passes
    a neighbour.
   */
  lemma {:induction false} RunOrder(s: State, run: seq<Step>, flag: Flag)
    requires Inv(s) && InOrder(s, flag) && Admissible(s, run, flag)
    ensures Inv(After(s, run, flag))
            && (flag.Fifo? || KeepsOrderAlong(s, run, flag) ==> InOrder(After(s, run, flag), flag))
    decreases |run|
  {
    RunInv(s, run, flag);
    if run != [] && (flag.Fifo? || KeepsOrderAlong(s, run, flag)) {
      OrderKeptExactly(s, run[0], flag);
      if flag.Fifo? { FifoOrderKept(s, run[0]); }
      RunOrder(Next(s, run[0], flag), run[1..], flag);
    }
  }

  lemma {:induction false} ThreeSteps(s: State, a: Step, b: Step, c: Step, flag: Flag)
    requires Inv(s) && Enabled(s, a)
    requires var s1 := Next(s, a, flag); Inv(s1) && Enabled(s1, b)
    requires var s2 := Next(Next(s, a, flag), b, flag); Inv(s2) && Enabled(s2, c)
    ensures Admissible(s, [a, b, c], flag)
            && After(s, [a, b, c], flag) == Next(Next(Next(s, a, flag), b, flag), c, flag)
  {
    var s1 := Next(s, a, flag);
    var s2 := Next(s1, b, flag);
    FirstStep(s2, c, [], flag);
    FirstStep(s1, b, [c], flag);
    FirstStep(s, a, [b, c], flag);
    assert [c] + [] == [c] && [b] + [c] == [b, c] && [a] + [b, c] == [a, b, c];
  }

  lemma {:induction false} FirstStep(s: State, a: Step, run: seq<Step>, flag: Flag)
    requires Inv(s) && Enabled(s, a) && Admissible(Next(s, a, flag), run, flag)
    ensures Admissible(s, [a] + run, flag) && After(s, [a] + run, flag) == After(Next(s, a, flag), run, flag)
  {
    assert ([a] + run)[1..] == run;
  }

  /**
    Thread 2 becomes more urgent than thread 1 while both wait: it stays behind, and the release lets thread 1
    through.
   */
  lemma {:induction false} PriorityOvertakes()
    ensures var s := State(0, [], map[], 0, map[1 := 5, 2 := 6]);
            var run := [Take(1, true), Take(2, true), SetPriority(2, 4)];
            Admissible(s, run, Prio) && Inv(After(s, run, Prio)) && !InOrder(After(s, run, Prio), Prio)
            && Granted(After(s, run, Prio), Release) == [1] && After(s, run, Prio).waiters == [1, 2]
            && After(s, run, Prio).prio == map[1 := 5, 2 := 4]
  {
    TwoWait();
    ThreeSteps(State(0, [], map[], 0, map[1 := 5, 2 := 6]), Take(1, true), Take(2, true), SetPriority(2, 4), Prio);
    var r := State(0, [1, 2], map[1 := 0, 2 := 1], 2, map[1 := 5, 2 := 4]);
    assert map[1 := 5, 2 := 6][2 := 4] == r.prio;
    assert !Before(r.waiters[0], r.waiters[1], r.prio, r.at, Prio);
  }

  lemma {:induction false} TwoWait()
    ensures var s := State(0, [], map[], 0, map[1 := 5, 2 := 6]);
            var s1 := State(0, [1], map[1 := 0], 1, map[1 := 5, 2 := 6]);
            Inv(s) && Inv(s1) && Next(s, Take(1, true), Prio) == s1
            && Next(s1, Take(2, true), Prio) == State(0, [1, 2], map[1 := 0, 2 := 1], 2, map[1 := 5, 2 := 6])
  {
    assert Place([1], 0, 6, map[1 := 5, 2 := 6]) == 1;
  }

  /** Over every run, what was there and what was released is what is left and what was granted, but for overflows. */
  lemma {:induction false} RunBalance(s: State, run: seq<Step>, flag: Flag)
    requires Inv(s) && Admissible(s, run, flag)
    ensures s.value + Releases(run)
         == After(s, run, flag).value + Grants(s, run, flag) + 0x1_0000 * Overflowing(s, run, flag)
    decreases |run|
  {
    if run != [] {
      StepInv(s, run[0], flag);
      RunBalance(Next(s, run[0], flag), run[1..], flag);
    }
  }

  /** The plain balance holds exactly for the runs in which no release finds the count full and nobody waiting. */
  lemma {:induction false} BalanceExactly(s: State, run: seq<Step>, flag: Flag)
    requires Inv(s) && Admissible(s, run, flag)
    ensures s.value + Releases(run) == After(s, run, flag).value + Grants(s, run, flag)
            <==> Overflowing(s, run, flag) == 0
  {
    RunBalance(s, run, flag);
  }

  /** One release of a semaphore whose count is full empties it. */
  lemma {:induction false} OverflowLosesCount(prio: Priorities, flag: Flag)
    ensures var s, run := State(0xFFFF, [], map[], 0, prio), [Release];
            Inv(s) && Admissible(s, run, flag) && After(s, run, flag).value == 0 && Overflowing(s, run, flag) == 1
            && s.value + Releases(run) != After(s, run, flag).value + Grants(s, run, flag)
  {
    var s, run := State(0xFFFF, [], map[], 0, prio), [Release];
    assert run[1..] == [];
    assert After(s, run, flag) == Next(s, Release, flag);
    BalanceExactly(s, run, flag);
  }

  // ---------------------------------------------------------------- the object

  datatype Result = Ok | TimedOut | Suspended

  /** head: the semaphore's list head among the list nodes, which the threads' nodes are linked to. */
  class Semaphore {
    const threads: Threads
    const nodes: ListNodes
    const head: int
    const flag: Flag
    var value: nat
    ghost var waiters: seq<int>
    ghost var at: Stamps
    ghost var now: nat

    ghost function View(): State
      reads this, threads
    {
      State(value, waiters, at, now, threads.priority)
    }

    ghost predicate Valid()
      reads this, threads, nodes
    {
      Inv(View()) && nodes.IsList(head, waiters)
    }

    /** rt_sem_init. */
    constructor (value: nat, threads: Threads, nodes: ListNodes, head: int, flag: Flag)
      requires value <= 0xFFFF
      modifies nodes
      ensures this.threads == threads && this.nodes == nodes && this.head == head && this.flag == flag
      ensures Valid() && View() == State(value, [], map[], 0, threads.priority)
      ensures SameBut(old(nodes.next), nodes.next, [head], head)
      ensures SameBut(old(nodes.prev), nodes.prev, [head], head)
    {
      this.threads, this.nodes, this.head, this.flag, this.value := threads, nodes, head, flag, value;
      waiters, at, now := [], map[], 0;
      new;
      nodes.InitList(head);
    }

    /** rt_sem_take up to its wait. */
    method Take(t: int, time: int) returns (result: Result)
      requires Valid() && Enabled(View(), Step.Take(t, time != 0)) && t != head
      modifies this, nodes
      ensures Valid() && View() == Next(old(View()), Step.Take(t, time != 0), flag)
      ensures (result == Ok <==> Granted(old(View()), Step.Take(t, time != 0)) == [t])
              && (result == Suspended <==> t in waiters)
      ensures SameBut(old(nodes.next), nodes.next, [head] + old(waiters), t)
      ensures SameBut(old(nodes.prev), nodes.prev, [head] + old(waiters), t)
    {
      StepInv(View(), Step.Take(t, time != 0), flag);
      if value > 0 {
        value := value - 1;
        result := Ok;
      } else if time == 0 {
        result := TimedOut;
      } else {
        JoinFacts(waiters, t, threads.priority, flag);
        nodes.Suspend(head, t, threads.priority, flag, waiters);
        waiters := Join(waiters, t, threads.priority, flag);
        at, now := at[t := now], now + 1;
        result := Suspended;
      }
    }

    /** rt_sem_release up to its scheduling. */
    method Release() returns (resumed: seq<int>)
      requires Valid()
      modifies this, nodes
      ensures Valid() && View() == Next(old(View()), Step.Release, flag)
      ensures resumed == Granted(old(View()), Step.Release)
      ensures SameBut(old(nodes.next), nodes.next, [head] + old(waiters), head)
      ensures SameBut(old(nodes.prev), nodes.prev, [head] + old(waiters), head)
    {
      StepInv(View(), Step.Release, flag);
      resumed := [];
      var empty := nodes.IsEmpty(head, waiters);
      if !empty {
        var t := nodes.Resume(head, waiters);
        resumed := [t];
        waiters := waiters[1..];
      } else {
        value := (value + 1) % 0x1_0000;
      }
    }

    /** A waiting thread's timer runs out. */
    method TimeOut(t: int)
      requires Valid() && Enabled(View(), Step.TimeOut(t))
      modifies this, nodes
      ensures Valid() && View() == Next(old(View()), Step.TimeOut(t), flag)
      ensures SameBut(old(nodes.next), nodes.next, [head] + old(waiters), t)
      ensures SameBut(old(nodes.prev), nodes.prev, [head] + old(waiters), t)
    {
      StepInv(View(), Step.TimeOut(t), flag);
      nodes.Unlink(head, t, waiters);
      waiters := Drop(waiters, t);
    }
  }

  /** Two semaphores with the same nodes: what is done to one leaves the other as it is. */
  method TakeBeside(a: Semaphore, b: Semaphore, t: int, time: int) returns (result: Result)
    requires a != b && a.nodes == b.nodes && a.threads == b.threads && a.Valid() && b.Valid()
    requires Enabled(a.View(), Step.Take(t, time != 0)) && t != a.head && t != b.head && t !in b.waiters
    requires forall n :: n in [b.head] + b.waiters ==> n !in [a.head] + a.waiters
    modifies a, a.nodes
    ensures a.Valid() && a.View() == Next(old(a.View()), Step.Take(t, time != 0), a.flag)
    ensures b.Valid() && b.View() == old(b.View())
  {
    ghost var s, r, next, prev := [a.head] + a.waiters, [b.head] + b.waiters, a.nodes.next, a.nodes.prev;
    result := a.Take(t, time);
    OtherList(next, prev, a.nodes.next, a.nodes.prev, s, t, r);
  }
}
