/** The mutex with priority inheritance, as a system of threads and as an object. Lower numbers are more urgent. */
module Mutexes {
  import opened Rings
  import opened WaitLists

  datatype Owner = Nobody | By(t: int)

  datatype Core = Core(value: nat, owner: Owner, hold: nat, original: int, waiters: seq<int>)

  /** depth: how many of the owner's takes are not yet released. Suspended threads are those in waiters. */
  datatype State = State(m: Core, prio: Priorities, depth: nat)

  /** What threads do with the mutex, and what happens to them: timeouts and changes of priority from outside. */
  datatype Step = Take(t: int, block: bool) | Release(t: int) | TimeOut(t: int) | SetPriority(t: int, p: int)

  datatype Result = Ok | Error | TimedOut | Suspended

  const NO_PRIORITY := 0xFF

  const INIT := Core(1, Nobody, 0, NO_PRIORITY, [])

  // ---------------------------------------------------------------- the sections

  /** The nesting counter is one byte wide. */
  function Up(hold: nat): nat { (hold + 1) % 256 }

  function Down(hold: nat): nat { (hold + 255) % 256 }

  function Raise(prio: Priorities, owner: int, p: int): Priorities
    requires owner in prio
  {
    if p < prio[owner] then prio[owner := p] else prio
  }

  function Taking(s: State, t: int, block: bool, flag: Flag): (State, Result)
    requires Inv(s) && t in s.prio
  {
    var m := s.m;
    if m.owner == By(t) then (State(m.(hold := Up(m.hold)), s.prio, s.depth + 1), Ok)
    else if m.value > 0 then
      (State(Core(m.value - 1, By(t), Up(m.hold), s.prio[t], m.waiters), s.prio, s.depth + 1), Ok)
    else if !block then (s, TimedOut)
    else
      var prio := Raise(s.prio, m.owner.t, s.prio[t]);
      (State(m.(waiters := Join(m.waiters, t, prio, flag)), prio, s.depth), Suspended)
  }

  function Releasing(s: State, t: int): (State, Result)
    requires Inv(s) && t in s.prio
  {
    var m := s.m;
    if m.owner != By(t) then (s, Error)
    else
      var hold := Down(m.hold);
      if hold != 0 then (State(m.(hold := hold), s.prio, s.depth - 1), Ok)
      else
        var prio := s.prio[t := m.original];
        if m.waiters == [] then (State(Core(m.value + 1, Nobody, 0, NO_PRIORITY, []), prio, 0), Ok)
        else (State(Core(m.value, By(m.waiters[0]), Up(0), prio[m.waiters[0]], m.waiters[1..]), prio, 1), Ok)
  }

  predicate Enabled(s: State, a: Step) {
    a.t in s.prio && (a.TimeOut? ==> a.t in s.m.waiters) && (a.Take? ==> a.t !in s.m.waiters)
  }

  function Next(s: State, a: Step, flag: Flag): State
    requires Inv(s) && Enabled(s, a)
  {
    match a
    case Take(t, block) => Taking(s, t, block, flag).0
    case Release(t) => Releasing(s, t).0
    case TimeOut(t) => s.(m := s.m.(waiters := Drop(s.m.waiters, t)))
    case SetPriority(t, p) => s.(prio := s.prio[t := p])
  }

  // ---------------------------------------------------------------- what every step keeps

  /** Free exactly when nobody owns it, and then nobody waits; the counter is the nesting depth as far as it goes. */
  ghost predicate Inv(s: State) {
    var m := s.m;
    m.value == (if m.owner.Nobody? then 1 else 0)
    && (m.owner.Nobody? <==> s.depth == 0)
    && m.hold == s.depth % 256
    && (m.owner.Nobody? ==> m.waiters == [] && m.original == NO_PRIORITY)
    && (m.owner.By? ==> m.owner.t in s.prio && m.owner.t !in m.waiters)
    && Distinct(m.waiters) && Known(m.waiters, s.prio)
  }

  lemma {:induction false} HoldIsDepth(depth: nat)
    ensures Up(depth % 256) == (depth + 1) % 256 && (depth > 0 ==> Down(depth % 256) == (depth - 1) % 256)
  {
    var q, r := depth / 256, depth % 256;
    assert depth == q * 256 + r;
    if r == 255 { assert depth + 1 == (q + 1) * 256; } else { assert (depth + 1) / 256 == q; }
    if r == 0 && depth > 0 { assert depth - 1 == (q - 1) * 256 + 255; }
  }

  lemma {:induction false} StepInv(s: State, a: Step, flag: Flag)
    requires Inv(s) && Enabled(s, a)
    ensures Inv(Next(s, a, flag))
  {
    HoldIsDepth(s.depth);
    var ws := s.m.waiters;
    match a
    case Take(t, block) =>
      if s.m.owner != By(t) && s.m.value == 0 && block {
        JoinFacts(ws, t, Raise(s.prio, s.m.owner.t, s.prio[t]), flag);
      }
    case Release(t) => if ws != [] { FirstLeaves(ws); }
    case TimeOut(t) => DropFacts(ws, t); KnownIn(ws, Drop(ws, t), s.prio);
    case SetPriority(t, p) =>
  }

  /** A take succeeds only for the one owner; the others fail or wait. */
  lemma {:induction false} TakeOwns(s: State, t: int, block: bool, flag: Flag)
    requires Inv(s) && Enabled(s, Take(t, block))
    ensures var (r, result) := Taking(s, t, block, flag);
            (result == Ok <==> r.m.owner == By(t)) && (result == Ok <==> s.m.owner in {Nobody, By(t)})
            && (result == Ok ==> r.depth == s.depth + 1) && (result == Suspended <==> t in r.m.waiters)
  {
    if s.m.owner.By? && s.m.owner.t != t && block {
      JoinFacts(s.m.waiters, t, Raise(s.prio, s.m.owner.t, s.prio[t]), flag);
    }
  }

  /** What is promised: only the owner's last release gives the mutex up. */
  ghost predicate GivesUpLast(s: State, t: int)
    requires Inv(s) && t in s.prio
  {
    (Releasing(s, t).0.m.owner != s.m.owner) <==> (s.m.owner == By(t) && s.depth == 1)
  }

  /** It holds unless 256, 512, ... takes would still be outstanding after the release. */
  lemma {:induction false} GivesUpLastExactly(s: State, t: int)
    requires Inv(s) && Enabled(s, Release(t))
    ensures GivesUpLast(s, t) <==> !(s.m.owner == By(t) && s.depth > 1 && s.m.hold == 1)
  {
    HoldIsDepth(s.depth);
    if s.m.owner == By(t) && s.m.waiters != [] { FirstLeaves(s.m.waiters); }
  }

  function Nested(t: int, n: nat): State {
    State(Core(0, By(t), n % 256, 5, []), map[t := 5], n)
  }

  /** A thread that has taken the mutex 257 times loses it with its first release. */
  lemma {:induction false} LostAtDepth257()
    ensures var s0, all, s := State(INIT, map[1 := 5], 0), seq(257, _ => Take(1, true)), Nested(1, 257);
            Admissible(s0, all, Fifo) && After(s0, all, Fifo) == s
            && Inv(s) && !GivesUpLast(s, 1) && Releasing(s, 1).0.m.owner == Nobody
  {
    var s0, all := State(INIT, map[1 := 5], 0), seq(257, _ => Take(1, true));
    var s1 := Next(s0, all[0], Fifo);
    assert s1 == Nested(1, 1);
    NestedTakes(1, 256);
    assert all[1..] == seq(256, _ => Take(1, true));
  }

  lemma {:induction false} NestedTakes(n: nat, k: nat)
    requires n > 0
    ensures Admissible(Nested(1, n), seq(k, _ => Take(1, true)), Fifo)
    ensures After(Nested(1, n), seq(k, _ => Take(1, true)), Fifo) == Nested(1, n + k)
    decreases k
  {
    if k > 0 {
      HoldIsDepth(n);
      assert seq(k, _ => Take(1, true))[1..] == seq(k - 1, _ => Take(1, true));
      assert Next(Nested(1, n), Take(1, true), Fifo) == Nested(1, n + 1);
      NestedTakes(n + 1, k - 1);
    }
  }

  // ---------------------------------------------------------------- runs

  ghost predicate Admissible(s: State, run: seq<Step>, flag: Flag)
    decreases |run|
  {
    run != [] ==> Inv(s) && Enabled(s, run[0]) && Admissible(Next(s, run[0], flag), run[1..], flag)
  }

  ghost function After(s: State, run: seq<Step>, flag: Flag): State
    requires Admissible(s, run, flag)
    decreases |run|
  {
    if run == [] then s else After(Next(s, run[0], flag), run[1..], flag)
  }

  lemma {:induction false} FirstStep(s: State, a: Step, run: seq<Step>, flag: Flag)
    requires Inv(s) && Enabled(s, a) && Admissible(Next(s, a, flag), run, flag)
    ensures Admissible(s, [a] + run, flag) && After(s, [a] + run, flag) == After(Next(s, a, flag), run, flag)
  {
    assert ([a] + run)[1..] == run;
  }

  /** No change of priority during the run passes a neighbour among the owner and the waiters. */
  ghost predicate KeepsUrgencyAlong(s: State, run: seq<Step>, flag: Flag)
    requires Admissible(s, run, flag)
    decreases |run|
  {
    run != [] ==> KeepsUrgency(s, run[0]) && KeepsUrgencyAlong(Next(s, run[0], flag), run[1..], flag)
  }

  /**
    In every state any run reaches, and for an urgency-ordered mutex with the owner at least as urgent as everyone
    waiting, unless a change of priority from outside passes a neighbour.
   */
  lemma {:induction false} RunInv(prio: Priorities, run: seq<Step>, flag: Flag)
    requires Admissible(State(INIT, prio, 0), run, flag)
    ensures var s := After(State(INIT, prio, 0), run, flag);
            Inv(s) && (flag.Prio? && KeepsUrgencyAlong(State(INIT, prio, 0), run, flag) ==> Urgent(s))
  {
    RunKeeps(State(INIT, prio, 0), run, flag);
  }

  lemma {:induction false} RunKeeps(s: State, run: seq<Step>, flag: Flag)
    requires Inv(s) && Urgent(s) && Admissible(s, run, flag)
    ensures var r := After(s, run, flag);
            Inv(r) && (flag.Prio? && KeepsUrgencyAlong(s, run, flag) ==> Urgent(r))
    decreases |run|
  {
    if run != [] {
      StepInv(s, run[0], flag);
      if flag.Prio? && KeepsUrgencyAlong(s, run, flag) {
        StepInherits(s, run[0]);
        RunKeeps(Next(s, run[0], flag), run[1..], flag);
      } else {
        RunInOrder(Next(s, run[0], flag), run[1..], flag);
      }
    }
  }

  lemma {:induction false} RunInOrder(s: State, run: seq<Step>, flag: Flag)
    requires Inv(s) && Admissible(s, run, flag)
    ensures Inv(After(s, run, flag))
    decreases |run|
  {
    if run != [] {
      StepInv(s, run[0], flag);
      RunInOrder(Next(s, run[0], flag), run[1..], flag);
    }
  }

  /** A run without changes of priority from outside passes nobody. */
  lemma {:induction false} InsideKeeps(s: State, run: seq<Step>, flag: Flag)
    requires Inv(s) && Admissible(s, run, flag)
    requires forall i {:trigger run[i]} :: 0 <= i < |run| ==> !run[i].SetPriority?
    ensures KeepsUrgencyAlong(s, run, flag)
    decreases |run|
  {
    if run != [] {
      StepInv(s, run[0], flag);
      InsideKeeps(Next(s, run[0], flag), run[1..], flag);
    }
  }

  // ---------------------------------------------------------------- priority inheritance

  /** The owner is at least as urgent as every thread that waits for it. */
  ghost predicate Inherits(s: State)
    requires Inv(s)
  {
    s.m.owner.By? ==>
      forall i {:trigger s.m.waiters[i]} :: 0 <= i < |s.m.waiters| ==>
        s.prio[s.m.owner.t] <= s.prio[s.m.waiters[i]]
  }

  lemma {:induction false} TakeInherits(s: State, t: int, block: bool, flag: Flag)
    requires Inv(s) && Enabled(s, Take(t, block)) && Inherits(s)
    ensures Inv(Next(s, Take(t, block), flag)) && Inherits(Next(s, Take(t, block), flag))
  {
    StepInv(s, Take(t, block), flag);
    var ws, r := s.m.waiters, Next(s, Take(t, block), flag);
    if s.m.owner.By? && s.m.owner.t != t && block {
      var k := if flag.Fifo? then |ws| else Place(ws, 0, s.prio[t], r.prio);
      forall i | 0 <= i < |r.m.waiters| ensures r.prio[r.m.owner.t] <= r.prio[r.m.waiters[i]] {
        if i != k { assert r.m.waiters[i] == ws[if i < k then i else i - 1]; }
      }
    }
  }

  /** The first waiter is at least as urgent as the others. */
  ghost predicate FirstMostUrgent(ws: seq<int>, prio: Priorities)
    requires Known(ws, prio)
  {
    forall i {:trigger ws[i]} :: 0 <= i < |ws| ==> prio[ws[0]] <= prio[ws[i]]
  }

  /** Passing the mutex on keeps inheritance exactly when the first waiter is the most urgent one. */
  lemma {:induction false} ReleaseInherits(s: State, t: int)
    requires Inv(s) && Enabled(s, Release(t)) && Inherits(s)
    ensures Inv(Releasing(s, t).0)
    ensures Inherits(Releasing(s, t).0) <==>
            (s.m.owner == By(t) && s.m.hold == 1 ==> FirstMostUrgent(s.m.waiters, s.prio))
  {
    StepInv(s, Release(t), Fifo);
    HoldIsDepth(s.depth);
    var ws, r := s.m.waiters, Releasing(s, t).0;
    if s.m.owner == By(t) && s.m.hold == 1 && ws != [] {
      FirstLeaves(ws);
      assert forall i :: 0 <= i < |ws| ==> ws[i] in ws;
      assert forall i :: 0 <= i < |ws| ==> r.prio[ws[i]] == s.prio[ws[i]];
      assert forall i :: 1 <= i < |ws| ==> ws[i] == ws[1..][i - 1];
      if Inherits(r) {
        forall i | 0 <= i < |ws| ensures s.prio[ws[0]] <= s.prio[ws[i]] {
          if i > 0 { assert ws[1..][i - 1] == ws[i]; }
        }
      }
    }
  }

  /** The owner is at least as urgent as every waiter, and the waiters stand in order of urgency. */
  ghost predicate Urgent(s: State)
    requires Inv(s)
  {
    Inherits(s) && Sorted(s.m.waiters, s.prio)
  }

  /** The owner and behind it the waiters. */
  function Chain(s: State): seq<int> {
    match s.m.owner
    case Nobody => []
    case By(t) => [t] + s.m.waiters
  }

  lemma {:induction false} HeadKnown(h: int, ws: seq<int>, prio: Priorities)
    requires Distinct(ws) && Known(ws, prio) && h in prio && h !in ws
    ensures Known([h] + ws, prio) && Distinct([h] + ws)
  {
    var c := [h] + ws;
    forall i | 0 <= i < |c| ensures c[i] in prio { if i > 0 { assert c[i] == ws[i - 1]; } }
    forall i, j | 0 <= i < j < |c| ensures c[i] != c[j] {
      assert c[j] == ws[j - 1] && ws[j - 1] in ws;
      if i > 0 { assert c[i] == ws[i - 1]; }
    }
  }

  lemma {:induction false} HeadSorted(h: int, ws: seq<int>, prio: Priorities)
    requires Known(ws, prio) && Known([h] + ws, prio)
    ensures h in prio
    ensures Sorted([h] + ws, prio) <==>
            Sorted(ws, prio) && forall i {:trigger ws[i]} :: 0 <= i < |ws| ==> prio[h] <= prio[ws[i]]
  {
    var c := [h] + ws;
    assert c[0] == h;
    if Sorted(c, prio) {
      forall i {:trigger ws[i]} | 0 <= i < |ws| ensures prio[h] <= prio[ws[i]] { assert c[i + 1] == ws[i]; }
      forall i, j | 0 <= i < j < |ws| ensures prio[ws[i]] <= prio[ws[j]] {
        assert c[i + 1] == ws[i] && c[j + 1] == ws[j];
      }
    }
    if Sorted(ws, prio) && forall i {:trigger ws[i]} :: 0 <= i < |ws| ==> prio[h] <= prio[ws[i]] {
      forall i, j | 0 <= i < j < |c| ensures prio[c[i]] <= prio[c[j]] {
        assert c[j] == ws[j - 1];
        if i > 0 { assert c[i] == ws[i - 1]; }
      }
    }
  }

  lemma {:induction false} ChainSorted(s: State)
    requires Inv(s)
    ensures Known(Chain(s), s.prio) && Distinct(Chain(s)) && (Urgent(s) <==> Sorted(Chain(s), s.prio))
  {
    if s.m.owner.By? {
      HeadKnown(s.m.owner.t, s.m.waiters, s.prio);
      HeadSorted(s.m.owner.t, s.m.waiters, s.prio);
    }
  }

  /** The change leaves t between its neighbours in the chain, if it is there. */
  ghost predicate KeepsUrgency(s: State, a: Step)
    requires Inv(s)
  {
    a.SetPriority? ==>
      forall k {:trigger Chain(s)[k]} :: 0 <= k < |Chain(s)| && Chain(s)[k] == a.t ==>
        Between(Chain(s), k, a.p, s.prio)
  }

  ghost predicate Between(c: seq<int>, k: nat, p: int, prio: Priorities) {
    k < |c| && (k > 0 && c[k - 1] in prio ==> prio[c[k - 1]] <= p)
    && (k + 1 < |c| && c[k + 1] in prio ==> p <= prio[c[k + 1]])
  }

  lemma {:induction false} RepriceSorted(c: seq<int>, k: nat, p: int, prio: Priorities)
    requires Distinct(c) && Known(c, prio) && Sorted(c, prio) && k < |c|
    ensures Known(c, prio[c[k] := p]) && (Sorted(c, prio[c[k] := p]) <==> Between(c, k, p, prio))
  {
    var q := prio[c[k] := p];
    if Between(c, k, p, prio) {
      forall i, j | 0 <= i < j < |c| ensures q[c[i]] <= q[c[j]] {
        if j == k { assert prio[c[i]] <= prio[c[k - 1]]; }
        if i == k { assert prio[c[k + 1]] <= prio[c[j]]; }
      }
    } else if k > 0 && prio[c[k - 1]] > p {
      assert q[c[k - 1]] > q[c[k]];
    } else {
      assert q[c[k]] > q[c[k + 1]];
    }
  }

  /** A change of priority from outside keeps the urgency if and only if it passes no neighbour. */
  lemma {:induction false} RepriceUrgent(s: State, t: int, p: int)
    requires Inv(s) && t in s.prio && Urgent(s)
    ensures var r := Next(s, SetPriority(t, p), Prio);
            Inv(r) && (Urgent(r) <==> KeepsUrgency(s, SetPriority(t, p)))
  {
    var c, r := Chain(s), Next(s, SetPriority(t, p), Prio);
    StepInv(s, SetPriority(t, p), Prio);
    ChainSorted(s);
    ChainSorted(r);
    if t in c {
      var k :| 0 <= k < |c| && c[k] == t;
      RepriceSorted(c, k, p, s.prio);
    } else {
      forall i | 0 <= i < |c| ensures c[i] != t { var u := c[i]; assert u in c; }
    }
  }

  /** On an urgency-ordered mutex every step keeps it, but exactly for changes of priority that pass a neighbour. */
  lemma {:induction false} StepInherits(s: State, a: Step)
    requires Inv(s) && Enabled(s, a) && Urgent(s)
    ensures var r := Next(s, a, Prio); Inv(r) && (Urgent(r) <==> KeepsUrgency(s, a))
  {
    StepInv(s, a, Prio);
    match a
    case Take(t, block) => TakeUrgent(s, t, block);
    case Release(t) => ReleaseUrgent(s, t);
    case TimeOut(t) => LeaveUrgent(s, t);
    case SetPriority(t, p) => RepriceUrgent(s, t, p);
  }

  lemma {:induction false} TakeUrgent(s: State, t: int, block: bool)
    requires Inv(s) && Enabled(s, Take(t, block)) && Urgent(s)
    ensures var r := Next(s, Take(t, block), Prio); Inv(r) && Urgent(r)
  {
    var ws, r := s.m.waiters, Next(s, Take(t, block), Prio);
    TakeInherits(s, t, block, Prio);
    if s.m.owner.By? && s.m.owner.t != t && block {
      SameUrgency(ws, s.prio, r.prio);
      JoinSorted(ws, t, r.prio);
    }
  }

  lemma {:induction false} ReleaseUrgent(s: State, t: int)
    requires Inv(s) && Enabled(s, Release(t)) && Urgent(s)
    ensures var r := Next(s, Release(t), Prio); Inv(r) && Urgent(r)
  {
    var ws, r := s.m.waiters, Next(s, Release(t), Prio);
    ReleaseInherits(s, t);
    if s.m.owner == By(t) { SameUrgency(ws, s.prio, r.prio); }
  }

  lemma {:induction false} LeaveUrgent(s: State, t: int)
    requires Inv(s) && Enabled(s, TimeOut(t)) && Urgent(s)
    ensures var r := Next(s, TimeOut(t), Prio); Inv(r) && Urgent(r)
  {
    StepInv(s, TimeOut(t), Prio);
    var ws, r := s.m.waiters, Next(s, TimeOut(t), Prio);
    DropSorted(ws, t, s.prio);
    forall i | 0 <= i < |r.m.waiters| && r.m.owner.By? ensures r.prio[r.m.owner.t] <= r.prio[r.m.waiters[i]] {
      var u := r.m.waiters[i];
      assert u in Drop(ws, t);
      var j :| 0 <= j < |ws| && ws[j] == u;
    }
  }

  lemma {:induction false} SameUrgency(ws: seq<int>, prio: Priorities, q: Priorities)
    requires Known(ws, prio) && Sorted(ws, prio) && (forall t :: t in ws ==> t in q && q[t] == prio[t])
    ensures Known(ws, q) && Sorted(ws, q)
  {
    forall i | 0 <= i < |ws| ensures ws[i] in q && q[ws[i]] == prio[ws[i]] {
      var t := ws[i];
      assert t in ws;
    }
  }

  lemma {:induction false} DropSorted(ws: seq<int>, t: int, prio: Priorities)
    requires Known(ws, prio) && Sorted(ws, prio)
    ensures Known(Drop(ws, t), prio) && Sorted(Drop(ws, t), prio)
    ensures forall u :: u in Drop(ws, t) ==> u in ws
  {
    var k := DropAt(ws, t);
  }

  /** On a FIFO mutex the new owner can be left less urgent than a waiter: after these takes the release does it. */
  lemma {:induction false} FifoHandover()
    ensures var s0, run := State(INIT, map[1 := 9, 2 := 20, 3 := 4], 0), [Take(1, true), Take(2, true), Take(3, true)];
            Admissible(s0, run, Fifo)
            && var s := After(s0, run, Fifo);
               Inv(s) && Inherits(s) && Enabled(s, Release(1)) && Inv(Next(s, Release(1), Fifo))
                   && !Inherits(Next(s, Release(1), Fifo))
  {
    FifoHandoverReached();
    var s := State(Core(0, By(1), 1, 9, [2, 3]), map[1 := 4, 2 := 20, 3 := 4], 1);
    StepInv(s, Release(1), Fifo);
    ReleaseInherits(s, 1);
    assert s.m.waiters[1] == 3;
  }

  /**
    The three takes end with 2 and 3 waiting: 1 owns it at priority 9 and is boosted to 4 by 3, which waits behind 2.
   */
  lemma {:induction false} FifoHandoverReached()
    ensures var s0, run := State(INIT, map[1 := 9, 2 := 20, 3 := 4], 0), [Take(1, true), Take(2, true), Take(3, true)];
            Admissible(s0, run, Fifo)
            && After(s0, run, Fifo) == State(Core(0, By(1), 1, 9, [2, 3]), map[1 := 4, 2 := 20, 3 := 4], 1)
  {
    var s0, run := State(INIT, map[1 := 9, 2 := 20, 3 := 4], 0), [Take(1, true), Take(2, true), Take(3, true)];
    var s1 := State(Core(0, By(1), 1, 9, []), s0.prio, 1);
    var s2 := State(Core(0, By(1), 1, 9, [2]), s0.prio, 1);
    assert Next(s0, Take(1, true), Fifo) == s1 && Next(s1, Take(2, true), Fifo) == s2;
    assert run[1..] == [Take(2, true), Take(3, true)] && run[1..][1..] == [Take(3, true)];
    assert Admissible(s2, [Take(3, true)], Fifo) && Admissible(s1, run[1..], Fifo);
  }

  /**
    On a PRIO mutex a waiter that is made more urgent from outside does not raise the owner: after these takes the
    change does it.
   */
  lemma {:induction false} OwnerLeftBehind()
    ensures var s0, run := State(INIT, map[1 := 9, 2 := 20], 0), [Take(1, true), Take(2, true)];
            Admissible(s0, run, Prio)
            && var s := After(s0, run, Prio);
               Inv(s) && Urgent(s) && Enabled(s, SetPriority(2, 4)) && !KeepsUrgency(s, SetPriority(2, 4))
               && Inv(Next(s, SetPriority(2, 4), Prio)) && !Inherits(Next(s, SetPriority(2, 4), Prio))
  {
    var s0, run := State(INIT, map[1 := 9, 2 := 20], 0), [Take(1, true), Take(2, true)];
    var s1, s2 := State(Core(0, By(1), 1, 9, []), s0.prio, 1), State(Core(0, By(1), 1, 9, [2]), s0.prio, 1);
    assert Next(s0, Take(1, true), Prio) == s1 && Next(s1, Take(2, true), Prio) == s2;
    assert run[1..] == [Take(2, true)] && run[1..][1..] == [];
    assert Admissible(s1, run[1..], Prio);
    StepInv(s2, SetPriority(2, 4), Prio);
    assert Chain(s2)[1] == 2;
    assert s2.m.waiters[0] == 2;
  }

  // ---------------------------------------------------------------- the priority at acquisition

  /** t owns the mutex in every state of the run. */
  ghost predicate Owns(s: State, run: seq<Step>, t: int, flag: Flag)
    requires Admissible(s, run, flag)
    decreases |run|
  {
    s.m.owner == By(t) && (run != [] ==> Owns(Next(s, run[0], flag), run[1..], t, flag))
  }

  /** Becoming the owner, by a take or by a release that passes the mutex on, records the priority held then. */
  lemma {:induction false} Acquires(s: State, a: Step, t: int, flag: Flag)
    requires Inv(s) && Enabled(s, a) && s.m.owner != By(t) && Next(s, a, flag).m.owner == By(t)
    ensures t in s.prio && Next(s, a, flag).m.original == s.prio[t] == Next(s, a, flag).prio[t]
  {
    if a.Release? && s.m.waiters != [] { FirstLeaves(s.m.waiters); }
  }

  lemma {:induction false} OriginalStays(s: State, run: seq<Step>, t: int, flag: Flag)
    requires Inv(s) && Admissible(s, run, flag) && Owns(s, run, t, flag)
    ensures Inv(After(s, run, flag)) && After(s, run, flag).m.original == s.m.original
            && After(s, run, flag).m.owner == By(t)
    decreases |run|
  {
    if run != [] {
      StepInv(s, run[0], flag);
      if s.m.waiters != [] { FirstLeaves(s.m.waiters); }
      OriginalStays(Next(s, run[0], flag), run[1..], t, flag);
    }
  }

  /** Whatever was inherited in between, giving the mutex up restores the priority it was acquired with. */
  lemma {:induction false} Restores(s: State, a: Step, run: seq<Step>, t: int, flag: Flag)
    requires Inv(s) && Enabled(s, a) && s.m.owner != By(t) && t in s.prio
    requires var r := Next(s, a, flag); Admissible(r, run, flag) && Owns(r, run, t, flag)
    requires var u := After(Next(s, a, flag), run, flag); Inv(u) && Enabled(u, Release(t)) && u.m.hold == 1
    ensures var u := Next(After(Next(s, a, flag), run, flag), Release(t), flag);
            u.m.owner != By(t) && t in u.prio && u.prio[t] == s.prio[t]
  {
    var r := Next(s, a, flag);
    StepInv(s, a, flag);
    Acquires(s, a, t, flag);
    OriginalStays(r, run, t, flag);
    var u := After(r, run, flag);
    if u.m.waiters != [] { FirstLeaves(u.m.waiters); }
  }

  // ---------------------------------------------------------------- the object

  class Mutex {
    const threads: Threads
    const flag: Flag
    var value: nat
    var owner: Owner
    var hold: nat
    var originalPriority: int
    var waiters: seq<int>
    ghost var depth: nat

    ghost function View(): State
      reads this, threads
    {
      State(Core(value, owner, hold, originalPriority, waiters), threads.priority, depth)
    }

    constructor (threads: Threads, flag: Flag)
      ensures this.threads == threads && this.flag == flag && View() == State(INIT, threads.priority, 0)
    {
      this.threads, this.flag := threads, flag;
      value, owner, hold, originalPriority, waiters := 1, Nobody, 0, 0xFF, [];
      depth := 0;
    }

    /** rt_mutex_take up to its wait. */
    method Take(t: int, time: int) returns (result: Result)
      requires Inv(View()) && Enabled(View(), Step.Take(t, time != 0))
      modifies this, threads
      ensures Inv(View()) && (View(), result) == Taking(old(View()), t, time != 0, flag)
    {
      StepInv(View(), Step.Take(t, time != 0), flag);
      result := Ok;
      if owner == By(t) {
        hold := (hold + 1) % 256;
        depth := depth + 1;
      } else if value > 0 {
        value := value - 1;
        owner := By(t);
        originalPriority := threads.priority[t];
        hold := (hold + 1) % 256;
        depth := depth + 1;
      } else if time == 0 {
        result := TimedOut;
      } else {
        if threads.priority[t] < threads.priority[owner.t] {
          threads.priority := threads.priority[owner.t := threads.priority[t]];
        }
        waiters := Join(waiters, t, threads.priority, flag);
        result := Suspended;
      }
    }

    /** rt_mutex_release up to its scheduling. */
    method Release(t: int) returns (result: Result)
      requires Inv(View()) && Enabled(View(), Step.Release(t))
      modifies this, threads
      ensures Inv(View()) && (View(), result) == Releasing(old(View()), t)
    {
      StepInv(View(), Step.Release(t), flag);
      if owner != By(t) {
        return Error;
      }
      result := Ok;
      assert originalPriority == threads.priority[t] ==> threads.priority[t := originalPriority] == threads.priority;
      hold := (hold + 255) % 256;
      depth := depth - 1;
      if hold == 0 {
        if originalPriority != threads.priority[t] {
          threads.priority := threads.priority[t := originalPriority];
        }
        if waiters != [] {
          var thread := waiters[0];
          owner := By(thread);
          originalPriority := threads.priority[thread];
          hold := (hold + 1) % 256;
          waiters := waiters[1..];
          depth := 1;
        } else {
          value := value + 1;
          owner := Nobody;
          originalPriority := 0xff;
          depth := 0;
        }
      }
    }

    /** A waiting thread's timer runs out. */
    method TimeOut(t: int)
      requires Inv(View()) && Enabled(View(), Step.TimeOut(t))
      modifies `waiters
      ensures Inv(View()) && View() == Next(old(View()), Step.TimeOut(t), flag)
    {
      StepInv(View(), Step.TimeOut(t), flag);
      waiters := Drop(waiters, t);
    }
  }
}
