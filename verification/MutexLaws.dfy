/** What the mutex answers, whom it raises and how far, and to whom it goes. */
module MutexLaws {
  import opened Rings
  import opened WaitLists
  import opened Mutexes

  // ---------------------------------------------------------------- the answers

  /** A release is refused to everyone but the owner, and then nothing has changed. */
  lemma {:induction false} ReleaseAnswers(s: State, t: int)
    requires Inv(s) && Enabled(s, Release(t))
    ensures var (r, result) := Releasing(s, t);
            (result == Ok <==> s.m.owner == By(t)) && (result == Error <==> s.m.owner != By(t))
            && (result == Error ==> r == s)
  {}

  /** A take of a mutex somebody else owns is refused if it may not wait, and then nothing has changed. */
  lemma {:induction false} TakeAnswers(s: State, t: int, block: bool, flag: Flag)
    requires Inv(s) && Enabled(s, Take(t, block))
    ensures var (r, result) := Taking(s, t, block, flag);
            (result == Ok <==> s.m.owner in {Nobody, By(t)})
            && (result == TimedOut <==> s.m.owner !in {Nobody, By(t)} && !block)
            && (result == Suspended <==> s.m.owner !in {Nobody, By(t)} && block)
            && (result == TimedOut ==> r == s)
  {}

  // ---------------------------------------------------------------- the effects

  /** Nobody's priority but t's differs. */
  ghost predicate OnlyPriority(was: Priorities, now: Priorities, t: int) {
    was.Keys == now.Keys && forall u :: u in was && u != t ==> now[u] == was[u]
  }

  function Less(a: int, b: int): int { if a < b then a else b }

  /**
    A take that waits raises the owner to the taker's priority and no further, raises nobody else, and adds the taker
    to the waiters, who keep their order; the ownership stays as it is.
   */
  lemma {:induction false} WaitingTake(s: State, t: int, flag: Flag)
    requires Inv(s) && Enabled(s, Take(t, true)) && s.m.owner !in {Nobody, By(t)}
    ensures var o, r := s.m.owner.t, Taking(s, t, true, flag).0;
            OnlyPriority(s.prio, r.prio, o) && r.prio[o] == Less(s.prio[o], s.prio[t])
            && t in r.m.waiters && Drop(r.m.waiters, t) == s.m.waiters
            && r.m.owner == s.m.owner && r.m.original == s.m.original && r.depth == s.depth
  {
    JoinDropped(s.m.waiters, t, Raise(s.prio, s.m.owner.t, s.prio[t]), flag);
  }

  /** A take that succeeds changes no priority: a first one remembers the taker's, a nested one counts. */
  lemma {:induction false} GrantedTake(s: State, t: int, block: bool, flag: Flag)
    requires Inv(s) && Enabled(s, Take(t, block)) && s.m.owner in {Nobody, By(t)}
    ensures var r := Taking(s, t, block, flag).0;
            r.m.owner == By(t) && r.prio == s.prio && r.m.waiters == s.m.waiters && r.depth == s.depth + 1
            && r.m.original == if s.m.owner == By(t) then s.m.original else s.prio[t]
  {}

  /** A release that does not give the mutex up counts, and changes nothing else. */
  lemma {:induction false} NestedRelease(s: State, t: int)
    requires Inv(s) && Enabled(s, Release(t)) && s.m.owner == By(t) && s.m.hold != 1
    ensures var r := Releasing(s, t).0;
            r.m.owner == By(t) && r.prio == s.prio && r.m.waiters == s.m.waiters && r.m.original == s.m.original
            && r.depth == s.depth - 1
  {
    HoldIsDepth(s.depth);
  }

  /**
    One that gives it up restores the owner's priority, touches nobody else's, and makes the first waiter the owner,
    once, at the priority it has; without waiters the mutex is free.
   */
  lemma {:induction false} LastRelease(s: State, t: int)
    requires Inv(s) && Enabled(s, Release(t)) && s.m.owner == By(t) && s.m.hold == 1
    ensures var r := Releasing(s, t).0;
            OnlyPriority(s.prio, r.prio, t) && r.prio[t] == s.m.original
            && if s.m.waiters == [] then r.m == INIT
               else r.m.owner == By(s.m.waiters[0]) && s.m.waiters == [s.m.waiters[0]] + r.m.waiters && r.depth == 1
                    && s.m.waiters[0] in s.prio && r.m.original == s.prio[s.m.waiters[0]]
  {
    if s.m.waiters != [] { FirstLeaves(s.m.waiters); }
  }

  /** A timed-out thread is no longer waiting; the owner keeps what it has inherited from it. */
  lemma {:induction false} TimeOutLeaves(s: State, t: int, flag: Flag)
    requires Inv(s) && Enabled(s, TimeOut(t))
    ensures var r := Next(s, TimeOut(t), flag);
            r.m.owner == s.m.owner && r.prio == s.prio && r.depth == s.depth && r.m.original == s.m.original
            && forall u :: u in r.m.waiters <==> u in s.m.waiters && u != t
  {
    DropFacts(s.m.waiters, t);
  }

  // ---------------------------------------------------------------- how far the owner is raised

  /** The priorities of the threads that begin to wait during the run, when they do. */
  ghost function Joiners(s: State, run: seq<Step>, flag: Flag): seq<int>
    requires Admissible(s, run, flag)
    decreases |run|
  {
    if run == [] then []
    else
      (if run[0].Take? && Taking(s, run[0].t, run[0].block, flag).1 == Suspended then [s.prio[run[0].t]] else [])
      + Joiners(Next(s, run[0], flag), run[1..], flag)
  }

  function Least(p: int, others: seq<int>): (m: int)
    ensures m <= p && (m == p || m in others) && forall q :: q in others ==> m <= q
  {
    if others == [] then p
    else
      assert others == [others[0]] + others[1..];
      Less(others[0], Least(p, others[1..]))
  }

  lemma {:induction false} LeastOf(p: int, q: int, others: seq<int>)
    ensures Least(Less(p, q), others) == Least(p, [q] + others)
  {
    if others != [] {
      LeastOf(p, q, others[1..]);
      assert ([q] + others)[1..] == others && ([q] + others[1..])[1..] == others[1..];
    }
  }

  /** A step of a tenure: a thread that begins to wait may raise the owner, and nothing else changes its priority. */
  lemma {:induction false} TenureStep(s: State, a: Step, t: int, flag: Flag)
    requires Inv(s) && Enabled(s, a) && s.m.owner == By(t) && Next(s, a, flag).m.owner == By(t) && !a.SetPriority?
    ensures var r := Next(s, a, flag);
            t in r.prio && r.prio[t] == if a.Take? && Taking(s, a.t, a.block, flag).1 == Suspended
                                        then Less(s.prio[t], s.prio[a.t]) else s.prio[t]
  {
    HoldIsDepth(s.depth);
    if s.m.waiters != [] { FirstLeaves(s.m.waiters); }
  }

  ghost predicate NoneOutside(run: seq<Step>) {
    forall i {:trigger run[i]} :: 0 <= i < |run| ==> !run[i].SetPriority?
  }

  /**
    While a thread owns the mutex, and no priority is changed from outside, its priority is the least of what it was
    and of those of the threads that began to wait: it inherits the most urgent one, exactly.
   */
  lemma {:induction false} InheritsLeast(s: State, run: seq<Step>, t: int, flag: Flag)
    requires Inv(s) && Admissible(s, run, flag) && Owns(s, run, t, flag) && NoneOutside(run)
    ensures t in s.prio && t in After(s, run, flag).prio
            && After(s, run, flag).prio[t] == Least(s.prio[t], Joiners(s, run, flag))
    decreases |run|
  {
    if run != [] {
      var r, js := Next(s, run[0], flag), Joiners(Next(s, run[0], flag), run[1..], flag);
      StepInv(s, run[0], flag);
      TenureStep(s, run[0], t, flag);
      InheritsLeast(r, run[1..], t, flag);
      if run[0].Take? && Taking(s, run[0].t, run[0].block, flag).1 == Suspended {
        LeastOf(s.prio[t], s.prio[run[0].t], js);
      } else {
        assert [] + js == js;
      }
    }
  }
}
