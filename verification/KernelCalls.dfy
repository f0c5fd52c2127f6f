/** What a kernel call does to one wait list and to the priorities. */
module KernelCalls {
  import opened WaitLists
  import Sched = Schedulers

  /** Seen from a list: nothing, a thread leaves, or a thread's priority changes. */
  datatype Effect = Same | Leaves(t: int) | Reprices(t: int, level: int)

  function EffectOf(s: Sched.Sched, o: int, c: Sched.Call): Effect
    requires o in s.waits
  {
    match c
    case SetPriority(t, level) => Reprices(t, level)
    case Startup(t, level) => Reprices(t, level)
    case Resume(t) => Left(s, o, t)
    case TimeOut(t) => Left(s, o, t)
    case Delete(t) => Left(s, o, t)
    case _ => Same
  }

  function Left(s: Sched.Sched, o: int, t: int): Effect
    requires o in s.waits
  {
    if t in s.waits[o] then Leaves(t) else Same
  }

  /** The effect is what list o and the priorities show. */
  ghost predicate Shows(s: Sched.Sched, r: Sched.Sched, o: int, e: Effect)
    requires o in s.waits
  {
    o in r.waits && r.flags == s.flags
    && r.waits[o] == (if e.Leaves? then Drop(s.waits[o], e.t) else s.waits[o])
    && r.prio == if e.Reprices? then s.prio[e.t := e.level] else s.prio
  }

  lemma {:induction false} DropsNothing(ws: seq<int>, t: int)
    requires t !in ws
    ensures Drop(ws, t) == ws
  {
    var k := DropAt(ws, t);
  }

  lemma {:induction false} ScheduledKeeps(s: Sched.Sched)
    requires Sched.Inv(s) && s.current != Sched.NONE
    ensures var r := Sched.Scheduled(s); r.waits == s.waits && r.flags == s.flags && r.prio == s.prio
  {
    if s.lock == 0 && s.group != 0 {
      Sched.HighestIsFirst(s);
      Sched.HeadIsReady(s, Sched.Highest(s));
    }
  }

  lemma {:induction false} ResumedWaits(s: Sched.Sched, o: int, t: int)
    requires Sched.Inv(s) && t in s.stat && o in s.waits
    ensures var r := Sched.Resumed(s, t);
            o in r.waits && r.waits[o] == Drop(s.waits[o], t) && r.flags == s.flags && r.prio == s.prio
  {
    if s.stat[t] != Sched.Suspend { DropsNothing(s.waits[o], t); }
  }

  lemma {:induction false} DeletedWaits(s: Sched.Sched, o: int, t: int)
    requires Sched.Inv(s) && t in s.stat && o in s.waits
    ensures var r := Sched.Deleted(s, t);
            o in r.waits && r.waits[o] == Drop(s.waits[o], t) && r.flags == s.flags && r.prio == s.prio
  {
    if s.stat[t] == Sched.Init { DropsNothing(s.waits[o], t); }
  }

  lemma {:induction false} BlockedWaits(s: Sched.Sched, o: int, q: int)
    requires Sched.Inv(s) && o in s.waits && Sched.Enabled(s, Sched.Block(q))
    ensures s.current in s.prio && Known(s.waits[o], s.prio)
    ensures var r := Sched.Blocked(s, q);
            o in r.waits && r.flags == s.flags && r.prio == s.prio
            && r.waits[o] == if q == o then Join(s.waits[o], s.current, s.prio, s.flags[o]) else s.waits[o]
  {
    Sched.WaitersKnown(s, o);
    Sched.WaitersKnown(s, q);
  }

  lemma {:induction false} WokenWaits(s: Sched.Sched, o: int, q: int)
    requires Sched.Inv(s) && o in s.waits && Sched.Enabled(s, Sched.Wake(q))
    ensures var r := Sched.Woken(s, q);
            o in r.waits && r.flags == s.flags && r.prio == s.prio
            && r.waits[o] == if q == o then s.waits[o][1..] else s.waits[o]
  {
    var t := s.waits[q][0];
    assert t in s.waits[q];
    ResumedWaits(s, o, t);
    if q != o { DropsNothing(s.waits[o], t); }
  }

  lemma {:induction false} StartedWaits(s: Sched.Sched, o: int, t: int, level: int)
    requires Sched.Inv(s) && o in s.waits && Sched.Enabled(s, Sched.Startup(t, level))
    ensures var r := Sched.Next(s, Sched.Startup(t, level));
            o in r.waits && r.waits[o] == s.waits[o] && r.flags == s.flags && r.prio == s.prio[t := level]
  {
    var u := s.(prio := s.prio[t := level], stat := s.stat[t := Sched.Suspend]);
    Sched.StartupInv(s, t, level);
    ResumedWaits(u, o, t);
    DropsNothing(s.waits[o], t);
    if s.current != Sched.NONE { ScheduledKeeps(Sched.Resumed(u, t)); }
  }

  lemma {:induction false} TimedOutWaits(s: Sched.Sched, o: int, t: int)
    requires Sched.Inv(s) && o in s.waits && Sched.Enabled(s, Sched.TimeOut(t))
    ensures var r := Sched.Next(s, Sched.TimeOut(t));
            o in r.waits && r.waits[o] == Drop(s.waits[o], t) && r.flags == s.flags && r.prio == s.prio
  {
    Sched.ResumedInv(s, t);
    ResumedWaits(s, o, t);
    ScheduledKeeps(Sched.Resumed(s, t));
  }

  /** The other calls move no thread on or off a list. */
  lemma {:induction false} OthersKeep(s: Sched.Sched, c: Sched.Call)
    requires Sched.Inv(s) && Sched.Enabled(s, c)
    requires c.SuspendThread? || c.EnterCritical? || c.ExitCritical? || c.Reschedule? || c.Start?
    ensures var r := Sched.Next(s, c); r.waits == s.waits && r.flags == s.flags && r.prio == s.prio
  {
    if c.Reschedule? { ScheduledKeeps(s); }
    if c.ExitCritical? && s.lock <= 1 {
      Sched.UnlockInv(s, 0);
      if s.current != Sched.NONE { ScheduledKeeps(s.(lock := 0)); }
    }
    if c.Start? {
      Sched.HighestIsFirst(s);
      Sched.HeadIsReady(s, Sched.Highest(s));
    }
  }

  lemma {:induction false} LeftShows(s: Sched.Sched, r: Sched.Sched, o: int, t: int)
    requires o in s.waits && o in r.waits && r.waits[o] == Drop(s.waits[o], t) && r.flags == s.flags && r.prio == s.prio
    ensures Shows(s, r, o, Left(s, o, t))
  {
    if t !in s.waits[o] { DropsNothing(s.waits[o], t); }
  }

  /** Only blocking on the list and waking its first thread are not among these effects. */
  lemma {:induction false} CallShows(s: Sched.Sched, o: int, c: Sched.Call)
    requires Sched.Inv(s) && Sched.Enabled(s, c) && o in s.waits && c != Sched.Block(o) && c != Sched.Wake(o)
    ensures Shows(s, Sched.Next(s, c), o, EffectOf(s, o, c))
  {
    match c
    case Startup(t, level) => StartedWaits(s, o, t, level);
    case Resume(t) => ResumedWaits(s, o, t); LeftShows(s, Sched.Next(s, c), o, t);
    case TimeOut(t) => TimedOutWaits(s, o, t); LeftShows(s, Sched.Next(s, c), o, t);
    case Delete(t) => DeletedWaits(s, o, t); LeftShows(s, Sched.Next(s, c), o, t);
    case SetPriority(t, level) =>
    case Block(q) => BlockedWaits(s, o, q);
    case Wake(q) => WokenWaits(s, o, q);
    case _ => OthersKeep(s, c);
  }
}
