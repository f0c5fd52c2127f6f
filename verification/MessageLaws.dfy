/** What the callers of a message queue see: who is refused, who waits, who is woken, and which bytes arrive. */
module MessageLaws {
  import opened Rings
  import opened WaitLists
  import opened MessageModel

  /** Only t's place changes. */
  ghost predicate OnlyMoves(was: map<int, Pc>, now: map<int, Pc>, t: int) {
    was.Keys == now.Keys && forall u :: u in was && u != t ==> now[u] == was[u]
  }

  /** The message is queued, or some thread holds it. */
  ghost predicate Busy(s: State, n: int) { n in s.core.queue || exists u :: u in s.pc && Holds(s.pc[u], n) }

  /**
    A send gets a free message to fill, unless every message is queued or held, which is when it is refused and
    nothing changes.
   */
  lemma {:induction false} GrabExactly(s: State, t: int, urgent: bool, cfg: Config)
    requires Inv(s, cfg) && Enabled(s, Grab(t, urgent), cfg)
    ensures var r := Next(s, Grab(t, urgent), cfg);
            (r == s <==> forall n :: 0 <= n < |s.core.data| ==> Busy(s, n))
            && (r != s ==>
                  OnlyMoves(s.pc, r.pc, t) && r.pc[t].Filling? && r.pc[t].urgent == urgent
                  && r.pc[t].node in s.core.free && r.pc[t].node !in r.core.free
                  && r.core == s.core.(free := r.core.free))
  {
    var c := s.core;
    if c.free == [] {
      forall n | 0 <= n < |c.data| ensures Busy(s, n) {
        assert Somewhere(s, n);
      }
    } else {
      var n := c.free[0];
      assert n in c.free && c.free == [n] + c.free[1..] && n !in c.free[1..];
      assert n !in c.queue;
      forall u | u in s.pc ensures !Holds(s.pc[u], n) {}
      assert 0 <= n < |c.data| && !Busy(s, n);
    }
  }

  /** Linking a message wakes the thread that waits in front, and no other; the rest wait on in their order. */
  lemma {:induction false} LinkWakes(s: State, t: int, cfg: Config)
    requires Inv(s, cfg) && Enabled(s, Link(t), cfg)
    ensures var ws, r := s.core.waiters, Next(s, Link(t), cfg);
            r.pc.Keys == s.pc.Keys && r.pc[t] == Idle && r.core.free == s.core.free
            && (forall u :: u in s.pc && u != t && !(ws != [] && u == ws[0]) ==> r.pc[u] == s.pc[u])
            && if ws == [] then r.core.waiters == []
               else ws == [ws[0]] + r.core.waiters && ws[0] in r.pc && r.pc[ws[0]] == Woken(Ok)
  {
    var ws := s.core.waiters;
    if ws != [] {
      var w := ws[0];
      assert w in s.core.waiters;
      assert w in s.pc && s.pc[w].Waiting?;
    }
  }

  /**
    A receive takes the first message; on an empty queue it waits if it may, behind those it has to wait for, and is
    refused otherwise.
   */
  lemma {:induction false} ReceiveExactly(s: State, t: int, block: bool, cfg: Config)
    requires Inv(s, cfg) && Enabled(s, Receive(t, block), cfg)
    ensures var r := Next(s, Receive(t, block), cfg);
            OnlyMoves(s.pc, r.pc, t) && r.core.free == s.core.free && r.core.data == s.core.data
            && if s.core.queue != [] then
                 r.core.waiters == s.core.waiters && r.pc[t].Emptying? && s.core.queue == [r.pc[t].node] + r.core.queue
               else if block then
                 r.pc[t] == Waiting && r.core.queue == [] && t in r.core.waiters
                 && Drop(r.core.waiters, t) == s.core.waiters
               else r.pc[t] == Idle && r.core == s.core
  {
    if s.core.queue == [] && block { JoinDropped(s.core.waiters, t, cfg.prio, cfg.flag); }
  }

  /** A thread that timed out no longer waits and is told so. */
  lemma {:induction false} TimeOutTold(s: State, t: int, cfg: Config)
    requires Inv(s, cfg) && Enabled(s, TimeOut(t), cfg)
    ensures var r := Next(s, TimeOut(t), cfg);
            OnlyMoves(s.pc, r.pc, t) && r.pc[t] == Woken(TimedOut) && r.core == s.core.(waiters := r.core.waiters)
            && forall u :: u in r.core.waiters <==> u in s.core.waiters && u != t
  {
    DropFacts(s.core.waiters, t);
  }

  /** Who is told that its wait failed returns, and touches nothing. */
  lemma {:induction false} Returns(s: State, t: int, cfg: Config)
    requires Inv(s, cfg) && Enabled(s, Return(t), cfg)
    ensures var r := Next(s, Return(t), cfg); r.core == s.core && OnlyMoves(s.pc, r.pc, t) && r.pc[t] == Idle
  {}

  /**
    After a reset everybody who waited is told that it failed, and every queued message is free; who holds one keeps
    it.
   */
  lemma {:induction false} ResetExactly(s: State, cfg: Config)
    requires Inv(s, cfg)
    ensures var r := Next(s, Reset, cfg);
            r.core.queue == [] && r.core.waiters == [] && r.pc.Keys == s.pc.Keys
            && (forall n :: n in r.core.free <==> n in s.core.free || n in s.core.queue)
            && forall u :: u in s.pc ==> r.pc[u] == if u in s.core.waiters then Woken(Failed) else s.pc[u]
  {
    forall n ensures n in Reverse(s.core.queue) <==> n in s.core.queue { ReverseHas(s.core.queue, n); }
  }

  /** A message given back is the next one handed out. */
  lemma {:induction false} PutBackFirst(s: State, t: int, u: int, urgent: bool, cfg: Config)
    requires Inv(s, cfg) && Enabled(s, PutBack(t), cfg) && u in s.pc && (s.pc[u].Idle? || u == t)
    ensures var r := Next(s, PutBack(t), cfg);
            Inv(r, cfg) && r.pc[t] == Idle && r.core.queue == s.core.queue && Enabled(r, Grab(u, urgent), cfg)
            && var q := Next(r, Grab(u, urgent), cfg);
               q.pc[u] == Filling(s.pc[t].node, urgent) && q.core.free == s.core.free
  {
    StepInv(s, PutBack(t), cfg);
  }

  // ---------------------------------------------------------------- from buffer to buffer

  ghost predicate OthersRun(run: seq<Step>, t: int) {
    forall i {:trigger run[i]} :: 0 <= i < |run| ==> !ByThread(run[i], t)
  }

  /** What a sender puts in its message: the bytes given, and behind them what was there. */
  lemma {:induction false} FillPuts(s: State, t: int, bytes: Bytes, cfg: Config)
    requires Inv(s, cfg) && Enabled(s, Fill(t, bytes), cfg)
    ensures var n, r := s.pc[t].node, Next(s, Fill(t, bytes), cfg);
            Inv(r, cfg) && r.pc == s.pc && 0 <= n < |r.core.data| == |s.core.data| && |r.core.data[n]| == cfg.msgSize
            && r.core.data[n][..|bytes|] == bytes && r.core.data[n][|bytes|..] == s.core.data[n][|bytes|..]
  {
    StepInv(s, Fill(t, bytes), cfg);
  }

  /**
    Whatever the others do between filling and linking, the message that is linked begins with the bytes that were
    filled in, at the end of the queue or, sent urgently, in front of it.
   */
  lemma {:induction false} SentArrives(s: State, t: int, bytes: Bytes, run: seq<Step>, cfg: Config) returns (m: Bytes)
    requires Inv(s, cfg) && Enabled(s, Fill(t, bytes), cfg) && OthersRun(run, t)
    requires Admissible(Next(s, Fill(t, bytes), cfg), run, cfg)
    ensures var r, cfg' := After(Next(s, Fill(t, bytes), cfg), run, cfg), Finally(cfg, run);
            Inv(r, cfg') && Enabled(r, Link(t), cfg') && InPool(r.core) && InPool(Next(r, Link(t), cfg').core)
            && |m| == cfg.msgSize && |bytes| <= |m| && m[..|bytes|] == bytes
            && Contents(Next(r, Link(t), cfg').core)
               == if s.pc[t].urgent then [m] + Contents(r.core) else Contents(r.core) + [m]
  {
    var f := Next(s, Fill(t, bytes), cfg);
    FillPuts(s, t, bytes, cfg);
    RunInv(f, run, cfg);
    HeldStays(f, run, t, cfg);
    var r, cfg' := After(f, run, cfg), Finally(cfg, run);
    StepContents(r, Link(t), cfg');
    m := r.core.data[r.pc[t].node];
  }

  /** And whatever they do while a receiver copies it, the receiver holds the message that was first in the queue. */
  lemma {:induction false} ReceivedIsFirst(s: State, t: int, block: bool, run: seq<Step>, cfg: Config)
    requires Inv(s, cfg) && Enabled(s, Receive(t, block), cfg) && s.core.queue != [] && OthersRun(run, t)
    requires Admissible(Next(s, Receive(t, block), cfg), run, cfg)
    ensures var r := After(Next(s, Receive(t, block), cfg), run, cfg);
            InPool(s.core) && t in r.pc && r.pc[t].Emptying? && 0 <= r.pc[t].node < |r.core.data|
            && r.core.data[r.pc[t].node] == Contents(s.core)[0]
  {
    QueueInPool(s, cfg);
    StepInv(s, Receive(t, block), cfg);
    HeldStays(Next(s, Receive(t, block), cfg), run, t, cfg);
    assert s.core.queue[0] in s.core.queue;
  }
}
