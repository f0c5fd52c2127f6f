/** Event sets: threads wait for all or any of some events, and a send wakes whoever is satisfied in one pass. */
module Events {
  import opened Rings
  import opened WaitLists

  /** A 32-bit event set, as the set of its one bits. */
  type Bit = i: int | 0 <= i < 32
  type Bits = set<Bit>

  /** One of all and any is set; all takes precedence. clear consumes the bits waited for. */
  datatype Option = Option(all: bool, any: bool, clear: bool)

  /** What a thread waits for; once it is woken, what it received. */
  datatype Info = Info(bits: Bits, option: Option)

  type Infos = map<int, Info>

  datatype Core = Core(bits: Bits, waiters: seq<int>, infos: Infos)

  predicate Meets(bits: Bits, i: Info) {
    if i.option.all then i.bits <= bits else i.option.any && i.bits * bits != {}
  }

  /** What a satisfied thread receives of the set, and what it leaves. */
  function Received(bits: Bits, i: Info): Bits {
    if i.option.all then i.bits else i.bits * bits
  }

  function Left(bits: Bits, i: Info): Bits {
    if i.option.clear then bits - Received(bits, i) else bits
  }

  ghost predicate Informed(ws: seq<int>, infos: Infos) {
    forall i {:trigger ws[i]} :: 0 <= i < |ws| ==> ws[i] in infos
  }

  /** A woken thread with what it received. */
  datatype Wake = Wake(t: int, got: Bits, clear: bool)

  /** What one pass leaves of the set and of the waiters, and whom it wakes. */
  datatype Pass = Pass(bits: Bits, waiters: seq<int>, wakes: seq<Wake>)

  function Scan(bits: Bits, ws: seq<int>, infos: Infos): (p: Pass)
    requires Informed(ws, infos)
  {
    if ws == [] then Pass(bits, [], [])
    else
      var i := infos[ws[0]];
      if Meets(bits, i) then
        var p := Scan(Left(bits, i), ws[1..], infos);
        p.(wakes := [Wake(ws[0], Received(bits, i), i.option.clear)] + p.wakes)
      else
        var p := Scan(bits, ws[1..], infos);
        p.(waiters := [ws[0]] + p.waiters)
  }

  // ---------------------------------------------------------------- the set only shrinks during a pass

  lemma {:induction false} ScanShrinks(bits: Bits, ws: seq<int>, infos: Infos)
    requires Informed(ws, infos)
    ensures Scan(bits, ws, infos).bits <= bits
  {
    if ws != [] {
      var i := infos[ws[0]];
      ScanShrinks(if Meets(bits, i) then Left(bits, i) else bits, ws[1..], infos);
    }
  }

  /** Nobody in the list is satisfied by the set. */
  ghost predicate NoneMet(bits: Bits, ws: seq<int>, infos: Infos) {
    Informed(ws, infos) && forall i {:trigger ws[i]} :: 0 <= i < |ws| ==> !Meets(bits, infos[ws[i]])
  }

  /** So after the pass nobody who still waits is satisfied by what is left, although earlier threads took bits away. */
  lemma {:induction false} ScanSettles(bits: Bits, ws: seq<int>, infos: Infos)
    requires Informed(ws, infos)
    ensures var p := Scan(bits, ws, infos); NoneMet(p.bits, p.waiters, infos)
  {
    if ws != [] {
      var i := infos[ws[0]];
      var left := if Meets(bits, i) then Left(bits, i) else bits;
      ScanSettles(left, ws[1..], infos);
      ScanShrinks(left, ws[1..], infos);
    }
  }

  /** Bits consumed by one thread reach no later one and are gone at the end. */
  ghost predicate Exclusive(p: Pass) {
    (forall j {:trigger p.wakes[j]} :: 0 <= j < |p.wakes| && p.wakes[j].clear ==> p.wakes[j].got !! p.bits)
    && forall j, k :: 0 <= j < k < |p.wakes| && p.wakes[j].clear ==> p.wakes[j].got !! p.wakes[k].got
  }

  ghost predicate AllWithin(wakes: seq<Wake>, bits: Bits) {
    forall j {:trigger wakes[j]} :: 0 <= j < |wakes| ==> wakes[j].got <= bits
  }

  lemma {:induction false} GotWithin(bits: Bits, ws: seq<int>, infos: Infos)
    requires Informed(ws, infos)
    ensures AllWithin(Scan(bits, ws, infos).wakes, bits)
  {
    if ws != [] {
      var i := infos[ws[0]];
      var left := if Meets(bits, i) then Left(bits, i) else bits;
      GotWithin(left, ws[1..], infos);
      var wakes := Scan(left, ws[1..], infos).wakes;
      forall j {:trigger wakes[j]} | 0 <= j < |wakes| ensures wakes[j].got <= bits {
        assert wakes[j].got <= left <= bits;
      }
    }
  }

  lemma {:induction false} ScanExclusive(bits: Bits, ws: seq<int>, infos: Infos)
    requires Informed(ws, infos)
    ensures Exclusive(Scan(bits, ws, infos))
  {
    if ws != [] {
      var i := infos[ws[0]];
      var left := if Meets(bits, i) then Left(bits, i) else bits;
      ScanExclusive(left, ws[1..], infos);
      ScanShrinks(left, ws[1..], infos);
      GotWithin(left, ws[1..], infos);
    }
  }

  /** Who was woken was waiting and waits no more; the others wait on. */
  ghost predicate Splits(p: Pass, ws: seq<int>) {
    Distinct(p.waiters) && (forall w :: w in p.waiters ==> w in ws) && |p.waiters| + |p.wakes| == |ws|
    && forall j {:trigger p.wakes[j]} :: 0 <= j < |p.wakes| ==> p.wakes[j].t in ws && p.wakes[j].t !in p.waiters
  }

  lemma {:induction false} ScanSplits(bits: Bits, ws: seq<int>, infos: Infos)
    requires Informed(ws, infos) && Distinct(ws)
    ensures Splits(Scan(bits, ws, infos), ws)
  {
    if ws != [] {
      var i := infos[ws[0]];
      assert ws == [ws[0]] + ws[1..] && ws[0] !in ws[1..];
      ScanSplits(if Meets(bits, i) then Left(bits, i) else bits, ws[1..], infos);
    }
  }

  // ---------------------------------------------------------------- the system

  datatype Step =
    | Send(bits: Bits)
    | Recv(t: int, bits: Bits, option: Option, block: bool)
    | TimeOut(t: int)
    | Reset
    | SetPriority(t: int, p: int)

  /** The priorities of the threads, which change during a run, and how the event's wait list is ordered. */
  datatype Config = Config(prio: Priorities, flag: Flag)

  function Repriced(cfg: Config, a: Step): Config {
    if a.SetPriority? then cfg.(prio := cfg.prio[a.t := a.p]) else cfg
  }

  ghost predicate Enabled(c: Core, a: Step, cfg: Config) {
    match a
    case Send(_) => true
    case Recv(t, _, option, _) => t in cfg.prio && t !in c.waiters && (option.all || option.any)
    case TimeOut(t) => t in c.waiters
    case Reset => true
    case SetPriority(t, _) => t in cfg.prio
  }

  ghost predicate Inv(c: Core, cfg: Config) {
    Distinct(c.waiters) && Known(c.waiters, cfg.prio) && NoneMet(c.bits, c.waiters, c.infos)
    && forall i {:trigger c.waiters[i]} :: 0 <= i < |c.waiters| ==> c.infos[c.waiters[i]].bits != {}
  }

  /** The woken threads' records hold what they received. */
  function Woken(infos: Infos, wakes: seq<Wake>): Infos {
    if wakes == [] then infos else Record(Woken(infos, wakes[..|wakes| - 1]), wakes[|wakes| - 1])
  }

  function Record(infos: Infos, w: Wake): Infos {
    if w.t in infos then infos[w.t := infos[w.t].(bits := w.got)] else infos
  }

  function Sent(c: Core, bits: Bits): Core
    requires Informed(c.waiters, c.infos)
  {
    if bits == {} then c
    else
      var p := Scan(c.bits + bits, c.waiters, c.infos);
      Core(p.bits, p.waiters, Woken(c.infos, p.wakes))
  }

  datatype Result = Ok | Error | TimedOut | Suspended

  /** The new state, what the call returns or that it waits, and what is received at once. */
  function Receive(c: Core, t: int, bits: Bits, option: Option, block: bool, cfg: Config): (Core, Result, Bits)
    requires Inv(c, cfg) && t in cfg.prio
  {
    if bits == {} then (c, Error, {})
    else if Meets(c.bits, Info(bits, option)) then
      (c.(bits := if option.clear then c.bits - bits else c.bits), Ok, c.bits * bits)
    else if !block then (c, TimedOut, {})
    else
      (c.(waiters := Join(c.waiters, t, cfg.prio, cfg.flag), infos := c.infos[t := Info(bits, option)]), Suspended, {})
  }

  function Next(c: Core, a: Step, cfg: Config): Core
    requires Inv(c, cfg) && Enabled(c, a, cfg)
  {
    match a
    case Send(bits) => Sent(c, bits)
    case Recv(t, bits, option, block) => Receive(c, t, bits, option, block, cfg).0
    case TimeOut(t) => c.(waiters := Drop(c.waiters, t))
    case Reset => c.(bits := {}, waiters := [])
    case SetPriority(_, _) => c
  }

  lemma {:induction false} WokenElsewhere(infos: Infos, wakes: seq<Wake>, w: int)
    requires w in infos && forall j {:trigger wakes[j]} :: 0 <= j < |wakes| ==> wakes[j].t != w
    ensures w in Woken(infos, wakes) && Woken(infos, wakes)[w] == infos[w]
  {
    if wakes != [] {
      assert wakes[|wakes| - 1].t != w;
      WokenElsewhere(infos, wakes[..|wakes| - 1], w);
    }
  }

  lemma {:induction false} SentInv(c: Core, bits: Bits, cfg: Config)
    requires Inv(c, cfg)
    ensures Inv(Sent(c, bits), cfg)
  {
    if bits != {} {
      var p := Scan(c.bits + bits, c.waiters, c.infos);
      ScanSplits(c.bits + bits, c.waiters, c.infos);
      ScanSettles(c.bits + bits, c.waiters, c.infos);
      KnownIn(c.waiters, p.waiters, cfg.prio);
      forall i {:trigger p.waiters[i]} | 0 <= i < |p.waiters|
        ensures p.waiters[i] in Woken(c.infos, p.wakes)
                && Woken(c.infos, p.wakes)[p.waiters[i]] == c.infos[p.waiters[i]]
        ensures c.infos[p.waiters[i]].bits != {}
      {
        var w := p.waiters[i];
        assert w in p.waiters;
        WokenElsewhere(c.infos, p.wakes, w);
        var k :| 0 <= k < |c.waiters| && c.waiters[k] == w;
      }
    }
  }

  lemma {:induction false} RecvInv(c: Core, t: int, bits: Bits, option: Option, block: bool, cfg: Config)
    requires Inv(c, cfg) && Enabled(c, Recv(t, bits, option, block), cfg)
    ensures Inv(Receive(c, t, bits, option, block, cfg).0, cfg)
  {
    var i := Info(bits, option);
    if bits != {} && !Meets(c.bits, i) && block {
      JoinInv(c, t, i, cfg);
    }
  }

  lemma {:induction false} JoinInv(c: Core, t: int, i: Info, cfg: Config)
    requires Inv(c, cfg) && t in cfg.prio && t !in c.waiters && i.bits != {} && !Meets(c.bits, i)
    ensures Inv(c.(waiters := Join(c.waiters, t, cfg.prio, cfg.flag), infos := c.infos[t := i]), cfg)
  {
    var ws, r := c.waiters, Join(c.waiters, t, cfg.prio, cfg.flag);
    JoinFacts(ws, t, cfg.prio, cfg.flag);
    var k := if cfg.flag.Fifo? then |ws| else Place(ws, 0, cfg.prio[t], cfg.prio);
    forall j | 0 <= j < |r| ensures r[j] == if j == k then t else ws[if j < k then j else j - 1] {}
    forall j | 0 <= j < |ws| ensures ws[j] != t { var w := ws[j]; assert w in ws; }
  }

  /** Every step leaves nobody waiting for what is already there. */
  lemma {:induction false} StepInv(c: Core, a: Step, cfg: Config)
    requires Inv(c, cfg) && Enabled(c, a, cfg)
    ensures Inv(Next(c, a, cfg), Repriced(cfg, a))
  {
    match a
    case Send(bits) => SentInv(c, bits, cfg);
    case Recv(t, bits, option, block) => RecvInv(c, t, bits, option, block, cfg);
    case TimeOut(t) =>
      DropFacts(c.waiters, t);
      var k := DropAt(c.waiters, t);
    case Reset =>
    case SetPriority(_, _) =>
  }

  ghost predicate Admissible(c: Core, run: seq<Step>, cfg: Config)
    decreases |run|
  {
    run != [] ==>
      Inv(c, cfg) && Enabled(c, run[0], cfg)
      && Admissible(Next(c, run[0], cfg), run[1..], Repriced(cfg, run[0]))
  }

  ghost function After(c: Core, run: seq<Step>, cfg: Config): Core
    requires Admissible(c, run, cfg)
    decreases |run|
  {
    if run == [] then c else After(Next(c, run[0], cfg), run[1..], Repriced(cfg, run[0]))
  }

  /** The priorities after a run. */
  function Finally(cfg: Config, run: seq<Step>): Config
    decreases |run|
  {
    if run == [] then cfg else Finally(Repriced(cfg, run[0]), run[1..])
  }

  lemma {:induction false} RunKeepsInv(c: Core, run: seq<Step>, cfg: Config)
    requires Inv(c, cfg) && Admissible(c, run, cfg)
    ensures Inv(After(c, run, cfg), Finally(cfg, run))
    decreases |run|
  {
    if run != [] {
      StepInv(c, run[0], cfg);
      RunKeepsInv(Next(c, run[0], cfg), run[1..], Repriced(cfg, run[0]));
    }
  }

  /** In every reachable state no waiting thread's condition is met by the set. */
  lemma {:induction false} RunInv(run: seq<Step>, cfg: Config)
    requires Admissible(Core({}, [], map[]), run, cfg)
    ensures var r := After(Core({}, [], map[]), run, cfg); NoneMet(r.bits, r.waiters, r.infos)
  {
    RunKeepsInv(Core({}, [], map[]), run, cfg);
  }

  // ---------------------------------------------------------------- the object

  function Woke(ws: seq<Wake>): seq<int> {
    seq(|ws|, i requires 0 <= i < |ws| => ws[i].t)
  }

  class Event {
    const threads: Threads
    const flag: Flag
    var bits: Bits
    var waiters: seq<int>
    var infos: Infos

    ghost function View(): Core
      reads this
    {
      Core(bits, waiters, infos)
    }

    constructor (threads: Threads, flag: Flag)
      ensures this.threads == threads && this.flag == flag && View() == Core({}, [], map[])
    {
      this.threads, this.flag := threads, flag;
      bits, waiters, infos := {}, [], map[];
    }

    /** rt_event_send: one walk over the list, which loses the threads it satisfies on the way. */
    method Send(add: Bits) returns (ok: bool, resumed: seq<int>)
      requires Inv(View(), Config(threads.priority, flag))
      modifies this
      ensures Inv(View(), Config(threads.priority, flag)) && View() == Sent(old(View()), add) && ok == (add != {})
      ensures resumed == if add == {} then [] else Woke(Scan(old(bits) + add, old(waiters), old(infos)).wakes)
    {
      resumed := [];
      ok := add != {};
      SentInv(View(), add, Config(threads.priority, flag));
      if !ok { return; }
      bits := bits + add;
      ghost var p := Scan(bits, waiters, infos);
      assert waiters[..0] + p.waiters == p.waiters && waiters[0..] == waiters && [] + p.wakes == p.wakes;
      resumed := WakeSatisfied(p);
    }

    /** The walk over the list. */
    method WakeSatisfied(ghost p: Pass) returns (resumed: seq<int>)
      requires Walk(p, waiters, 0, bits, infos, []) && Distinct(waiters) && Unread(0, infos)
      modifies this
      ensures bits == p.bits && waiters == p.waiters && infos == Woken(old(infos), p.wakes) && resumed == Woke(p.wakes)
    {
      ghost var i0 := infos;
      ghost var woken: seq<Wake> := [];
      resumed := [];
      var n := 0;
      while n < |waiters|
        invariant n <= |waiters| && Walk(p, waiters, n, bits, i0, woken) && Unread(n, i0)
        invariant Distinct(waiters) && infos == Woken(i0, woken) && resumed == Woke(woken)
        decreases |waiters| - n
      {
        var satisfied, t, w := Visit(n, p, i0, woken);
        if satisfied {
          assert (woken + [w])[..|woken|] == woken;
          woken := woken + [w];
          resumed := resumed + [t];
        } else {
          n := n + 1;
        }
      }
      WalkDone(p, waiters, n, bits, i0, woken);
    }

    /** The records of the threads from place n on are as the send found them. */
    ghost predicate Unread(n: nat, i0: Infos)
      reads this
    {
      forall i {:trigger waiters[i]} :: n <= i < |waiters| ==>
        waiters[i] in infos && waiters[i] in i0 && infos[waiters[i]] == i0[waiters[i]]
    }

    /** One waiting thread: it stays at its place, or receives its bits and leaves the list. */
    method Visit(n: nat, ghost p: Pass, ghost i0: Infos, ghost woken: seq<Wake>)
      returns (satisfied: bool, t: int, ghost w: Wake)
      requires n < |waiters| && Walk(p, waiters, n, bits, i0, woken) && Unread(n, i0) && Distinct(waiters)
      modifies this
      ensures t == old(waiters[n]) && w.t == t && Distinct(waiters)
      ensures if satisfied then
                waiters == old(waiters[..n] + waiters[n + 1..]) && Walk(p, waiters, n, bits, i0, woken + [w])
                    && Unread(n, i0)
                && infos == Record(old(infos), w)
              else
                waiters == old(waiters) && infos == old(infos) && Walk(p, waiters, n + 1, bits, i0, woken)
                    && Unread(n + 1, i0)
    {
      t := waiters[n];
      var info := infos[t];
      WalkOn(p, waiters, n, bits, i0, woken);
      satisfied := Meets(bits, info);
      var got := Received(bits, info);
      w := Wake(t, got, info.option.clear);
      if satisfied {
        infos := infos[t := info.(bits := got)];
        bits := Left(bits, info);
        waiters := waiters[..n] + waiters[n + 1..];
      }
    }

    /** rt_event_recv up to its wait. */
    method Recv(t: int, want: Bits, option: Option, timeout: int) returns (result: Result, recved: Bits)
      requires Inv(View(), Config(threads.priority, flag))
               && Enabled(View(), Step.Recv(t, want, option, timeout != 0), Config(threads.priority, flag))
      modifies this
      ensures Inv(View(), Config(threads.priority, flag))
      ensures (View(), result, recved)
              == Receive(old(View()), t, want, option, timeout != 0, Config(threads.priority, flag))
    {
      RecvInv(View(), t, want, option, timeout != 0, Config(threads.priority, flag));
      recved := {};
      if want == {} { return Error, recved; }
      var met := false;
      if option.all {
        met := bits * want == want;
      } else if option.any {
        met := bits * want != {};
      }
      if met {
        result := Ok;
        recved := bits * want;
        if option.clear { bits := bits - want; }
      } else if timeout == 0 {
        result := TimedOut;
      } else {
        infos := infos[t := Info(want, option)];
        waiters := Join(waiters, t, threads.priority, flag);
        result := Suspended;
      }
    }
  }

  /** The whole pass is what is done, and the pass over what is left of the list from place n. */
  ghost predicate Walk(p: Pass, ws: seq<int>, n: nat, bits: Bits, infos: Infos, woken: seq<Wake>) {
    n <= |ws| && Informed(ws[n..], infos)
    && var q := Scan(bits, ws[n..], infos);
    p == Pass(q.bits, ws[..n] + q.waiters, woken + q.wakes)
  }

  lemma {:induction false} WalkDone(p: Pass, ws: seq<int>, n: nat, bits: Bits, infos: Infos, woken: seq<Wake>)
    requires Walk(p, ws, n, bits, infos, woken) && n == |ws|
    ensures p == Pass(bits, ws, woken)
  {
    assert ws[n..] == [] && ws[..n] + [] == ws && woken + [] == woken;
  }

  lemma {:induction false} WalkOn(p: Pass, ws: seq<int>, n: nat, bits: Bits, infos: Infos, woken: seq<Wake>)
    requires Walk(p, ws, n, bits, infos, woken) && n < |ws|
    ensures ws[n] in infos
    ensures var i := infos[ws[n]];
            if Meets(bits, i) then
              Walk(p, ws[..n] + ws[n + 1..], n, Left(bits, i), infos,
                  woken + [Wake(ws[n], Received(bits, i), i.option.clear)])
            else Walk(p, ws, n + 1, bits, infos, woken)
  {
    assert ws[n..][0] == ws[n] && ws[n..][1..] == ws[n + 1..];
    var r := ws[..n] + ws[n + 1..];
    assert r[..n] == ws[..n] && r[n..] == ws[n + 1..];
    assert ws[..n + 1] == ws[..n] + [ws[n]];
  }
}
