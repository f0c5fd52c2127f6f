/**
  The message queue as a system of threads: every section with interrupts disabled is one step, and steps of
  different threads interleave freely. A thread that holds a message fills or empties it outside those sections.
 */
module MessageModel {
  import opened Rings
  import opened WaitLists
  import opened Seqs

  type Bytes = seq<bv8>

  /** Ok: woken by a message; the others are the errors a wait ends with. */
  datatype Wake = Ok | TimedOut | Failed

  /** Where a thread stands: Filling and Emptying threads hold a message that is in neither list. */
  datatype Pc = Idle | Filling(node: int, urgent: bool) | Waiting | Woken(why: Wake) | Emptying(node: int)

  /** The lists of message numbers, the threads suspended on the queue and what each message holds. */
  datatype Core = Core(free: seq<int>, queue: seq<int>, waiters: seq<int>, data: seq<Bytes>)

  datatype State = State(core: Core, pc: map<int, Pc>)

  /** The size of a message, the priorities of the threads, which change in a run, and how waiters are ordered. */
  datatype Config = Config(msgSize: nat, prio: Priorities, flag: Flag)

  datatype Step =
    | Grab(t: int, urgent: bool)
    | Fill(t: int, bytes: Bytes)
    | Link(t: int)
    | Receive(t: int, block: bool)
    | PutBack(t: int)
    | Return(t: int)
    | TimeOut(t: int)
    | Reset
    | SetPriority(t: int, p: int)

  function Repriced(cfg: Config, a: Step): Config {
    if a.SetPriority? then cfg.(prio := cfg.prio[a.t := a.p]) else cfg
  }

  /** The priorities after a run. */
  function Finally(cfg: Config, run: seq<Step>): Config
    decreases |run|
  {
    if run == [] then cfg else Finally(Repriced(cfg, run[0]), run[1..])
  }

  // ---------------------------------------------------------------- the sections

  function Reverse(s: seq<int>): (r: seq<int>)
    ensures |r| == |s|
  {
    if s == [] then [] else Reverse(s[1..]) + [s[0]]
  }

  function Enqueued(c: Core, n: int, urgent: bool): Core {
    c.(queue := if urgent then [n] + c.queue else c.queue + [n],
       waiters := if c.waiters == [] then [] else c.waiters[1..])
  }

  function Filled(c: Core, n: int, bytes: Bytes): Core
    requires 0 <= n < |c.data| && |bytes| <= |c.data[n]|
  {
    c.(data := c.data[n := bytes + c.data[n][|bytes|..]])
  }

  function Cleared(c: Core): Core {
    c.(free := Reverse(c.queue) + c.free, queue := [], waiters := [])
  }

  // ---------------------------------------------------------------- the system

  ghost predicate Enabled(s: State, a: Step, cfg: Config) {
    match a
    case Grab(t, _) => t in s.pc && s.pc[t].Idle?
    case Fill(t, bytes) =>
      t in s.pc && s.pc[t].Filling? && |bytes| <= cfg.msgSize
    case Link(t) => t in s.pc && s.pc[t].Filling?
    case Receive(t, _) => t in s.pc && (s.pc[t].Idle? || s.pc[t] == Woken(Ok))
    case PutBack(t) => t in s.pc && s.pc[t].Emptying?
    case Return(t) => t in s.pc && s.pc[t].Woken? && s.pc[t].why != Ok
    case TimeOut(t) => t in s.pc && s.pc[t].Waiting?
    case Reset => true
    case SetPriority(_, _) => true
  }

  function Wakes(pc: map<int, Pc>, ws: seq<int>, why: Wake): map<int, Pc> {
    map t | t in pc :: if t in ws then Woken(why) else pc[t]
  }

  ghost function Next(s: State, a: Step, cfg: Config): State
    requires Inv(s, cfg) && Enabled(s, a, cfg)
  {
    var c := s.core;
    match a
    case Grab(t, urgent) =>
      if c.free == [] then s
      else State(c.(free := c.free[1..]), s.pc[t := Filling(c.free[0], urgent)])
    case Fill(t, bytes) => State(Filled(c, s.pc[t].node, bytes), s.pc)
    case Link(t) =>
      var pc := s.pc[t := Idle];
      State(Enqueued(c, s.pc[t].node, s.pc[t].urgent), if c.waiters == [] then pc else pc[c.waiters[0] := Woken(Ok)])
    case Receive(t, block) =>
      if c.queue != [] then State(c.(queue := c.queue[1..]), s.pc[t := Emptying(c.queue[0])])
      else if block then State(c.(waiters := Join(c.waiters, t, cfg.prio, cfg.flag)), s.pc[t := Waiting])
      else State(c, s.pc[t := Idle])
    case PutBack(t) => State(c.(free := [s.pc[t].node] + c.free), s.pc[t := Idle])
    case Return(t) => State(c, s.pc[t := Idle])
    case TimeOut(t) => State(c.(waiters := Drop(c.waiters, t)), s.pc[t := Woken(TimedOut)])
    case Reset => State(Cleared(c), Wakes(s.pc, c.waiters, Failed))
    case SetPriority(_, _) => s
  }

  predicate Holds(pc: Pc, n: int) {
    (pc.Filling? || pc.Emptying?) && pc.node == n
  }

  /** Every message is in exactly one place: free, queued, or held by exactly one thread. */
  ghost predicate Partition(s: State) {
    var c := s.core;
    Distinct(c.free) && Distinct(c.queue)
    && (forall n :: n in c.free ==> n !in c.queue)
    && (forall n :: n in c.free || n in c.queue ==> 0 <= n < |c.data|)
    && (forall t :: t in s.pc && (s.pc[t].Filling? || s.pc[t].Emptying?) ==>
          0 <= s.pc[t].node < |c.data| && s.pc[t].node !in c.free && s.pc[t].node !in c.queue)
    && (forall t, u :: t in s.pc && u in s.pc && t != u && (s.pc[t].Filling? || s.pc[t].Emptying?) ==>
          !Holds(s.pc[u], s.pc[t].node))
    && (forall n {:trigger Somewhere(s, n)} :: 0 <= n < |c.data| ==> Somewhere(s, n))
  }

  ghost predicate Somewhere(s: State, n: int) {
    n in s.core.free || n in s.core.queue || exists t :: t in s.pc && Holds(s.pc[t], n)
  }

  /** The threads a message has woken that have not run since. */
  ghost function Pending(pc: map<int, Pc>): set<int> {
    set t | t in pc && pc[t] == Woken(Ok)
  }

  ghost predicate Inv(s: State, cfg: Config) {
    var c := s.core;
    Partition(s)
    && (forall i {:trigger c.data[i]} :: 0 <= i < |c.data| ==> |c.data[i]| == cfg.msgSize)
    && WaitersInv(s, cfg)
    && NoneLost(s)
  }

  // ---------------------------------------------------------------- every step keeps the invariant

  lemma {:induction false} ReverseHas(s: seq<int>, n: int)
    ensures n in Reverse(s) <==> n in s
  {
    if s != [] {
      ReverseHas(s[1..], n);
      assert s == [s[0]] + s[1..];
    }
  }

  lemma {:induction false} ReverseDistinct(s: seq<int>)
    requires Distinct(s)
    ensures Distinct(Reverse(s))
  {
    if s != [] {
      ReverseDistinct(s[1..]);
      ReverseHas(s[1..], s[0]);
      assert s[0] !in s[1..];
    }
  }

  lemma {:induction false} CatDistinct(a: seq<int>, b: seq<int>)
    requires Distinct(a) && Distinct(b) && forall n :: n in a ==> n !in b
    ensures Distinct(a + b)
  {
    forall i, j | 0 <= i < j < |a + b| ensures (a + b)[i] != (a + b)[j] {
      if i < |a| <= j { assert a[i] in a && b[j - |a|] in b; }
    }
  }

  lemma {:induction false} GrabPartition(s: State, t: int, urgent: bool, cfg: Config)
    requires Inv(s, cfg) && Enabled(s, Grab(t, urgent), cfg)
    ensures Partition(Next(s, Grab(t, urgent), cfg))
  {
    var c, r := s.core, Next(s, Grab(t, urgent), cfg);
    if c.free != [] {
      var n := c.free[0];
      assert c.free == [n] + c.free[1..] && n !in c.free[1..];
      forall m {:trigger Somewhere(r, m)} | 0 <= m < |c.data| ensures Somewhere(r, m) {
        Moves(s, r, t, m);
        if m == n { assert Holds(r.pc[t], n); }
      }
    }
  }

  /** A message that was somewhere still is, unless t held it, provided it left no list. */
  lemma {:induction false} Moves(s: State, r: State, t: int, m: int)
    requires Somewhere(s, m) && t in r.pc
    requires forall u :: u in s.pc && u != t && (s.pc[u].Filling? || s.pc[u].Emptying?) ==>
               u in r.pc && r.pc[u] == s.pc[u]
    requires m in s.core.free ==> m in r.core.free || m in r.core.queue || Holds(r.pc[t], m)
    requires m in s.core.queue ==> m in r.core.free || m in r.core.queue || Holds(r.pc[t], m)
    requires t in s.pc && Holds(s.pc[t], m) ==> m in r.core.free || m in r.core.queue || Holds(r.pc[t], m)
    ensures Somewhere(r, m)
  {
    if m !in s.core.free && m !in s.core.queue {
      var u :| u in s.pc && Holds(s.pc[u], m);
      if u != t { assert Holds(r.pc[u], m); }
    }
  }

  lemma {:induction false} FillPartition(s: State, t: int, bytes: Bytes, cfg: Config)
    requires Inv(s, cfg) && Enabled(s, Fill(t, bytes), cfg)
    ensures Partition(Next(s, Fill(t, bytes), cfg))
  {
    var c, r := s.core, Next(s, Fill(t, bytes), cfg);
    forall m {:trigger Somewhere(r, m)} | 0 <= m < |c.data| ensures Somewhere(r, m) { Moves(s, r, t, m); }
  }

  lemma {:induction false} EnqueuedFacts(c: Core, n: int, urgent: bool)
    requires Distinct(c.queue) && n !in c.queue
    ensures var q := Enqueued(c, n, urgent).queue; Distinct(q) && forall m :: m in q <==> m in c.queue || m == n
  {
    CatDistinct(c.queue, [n]);
    CatDistinct([n], c.queue);
  }

  lemma {:induction false} LinkPartition(s: State, t: int, cfg: Config)
    requires Inv(s, cfg) && Enabled(s, Link(t), cfg)
    ensures Partition(Next(s, Link(t), cfg))
  {
    var c, r := s.core, Next(s, Link(t), cfg);
    var n := s.pc[t].node;
    EnqueuedFacts(c, n, s.pc[t].urgent);
    forall m {:trigger Somewhere(r, m)} | 0 <= m < |c.data| ensures Somewhere(r, m) { Moves(s, r, t, m); }
  }

  lemma {:induction false} ReceivePartition(s: State, t: int, block: bool, cfg: Config)
    requires Inv(s, cfg) && Enabled(s, Receive(t, block), cfg)
    ensures Partition(Next(s, Receive(t, block), cfg))
  {
    var c, r := s.core, Next(s, Receive(t, block), cfg);
    if c.queue != [] {
      var n := c.queue[0];
      assert c.queue == [n] + c.queue[1..] && n !in c.queue[1..];
    }
    forall m {:trigger Somewhere(r, m)} | 0 <= m < |c.data| ensures Somewhere(r, m) {
      Moves(s, r, t, m);
    }
  }

  lemma {:induction false} PutBackPartition(s: State, t: int, cfg: Config)
    requires Inv(s, cfg) && Enabled(s, PutBack(t), cfg)
    ensures Partition(Next(s, PutBack(t), cfg))
  {
    var c, r := s.core, Next(s, PutBack(t), cfg);
    var n := s.pc[t].node;
    assert forall m :: m in r.core.free <==> m in c.free || m == n;
    forall m {:trigger Somewhere(r, m)} | 0 <= m < |c.data| ensures Somewhere(r, m) { Moves(s, r, t, m); }
  }

  lemma {:induction false} ResetPartition(s: State, cfg: Config)
    requires Inv(s, cfg)
    ensures Partition(Next(s, Reset, cfg))
  {
    var c, r := s.core, Next(s, Reset, cfg);
    ReverseDistinct(c.queue);
    forall m ensures m in Reverse(c.queue) <==> m in c.queue { ReverseHas(c.queue, m); }
    CatDistinct(Reverse(c.queue), c.free);
    forall m {:trigger Somewhere(r, m)} | 0 <= m < |c.data| ensures Somewhere(r, m) {
      assert Somewhere(s, m);
      if m !in c.free && m !in c.queue {
        var u :| u in s.pc && Holds(s.pc[u], m);
        assert Holds(r.pc[u], m);
      }
    }
  }

  lemma {:induction false} StepPartition(s: State, a: Step, cfg: Config)
    requires Inv(s, cfg) && Enabled(s, a, cfg)
    ensures Partition(Next(s, a, cfg))
  {
    match a
    case Grab(t, urgent) => GrabPartition(s, t, urgent, cfg);
    case Fill(t, bytes) => FillPartition(s, t, bytes, cfg);
    case Link(t) => LinkPartition(s, t, cfg);
    case Receive(t, block) => ReceivePartition(s, t, block, cfg);
    case PutBack(t) => PutBackPartition(s, t, cfg);
    case Return(t) => IdlePartition(s, a, t, cfg);
    case TimeOut(t) => IdlePartition(s, a, t, cfg);
    case Reset => ResetPartition(s, cfg);
    case SetPriority(_, _) =>
  }

  lemma {:induction false} IdlePartition(s: State, a: Step, t: int, cfg: Config)
    requires Inv(s, cfg) && Enabled(s, a, cfg) && (a == Return(t) || a == TimeOut(t))
    ensures Partition(Next(s, a, cfg))
  {
    var r := Next(s, a, cfg);
    forall m {:trigger Somewhere(r, m)} | 0 <= m < |s.core.data| ensures Somewhere(r, m) { Moves(s, r, t, m); }
  }

  /** The waiters are the suspended threads, each once. */
  ghost predicate WaitersInv(s: State, cfg: Config) {
    var c := s.core;
    Distinct(c.waiters) && Known(c.waiters, cfg.prio)
    && (forall t :: t in s.pc ==> t in cfg.prio)
    && (forall t :: t in c.waiters <==> t in s.pc && s.pc[t].Waiting?)
  }

  lemma {:induction false} StepWaiters(s: State, a: Step, cfg: Config)
    requires Inv(s, cfg) && Enabled(s, a, cfg)
    ensures WaitersInv(Next(s, a, cfg), Repriced(cfg, a))
  {
    var c := s.core;
    match a
    case Link(t) =>
      if c.waiters != [] { assert c.waiters == [c.waiters[0]] + c.waiters[1..] && c.waiters[0] !in c.waiters[1..]; }
    case Receive(t, block) =>
      if c.queue == [] && block { JoinFacts(c.waiters, t, cfg.prio, cfg.flag); }
    case TimeOut(t) =>
      DropFacts(c.waiters, t);
      assert Known(Drop(c.waiters, t), cfg.prio) by { KnownIn(c.waiters, Drop(c.waiters, t), cfg.prio); }
    case _ =>
  }

  /** No lost wake-up: while threads wait, what is queued never outnumbers the woken threads on their way to it. */
  ghost predicate NoneLost(s: State) {
    s.core.waiters != [] ==> |s.core.queue| <= |Pending(s.pc)|
  }

  lemma {:induction false} LinkPending(s: State, t: int, cfg: Config)
    requires Inv(s, cfg) && Enabled(s, Link(t), cfg)
    ensures NoneLost(Next(s, Link(t), cfg))
  {
    var c, r := s.core, Next(s, Link(t), cfg);
    if c.waiters != [] {
      var w := c.waiters[0];
      assert w in c.waiters;
      assert w in s.pc && s.pc[w].Waiting?;
      assert Pending(r.pc) == Pending(s.pc) + {w} && w !in Pending(s.pc);
    }
  }

  lemma {:induction false} ReceivePending(s: State, t: int, block: bool, cfg: Config)
    requires Inv(s, cfg) && Enabled(s, Receive(t, block), cfg)
    ensures NoneLost(Next(s, Receive(t, block), cfg))
  {
    var p, q := Pending(s.pc), Pending(Next(s, Receive(t, block), cfg).pc);
    if s.core.queue != [] {
      assert q == p - {t};
    }
  }

  lemma {:induction false} StepPending(s: State, a: Step, cfg: Config)
    requires Inv(s, cfg) && Enabled(s, a, cfg)
    ensures NoneLost(Next(s, a, cfg))
  {
    match a
    case Link(t) => LinkPending(s, t, cfg);
    case Receive(t, block) => ReceivePending(s, t, block, cfg);
    case TimeOut(t) =>
      DropFacts(s.core.waiters, t);
      assert Pending(s.pc) == Pending(Next(s, a, cfg).pc);
    case Reset =>
    case _ => assert Pending(s.pc) == Pending(Next(s, a, cfg).pc);
  }

  /** The whole invariant survives every step of every thread. */
  lemma {:induction false} StepInv(s: State, a: Step, cfg: Config)
    requires Inv(s, cfg) && Enabled(s, a, cfg)
    ensures Inv(Next(s, a, cfg), Repriced(cfg, a))
  {
    StepPartition(s, a, cfg);
    StepWaiters(s, a, cfg);
    StepPending(s, a, cfg);
  }

  // ---------------------------------------------------------------- runs

  function Upto(n: nat): seq<int> { seq(n, i => i) }

  /** The pool as it is initialised: the last message is the first one given out. */
  function Init(threads: set<int>, n: nat, cfg: Config): State {
    State(Core(Reverse(Upto(n)), [], [], seq(n, _ => seq(cfg.msgSize, _ => 0))), map t | t in threads :: Idle)
  }

  lemma {:induction false} InitInv(threads: set<int>, n: nat, cfg: Config)
    requires forall t :: t in threads ==> t in cfg.prio
    ensures Inv(Init(threads, n, cfg), cfg)
  {
    var s := Init(threads, n, cfg);
    ReverseDistinct(Upto(n));
    forall m ensures m in s.core.free <==> 0 <= m < n {
      ReverseHas(Upto(n), m);
      if 0 <= m < n { assert Upto(n)[m] == m; }
    }
    assert Partition(s);
  }

  ghost predicate Admissible(s: State, run: seq<Step>, cfg: Config)
    decreases |run|
  {
    run != [] ==>
      Inv(s, cfg) && Enabled(s, run[0], cfg)
      && Admissible(Next(s, run[0], cfg), run[1..], Repriced(cfg, run[0]))
  }

  ghost function After(s: State, run: seq<Step>, cfg: Config): State
    requires Admissible(s, run, cfg)
    decreases |run|
  {
    if run == [] then s else After(Next(s, run[0], cfg), run[1..], Repriced(cfg, run[0]))
  }

  /** However the sections of the threads interleave. */
  lemma {:induction false} RunInv(s: State, run: seq<Step>, cfg: Config)
    requires Inv(s, cfg) && Admissible(s, run, cfg)
    ensures Inv(After(s, run, cfg), Finally(cfg, run))
    decreases |run|
  {
    if run != [] {
      StepInv(s, run[0], cfg);
      RunInv(Next(s, run[0], cfg), run[1..], Repriced(cfg, run[0]));
    }
  }

  // ---------------------------------------------------------------- what is sent is what is received

  function Contents(c: Core): seq<Bytes>
    requires forall i :: 0 <= i < |c.queue| ==> 0 <= c.queue[i] < |c.data|
  {
    seq(|c.queue|, i requires 0 <= i < |c.queue| => c.data[c.queue[i]])
  }

  ghost predicate InPool(c: Core) {
    forall i {:trigger c.queue[i]} :: 0 <= i < |c.queue| ==> 0 <= c.queue[i] < |c.data|
  }

  lemma {:induction false} QueueInPool(s: State, cfg: Config)
    requires Inv(s, cfg)
    ensures InPool(s.core)
  {
    forall i | 0 <= i < |s.core.queue| ensures 0 <= s.core.queue[i] < |s.core.data| {
      var n := s.core.queue[i];
      assert n in s.core.queue;
    }
  }

  /** The message a linking or taking step moves. */
  ghost function Moved(s: State, a: Step, cfg: Config): Bytes
    requires Inv(s, cfg) && Enabled(s, a, cfg) && (a.Link? || (a.Receive? && s.core.queue != []))
  {
    QueueInPool(s, cfg);
    if a.Link? then s.core.data[s.pc[a.t].node] else s.core.data[s.core.queue[0]]
  }

  /**
    Sending appends, urgent sending prepends, receiving takes the first; nothing else but a reset touches the queue.
   */
  lemma {:induction false} StepContents(s: State, a: Step, cfg: Config)
    requires Inv(s, cfg) && Enabled(s, a, cfg)
    ensures InPool(s.core) && InPool(Next(s, a, cfg).core)
    ensures var old', new' := Contents(s.core), Contents(Next(s, a, cfg).core);
            if a.Link? then new' == if s.pc[a.t].urgent then [Moved(s, a, cfg)] + old' else old' + [Moved(s, a, cfg)]
            else if a.Receive? && s.core.queue != [] then old' == [Moved(s, a, cfg)] + new'
            else if a.Reset? then new' == []
            else new' == old'
  {
    StepInv(s, a, cfg);
    var r := Next(s, a, cfg);
    QueueInPool(s, cfg);
    QueueInPool(r, Repriced(cfg, a));
    if a.Fill? { FillContents(s, a.t, a.bytes, cfg); }
  }

  /** What is filled is held, so it is not in the queue. */
  lemma {:induction false} FillContents(s: State, t: int, bytes: Bytes, cfg: Config)
    requires Inv(s, cfg) && Enabled(s, Fill(t, bytes), cfg)
    ensures var r := Next(s, Fill(t, bytes), cfg).core;
            r.queue == s.core.queue && InPool(s.core) && InPool(r) && Contents(r) == Contents(s.core)
  {
    var c, r := s.core, Next(s, Fill(t, bytes), cfg).core;
    QueueInPool(s, cfg);
    forall i | 0 <= i < |c.queue| ensures r.data[c.queue[i]] == c.data[c.queue[i]] {
      var n := c.queue[i];
      assert n in c.queue;
    }
  }

  /** The message a step links, and the one it takes. */
  ghost function SentBy(s: State, a: Step, cfg: Config): seq<Bytes>
    requires Inv(s, cfg) && Enabled(s, a, cfg)
  {
    if a.Link? then [Moved(s, a, cfg)] else []
  }

  ghost function TakenBy(s: State, a: Step, cfg: Config): seq<Bytes>
    requires Inv(s, cfg) && Enabled(s, a, cfg)
  {
    if a.Receive? && s.core.queue != [] then [Moved(s, a, cfg)] else []
  }

  /** The messages linked during a run, and those taken, in order. */
  ghost function Sent(s: State, run: seq<Step>, cfg: Config): seq<Bytes>
    requires Admissible(s, run, cfg)
    decreases |run|
  {
    if run == [] then []
    else SentBy(s, run[0], cfg) + Sent(Next(s, run[0], cfg), run[1..], Repriced(cfg, run[0]))
  }

  ghost function Taken(s: State, run: seq<Step>, cfg: Config): seq<Bytes>
    requires Admissible(s, run, cfg)
    decreases |run|
  {
    if run == [] then []
    else TakenBy(s, run[0], cfg) + Taken(Next(s, run[0], cfg), run[1..], Repriced(cfg, run[0]))
  }

  /** Neither a reset nor an urgent send. */
  ghost predicate Ordinary(s: State, a: Step, cfg: Config)
    requires Inv(s, cfg) && Enabled(s, a, cfg)
  {
    !a.Reset? && (a.Link? ==> !s.pc[a.t].urgent)
  }

  ghost predicate Plain(s: State, run: seq<Step>, cfg: Config)
    requires Admissible(s, run, cfg)
    decreases |run|
  {
    run != [] ==> Ordinary(s, run[0], cfg) && Plain(Next(s, run[0], cfg), run[1..], Repriced(cfg, run[0]))
  }

  lemma {:induction false} StepFifo(s: State, a: Step, cfg: Config)
    requires Inv(s, cfg) && Enabled(s, a, cfg) && Ordinary(s, a, cfg)
    ensures InPool(s.core) && InPool(Next(s, a, cfg).core)
    ensures Contents(s.core) + SentBy(s, a, cfg) == TakenBy(s, a, cfg) + Contents(Next(s, a, cfg).core)
  {
    StepContents(s, a, cfg);
    Balances(Contents(s.core), SentBy(s, a, cfg), TakenBy(s, a, cfg), Contents(Next(s, a, cfg).core));
  }

  lemma {:induction false} Balances<T>(was: seq<T>, sent: seq<T>, taken: seq<T>, now: seq<T>)
    requires if sent != [] then taken == [] && now == was + sent else was == (if taken == [] then now else taken + now)
    ensures was + sent == taken + now
  {
    assert was + [] == was && [] + now == now;
  }

  /** First sent, first taken: over any run of ordinary sends the taken messages are the oldest of those sent. */
  lemma {:induction false} RunFifo(s: State, run: seq<Step>, cfg: Config)
    requires Inv(s, cfg) && Admissible(s, run, cfg) && Plain(s, run, cfg)
    ensures InPool(s.core) && InPool(After(s, run, cfg).core)
    ensures Contents(s.core) + Sent(s, run, cfg) == Taken(s, run, cfg) + Contents(After(s, run, cfg).core)
    decreases |run|
  {
    QueueInPool(s, cfg);
    if run == [] {
      assert Contents(s.core) + [] == [] + Contents(s.core);
    } else {
      var a, r, cfg' := run[0], Next(s, run[0], cfg), Repriced(cfg, run[0]);
      StepInv(s, a, cfg);
      StepFifo(s, a, cfg);
      RunFifo(r, run[1..], cfg');
      Regroup(Contents(s.core), SentBy(s, a, cfg), Sent(r, run[1..], cfg'), TakenBy(s, a, cfg), Contents(r.core),
              Taken(r, run[1..], cfg'), Contents(After(r, run[1..], cfg').core));
    }
  }

  // ---------------------------------------------------------------- held messages

  predicate ByThread(a: Step, t: int) {
    !a.Reset? && !a.SetPriority? && a.t == t
  }

  /** What a thread holds, between taking it and giving it back, no other thread's step changes. */
  lemma {:induction false} HeldStays(s: State, run: seq<Step>, t: int, cfg: Config)
    requires Inv(s, cfg) && Admissible(s, run, cfg)
    requires t in s.pc && (s.pc[t].Filling? || s.pc[t].Emptying?)
    requires forall i {:trigger run[i]} :: 0 <= i < |run| ==> !ByThread(run[i], t)
    ensures var n, r := s.pc[t].node, After(s, run, cfg);
            t in r.pc && r.pc[t] == s.pc[t] && 0 <= n < |s.core.data| == |r.core.data|
                && r.core.data[n] == s.core.data[n]
    decreases |run|
  {
    if run != [] {
      var a, r := run[0], Next(s, run[0], cfg);
      StepInv(s, a, cfg);
      if a.Link? && s.core.waiters != [] {
        var w := s.core.waiters[0];
        assert w in s.core.waiters;
      }
      HeldStays(r, run[1..], t, Repriced(cfg, a));
    }
  }
}
