/** The mailbox: a ring buffer of mails with threads waiting on both sides, as a system of threads and as an object. */
module Mailboxes {
  import opened Rings
  import opened WaitLists
  import opened Seqs

  /** The object: the pool, how many mails it holds, where the next goes in and comes out, and who waits. */
  datatype Core = Core(pool: seq<int>, entry: nat, inOffset: nat, outOffset: nat,
                       senders: seq<int>, receivers: seq<int>)

  datatype Wake = Ok | TimedOut | Failed

  /** Where a thread stands; a sender keeps its mail while it waits. */
  datatype Pc = Idle | Sending(mail: int) | Receiving | WokenSender(mail: int) | WokenReceiver | GaveUp(why: Wake)

  datatype State = State(core: Core, pc: map<int, Pc>)

  /** The priorities of the threads, which change during a run, and how both wait lists are ordered. */
  datatype Config = Config(prio: Priorities, flag: Flag)

  datatype Step =
    | Send(t: int, mail: int, block: bool)
    | Receive(t: int, block: bool)
    | Return(t: int)
    | TimeOut(t: int)
    | Reset
    | SetPriority(t: int, p: int)

  function Repriced(cfg: Config, a: Step): Config {
    if a.SetPriority? then cfg.(prio := cfg.prio[a.t := a.p]) else cfg
  }

  // ---------------------------------------------------------------- the ring

  function Size(c: Core): nat { |c.pool| }

  /** An offset past the end wraps round. */
  function Wrap(offset: nat, size: nat): nat {
    if offset >= size then offset - size else offset
  }

  predicate RingInv(c: Core) {
    c.entry <= Size(c)
    && (Size(c) == 0 ==> c.inOffset == c.outOffset == 0)
    && (Size(c) > 0 ==> c.outOffset < Size(c) && c.inOffset == Wrap(c.outOffset + c.entry, Size(c)))
  }

  /** The mails in the order they come out. */
  function Mails(c: Core): (q: seq<int>)
    requires RingInv(c)
    ensures |q| == c.entry
  {
    seq(c.entry, i requires 0 <= i < c.entry => c.pool[Wrap(c.outOffset + i, Size(c))])
  }

  function Posted(c: Core, mail: int): Core
    requires c.inOffset < Size(c)
  {
    c.(pool := c.pool[c.inOffset := mail], inOffset := NextPlace(c.inOffset, Size(c)), entry := c.entry + 1,
       receivers := if c.receivers == [] then [] else c.receivers[1..])
  }

  function Fetched(c: Core): Core
    requires c.entry > 0
  {
    c.(outOffset := NextPlace(c.outOffset, Size(c)), entry := c.entry - 1,
       senders := if c.senders == [] then [] else c.senders[1..])
  }

  function Cleared(c: Core): Core {
    Core(c.pool, 0, 0, 0, [], [])
  }

  lemma {:induction false} PostedIsAppended(c: Core, mail: int)
    requires RingInv(c) && c.entry < Size(c)
    ensures RingInv(Posted(c, mail)) && Mails(Posted(c, mail)) == Mails(c) + [mail]
  {
    var n, r := Size(c), Posted(c, mail);
    forall i | 0 <= i < r.entry ensures Mails(r)[i] == (Mails(c) + [mail])[i] {
      assert Mails(r)[i] == r.pool[Wrap(c.outOffset + i, n)];
      assert i < c.entry ==> Mails(c)[i] == c.pool[Wrap(c.outOffset + i, n)] && Wrap(c.outOffset + i, n) != c.inOffset;
    }
  }

  lemma {:induction false} FetchedIsFirst(c: Core)
    requires RingInv(c) && c.entry > 0
    ensures RingInv(Fetched(c)) && Mails(c) == [c.pool[c.outOffset]] + Mails(Fetched(c))
  {
    var n, r := Size(c), Fetched(c);
    forall i | 0 <= i < c.entry ensures Mails(c)[i] == ([c.pool[c.outOffset]] + Mails(r))[i] {
      assert Mails(c)[i] == c.pool[Wrap(c.outOffset + i, n)];
      assert i > 0 ==> Mails(r)[i - 1] == c.pool[Wrap(r.outOffset + (i - 1), n)];
    }
  }

  /** Sending appends a mail and receiving takes the first: the ring is a bounded queue. */
  lemma {:induction false} RingIsQueue(c: Core, mail: int)
    requires RingInv(c)
    ensures c.entry < Size(c) ==> RingInv(Posted(c, mail)) && Mails(Posted(c, mail)) == Mails(c) + [mail]
    ensures c.entry > 0 ==> RingInv(Fetched(c)) && Mails(c) == [c.pool[c.outOffset]] + Mails(Fetched(c))
    ensures RingInv(Cleared(c)) && Mails(Cleared(c)) == []
  {
    if c.entry < Size(c) { PostedIsAppended(c, mail); }
    if c.entry > 0 { FetchedIsFirst(c); }
  }

  // ---------------------------------------------------------------- the system

  ghost predicate Enabled(s: State, a: Step) {
    match a
    case Send(t, mail, _) => t in s.pc && (s.pc[t].Idle? || s.pc[t] == WokenSender(mail))
    case Receive(t, _) => t in s.pc && (s.pc[t].Idle? || s.pc[t].WokenReceiver?)
    case Return(t) => t in s.pc && s.pc[t].GaveUp?
    case TimeOut(t) => t in s.pc && (s.pc[t].Sending? || s.pc[t].Receiving?)
    case Reset => true
    case SetPriority(_, _) => true
  }

  function WakeFirst(pc: map<int, Pc>, ws: seq<int>): map<int, Pc>
    requires ws != [] ==> ws[0] in pc
  {
    if ws == [] then pc
    else match pc[ws[0]]
      case Sending(m) => pc[ws[0] := WokenSender(m)]
      case _ => pc[ws[0] := WokenReceiver]
  }

  function WakeAll(pc: map<int, Pc>, c: Core): map<int, Pc> {
    map t | t in pc :: if t in c.senders || t in c.receivers then GaveUp(Failed) else pc[t]
  }

  ghost function Next(s: State, a: Step, cfg: Config): State
    requires Inv(s, cfg) && Enabled(s, a)
  {
    var c := s.core;
    match a
    case Send(t, mail, block) =>
      if c.entry < Size(c) then
        FirstKnown(s, cfg);
        State(Posted(c, mail), WakeFirst(s.pc[t := Idle], c.receivers))
      else if block then State(c.(senders := Join(c.senders, t, cfg.prio, cfg.flag)), s.pc[t := Sending(mail)])
      else State(c, s.pc[t := Idle])
    case Receive(t, block) =>
      if c.entry > 0 then
        FirstKnown(s, cfg);
        State(Fetched(c), WakeFirst(s.pc[t := Idle], c.senders))
      else if block then State(c.(receivers := Join(c.receivers, t, cfg.prio, cfg.flag)), s.pc[t := Receiving])
      else State(c, s.pc[t := Idle])
    case Return(t) => State(c, s.pc[t := Idle])
    case TimeOut(t) =>
      State(c.(senders := Drop(c.senders, t), receivers := Drop(c.receivers, t)), s.pc[t := GaveUp(TimedOut)])
    case Reset => State(Cleared(c), WakeAll(s.pc, c))
    case SetPriority(_, _) => s
  }

  ghost function PendingSenders(pc: map<int, Pc>): set<int> { set t | t in pc && pc[t].WokenSender? }

  ghost function PendingReceivers(pc: map<int, Pc>): set<int> { set t | t in pc && pc[t].WokenReceiver? }

  ghost predicate WaitersInv(s: State, cfg: Config) {
    var c := s.core;
    Distinct(c.senders) && Distinct(c.receivers) && Known(c.senders, cfg.prio) && Known(c.receivers, cfg.prio)
    && (forall t :: t in s.pc ==> t in cfg.prio)
    && (forall t :: t in c.senders <==> t in s.pc && s.pc[t].Sending?)
    && (forall t :: t in c.receivers <==> t in s.pc && s.pc[t].Receiving?)
  }

  /** No lost wake-up on either side: while threads wait, the woken ones account for everything they wait for. */
  ghost predicate NoneLost(s: State) {
    (s.core.senders != [] ==> Size(s.core) - s.core.entry <= |PendingSenders(s.pc)|)
    && (s.core.receivers != [] ==> s.core.entry <= |PendingReceivers(s.pc)|)
  }

  ghost predicate Inv(s: State, cfg: Config) {
    RingInv(s.core) && WaitersInv(s, cfg) && NoneLost(s)
  }

  lemma {:induction false} FirstKnown(s: State, cfg: Config)
    requires WaitersInv(s, cfg)
    ensures var c := s.core;
            (c.senders != [] ==> c.senders[0] in s.pc && s.pc[c.senders[0]].Sending?)
            && (c.receivers != [] ==> c.receivers[0] in s.pc && s.pc[c.receivers[0]].Receiving?)
  {
    var c := s.core;
    if c.senders != [] { var u := Member(c.senders); }
    if c.receivers != [] { var u := Member(c.receivers); }
  }

  lemma {:induction false} SendWaiters(s: State, t: int, mail: int, block: bool, cfg: Config)
    requires Inv(s, cfg) && Enabled(s, Send(t, mail, block))
    ensures WaitersInv(Next(s, Send(t, mail, block), cfg), cfg)
  {
    var c := s.core;
    FirstKnown(s, cfg);
    if c.entry < Size(c) {
      if c.receivers != [] { FirstLeaves(c.receivers); }
    } else if block {
      JoinFacts(c.senders, t, cfg.prio, cfg.flag);
    }
  }

  lemma {:induction false} ReceiveWaiters(s: State, t: int, block: bool, cfg: Config)
    requires Inv(s, cfg) && Enabled(s, Receive(t, block))
    ensures WaitersInv(Next(s, Receive(t, block), cfg), cfg)
  {
    var c := s.core;
    FirstKnown(s, cfg);
    if c.entry > 0 {
      if c.senders != [] { FirstLeaves(c.senders); }
    } else if block {
      JoinFacts(c.receivers, t, cfg.prio, cfg.flag);
    }
  }

  lemma {:induction false} StepWaiters(s: State, a: Step, cfg: Config)
    requires Inv(s, cfg) && Enabled(s, a)
    ensures WaitersInv(Next(s, a, cfg), Repriced(cfg, a))
  {
    var c := s.core;
    match a
    case Send(t, mail, block) => SendWaiters(s, t, mail, block, cfg);
    case Receive(t, block) => ReceiveWaiters(s, t, block, cfg);
    case TimeOut(t) =>
      DropFacts(c.senders, t);
      DropFacts(c.receivers, t);
      KnownIn(c.senders, Drop(c.senders, t), cfg.prio);
      KnownIn(c.receivers, Drop(c.receivers, t), cfg.prio);
    case _ =>
  }

  lemma {:induction false} SetPc(pc: map<int, Pc>, t: int, x: Pc)
    requires t in pc
    ensures PendingSenders(pc[t := x]) == if x.WokenSender? then PendingSenders(pc) + {t} else PendingSenders(pc) - {t}
    ensures PendingReceivers(pc[t := x]) == if x.WokenReceiver? then PendingReceivers(pc) + {t}
            else PendingReceivers(pc) - {t}
  {}

  lemma {:induction false} PostPending(pc: map<int, Pc>, t: int, ws: seq<int>)
    requires t in pc && (pc[t].Idle? || pc[t].WokenSender?) && (ws != [] ==> ws[0] in pc && pc[ws[0]].Receiving?)
    ensures var r := WakeFirst(pc[t := Idle], ws);
            PendingSenders(r) == PendingSenders(pc) - {t}
            && |PendingReceivers(r)| == |PendingReceivers(pc)| + (if ws == [] then 0 else 1)
  {
    SetPc(pc, t, Idle);
    assert PendingReceivers(pc) - {t} == PendingReceivers(pc);
    if ws != [] {
      SetPc(pc[t := Idle], ws[0], WokenReceiver);
      assert ws[0] !in PendingReceivers(pc) && PendingSenders(pc) - {t} - {ws[0]} == PendingSenders(pc) - {t};
    }
  }

  lemma {:induction false} FetchPending(pc: map<int, Pc>, t: int, ws: seq<int>)
    requires t in pc && (pc[t].Idle? || pc[t].WokenReceiver?) && (ws != [] ==> ws[0] in pc && pc[ws[0]].Sending?)
    ensures var r := WakeFirst(pc[t := Idle], ws);
            PendingReceivers(r) == PendingReceivers(pc) - {t}
            && |PendingSenders(r)| == |PendingSenders(pc)| + (if ws == [] then 0 else 1)
  {
    SetPc(pc, t, Idle);
    assert PendingSenders(pc) - {t} == PendingSenders(pc);
    if ws != [] {
      SetPc(pc[t := Idle], ws[0], WokenSender(pc[ws[0]].mail));
      assert ws[0] !in PendingSenders(pc) && PendingReceivers(pc) - {t} - {ws[0]} == PendingReceivers(pc) - {t};
    }
  }

  lemma {:induction false} SendPending(s: State, t: int, mail: int, block: bool, cfg: Config)
    requires Inv(s, cfg) && Enabled(s, Send(t, mail, block))
    ensures NoneLost(Next(s, Send(t, mail, block), cfg))
  {
    var c, r := s.core, Next(s, Send(t, mail, block), cfg);
    FirstKnown(s, cfg);
    if c.entry < Size(c) {
      PostPending(s.pc, t, c.receivers);
    } else {
      assert PendingReceivers(r.pc) == PendingReceivers(s.pc);
    }
  }

  lemma {:induction false} ReceivePending(s: State, t: int, block: bool, cfg: Config)
    requires Inv(s, cfg) && Enabled(s, Receive(t, block))
    ensures NoneLost(Next(s, Receive(t, block), cfg))
  {
    var c, r := s.core, Next(s, Receive(t, block), cfg);
    FirstKnown(s, cfg);
    if c.entry > 0 {
      FetchPending(s.pc, t, c.senders);
    } else {
      assert PendingSenders(r.pc) == PendingSenders(s.pc);
    }
  }

  lemma {:induction false} StepPending(s: State, a: Step, cfg: Config)
    requires Inv(s, cfg) && Enabled(s, a)
    ensures NoneLost(Next(s, a, cfg))
  {
    match a
    case Send(t, mail, block) => SendPending(s, t, mail, block, cfg);
    case Receive(t, block) => ReceivePending(s, t, block, cfg);
    case Reset =>
    case SetPriority(_, _) =>
    case _ =>
      DropFacts(s.core.senders, a.t);
      DropFacts(s.core.receivers, a.t);
      assert PendingSenders(s.pc) == PendingSenders(Next(s, a, cfg).pc);
      assert PendingReceivers(s.pc) == PendingReceivers(Next(s, a, cfg).pc);
  }

  lemma {:induction false} StepInv(s: State, a: Step, cfg: Config)
    requires Inv(s, cfg) && Enabled(s, a)
    ensures Inv(Next(s, a, cfg), Repriced(cfg, a))
  {
    RingIsQueue(s.core, if a.Send? then a.mail else 0);
    StepWaiters(s, a, cfg);
    StepPending(s, a, cfg);
  }

  // ---------------------------------------------------------------- runs

  function Init(threads: set<int>, size: nat): State {
    State(Core(seq(size, _ => 0), 0, 0, 0, [], []), map t | t in threads :: Idle)
  }

  ghost predicate Admissible(s: State, run: seq<Step>, cfg: Config)
    decreases |run|
  {
    run != [] ==> Inv(s, cfg) && Enabled(s, run[0]) && Admissible(Next(s, run[0], cfg), run[1..], Repriced(cfg, run[0]))
  }

  ghost function After(s: State, run: seq<Step>, cfg: Config): State
    requires Admissible(s, run, cfg)
    decreases |run|
  {
    if run == [] then s else After(Next(s, run[0], cfg), run[1..], Repriced(cfg, run[0]))
  }

  /** The mail a step accepts, and the one it hands out. */
  function AcceptedBy(c: Core, a: Step): seq<int> {
    if a.Send? && c.entry < Size(c) then [a.mail] else []
  }

  function HandedOutBy(c: Core, a: Step): seq<int>
    requires RingInv(c)
  {
    if a.Receive? && c.entry > 0 then [c.pool[c.outOffset]] else []
  }

  /** The mails accepted during a run, and those handed out, in order. */
  ghost function Accepted(s: State, run: seq<Step>, cfg: Config): seq<int>
    requires Admissible(s, run, cfg)
    decreases |run|
  {
    if run == [] then []
        else AcceptedBy(s.core, run[0]) + Accepted(Next(s, run[0], cfg), run[1..], Repriced(cfg, run[0]))
  }

  ghost function HandedOut(s: State, run: seq<Step>, cfg: Config): seq<int>
    requires Admissible(s, run, cfg)
    decreases |run|
  {
    if run == [] then []
        else HandedOutBy(s.core, run[0]) + HandedOut(Next(s, run[0], cfg), run[1..], Repriced(cfg, run[0]))
  }

  lemma {:induction false} StepMails(s: State, a: Step, cfg: Config)
    requires Inv(s, cfg) && Enabled(s, a) && !a.Reset?
    ensures var r := Next(s, a, cfg).core;
            RingInv(r) && Mails(s.core) + AcceptedBy(s.core, a) == HandedOutBy(s.core, a) + Mails(r)
  {
    var c, r := s.core, Next(s, a, cfg).core;
    if a.Send? && c.entry < Size(c) {
      PostedIsAppended(c, a.mail);
      assert [] + Mails(r) == Mails(r);
    } else if a.Receive? && c.entry > 0 {
      FetchedIsFirst(c);
      assert Mails(c) + [] == Mails(c);
    } else {
      SameMails(c, r);
      assert Mails(c) + [] == [] + Mails(r);
    }
  }

  lemma {:induction false} SameMails(c: Core, r: Core)
    requires RingInv(c) && r.pool == c.pool && r.entry == c.entry && r.inOffset == c.inOffset
             && r.outOffset == c.outOffset
    ensures RingInv(r) && Mails(r) == Mails(c)
  {
    forall i | 0 <= i < c.entry ensures Mails(r)[i] == Mails(c)[i] {
      assert Mails(r)[i] == r.pool[Wrap(r.outOffset + i, Size(r))];
      assert Mails(c)[i] == c.pool[Wrap(c.outOffset + i, Size(c))];
    }
  }

  /** The priorities after a run. */
  function Finally(cfg: Config, run: seq<Step>): Config
    decreases |run|
  {
    if run == [] then cfg else Finally(Repriced(cfg, run[0]), run[1..])
  }

  /** In every state any run of sends, receives, timeouts and resets reaches. */
  lemma {:induction false} RunInv(threads: set<int>, size: nat, run: seq<Step>, cfg: Config)
    requires forall t :: t in threads ==> t in cfg.prio
    requires Admissible(Init(threads, size), run, cfg)
    ensures Inv(After(Init(threads, size), run, cfg), Finally(cfg, run))
  {
    RunKeepsInv(Init(threads, size), run, cfg);
  }

  lemma {:induction false} RunKeepsInv(s: State, run: seq<Step>, cfg: Config)
    requires Inv(s, cfg) && Admissible(s, run, cfg)
    ensures Inv(After(s, run, cfg), Finally(cfg, run))
    decreases |run|
  {
    if run != [] {
      StepInv(s, run[0], cfg);
      RunKeepsInv(Next(s, run[0], cfg), run[1..], Repriced(cfg, run[0]));
    }
  }

  /** Without a reset, what came out and what is inside is exactly what went in, in that order. */
  lemma {:induction false} RunFifo(s: State, run: seq<Step>, cfg: Config)
    requires Inv(s, cfg) && Admissible(s, run, cfg)
    requires forall i {:trigger run[i]} :: 0 <= i < |run| ==> !run[i].Reset?
    ensures RingInv(After(s, run, cfg).core)
    ensures Mails(s.core) + Accepted(s, run, cfg) == HandedOut(s, run, cfg) + Mails(After(s, run, cfg).core)
    decreases |run|
  {
    if run != [] {
      var a, r := run[0], Next(s, run[0], cfg);
      StepInv(s, a, cfg);
      StepMails(s, a, cfg);
      var cfg' := Repriced(cfg, a);
      RunFifo(r, run[1..], cfg');
      Regroup(Mails(s.core), AcceptedBy(s.core, a), Accepted(r, run[1..], cfg'), HandedOutBy(s.core, a), Mails(r.core),
              HandedOut(r, run[1..], cfg'), Mails(After(r, run[1..], cfg').core));
    }
  }

  // ---------------------------------------------------------------- the object

  class Mailbox {
    const size: nat
    const threads: Threads
    const flag: Flag
    var msgPool: array<int>
    var entry: nat
    var inOffset: nat
    var outOffset: nat
    var senders: seq<int>
    var receivers: seq<int>

    ghost function View(): Core
      reads this, msgPool
    {
      Core(msgPool[..], entry, inOffset, outOffset, senders, receivers)
    }

    ghost predicate Valid()
      reads this, msgPool
    {
      msgPool.Length == size && RingInv(View())
    }

    constructor (size: nat, threads: Threads, flag: Flag)
      ensures Valid() && fresh(msgPool) && this.size == size && this.threads == threads && this.flag == flag
      ensures View() == Init({}, size).core
    {
      this.size, this.threads, this.flag := size, threads, flag;
      msgPool := new int[size](_ => 0);
      entry, inOffset, outOffset, senders, receivers := 0, 0, 0, [], [];
      new;
      assert msgPool[..] == seq(size, _ => 0);
    }

    /** The section of rt_mb_send_wait that finds room; also the receiver it resumes. */
    method Post(mail: int) returns (resumed: seq<int>)
      requires Valid() && entry < size
      modifies this, msgPool
      ensures Valid() && msgPool == old(msgPool) && View() == Posted(old(View()), mail)
      ensures resumed == old(receivers)[..if old(receivers) == [] then 0 else 1]
    {
      RingIsQueue(View(), mail);
      msgPool[inOffset] := mail;
      inOffset := inOffset + 1;
      if inOffset >= size {
        inOffset := 0;
      }
      entry := entry + 1;
      resumed := [];
      if receivers != [] {
        resumed := receivers[..1];
        receivers := receivers[1..];
      }
    }

    /** The section of rt_mb_recv that finds a mail; also the sender it resumes. */
    method Fetch() returns (mail: int, resumed: seq<int>)
      requires Valid() && entry > 0
      modifies this
      ensures Valid() && msgPool == old(msgPool) && View() == Fetched(old(View()))
      ensures [mail] + Mails(View()) == old(Mails(View()))
      ensures resumed == old(senders)[..if old(senders) == [] then 0 else 1]
    {
      RingIsQueue(View(), 0);
      mail := msgPool[outOffset];
      outOffset := outOffset + 1;
      if outOffset >= size {
        outOffset := 0;
      }
      entry := entry - 1;
      resumed := [];
      if senders != [] {
        resumed := senders[..1];
        senders := senders[1..];
      }
    }

    /** A section that finds the box full, or empty, and may wait. */
    method WaitToSend(t: int)
      requires Valid() && entry == size && Known(senders, threads.priority) && t in threads.priority
      modifies `senders
      ensures Valid() && View() == old(View()).(senders := Join(old(senders), t, threads.priority, flag))
    {
      senders := Join(senders, t, threads.priority, flag);
    }

    method WaitToReceive(t: int)
      requires Valid() && entry == 0 && Known(receivers, threads.priority) && t in threads.priority
      modifies `receivers
      ensures Valid() && View() == old(View()).(receivers := Join(old(receivers), t, threads.priority, flag))
    {
      receivers := Join(receivers, t, threads.priority, flag);
    }

    /** rt_mb_control's reset. */
    method Reset() returns (resumed: seq<int>)
      requires Valid()
      modifies this
      ensures Valid() && msgPool == old(msgPool) && View() == Cleared(old(View()))
      ensures resumed == old(receivers) + old(senders)
    {
      resumed := receivers + senders;
      receivers, senders := [], [];
      entry := 0;
      inOffset := 0;
      outOffset := 0;
    }
  }
}
