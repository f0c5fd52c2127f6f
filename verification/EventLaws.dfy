/** What waiting for all or any of some events means, bit by bit. */
module EventLaws {
  import opened Rings
  import opened WaitLists
  import opened Events

  /** Every bit asked for is in the set; or, for a wait for any, one of them is. */
  ghost predicate Satisfied(bits: Bits, want: Bits, option: Option) {
    if option.all then forall b :: b in want ==> b in bits else exists b :: b in want && b in bits
  }

  lemma {:induction false} MeetsExactly(bits: Bits, i: Info)
    requires i.option.all || i.option.any
    ensures Meets(bits, i) <==> Satisfied(bits, i.bits, i.option)
  {
    if i.bits * bits != {} {
      var b :| b in i.bits * bits;
      assert b in i.bits && b in bits;
    }
    forall b | b in i.bits && b in bits ensures b in i.bits * bits {}
  }

  // ---------------------------------------------------------------- receiving

  /** Which of its answers a receive gives. */
  lemma {:induction false} RecvExactly(c: Core, t: int, want: Bits, option: Option, block: bool, cfg: Config)
    requires Inv(c, cfg) && Enabled(c, Recv(t, want, option, block), cfg)
    ensures var result := Receive(c, t, want, option, block, cfg).1;
            (result == Error <==> want == {})
            && (result == Ok <==> want != {} && Satisfied(c.bits, want, option))
            && (result == TimedOut <==> want != {} && !Satisfied(c.bits, want, option) && !block)
            && (result == Suspended <==> want != {} && !Satisfied(c.bits, want, option) && block)
  {
    MeetsExactly(c.bits, Info(want, option));
  }

  /**
    A receive that succeeds gets the bits asked for that are there, and takes those asked for out of the set if it is
    to clear them; nobody else is touched.
   */
  lemma {:induction false} RecvTakes(c: Core, t: int, want: Bits, option: Option, block: bool, cfg: Config)
    requires Inv(c, cfg) && Enabled(c, Recv(t, want, option, block), cfg)
    ensures var (r, result, got) := Receive(c, t, want, option, block, cfg);
            result == Ok ==>
              (forall b :: b in got <==> b in want && b in c.bits)
              && (forall b :: b in r.bits <==> b in c.bits && !(option.clear && b in want))
              && (option.all ==> got == want) && r.waiters == c.waiters && r.infos == c.infos
  {
    MeetsExactly(c.bits, Info(want, option));
  }

  /** One that waits is recorded with what it asked for and joins the list; one that fails changes nothing. */
  lemma {:induction false} RecvWaits(c: Core, t: int, want: Bits, option: Option, block: bool, cfg: Config)
    requires Inv(c, cfg) && Enabled(c, Recv(t, want, option, block), cfg)
    ensures var (r, result, got) := Receive(c, t, want, option, block, cfg);
            (result != Ok ==> got == {} && r.bits == c.bits)
            && (result in {Error, TimedOut} ==> r == c)
            && (result == Suspended ==>
                  r.infos == c.infos[t := Info(want, option)] && Distinct(r.waiters)
                  && forall u :: u in r.waiters <==> u in c.waiters || u == t)
  {
    if want != {} && block { JoinFacts(c.waiters, t, cfg.prio, cfg.flag); }
  }

  /** A timeout takes its thread off the list and nothing else; a reset leaves no bit and nobody waiting. */
  lemma {:induction false} Leaving(c: Core, t: int, cfg: Config)
    requires Inv(c, cfg)
    ensures t in c.waiters ==>
              var r := Next(c, TimeOut(t), cfg);
              r.bits == c.bits && r.infos == c.infos && forall u :: u in r.waiters <==> u in c.waiters && u != t
    ensures var r := Next(c, Reset, cfg); r.bits == {} && r.waiters == []
  {
    DropFacts(c.waiters, t);
  }

  // ---------------------------------------------------------------- sending

  /** What a thread that is satisfied gets, and what it leaves to the next. */
  ghost predicate Hands(bits: Bits, i: Info, got: Bits, left: Bits) {
    (forall b :: b in got <==> b in i.bits && b in bits)
    && forall b :: b in left <==> b in bits && !(i.option.clear && b in i.bits)
  }

  /** Every waiter waits for all or for any of its bits. */
  ghost predicate Asking(ws: seq<int>, infos: Infos) {
    Informed(ws, infos) && forall w :: w in ws ==> w in infos && (infos[w].option.all || infos[w].option.any)
  }

  /**
    The walk visits the threads in turn: the first is woken if and only if what is there satisfies it, and the others
    fare as they would without it, on the set it leaves.
   */
  lemma {:induction false} ScanVisits(bits: Bits, ws: seq<int>, infos: Infos) returns (left: Bits)
    requires ws != [] && Asking(ws, infos)
    ensures ws[0] in infos && Informed(ws[1..], infos)
    ensures var i, p := infos[ws[0]], Scan(bits, ws, infos); var q := Scan(left, ws[1..], infos);
            p.bits == q.bits
            && if Satisfied(bits, i.bits, i.option) then
                 p.waiters == q.waiters && |p.wakes| == 1 + |q.wakes| && p.wakes[1..] == q.wakes
                 && p.wakes[0].t == ws[0] && Hands(bits, i, p.wakes[0].got, left)
               else p.waiters == [ws[0]] + q.waiters && p.wakes == q.wakes && left == bits
  {
    var w := ws[0];
    assert w in ws;
    var i := infos[w];
    assert i.option.all || i.option.any;
    MeetsExactly(bits, i);
    left := if Meets(bits, i) then Left(bits, i) else bits;
  }

  /** So a send wakes the first waiter if and only if the enlarged set satisfies it, and records what it received. */
  lemma {:induction false} SendWakesFirst(c: Core, add: Bits, cfg: Config)
    requires Inv(c, cfg) && Asking(c.waiters, c.infos) && c.waiters != [] && add != {}
    ensures var w, r := c.waiters[0], Sent(c, add);
            w in c.infos && w in r.infos
            && var i := c.infos[w];
               (w !in r.waiters <==> Satisfied(c.bits + add, i.bits, i.option))
               && (w !in r.waiters ==> forall b :: b in r.infos[w].bits <==> b in i.bits && b in c.bits + add)
               && (w in r.waiters ==> r.infos[w] == i && r.waiters[0] == w)
  {
    var w, bits := c.waiters[0], c.bits + add;
    var p := Scan(bits, c.waiters, c.infos);
    var left := ScanVisits(bits, c.waiters, c.infos);
    var q := Scan(left, c.waiters[1..], c.infos);
    assert c.waiters == [w] + c.waiters[1..] && w !in c.waiters[1..];
    ScanSplits(left, c.waiters[1..], c.infos);
    if Satisfied(bits, c.infos[w].bits, c.infos[w].option) {
      assert w !in q.waiters;
      FirstRecord(c.infos, p.wakes);
    } else {
      WokenElsewhere(c.infos, p.wakes, w);
    }
  }

  /** The record of the first thread woken is not written again. */
  lemma {:induction false} FirstRecord(infos: Infos, wakes: seq<Wake>)
    requires wakes != [] && wakes[0].t in infos
    requires forall j {:trigger wakes[j]} :: 0 < j < |wakes| ==> wakes[j].t != wakes[0].t
    ensures var w := wakes[0].t;
            w in Woken(infos, wakes) && Woken(infos, wakes)[w] == infos[w].(bits := wakes[0].got)
  {
    if |wakes| == 1 {
      assert wakes[..0] == [];
    } else {
      FirstRecord(infos, wakes[..|wakes| - 1]);
      assert wakes[|wakes| - 1].t != wakes[0].t;
    }
  }

  // ---------------------------------------------------------------- what a waiting thread lacks

  /** A thread that waits for any of its bits shares none with the set, and one that waits for all lacks one. */
  ghost predicate Lacking(c: Core) {
    forall w :: w in c.waiters ==>
      w in c.infos
      && var i := c.infos[w];
         i.bits != {} && (i.option.all || i.option.any)
         && if i.option.all then exists b :: b in i.bits && b !in c.bits else forall b :: b in i.bits ==> b !in c.bits
  }

  lemma {:induction false} LackingIs(c: Core, cfg: Config)
    requires Inv(c, cfg) && Asking(c.waiters, c.infos)
    ensures Lacking(c)
  {
    forall w | w in c.waiters
      ensures w in c.infos && c.infos[w].bits != {} && !Satisfied(c.bits, c.infos[w].bits, c.infos[w].option)
    {
      var k :| 0 <= k < |c.waiters| && c.waiters[k] == w;
      MeetsExactly(c.bits, c.infos[w]);
    }
  }

  lemma {:induction false} WokenOptions(infos: Infos, wakes: seq<Wake>, w: int)
    requires w in infos
    ensures w in Woken(infos, wakes) && Woken(infos, wakes)[w].option == infos[w].option
  {
    if wakes != [] { WokenOptions(infos, wakes[..|wakes| - 1], w); }
  }

  lemma {:induction false} StepAsking(c: Core, a: Step, cfg: Config)
    requires Inv(c, cfg) && Enabled(c, a, cfg) && Asking(c.waiters, c.infos)
    ensures Inv(Next(c, a, cfg), Repriced(cfg, a)) && Asking(Next(c, a, cfg).waiters, Next(c, a, cfg).infos)
  {
    StepInv(c, a, cfg);
    match a
    case Send(bits) =>
      if bits != {} { SendAsking(c, bits, cfg); }
    case Recv(t, bits, option, block) => RecvWaits(c, t, bits, option, block, cfg);
    case TimeOut(t) => DropFacts(c.waiters, t);
    case Reset =>
    case SetPriority(_, _) =>
  }

  lemma {:induction false} SendAsking(c: Core, bits: Bits, cfg: Config)
    requires Inv(c, cfg) && Asking(c.waiters, c.infos) && bits != {}
    ensures Informed(Sent(c, bits).waiters, Sent(c, bits).infos) ==> Asking(Sent(c, bits).waiters, Sent(c, bits).infos)
  {
    var p := Scan(c.bits + bits, c.waiters, c.infos);
    ScanSplits(c.bits + bits, c.waiters, c.infos);
    forall w | w in p.waiters ensures w in c.infos && (c.infos[w].option.all || c.infos[w].option.any) {
      var k :| 0 <= k < |c.waiters| && c.waiters[k] == w;
    }
    forall w | w in p.waiters ensures w in c.infos && w in Woken(c.infos, p.wakes)
                                      && Woken(c.infos, p.wakes)[w].option == c.infos[w].option {
      WokenOptions(c.infos, p.wakes, w);
    }
  }

  lemma {:induction false} RunKeepsAsking(c: Core, run: seq<Step>, cfg: Config)
    requires Inv(c, cfg) && Asking(c.waiters, c.infos) && Admissible(c, run, cfg)
    ensures Lacking(After(c, run, cfg))
    decreases |run|
  {
    if run == [] {
      LackingIs(c, cfg);
    } else {
      StepAsking(c, run[0], cfg);
      RunKeepsAsking(Next(c, run[0], cfg), run[1..], Repriced(cfg, run[0]));
    }
  }

  /** That holds in every reachable state. */
  lemma {:induction false} RunLacking(run: seq<Step>, cfg: Config)
    requires Admissible(Core({}, [], map[]), run, cfg)
    ensures Lacking(After(Core({}, [], map[]), run, cfg))
  {
    RunKeepsAsking(Core({}, [], map[]), run, cfg);
  }
}
