/** What the callers of a mailbox see: who is refused, who waits with what, and who is woken. */
module MailboxLaws {
  import opened Rings
  import opened WaitLists
  import opened Mailboxes

  /** Only t's place changes. */
  ghost predicate OnlyMoves(was: map<int, Pc>, now: map<int, Pc>, t: int) {
    was.Keys == now.Keys && forall u :: u in was && u != t ==> now[u] == was[u]
  }

  /** Of the waiting threads, the first is woken, with place as its new place, and no other; t is done. */
  ghost predicate WakesFirst(s: State, r: State, t: int, was: seq<int>, now: seq<int>, place: Pc) {
    r.pc.Keys == s.pc.Keys && t in r.pc && r.pc[t] == Idle
    && (forall u :: u in s.pc && u != t && !(was != [] && u == was[0]) ==> r.pc[u] == s.pc[u])
    && if was == [] then now == [] else was == [was[0]] + now && was[0] in r.pc && r.pc[was[0]] == place
  }

  /**
    A send is accepted if and only if a slot is free, and then wakes the first receiver; on a full box it waits if it
    may, keeping its mail, and is refused otherwise.
   */
  lemma {:induction false} SendExactly(s: State, t: int, mail: int, block: bool, cfg: Config)
    requires Inv(s, cfg) && Enabled(s, Send(t, mail, block))
    ensures var c, r := s.core, Next(s, Send(t, mail, block), cfg);
            if |Mails(c)| < |c.pool| then
              RingInv(r.core) && Mails(r.core) == Mails(c) + [mail] && r.core.senders == c.senders
              && WakesFirst(s, r, t, c.receivers, r.core.receivers, WokenReceiver)
            else if block then
              OnlyMoves(s.pc, r.pc, t) && r.pc[t] == Sending(mail) && t in r.core.senders
              && Drop(r.core.senders, t) == c.senders && r.core == c.(senders := r.core.senders)
            else OnlyMoves(s.pc, r.pc, t) && r.pc[t] == Idle && r.core == c
  {
    FirstKnown(s, cfg);
    RingIsQueue(s.core, mail);
    if s.core.entry == Size(s.core) && block { JoinDropped(s.core.senders, t, cfg.prio, cfg.flag); }
  }

  /**
    A receive gets the oldest mail if there is one, and then wakes the first sender to send its mail; on an empty box
    it waits if it may and is refused otherwise.
   */
  lemma {:induction false} ReceiveExactly(s: State, t: int, block: bool, cfg: Config)
    requires Inv(s, cfg) && Enabled(s, Receive(t, block))
    ensures s.core.senders != [] ==> s.core.senders[0] in s.pc && s.pc[s.core.senders[0]].Sending?
    ensures var c, r := s.core, Next(s, Receive(t, block), cfg);
            if Mails(c) != [] then
              RingInv(r.core) && Mails(r.core) == Mails(c)[1..] && r.core.receivers == c.receivers
              && WakesFirst(s, r, t, c.senders, r.core.senders,
                           if c.senders == [] then Idle else WokenSender(s.pc[c.senders[0]].mail))
            else if block then
              OnlyMoves(s.pc, r.pc, t) && r.pc[t] == Receiving && t in r.core.receivers
              && Drop(r.core.receivers, t) == c.receivers && r.core == c.(receivers := r.core.receivers)
            else OnlyMoves(s.pc, r.pc, t) && r.pc[t] == Idle && r.core == c
  {
    FirstKnown(s, cfg);
    RingIsQueue(s.core, 0);
    if s.core.entry == 0 && block { JoinDropped(s.core.receivers, t, cfg.prio, cfg.flag); }
  }

  /** A thread that timed out is told so and waits on neither side; the mails stay. */
  lemma {:induction false} TimeOutTold(s: State, t: int, cfg: Config)
    requires Inv(s, cfg) && Enabled(s, TimeOut(t))
    ensures var r := Next(s, TimeOut(t), cfg);
            OnlyMoves(s.pc, r.pc, t) && r.pc[t] == GaveUp(TimedOut) && RingInv(r.core) && Mails(r.core) == Mails(s.core)
            && (forall u :: u in r.core.senders <==> u in s.core.senders && u != t)
            && forall u :: u in r.core.receivers <==> u in s.core.receivers && u != t
  {
    DropFacts(s.core.senders, t);
    DropFacts(s.core.receivers, t);
    SameMails(s.core, Next(s, TimeOut(t), cfg).core);
  }

  /** Who is told that its wait failed returns, and touches nothing. */
  lemma {:induction false} Returns(s: State, t: int, cfg: Config)
    requires Inv(s, cfg) && Enabled(s, Return(t))
    ensures var r := Next(s, Return(t), cfg); r.core == s.core && OnlyMoves(s.pc, r.pc, t) && r.pc[t] == Idle
  {}

  /** After a reset the box is empty and everybody who waited is told that it failed. */
  lemma {:induction false} ResetExactly(s: State, cfg: Config)
    requires Inv(s, cfg)
    ensures var c, r := s.core, Next(s, Reset, cfg);
            RingInv(r.core) && Mails(r.core) == [] && |r.core.pool| == |c.pool|
            && r.core.senders == r.core.receivers == [] && r.pc.Keys == s.pc.Keys
            && forall u :: u in s.pc ==>
                 r.pc[u] == if s.pc[u].Sending? || s.pc[u].Receiving? then GaveUp(Failed) else s.pc[u]
  {
    RingIsQueue(s.core, 0);
  }
}
