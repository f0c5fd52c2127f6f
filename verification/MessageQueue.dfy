/** The message queue object: linked messages in a pool, and one method for each section with interrupts disabled. */
module MessageQueues {
  import opened Rings
  import opened WaitLists
  import opened MessageModel

  const NULL := -1

  /** Following next from start visits s and ends in null. */
  ghost predicate Chain(next: seq<int>, start: int, s: seq<int>)
    decreases |s|
  {
    if s == [] then start == NULL
    else start == s[0] && 0 <= start < |next| && Chain(next, next[start], s[1..])
  }

  /** Writing the link of a message outside a chain leaves the chain alone. */
  lemma {:induction false} ChainFrame(next: seq<int>, start: int, s: seq<int>, n: int, v: int)
    requires Chain(next, start, s) && 0 <= n < |next| && n !in s
    ensures Chain(next[n := v], start, s)
    decreases |s|
  {
    if s != [] {
      assert s == [s[0]] + s[1..];
      ChainFrame(next, next[start], s[1..], n, v);
    }
  }

  /** Linking n behind the last message. */
  lemma {:induction false} ChainAppend(next: seq<int>, start: int, s: seq<int>, n: int)
    requires Chain(next, start, s) && s != [] && Distinct(s) && n !in s && 0 <= n < |next| && next[n] == NULL
    ensures 0 <= s[|s| - 1] < |next| && Chain(next[s[|s| - 1] := n], start, s + [n])
    decreases |s|
  {
    var last := s[|s| - 1];
    if |s| == 1 {
      assert (s + [n])[1..] == [n] && [n][1..] == [];
      assert next[last := n][n] == NULL;
      assert Chain(next[last := n], n, [n]);
    } else {
      assert s[1..][|s| - 2] == last;
      assert forall i :: 0 <= i < |s| - 1 ==> s[1..][i] == s[i + 1];
      assert n !in s[1..];
      ChainAppend(next, next[start], s[1..], n);
      assert (s + [n])[1..] == s[1..] + [n];
      assert s[0] != last;
    }
  }

  lemma {:induction false} ChainLast(next: seq<int>, start: int, s: seq<int>)
    requires Chain(next, start, s) && s != []
    ensures 0 <= s[|s| - 1] < |next|
    decreases |s|
  {
    if |s| > 1 { ChainLast(next, next[start], s[1..]); }
  }

  class MessageQueue {
    const msgSize: nat
    const threads: Threads
    const flag: Flag
    var next: array<int>
    var data: array<Bytes>
    var free: int
    var head: int
    var tail: int
    var entry: nat
    var waiters: seq<int>

    ghost var freeList: seq<int>
    ghost var queue: seq<int>

    ghost function View(): Core
      reads this, data
    {
      Core(freeList, queue, waiters, data[..])
    }

    /** The links are the two lists of the view, the tail is the last message, and entry counts the queue. */
    ghost predicate Valid()
      reads this, next, data
    {
      ValidBut(|queue|)
    }

    /** A message that a thread holds. */
    ghost predicate Out(n: int)
      reads this
    {
      0 <= n < next.Length && n !in freeList && n !in queue
    }

    /** rt_mq_init over a pool that holds max messages. */
    constructor (max: nat, msgSize: nat, threads: Threads, flag: Flag)
      ensures Valid() && fresh(next) && fresh(data)
      ensures this.msgSize == msgSize && this.threads == threads && this.flag == flag
      ensures View().free == Reverse(Upto(max)) && View().queue == [] && View().waiters == [] && |View().data| == max
    {
      this.msgSize, this.threads, this.flag := msgSize, threads, flag;
      next := new int[max];
      data := new Bytes[max](_ => seq(msgSize, _ => 0));
      free, head, tail, entry, waiters := NULL, NULL, NULL, 0, [];
      freeList, queue := [], [];
      new;
      ghost var pool, store := next, data;
      var temp := 0;
      while temp < max
        invariant temp <= max && next == pool && data == store && head == tail == NULL && entry == 0
        invariant fresh(next) && fresh(data) && queue == waiters == []
        invariant freeList == Reverse(Upto(temp)) && Chain(next[..], free, freeList)
        invariant forall i {:trigger data[i]} :: 0 <= i < data.Length ==> |data[i]| == msgSize
      {
        ReverseUpto(temp);
        ghost var links := next[..];
        ChainFrame(links, free, freeList, temp, free);
        next[temp] := free;
        assert next[..] == links[temp := free];
        free := temp;
        freeList := [temp] + freeList;
        assert freeList[1..] == Reverse(Upto(temp));
        temp := temp + 1;
      }
      ReverseDistinct(Upto(max));
    }

    lemma ReverseUpto(n: nat)
      ensures Reverse(Upto(n + 1)) == [n] + Reverse(Upto(n)) && n !in Reverse(Upto(n))
    {
      ReverseHas(Upto(n), n);
      ReverseAppend(Upto(n), n);
      assert Upto(n + 1) == Upto(n) + [n];
    }

    static lemma ReverseAppend(s: seq<int>, n: int)
      ensures Reverse(s + [n]) == [n] + Reverse(s)
    {
      if s == [] {
        assert Reverse([n]) == [n];
      } else {
        ReverseAppend(s[1..], n);
        assert (s + [n])[1..] == s[1..] + [n];
      }
    }

    /** First section of a send: the first free message, if there is one. */
    method Grab() returns (msg: int)
      requires Valid()
      modifies this
      ensures Valid() && unchanged(this`next, this`data)
      ensures View() == if old(freeList) == [] then old(View()) else old(View()).(free := old(freeList)[1..])
      ensures if old(freeList) == [] then msg == NULL else msg == old(freeList)[0] && Out(msg)
    {
      msg := free;
      if msg == NULL { return; }
      free := next[msg];
      assert freeList == [msg] + freeList[1..];
      freeList := freeList[1..];
    }

    /** Between the sections: the copy into the message. */
    method Fill(msg: int, bytes: Bytes)
      requires Valid() && Out(msg) && |bytes| <= msgSize
      modifies data
      ensures Valid() && View() == Filled(old(View()), msg, bytes)
    {
      data[msg] := bytes + data[msg][|bytes|..];
    }

    /** Second section of an ordinary send. Also who is resumed. */
    method LinkTail(msg: int) returns (resumed: seq<int>)
      requires Valid() && Out(msg)
      modifies this, next
      ensures Valid() && unchanged(this`next, this`data)
      ensures View() == Enqueued(old(View()), msg, false)
              && resumed == old(waiters)[..if old(waiters) == [] then 0 else 1]
    {
      Detach(msg);
      Append(msg);
      entry := entry + 1;
      resumed := ResumeOne();
    }

    /** The list of the queue and its ends, but for the count. */
    ghost predicate ValidBut(counted: nat)
      reads this, next, data
    {
      next.Length == data.Length
      && Chain(next[..], free, freeList) && Chain(next[..], head, queue)
      && Distinct(freeList) && Distinct(queue) && (forall n :: n in freeList ==> n !in queue)
      && (tail == if queue == [] then NULL else queue[|queue| - 1])
      && entry == counted
      && (forall i {:trigger data[i]} :: 0 <= i < data.Length ==> |data[i]| == msgSize)
    }

    method Append(msg: int)
      requires Valid() && Out(msg) && next[msg] == NULL
      modifies `tail, `head, `queue, next
      ensures ValidBut(|old(queue)|) && queue == old(queue) + [msg]
    {
      ghost var links := next[..];
      if queue != [] { ChainLast(links, head, queue); }
      if tail != NULL {
        ghost var t := tail;
        ChainAppend(links, head, queue, msg);
        ChainFrame(links, free, freeList, t, msg);
        next[tail] := msg;
        assert next[..] == links[t := msg];
      } else {
        assert [msg][1..] == [];
        assert Chain(links, msg, [msg]);
        assert queue + [msg] == [msg];
      }
      tail := msg;
      if head == NULL { head := msg; }
      queue := queue + [msg];
    }

    /** The new message ends the list. */
    method Detach(msg: int)
      requires Valid() && Out(msg)
      modifies next
      ensures Valid() && next[..] == old(next[..])[msg := NULL]
    {
      ghost var links := next[..];
      ChainFrame(links, free, freeList, msg, NULL);
      ChainFrame(links, head, queue, msg, NULL);
      next[msg] := NULL;
      assert next[..] == links[msg := NULL];
    }

    /** Second section of an urgent send. */
    method LinkHead(msg: int) returns (resumed: seq<int>)
      requires Valid() && Out(msg)
      modifies this, next
      ensures Valid() && unchanged(this`next, this`data)
      ensures View() == Enqueued(old(View()), msg, true)
              && resumed == old(waiters)[..if old(waiters) == [] then 0 else 1]
    {
      ghost var links := next[..];
      if queue != [] { ChainLast(links, head, queue); }
      ChainFrame(links, free, freeList, msg, head);
      ChainFrame(links, head, queue, msg, head);
      next[msg] := head;
      assert next[..] == links[msg := head];
      head := msg;
      if tail == NULL { tail := msg; }
      assert ([msg] + queue)[1..] == queue;
      queue := [msg] + queue;
      assert queue[|queue| - 1] == tail;
      entry := entry + 1;
      resumed := ResumeOne();
    }

    method ResumeOne() returns (resumed: seq<int>)
      requires Valid()
      modifies `waiters
      ensures Valid() && waiters == (if old(waiters) == [] then [] else old(waiters)[1..])
      ensures resumed == old(waiters)[..if old(waiters) == [] then 0 else 1]
    {
      resumed := [];
      if waiters != [] {
        resumed := waiters[..1];
        waiters := waiters[1..];
      }
    }

    /** The section of a receive that finds a message. */
    method TakeHead() returns (msg: int)
      requires Valid() && entry > 0
      modifies this
      ensures Valid() && unchanged(this`next, this`data)
      ensures View() == old(View()).(queue := old(queue)[1..]) && msg == old(queue)[0] && Out(msg)
    {
      msg := head;
      assert queue == [msg] + queue[1..];
      head := next[msg];
      if tail == msg {
        tail := NULL;
      }
      queue := queue[1..];
      entry := entry - 1;
    }

    /** The section of a receive that finds none and may wait. */
    method Wait(t: int)
      requires Valid() && entry == 0 && Known(waiters, threads.priority) && t in threads.priority
      modifies `waiters
      ensures Valid() && View() == old(View()).(waiters := Join(old(waiters), t, threads.priority, flag))
    {
      waiters := Join(waiters, t, threads.priority, flag);
    }

    /** Last section of a receive. */
    method PutBack(msg: int)
      requires Valid() && Out(msg)
      modifies this, next
      ensures Valid() && unchanged(this`next, this`data)
      ensures View() == old(View()).(free := [msg] + old(freeList))
    {
      ghost var links := next[..];
      ChainFrame(links, free, freeList, msg, free);
      ChainFrame(links, head, queue, msg, free);
      next[msg] := free;
      assert next[..] == links[msg := free];
      free := msg;
      assert ([msg] + freeList)[1..] == freeList;
      freeList := [msg] + freeList;
    }

    /** rt_mq_control's reset: every waiter is resumed, every queued message freed. */
    method Reset() returns (resumed: seq<int>)
      requires Valid()
      modifies this, next
      ensures Valid() && unchanged(this`next, this`data)
      ensures View() == Cleared(old(View())) && resumed == old(waiters)
    {
      resumed := waiters;
      waiters := [];
      while head != NULL
        invariant ValidBut(old(|queue|)) && next == old(next) && data == old(data) && waiters == [] && unchanged(data)
        invariant Reverse(queue) + freeList == Reverse(old(queue)) + old(freeList)
        decreases |queue|
      {
        FreeHead();
      }
      assert Reverse(queue) + freeList == freeList;
      entry := 0;
    }

    /** One round of the reset's loop. */
    method FreeHead()
      requires ValidBut(entry) && head != NULL
      modifies `head, `tail, `free, `queue, `freeList, next
      ensures ValidBut(entry) && |queue| == old(|queue|) - 1
      ensures Reverse(queue) + freeList == Reverse(old(queue)) + old(freeList)
    {
      ghost var links, q, f := next[..], queue, freeList;
      var msg := head;
      assert q == [msg] + q[1..];
      ChainFrame(links, links[msg], q[1..], msg, free);
      ChainFrame(links, free, f, msg, free);
      head := next[msg];
      if tail == msg {
        tail := NULL;
      }
      next[msg] := free;
      assert next[..] == links[msg := free];
      free := msg;
      queue := q[1..];
      freeList := [msg] + f;
      assert freeList[1..] == f;
      Regrouped(Reverse(q[1..]), msg, f);
      OneTail(q);
    }

    static lemma Regrouped(a: seq<int>, n: int, b: seq<int>)
      ensures a + [n] + b == a + ([n] + b)
    {}

    static lemma OneTail(q: seq<int>)
      requires Distinct(q) && q != []
      ensures q[|q| - 1] == q[0] <==> q[1..] == []
      ensures q[1..] != [] ==> q[1..][|q| - 2] == q[|q| - 1]
    {}
  }
}
