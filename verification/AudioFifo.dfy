/** The audio node list: a byte stream over a ring of caller-owned buffers. */
module AudioFifos {
  import opened Seqs

  /** Sample bytes; their values play no part. */
  type Bytes = seq<int>

  /** One slot of the ring always stays free; dataOffset is how much of the first node is already read. */
  datatype Fifo = Fifo(nodes: seq<Bytes>, readIndex: nat, writeIndex: nat, dataOffset: nat)

  function Size(f: Fifo): nat { |f.nodes| }

  function Wrap(i: nat, size: nat): nat { if i >= size then i - size else i }

  /** How many nodes are queued. */
  function Count(f: Fifo): int {
    if f.writeIndex >= f.readIndex then f.writeIndex - f.readIndex else f.writeIndex + Size(f) - f.readIndex
  }

  predicate IndexInv(f: Fifo) {
    if Size(f) == 0 then f.readIndex == f.writeIndex == 0 else f.readIndex < Size(f) && f.writeIndex < Size(f)
  }

  predicate Inv(f: Fifo) {
    IndexInv(f)
    && if f.readIndex == f.writeIndex then f.dataOffset == 0
       else f.dataOffset == 0 || f.dataOffset < |f.nodes[f.readIndex]|
  }

  /** The queued nodes, oldest first. */
  function Queue(f: Fifo): (q: seq<Bytes>)
    requires IndexInv(f)
    ensures |q| == Count(f)
    ensures q != [] ==> Wrap(f.readIndex + 0, Size(f)) == f.readIndex && q[0] == f.nodes[f.readIndex]
  {
    seq(Count(f), k requires 0 <= k < Count(f) => f.nodes[Wrap(f.readIndex + k, Size(f))])
  }

  function Stream(q: seq<Bytes>): Bytes {
    if q == [] then [] else q[0] + Stream(q[1..])
  }

  /** The bytes written and not yet read. */
  function Unread(f: Fifo): Bytes
    requires Inv(f)
  {
    var q := Queue(f);
    if q == [] then [] else q[0][f.dataOffset..] + Stream(q[1..])
  }

  // ---------------------------------------------------------------- writing

  predicate Full(f: Fifo) { NextPlace(f.writeIndex, Size(f)) == f.readIndex }

  function Written(f: Fifo, data: Bytes): Fifo
    requires IndexInv(f)
  {
    if Full(f) then f
    else f.(nodes := f.nodes[f.writeIndex := data], writeIndex := NextPlace(f.writeIndex, Size(f)))
  }

  lemma {:induction false} StreamAppend(q: seq<Bytes>, d: Bytes)
    ensures Stream(q + [d]) == Stream(q) + d
  {
    if q == [] {
      assert [d][1..] == [];
    } else {
      StreamAppend(q[1..], d);
      assert (q + [d])[1..] == q[1..] + [d];
    }
  }

  /** At most one node less than the ring holds; a write is refused exactly then, and otherwise appends its bytes. */
  lemma {:induction false} WriteAppends(f: Fifo, data: Bytes)
    requires Inv(f)
    ensures Count(f) < Size(f) || Count(f) == 0
    ensures Full(f) <==> Count(f) + 1 >= Size(f)
    ensures var r := Written(f, data);
            Inv(r) && if Full(f) then r == f else Queue(r) == Queue(f) + [data] && Unread(r) == Unread(f) + data
  {
    if !Full(f) {
      var r, n := Written(f, data), Size(f);
      forall k | 0 <= k < Count(r) ensures Queue(r)[k] == (Queue(f) + [data])[k] {
        assert Queue(r)[k] == r.nodes[Wrap(f.readIndex + k, n)];
        assert k < Count(f)
            ==> Queue(f)[k] == f.nodes[Wrap(f.readIndex + k, n)] && Wrap(f.readIndex + k, n) != f.writeIndex;
      }
      assert Queue(r) == Queue(f) + [data];
      UnreadAppends(f, r, data);
    }
  }

  lemma {:induction false} UnreadAppends(f: Fifo, r: Fifo, data: Bytes)
    requires Inv(f) && Inv(r) && Queue(r) == Queue(f) + [data] && r.dataOffset == f.dataOffset
    ensures Unread(r) == Unread(f) + data
  {
    var q := Queue(f);
    if q == [] {
      assert Queue(r)[1..] == [];
    } else {
      assert Queue(r)[1..] == q[1..] + [data];
      StreamAppend(q[1..], data);
    }
  }

  // ---------------------------------------------------------------- reading

  /** One round of the read loop: the bytes it copies, the node it completes, if any, and the list after it. */
  function Round(f: Fifo, want: nat): (Bytes, seq<Bytes>, Fifo)
    requires Inv(f) && f.readIndex != f.writeIndex
  {
    var node := f.nodes[f.readIndex];
    var end := f.dataOffset + Min(want, |node| - f.dataOffset);
    var got := node[f.dataOffset..end];
    if end >= |node| then (got, [node], f.(readIndex := NextPlace(f.readIndex, Size(f)), dataOffset := 0))
    else (got, [], f.(dataOffset := end))
  }

  /** A round hands out the next bytes of the stream, and completes the oldest node exactly when it is used up. */
  lemma {:induction false} RoundAdvances(f: Fifo, want: nat)
    requires Inv(f) && f.readIndex != f.writeIndex
    ensures var (got, done, r) := Round(f, want);
            Inv(r) && Unread(f) == got + Unread(r) && Queue(f) == done + Queue(r)
            && |got| <= want && (|got| < want ==> done != [])
  {
    RoundQueue(f, want);
    if Round(f, want).1 != [] { LastRound(f, want); } else { PartRound(f, want); }
  }

  /** The rest of the node. */
  lemma {:induction false} LastRound(f: Fifo, want: nat)
    requires Inv(f) && f.readIndex != f.writeIndex && Round(f, want).1 != []
    ensures var (got, done, r) := Round(f, want); Inv(r) && Unread(f) == got + Unread(r) && Queue(f) == done + Queue(r)
  {
    RoundQueue(f, want);
    var (got, done, r) := Round(f, want);
    var q, node := Queue(f), f.nodes[f.readIndex];
    assert got == node[f.dataOffset..] by { assert f.dataOffset + Min(want, |node| - f.dataOffset) == |node|; }
    assert Unread(r) == Stream(q[1..]) by { StreamUnread(r); }
    assert q == done + Queue(r) by { First(q); }
  }

  lemma {:induction false} First(q: seq<Bytes>)
    requires q != []
    ensures q == [q[0]] + q[1..]
  {}

  /** A part of the node. */
  lemma {:induction false} PartRound(f: Fifo, want: nat)
    requires Inv(f) && f.readIndex != f.writeIndex && Round(f, want).1 == []
    ensures var (got, done, r) := Round(f, want); Inv(r) && Unread(f) == got + Unread(r) && Queue(f) == done + Queue(r)
  {
    RoundQueue(f, want);
    var r, q := Round(f, want).2, Queue(f);
    assert [] + Queue(r) == Queue(r) == q;
    Cut(q[0], f.dataOffset, r.dataOffset, Stream(q[1..]));
  }

  lemma {:induction false} Cut(x: Bytes, i: nat, j: nat, rest: Bytes)
    requires i <= j <= |x|
    ensures x[i..] + rest == x[i..j] + (x[j..] + rest)
  {}

  /** The nodes and the indices: one node less, or the same ones. */
  lemma {:induction false} RoundQueue(f: Fifo, want: nat)
    requires Inv(f) && f.readIndex != f.writeIndex
    ensures var (_, done, r) := Round(f, want);
            Inv(r) && r.writeIndex == f.writeIndex
            && if done == [] then Queue(r) == Queue(f) && r.readIndex == f.readIndex
               else done == [Queue(f)[0]] && Queue(r) == Queue(f)[1..]
  {
    var (_, done, r) := Round(f, want);
    var q, n := Queue(f), Size(f);
    var d := if done == [] then 0 else 1;
    forall k | 0 <= k < Count(r) ensures Queue(r)[k] == q[k + d] {
      assert Queue(r)[k] == r.nodes[Wrap(r.readIndex + k, n)];
      assert q[k + d] == f.nodes[Wrap(f.readIndex + (k + d), n)];
    }
  }

  lemma {:induction false} StreamUnread(f: Fifo)
    requires Inv(f) && f.dataOffset == 0
    ensures Unread(f) == Stream(Queue(f))
  {
    var q := Queue(f);
    if q != [] { assert q[0][0..] == q[0]; }
  }

  // ---------------------------------------------------------------- writers and readers interleaved

  datatype Event = Wrote(data: Bytes) | Rounded(want: nat)

  predicate Enabled(f: Fifo, e: Event) { e.Rounded? ==> f.readIndex != f.writeIndex }

  function Next(f: Fifo, e: Event): Fifo
    requires Inv(f) && Enabled(f, e)
  {
    match e
    case Wrote(data) => Written(f, data)
    case Rounded(want) => Round(f, want).2
  }

  ghost predicate Admissible(f: Fifo, run: seq<Event>)
    decreases |run|
  {
    run != [] ==> Inv(f) && Enabled(f, run[0]) && Admissible(Next(f, run[0]), run[1..])
  }

  ghost function After(f: Fifo, run: seq<Event>): Fifo
    requires Admissible(f, run)
    decreases |run|
  {
    if run == [] then f else After(Next(f, run[0]), run[1..])
  }

  ghost function Accepted(f: Fifo, run: seq<Event>): Bytes
    requires Admissible(f, run)
    decreases |run|
  {
    if run == [] then []
    else (if run[0].Wrote? && !Full(f) then run[0].data else []) + Accepted(Next(f, run[0]), run[1..])
  }

  ghost function HandedOut(f: Fifo, run: seq<Event>): Bytes
    requires Admissible(f, run)
    decreases |run|
  {
    if run == [] then []
    else (if run[0].Rounded? then Round(f, run[0].want).0 else []) + HandedOut(Next(f, run[0]), run[1..])
  }

  /** However writes fall between the rounds of the reads, what is read is a prefix of what was written. */
  lemma {:induction false} RunStream(f: Fifo, run: seq<Event>)
    requires Inv(f) && Admissible(f, run)
    ensures Inv(After(f, run)) && Unread(f) + Accepted(f, run) == HandedOut(f, run) + Unread(After(f, run))
    decreases |run|
  {
    if run != [] {
      var e, r := run[0], Next(f, run[0]);
      if e.Wrote? { WriteAppends(f, e.data); } else { RoundAdvances(f, e.want); }
      RunStream(r, run[1..]);
      Regroup(Unread(f), if e.Wrote? && !Full(f) then e.data else [], Accepted(r, run[1..]),
              if e.Rounded? then Round(f, e.want).0
                  else [], Unread(r), HandedOut(r, run[1..]), Unread(After(r, run[1..])));
    }
  }

  // ---------------------------------------------------------------- the object

  class NodeList {
    var node: array<Bytes>
    var readIndex: nat
    var writeIndex: nat
    var dataOffset: nat

    ghost function View(): Fifo
      reads this, node
    {
      Fifo(node[..], readIndex, writeIndex, dataOffset)
    }

    ghost predicate Valid()
      reads this, node
    {
      Inv(View())
    }

    constructor (size: nat)
      ensures Valid() && fresh(node) && node.Length == size && Queue(View()) == []
    {
      node := new Bytes[size](_ => []);
      readIndex, writeIndex, dataOffset := 0, 0, 0;
    }

    method IsEmpty() returns (empty: bool)
      requires Valid()
      ensures empty <==> Queue(View()) == []
    {
      empty := readIndex == writeIndex;
    }

    /** rt_data_node_write. */
    method Write(data: Bytes) returns (ok: bool)
      requires Valid()
      modifies this, node
      ensures Valid() && node == old(node) && ok == (Count(old(View())) + 1 < node.Length)
      ensures View() == Written(old(View()), data)
    {
      WriteAppends(View(), data);
      var next := writeIndex + 1;
      if next >= node.Length {
        next := 0;
      }
      if next == readIndex { return false; }
      node[writeIndex] := data;
      writeIndex := next;
      ok := true;
    }

    /** The next bytes of the oldest node. */
    method CopyChunk(buffer: array<int>, at: nat, size: nat) returns (copy: nat)
      requires Valid() && readIndex != writeIndex && at <= size <= buffer.Length
      modifies buffer
      ensures var got := old(Round(View(), size - at).0);
              copy == |got| && at + copy <= size && buffer[..at + copy] == old(buffer[..at]) + got
    {
      var data := node[readIndex];
      var remain := |data| - dataOffset;
      copy := if size - at > remain then remain else size - at;
      var i := 0;
      while i < copy
        invariant i <= copy && buffer[..at + i] == old(buffer[..at]) + data[dataOffset..dataOffset + i]
      {
        buffer[at + i] := data[dataOffset + i];
        i := i + 1;
      }
    }

    /** The first node is done with: the read index steps on. */
    method NextNode() returns (drained: bool)
      requires Valid() && readIndex != writeIndex
      modifies `readIndex, `dataOffset
      ensures readIndex == NextPlace(old(readIndex), node.Length) && dataOffset == 0
              && drained == (readIndex == writeIndex)
    {
      var next := readIndex + 1;
      if next >= node.Length {
        next := 0;
      }
      readIndex := next;
      dataOffset := 0;
      drained := next == writeIndex;
    }

    /** Past the bytes copied, and to the next node if they were its last. */
    method Advance(copy: nat, ghost want: nat) returns (done: seq<Bytes>, drained: bool)
      requires Valid() && readIndex != writeIndex && copy == |Round(View(), want).0|
      modifies `readIndex, `dataOffset
      ensures done == old(Round(View(), want).1) && View() == old(Round(View(), want).2)
      ensures drained == (done != [] && readIndex == writeIndex)
    {
      done, drained := [], false;
      if dataOffset + copy >= |node[readIndex]| {
        done := [node[readIndex]];
        drained := NextNode();
      } else {
        dataOffset := dataOffset + copy;
      }
    }

    /** One round of the loop. */
    method ReadRound(buffer: array<int>, at: nat, size: nat)
      returns (copy: nat, done: seq<Bytes>, drained: bool, ghost got: Bytes)
      requires Valid() && readIndex != writeIndex && at <= size <= buffer.Length
      modifies this, buffer
      ensures Valid() && node == old(node)
      ensures copy == |got| && at + copy <= size && buffer[..at + copy] == old(buffer[..at]) + got
      ensures old(Unread(View())) == got + Unread(View()) && old(Queue(View())) == done + Queue(View())
      ensures if done == [] then at + copy == size && readIndex != writeIndex && !drained
              else |done| == 1 && drained == (readIndex == writeIndex)
    {
      RoundAdvances(View(), size - at);
      RoundQueue(View(), size - at);
      ghost var f := View();
      got := Round(f, size - at).0;
      copy := CopyChunk(buffer, at, size);
      assert View() == f;
      done, drained := Advance(copy, size - at);
    }

    /** rt_data_node_read: as much as is there and asked for, and the nodes used up, in order, once each. */
    method Read(buffer: array<int>, size: nat) returns (result: nat, completed: seq<Bytes>)
      requires Valid() && size <= buffer.Length
      modifies this, buffer
      ensures Valid() && node == old(node)
      ensures result == Min(size, |old(Unread(View()))|) && buffer[..result] == old(Unread(View()))[..result]
      ensures Unread(View()) == old(Unread(View()))[result..] && completed + Queue(View()) == old(Queue(View()))
    {
      ghost var all, queued := Unread(View()), Queue(View());
      completed := [];
      result := size;
      if readIndex == writeIndex {
        result := 0;
        return;
      }
      var readOffset: nat := 0;
      var more := true;
      ghost var out: Bytes := [];
      while more
        invariant node == old(node) && readOffset == |out| <= size <= buffer.Length && buffer[..readOffset] == out
        invariant Handed(all, queued, out, completed, View())
        invariant more ==> readIndex != writeIndex && result == size
        invariant !more ==> result == readOffset && (readOffset == size || readIndex == writeIndex)
        decreases more, |Queue(View())|
      {
        ghost var f := View();
        var copy, done, drained, got := ReadRound(buffer, readOffset, size);
        HandsOn(all, queued, out, completed, f, View(), got, done);
        readOffset := readOffset + copy;
        out := out + got;
        completed := completed + done;
        more := readOffset < size;
        if drained {
          result := readOffset;
          more := false;
        }
      }
      HandedAll(all, queued, out, completed, View(), size);
    }
  }

  /** What was handed out so far and what is left make up what was there, bytes and nodes alike. */
  ghost predicate Handed(all: Bytes, queued: seq<Bytes>, out: Bytes, completed: seq<Bytes>, f: Fifo) {
    Inv(f) && out + Unread(f) == all && completed + Queue(f) == queued
  }

  lemma {:induction false} HandsOn(all: Bytes, queued: seq<Bytes>, out: Bytes, completed: seq<Bytes>, f: Fifo, r: Fifo,
                                   got: Bytes, done: seq<Bytes>)
    requires Handed(all, queued, out, completed, f) && Inv(r)
    requires Unread(f) == got + Unread(r) && Queue(f) == done + Queue(r)
    ensures Handed(all, queued, out + got, completed + done, r)
  {
    Assoc(out, got, Unread(r));
    Assoc(completed, done, Queue(r));
  }

  lemma {:induction false} HandedAll(all: Bytes, queued: seq<Bytes>, out: Bytes, completed: seq<Bytes>, f: Fifo,
      size: nat)
    requires Handed(all, queued, out, completed, f) && |out| <= size && (|out| == size || f.readIndex == f.writeIndex)
    ensures |out| == Min(size, |all|) && out == all[..|out|] && Unread(f) == all[|out|..]
  {
    if f.readIndex == f.writeIndex { assert Queue(f) == []; }
  }
}
