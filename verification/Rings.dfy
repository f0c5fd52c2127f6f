/** Circular doubly linked lists threaded through address-indexed link fields. */
module Rings {

  type Links = map<int, int>

  predicate Distinct(s: seq<int>) {
    forall i, j :: 0 <= i < j < |s| ==> s[i] != s[j]
  }

  function Succ(s: seq<int>, i: nat): int
    requires i < |s|
  {
    if i + 1 < |s| then s[i+1] else s[0]
  }

  predicate Linked(next: Links, prev: Links, a: int, b: int) {
    a in next && next[a] == b && b in prev && prev[b] == a
  }

  /** The nodes reached from s[0] by next are s, in order and back to s[0]; prev mirrors next. */
  predicate Ring(next: Links, prev: Links, s: seq<int>) {
    |s| > 0 && forall i {:trigger Succ(s, i)} :: 0 <= i < |s| ==> Linked(next, prev, s[i], Succ(s, i))
  }

  function Cut(s: seq<int>, k: nat): seq<int>
    requires k < |s|
  {
    s[..k] + s[k+1..]
  }

  function Put(s: seq<int>, k: nat, x: int): seq<int>
    requires k < |s|
  {
    s[..k+1] + [x] + s[k+1..]
  }

  function Pred(s: seq<int>, k: nat): int
    requires k < |s|
  {
    if k == 0 then s[|s|-1] else s[k-1]
  }

  lemma {:induction false} RingAt(next: Links, prev: Links, s: seq<int>, k: nat)
    requires Ring(next, prev, s) && k < |s|
    ensures s[k] in next && next[s[k]] == Succ(s, k) && next[s[k]] in prev && prev[next[s[k]]] == s[k]
    ensures s[k] in prev && prev[s[k]] == Pred(s, k) && prev[s[k]] in next && next[prev[s[k]]] == s[k]
  {
    assert Linked(next, prev, s[k], Succ(s, k));
    var j := if k == 0 then |s| - 1 else k - 1;
    assert Linked(next, prev, s[j], Succ(s, j));
  }

  /** Unlinking a node: its neighbours are joined. */
  lemma {:induction false} RingRemove(next: Links, prev: Links, s: seq<int>, k: nat)
    requires Ring(next, prev, s) && Distinct(s) && k < |s| && |s| >= 2
    ensures var x := s[k]; x in next && x in prev && Ring(next[prev[x] := next[x]], prev[next[x] := prev[x]], Cut(s, k))
  {
    RingAt(next, prev, s, k);
    var x, r := s[k], Cut(s, k);
    var next', prev' := next[prev[x] := next[x]], prev[next[x] := prev[x]];
    forall i | 0 <= i < |r| ensures Linked(next', prev', r[i], Succ(r, i)) {
      var j := if i < k then i else i + 1;
      assert r[i] == s[j] && Linked(next, prev, s[j], Succ(s, j));
      if i + 1 < |r| { assert r[i+1] == s[if i + 1 < k then i + 1 else i + 2]; }
    }
  }

  /** Linking a new node in after s[k]. */
  lemma {:induction false} RingInsert(next: Links, prev: Links, s: seq<int>, k: nat, x: int)
    requires Ring(next, prev, s) && Distinct(s) && k < |s| && x !in s
    ensures var h := s[k]; h in next && Ring(next[x := next[h]][h := x], prev[x := h][next[h] := x], Put(s, k, x))
  {
    RingAt(next, prev, s, k);
    var h, r := s[k], Put(s, k, x);
    var next', prev' := next[x := next[h]][h := x], prev[x := h][next[h] := x];
    forall i | 0 <= i < |r| ensures Linked(next', prev', r[i], Succ(r, i)) {
      if i != k && i != k + 1 {
        var j := if i < k then i else i - 1;
        assert r[i] == s[j] && Linked(next, prev, s[j], Succ(s, j));
      }
    }
  }

  /** Writing the links of a node outside the ring leaves the ring alone. */
  lemma {:induction false} RingFrame(next: Links, prev: Links, s: seq<int>, next': Links, prev': Links)
    requires Ring(next, prev, s)
    requires forall a :: a in s ==>
               a in next' && a in prev' && (a in next ==> next'[a] == next[a]) && (a in prev ==> prev'[a] == prev[a])
    ensures Ring(next', prev', s)
  {
    forall i | 0 <= i < |s| ensures Linked(next', prev', s[i], Succ(s, i)) {
      assert Linked(next, prev, s[i], Succ(s, i));
    }
  }

  /** From a node that two rings share, k steps along next stay in both. */
  lemma {:induction false} RingsTogether(next: Links, prev: Links, s: seq<int>, i: nat, r: seq<int>, k: nat)
    requires Ring(next, prev, s) && Ring(next, prev, r) && i < |s| && s[i] in r && i + k < |s|
    ensures s[i + k] in r
    decreases k
  {
    if k > 0 {
      RingsTogether(next, prev, s, i, r, k - 1);
      var j :| 0 <= j < |r| && r[j] == s[i + k - 1];
      RingAt(next, prev, s, i + k - 1);
      RingAt(next, prev, r, j);
      assert Succ(r, j) == r[if j + 1 < |r| then j + 1 else 0];
    }
  }

  /** Links that spell out two rings with one node in common have all of the first in the second. */
  lemma {:induction false} RingsShare(next: Links, prev: Links, s: seq<int>, i: nat, r: seq<int>, m: nat)
    requires Ring(next, prev, s) && Ring(next, prev, r) && i < |s| && s[i] in r && m < |s|
    ensures s[m] in r
  {
    RingsTogether(next, prev, s, i, r, |s| - 1 - i);
    var j :| 0 <= j < |r| && r[j] == s[|s| - 1];
    RingAt(next, prev, s, |s| - 1);
    RingAt(next, prev, r, j);
    assert s[0] == Succ(r, j) == r[if j + 1 < |r| then j + 1 else 0];
    RingsTogether(next, prev, s, 0, r, m);
  }
}
