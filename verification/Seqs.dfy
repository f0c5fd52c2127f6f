/** Facts about sequences and offsets that several of the models use. */
module Seqs {

  function Min(a: int, b: int): (m: int)
    ensures m <= a && m <= b && (m == a || m == b)
  {
    if a < b then a else b
  }

  /** The place after i in a ring of size places. */
  function NextPlace(i: nat, size: nat): nat {
    if i + 1 >= size then 0 else i + 1
  }

  lemma {:induction false} Assoc<T>(a: seq<T>, b: seq<T>, c: seq<T>)
    ensures a + b + c == a + (b + c)
  {
  }

  /** What goes into a queue, a then b then c, comes out as d then f and leaves g. */
  lemma {:induction false} Regroup<T>(a: seq<T>, b: seq<T>, c: seq<T>, d: seq<T>, e: seq<T>, f: seq<T>, g: seq<T>)
    requires a + b == d + e && e + c == f + g
    ensures a + (b + c) == d + f + g
  {
    assert a + (b + c) == d + e + c == d + (e + c);
  }
}
