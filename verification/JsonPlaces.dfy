/** Where the values of a tree stand in its formatted text, and where the buffer printer says they do. */
module JsonPlaces {
  import opened JsonText
  import opened JsonBuffers

  /** A value, how deep it is nested, and where its text begins. */
  datatype Place = Place(v: Value, depth: nat, start: nat)

  datatype Found = None | Some(p: Place)

  function ItemAt(items: Items, depth: nat, start: nat, k: nat): Found {
    if items.NoItems? then None
    else if k == 0 then Some(Place(items.head, depth, start))
    else ItemAt(items.next, depth, start + |Text(items.head, depth, true)| + 2, k - 1)
  }

  function MemberAt(ms: Members, depth: nat, start: nat, k: nat): Found {
    if ms.NoMembers? then None
    else if k == 0 then Some(Place(ms.value, depth, start + depth + |Quote(ms.name)| + 2))
    else MemberAt(ms.rest, depth, start + |OneMember(ms, depth, true)|, k - 1)
  }

  /** The k-th item or member of a value. */
  function Child(p: Place, k: nat): Found {
    match p.v
    case Array(items) => ItemAt(items, p.depth + 1, p.start + 1, k)
    case Object(ms) => MemberAt(ms, p.depth + 1, p.start + 2, k)
    case _ => None
  }

  function Walk(p: Place, path: seq<nat>): Found
    decreases |path|
  {
    if path == [] then Some(p)
    else match Child(p, path[0])
      case None => None
      case Some(q) => Walk(q, path[1..])
  }

  // ---------------------------------------------------------------- the places are those of the text

  predicate Sits(whole: string, at: nat, t: string) {
    at + |t| <= |whole| && whole[at..at + |t|] == t
  }

  lemma {:induction false} Halves(whole: string, at: nat, a: string, b: string)
    requires Sits(whole, at, a + b)
    ensures Sits(whole, at, a) && Sits(whole, at + |a|, b)
  {
    var t := whole[at..at + |a + b|];
    assert whole[at..at + |a|] == t[..|a|] == a;
    assert whole[at + |a|..at + |a| + |b|] == t[|a|..] == b;
  }

  lemma {:induction false} Inside(whole: string, at: nat, a: string, b: string, c: string)
    requires Sits(whole, at, a + b + c)
    ensures Sits(whole, at + |a|, b)
  {
    Halves(whole, at, a + b, c);
    Halves(whole, at, a, b);
  }

  lemma {:induction false} ItemSits(whole: string, items: Items, depth: nat, start: nat, k: nat)
    requires Sits(whole, start, ItemsText(items, depth, true)) && ItemAt(items, depth, start, k).Some?
    ensures var q := ItemAt(items, depth, start, k).p;
            Sits(whole, q.start, Text(q.v, q.depth, true)) && q.depth == depth
            && q.start >= start && (q.start == start <==> k == 0)
    decreases items
  {
    if items.next.Item? {
      var t, more := Text(items.head, depth, true), ItemsText(items.next, depth, true);
      Halves(whole, start, t + ", ", more);
      Halves(whole, start, t, ", ");
      if k > 0 { ItemSits(whole, items.next, depth, start + |t| + 2, k - 1); }
    }
  }

  lemma {:induction false} MembersSplit(ms: Members, depth: nat)
    requires ms.Member?
    ensures MembersText(ms, depth, true) == OneMember(ms, depth, true) + MembersText(ms.rest, depth, true)
  {
    MemberTexts(ms, depth, true, "");
    var t, u := MembersText(ms, depth, true), OneMember(ms, depth, true);
    assert "" + t == t && "" + u == u;
  }

  lemma {:induction false} MemberSits(whole: string, ms: Members, depth: nat, start: nat, k: nat)
    requires Sits(whole, start, MembersText(ms, depth, true)) && MemberAt(ms, depth, start, k).Some?
    ensures var q := MemberAt(ms, depth, start, k).p;
            Sits(whole, q.start, Text(q.v, q.depth, true)) && q.depth == depth && q.start > start + depth
    decreases ms
  {
    var one := OneMember(ms, depth, true);
    MembersSplit(ms, depth);
    Halves(whole, start, one, MembersText(ms.rest, depth, true));
    if k == 0 {
      OneMemberSits(whole, ms, depth, start);
    } else {
      MemberSits(whole, ms.rest, depth, start + |one|, k - 1);
    }
  }

  lemma {:induction false} OneMemberSits(whole: string, ms: Members, depth: nat, start: nat)
    requires ms.Member? && Sits(whole, start, OneMember(ms, depth, true))
    ensures Sits(whole, start + depth + |Quote(ms.name)| + 2, Text(ms.value, depth, true))
  {
    var before := Tabs(depth) + Quote(ms.name) + ":\t";
    var end := (if ms.rest.Member? then "," else "") + "\n";
    assert OneMember(ms, depth, true) == before + Text(ms.value, depth, true) + end;
    Inside(whole, start, before, Text(ms.value, depth, true), end);
  }

  /** p's text stands where p says, at least as far in as p is deep. */
  predicate Right(whole: string, p: Place) {
    Sits(whole, p.start, Text(p.v, p.depth, true)) && p.start >= p.depth
  }

  lemma {:induction false} ItemRight(whole: string, p: Place, k: nat)
    requires Right(whole, p) && p.v.Array? && Child(p, k).Some?
    ensures var q := Child(p, k).p; Right(whole, q) && (q.start == q.depth <==> k == 0 && p.start == p.depth)
  {
    Inside(whole, p.start, "[", ItemsText(p.v.items, p.depth + 1, true), "]");
    ItemSits(whole, p.v.items, p.depth + 1, p.start + 1, k);
  }

  lemma {:induction false} MemberRight(whole: string, p: Place, k: nat)
    requires Right(whole, p) && p.v.Object? && Child(p, k).Some?
    ensures var q := Child(p, k).p; Right(whole, q) && q.start > q.depth
  {
    var ms := p.v.members;
    var body := MembersText(ms, p.depth + 1, true);
    ObjectText(ms, p.depth, true, "{\n", body, Tabs(p.depth));
    Halves(whole, p.start, "{\n", body + (Tabs(p.depth) + "}"));
    Halves(whole, p.start + 2, body, Tabs(p.depth) + "}");
    MemberSits(whole, ms, p.depth + 1, p.start + 2, k);
  }

  lemma {:induction false} ChildRight(whole: string, p: Place, k: nat)
    requires Right(whole, p) && Child(p, k).Some?
    ensures var q := Child(p, k).p;
            Right(whole, q) && (q.start == q.depth <==> p.v.Array? && k == 0 && p.start == p.depth)
  {
    if p.v.Array? { ItemRight(whole, p, k); } else { MemberRight(whole, p, k); }
  }

  /** The path goes through arrays only, and always to the first item. */
  predicate FirstInArrays(p: Place, path: seq<nat>)
    decreases |path|
  {
    path != [] ==> p.v.Array? && path[0] == 0 && Child(p, 0).Some? && FirstInArrays(Child(p, 0).p, path[1..])
  }

  lemma {:induction false} WalkRight(whole: string, p: Place, path: seq<nat>)
    requires Right(whole, p) && Walk(p, path).Some?
    ensures var q := Walk(p, path).p;
            Right(whole, q) && (q.start == q.depth <==> p.start == p.depth && FirstInArrays(p, path))
    decreases |path|
  {
    if path != [] {
      ChildRight(whole, p, path[0]);
      WalkRight(whole, Child(p, path[0]).p, path[1..]);
    }
  }

  /**
    In a formatted print from the top, every non-empty object that is not the first item of arrays all the way up is
    announced at a wrong place, before its text; everything else is announced where its text stands.
   */
  lemma {:induction false} AnnouncedInside(v: Value, path: seq<nat>)
    requires Walk(Place(v, 0, 0), path).Some?
    ensures var q := Walk(Place(v, 0, 0), path).p;
            var announced := Announced(q.v, q.depth, true, q.start);
            Sits(Text(v, 0, true), q.start, Text(q.v, q.depth, true)) && announced <= q.start
            && (announced == q.start <==>
                  !(q.v.Object? && q.v.members.Member?) || FirstInArrays(Place(v, 0, 0), path))
  {
    var t := Text(v, 0, true);
    assert t[0..0 + |t|] == t;
    WalkRight(t, Place(v, 0, 0), path);
  }

  /** The object inside {"a":{"b":null}} begins at 8 and is announced at 1. */
  lemma {:induction false} NestedObjectMisplaced()
    ensures var inner := Object(Member("b", Null, NoMembers));
            var p := Place(Object(Member("a", inner, NoMembers)), 0, 0);
            Walk(p, [0]) == Some(Place(inner, 1, 8)) && Announced(inner, 1, true, 8) == 1
  {
    var inner := Object(Member("b", Null, NoMembers));
    var p := Place(Object(Member("a", inner, NoMembers)), 0, 0);
    assert Escape("a") == EscapeChar('a') + Escape("a"[1..]) && "a"[1..] == "";
    assert |Quote("a")| == 3;
    assert Child(p, 0) == Some(Place(inner, 1, 8));
    assert [0][1..] == [];
  }
}
