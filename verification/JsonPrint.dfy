/** The printers that allocate each value's text and join the parts: what cJSON_Print returns. */
module JsonPrinters {
  import opened JsonText
  import opened JsonBuffers
  import opened Seqs

  function ItemTexts(items: Items, depth: nat, fmt: bool): seq<string> {
    if items.NoItems? then [] else [Text(items.head, depth, fmt)] + ItemTexts(items.next, depth, fmt)
  }

  function ValueTexts(ms: Members, depth: nat, fmt: bool): seq<string> {
    if ms.NoMembers? then [] else [Text(ms.value, depth, fmt)] + ValueTexts(ms.rest, depth, fmt)
  }

  function NameTexts(ms: Members): seq<string> {
    if ms.NoMembers? then [] else [Quote(ms.name)] + NameTexts(ms.rest)
  }

  /** What the first loop of print_array adds up. */
  function Lengths(ts: seq<string>, extra: nat): nat {
    if ts == [] then 0 else |ts[0]| + extra + Lengths(ts[1..], extra)
  }

  lemma {:induction false} ItemLengths(items: Items, depth: nat, fmt: bool, extra: nat)
    requires items.Item?
    ensures Lengths(ItemTexts(items, depth, fmt), extra)
         == |Text(items.head, depth, fmt)| + extra + Lengths(ItemTexts(items.next, depth, fmt), extra)
    ensures ItemTexts(items, depth, fmt)[1..] == ItemTexts(items.next, depth, fmt)
  {
    assert ItemTexts(items, depth, fmt)[1..] == ItemTexts(items.next, depth, fmt);
  }

  lemma {:induction false} MemberLengths(ms: Members, depth: nat, fmt: bool, extra: nat)
    requires ms.Member?
    ensures Lengths(NameTexts(ms), 0) == |Quote(ms.name)| + Lengths(NameTexts(ms.rest), 0)
    ensures Lengths(ValueTexts(ms, depth, fmt), extra)
         == |Text(ms.value, depth, fmt)| + extra + Lengths(ValueTexts(ms.rest, depth, fmt), extra)
  {
    assert NameTexts(ms)[1..] == NameTexts(ms.rest);
    assert ValueTexts(ms, depth, fmt)[1..] == ValueTexts(ms.rest, depth, fmt);
  }

  lemma {:induction false} TextCounts(items: Items, ms: Members, depth: nat, fmt: bool)
    ensures |ItemTexts(items, depth, fmt)| > 0 <==> items.Item?
    ensures |NameTexts(ms)| == |ValueTexts(ms, depth, fmt)| && (|NameTexts(ms)| > 0 <==> ms.Member?)
    decreases ms
  {
    if ms.Member? { TextCounts(items, ms.rest, depth, fmt); }
  }

  method Duplicate(t: string) returns (out: string)
    ensures out == t
  {
    var copy := new char[|t| + 1];
    CopyInto(copy, 0, t + "\0");
    out := copy[..|t|];
    assert copy[..|t|] == copy[..|t| + 1][..|t|] == (t + "\0")[..|t|];
  }

  method PrintNumber(d: real) returns (out: string)
    requires IsInt32(d)
    ensures out == NumberText(d)
  {
    var text := "0";
    if d != 0.0 {
      DecimalLength(d.Floor);
      text := Decimal(d.Floor);
    }
    var str := new char[if d == 0.0 then 2 else 21];
    CopyInto(str, 0, text + "\0");
    out := str[..|text|];
    assert str[..|text|] == str[..|text| + 1][..|text|] == (text + "\0")[..|text|];
  }

  method PrintString(x: string) returns (out: string)
    requires CString(x)
    ensures out == Quote(x)
  {
    var flag := NeedsEscape(x);
    var len := |x|;
    if flag {
      len := EscapedLength(x);
    } else {
      NothingToEscape(x);
    }
    var p := new PrintBuffer(len + 3);
    p.WriteQuoted(0, x, len, "", flag);
    out := p.buffer[..len + 2];
    ghost var w := "" + Quote(x) + "\0";
    assert p.buffer[..len + 2] == p.buffer[..|w|][..len + 2] == w[..len + 2] == Quote(x);
  }

  /** print_value without a buffer. */
  method PrintValue(v: Value, depth: nat, fmt: bool) returns (out: string)
    requires Printable(v)
    ensures out == Text(v, depth, fmt)
    decreases v, 4
  {
    match v
    case Null => out := Duplicate("null");
    case False => out := Duplicate("false");
    case True => out := Duplicate("true");
    case Number(d) => out := PrintNumber(d);
    case Str(x) => out := PrintString(x);
    case Array(items) => out := PrintArray(items, depth, fmt);
    case Object(ms) => out := PrintObject(ms, depth, fmt);
  }

  method PrintArray(items: Items, depth: nat, fmt: bool) returns (out: string)
    requires PrintableItems(items)
    ensures out == "[" + ItemsText(items, depth + 1, fmt) + "]"
    decreases items, 2
  {
    if items.NoItems? {
      out := Duplicate("[]");
      assert "[" + "" + "]" == "[]";
    } else {
      var entries, len := PrintEntries(items, depth + 1, fmt);
      out := ComposeArray(entries, len, items, depth + 1, fmt);
    }
  }

  /** The texts of the items, and the size of the room to join them in. */
  method PrintEntries(items: Items, depth: nat, fmt: bool) returns (entries: seq<string>, len: nat)
    requires PrintableItems(items)
    ensures entries == ItemTexts(items, depth, fmt)
    ensures len == 5 + Lengths(entries, if fmt then 3 else 2)
    decreases items, 1
  {
    entries, len := [], 5;
    var child := items;
    while child.Item?
      invariant child == items || child < items
      invariant PrintableItems(child) && entries + ItemTexts(child, depth, fmt) == ItemTexts(items, depth, fmt)
      invariant len + Lengths(ItemTexts(child, depth, fmt), if fmt then 3 else 2)
             == 5 + Lengths(ItemTexts(items, depth, fmt), if fmt then 3 else 2)
      decreases child
    {
      var ret := PrintValue(child.head, depth, fmt);
      Assoc(entries, [ret], ItemTexts(child.next, depth, fmt));
      entries := entries + [ret];
      len := len + |ret| + 2 + (if fmt then 1 else 0);
      ItemLengths(child, depth, fmt, if fmt then 3 else 2);
      assert ItemTexts(child, depth, fmt) == [ret] + ItemTexts(child.next, depth, fmt);
      child := child.next;
    }
  }

  /** A piece written behind what is done. */
  method Append(out: array<char>, at: nat, t: string, ghost done: string) returns (ptr: nat)
    requires at == |done| && at + |t| <= out.Length && out[..at] == done
    modifies out
    ensures ptr == at + |t| == |done + t| && out[..ptr] == done + t
  {
    CopyInto(out, at, t);
    ptr := at + |t|;
  }

  /** Every write of the joining loop is inside the room that was counted. */
  method ComposeArray(entries: seq<string>, len: nat, ghost items: Items, ghost depth: nat, fmt: bool)
      returns (s: string)
    requires entries == ItemTexts(items, depth, fmt) && len == 5 + Lengths(entries, if fmt then 3 else 2)
    ensures s == "[" + ItemsText(items, depth, fmt) + "]"
  {
    var out := new char[len];
    var ptr := Append(out, 0, "[", "");
    ghost var left, done := items, "[";
    assert entries[0..] == entries && "" + "[" == "[";
    for i := 0 to |entries|
      invariant entries[i..] == ItemTexts(left, depth, fmt)
      invariant ptr + Lengths(entries[i..], if fmt then 3 else 2) + 4 <= len
      invariant ptr == |done| && out[..ptr] == done
      invariant done + ItemsText(left, depth, fmt) == "[" + ItemsText(items, depth, fmt)
    {
      TextCounts(left, NoMembers, depth, fmt);
      TextCounts(left.next, NoMembers, depth, fmt);
      ItemLengths(left, depth, fmt, if fmt then 3 else 2);
      ItemsTexts(left, depth, fmt, done);
      assert entries[i..][0] == entries[i] && entries[i..][1..] == entries[i + 1..];
      ptr := ComposeItem(out, ptr, entries[i], fmt, i == |entries| - 1, done);
      done := done + entries[i] + Comma(left, fmt);
      left := left.next;
    }
    TextCounts(left, NoMembers, depth, fmt);
    assert done + "" == done;
    s := Finish(out, ptr, "]", done);
  }

  method ComposeItem(out: array<char>, at: nat, entry: string, fmt: bool, last: bool, ghost done: string)
      returns (ptr: nat)
    requires at == |done| && at + |entry| + 2 <= out.Length && out[..at] == done
    modifies out
    ensures var t := done + entry + if last then "" else if fmt then ", " else ",";
            ptr == |t| && out[..ptr] == t
  {
    ptr := Append(out, at, entry, done);
    if !last {
      ptr := Append(out, ptr, if fmt then ", " else ",", done + entry);
    } else {
      assert done + entry + "" == done + entry;
    }
  }

  /** The closing characters, and the string from the start to them. */
  method Finish(out: array<char>, at: nat, end: string, ghost done: string) returns (s: string)
    requires at == |done| && at + |end| + 1 <= out.Length && out[..at] == done
    modifies out
    ensures s == done + end
  {
    CopyInto(out, at, end + "\0");
    s := out[..at + |end|];
    assert s == out[..at + |end| + 1][..at + |end|] == (done + (end + "\0"))[..at + |end|];
  }

  method PrintObject(ms: Members, depth: nat, fmt: bool) returns (out: string)
    requires PrintableMembers(ms)
    ensures out == Text(Object(ms), depth, fmt)
    decreases ms, 2
  {
    if ms.NoMembers? {
      out := Duplicate(if fmt then "{\n" + Tabs(if depth == 0 then 0 else depth - 1) + "}" else "{}");
    } else {
      var names, entries, len := PrintPairs(ms, depth + 1, fmt);
      out := ComposeObject(names, entries, len, ms, depth + 1, fmt);
      ObjectText(ms, depth, fmt, if fmt then "{\n" else "{", MembersText(ms, depth + 1, fmt),
          if fmt then Tabs(depth) else "");
    }
  }

  function Extra(depth: nat, fmt: bool): nat { 2 + (if fmt then 2 + depth else 0) }

  /** The sum print_object's collecting loop has still to add. */
  function PairLengths(ms: Members, depth: nat, fmt: bool): nat {
    Lengths(NameTexts(ms), 0) + Lengths(ValueTexts(ms, depth, fmt), Extra(depth, fmt))
  }

  lemma {:induction false} PairStep(names: seq<string>, entries: seq<string>, ms: Members, depth: nat, fmt: bool)
    requires ms.Member?
    ensures names + [Quote(ms.name)] + NameTexts(ms.rest) == names + NameTexts(ms)
    ensures entries + [Text(ms.value, depth, fmt)] + ValueTexts(ms.rest, depth, fmt)
            == entries + ValueTexts(ms, depth, fmt)
    ensures PairLengths(ms, depth, fmt)
         == |Quote(ms.name)| + |Text(ms.value, depth, fmt)| + Extra(depth, fmt) + PairLengths(ms.rest, depth, fmt)
  {
    MemberLengths(ms, depth, fmt, Extra(depth, fmt));
    Shift(names, Quote(ms.name), NameTexts(ms.rest));
    Shift(entries, Text(ms.value, depth, fmt), ValueTexts(ms.rest, depth, fmt));
  }

  lemma {:induction false} Shift(ts: seq<string>, t: string, more: seq<string>)
    ensures ts + [t] + more == ts + ([t] + more)
  {}

  method PrintPairs(ms: Members, depth: nat, fmt: bool) returns (names: seq<string>, entries: seq<string>, len: nat)
    requires PrintableMembers(ms)
    ensures names == NameTexts(ms) && entries == ValueTexts(ms, depth, fmt) && |names| == |entries|
    ensures len == 7 + (if fmt then depth else 0) + PairLengths(ms, depth, fmt)
    decreases ms, 1
  {
    names, entries, len := [], [], 7 + if fmt then depth else 0;
    var child := ms;
    while child.Member?
      invariant child == ms || child < ms
      invariant PrintableMembers(child) && |names| == |entries|
      invariant names + NameTexts(child) == NameTexts(ms)
      invariant entries + ValueTexts(child, depth, fmt) == ValueTexts(ms, depth, fmt)
      invariant len + PairLengths(child, depth, fmt) == 7 + (if fmt then depth else 0) + PairLengths(ms, depth, fmt)
      decreases child
    {
      var str := PrintString(child.name);
      var ret := PrintValue(child.value, depth, fmt);
      len := len + |ret| + |str| + Extra(depth, fmt);
      PairStep(names, entries, child, depth, fmt);
      names, entries := names + [str], entries + [ret];
      child := child.rest;
    }
  }

  method ComposeObject(names: seq<string>, entries: seq<string>, len: nat, ghost ms: Members, depth: nat, fmt: bool)
    returns (s: string)
    requires names == NameTexts(ms) && entries == ValueTexts(ms, depth, fmt) && |names| == |entries| && depth > 0
    requires len == 7 + (if fmt then depth else 0) + PairLengths(ms, depth, fmt)
    ensures s == (if fmt then "{\n" else "{")
                 + (MembersText(ms, depth, fmt) + ((if fmt then Tabs(depth - 1) else "") + "}"))
  {
    var out := new char[len];
    var open := if fmt then "{\n" else "{";
    var ptr := Append(out, 0, open, "");
    ghost var left, done := ms, open;
    assert names[0..] == names && entries[0..] == entries && "" + open == open;
    for i := 0 to |entries|
      invariant names[i..] == NameTexts(left) && entries[i..] == ValueTexts(left, depth, fmt)
      invariant ptr + Lengths(names[i..], 0) + Lengths(entries[i..], Extra(depth, fmt))
                + (if fmt then depth + 1 else 2) <= len
      invariant ptr == |done| && out[..ptr] == done
      invariant done + MembersText(left, depth, fmt) == open + MembersText(ms, depth, fmt)
    {
      TextCounts(NoItems, left, depth, fmt);
      TextCounts(NoItems, left.rest, depth, fmt);
      MemberLengths(left, depth, fmt, Extra(depth, fmt));
      MemberTexts(left, depth, fmt, done);
      Tails(names, entries, i);
      ptr := ComposeMember(out, ptr, names[i], entries[i], depth, fmt, i == |entries| - 1, done);
      done := done + OneMember(left, depth, fmt);
      left := left.rest;
    }
    TextCounts(NoItems, left, depth, fmt);
    assert done + "" == done;
    var end := (if fmt then Tabs(depth - 1) else "") + "}";
    s := Finish(out, ptr, end, done);
    Assoc(open, MembersText(ms, depth, fmt), end);
  }

  lemma {:induction false} Tails(names: seq<string>, entries: seq<string>, i: nat)
    requires i < |names| == |entries|
    ensures names[i..][0] == names[i] && names[i..][1..] == names[i + 1..]
    ensures entries[i..][0] == entries[i] && entries[i..][1..] == entries[i + 1..]
  {}

  method ComposeMember(out: array<char>, at: nat, name: string, entry: string, depth: nat, fmt: bool, last: bool,
      ghost done: string)
    returns (ptr: nat)
    requires at == |done| && at + |name| + |entry| + Extra(depth, fmt) <= out.Length && out[..at] == done
    modifies out
    ensures var t := (if fmt then Tabs(depth) else "") + name + (if fmt then ":\t" else ":") + entry
                     + ((if last then "" else ",") + (if fmt then "\n" else ""));
            ptr == |done + t| && out[..ptr] == done + t && |t| <= |name| + |entry| + Extra(depth, fmt)
  {
    ghost var tabs := if fmt then Tabs(depth) else "";
    var colon := if fmt then ":\t" else ":";
    var end := (if last then "" else ",") + (if fmt then "\n" else "");
    MemberParts(done, tabs, name, colon, entry, end);
    ptr := at;
    if fmt {
      ptr := Append(out, ptr, Tabs(depth), done);
    }
    ptr := Append(out, ptr, name, done + tabs);
    ptr := Append(out, ptr, colon, done + tabs + name);
    ptr := Append(out, ptr, entry, done + tabs + name + colon);
    ptr := Append(out, ptr, end, done + tabs + name + colon + entry);
  }
}
