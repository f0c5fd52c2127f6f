/** The growing print buffer and the printers that write into it. */
module JsonBuffers {
  import opened Bits
  import opened JsonText
  import opened Seqs

  // ---------------------------------------------------------------- what the sizing passes count

  /** The first pass over a string: is there anything to escape? */
  predicate MustEscape(c: char) {
    0 < c as int < 32 || c == '\"' || c == '\\'
  }

  lemma {:induction false} NothingToEscape(s: string)
    requires CString(s) && forall i {:trigger s[i]} :: 0 <= i < |s| ==> !MustEscape(s[i])
    ensures Escape(s) == s
  {
    if s != "" {
      NothingToEscape(s[1..]);
      assert s == [s[0]] + s[1..];
    }
  }

  method NeedsEscape(s: string) returns (flag: bool)
    ensures flag == exists i {:trigger s[i]} :: 0 <= i < |s| && MustEscape(s[i])
  {
    flag := false;
    for i := 0 to |s|
      invariant flag == exists k {:trigger s[k]} :: 0 <= k < i && MustEscape(s[k])
    {
      flag := flag || MustEscape(s[i]);
    }
  }

  /** The escaped text of the first n characters. */
  function EscapeTo(s: string, n: nat): string
    requires n <= |s|
  {
    if n == 0 then "" else EscapeTo(s, n - 1) + EscapeChar(s[n - 1])
  }

  lemma {:induction false} EscapeRest(s: string, n: nat)
    requires n <= |s|
    ensures EscapeTo(s, n) + Escape(s[n..]) == Escape(s)
  {
    if n == 0 {
      assert s[0..] == s;
    } else {
      EscapeRest(s, n - 1);
      assert s[n - 1..][1..] == s[n..];
      Assoc(EscapeTo(s, n - 1), EscapeChar(s[n - 1]), Escape(s[n..]));
    }
  }

  lemma {:induction false} EscapeStep(p: string, s: string, n: nat)
    requires n < |s|
    ensures p + EscapeTo(s, n) + EscapeChar(s[n]) == p + EscapeTo(s, n + 1)
    ensures |EscapeTo(s, n)| + |EscapeChar(s[n])| == |EscapeTo(s, n + 1)| <= |Escape(s)|
  {
    EscapeRest(s, n + 1);
  }

  lemma {:induction false} EscapeWhole(s: string)
    ensures EscapeTo(s, |s|) == Escape(s)
  {
    EscapeRest(s, |s|);
    assert Escape(s[|s|..]) == "";
  }

  /** The second pass counts exactly the characters the third pass writes. */
  method EscapedLength(s: string) returns (len: nat)
    requires CString(s)
    ensures len == |Escape(s)|
  {
    len := 0;
    for i := 0 to |s|
      invariant len == |EscapeTo(s, i)|
    {
      var token := s[i];
      len := len + 1;
      if token in "\"\\\n\r\t" || token as int == 8 || token as int == 12 {
        len := len + 1;
      } else if token as int < 32 {
        len := len + 5;
      }
    }
    EscapeWhole(s);
  }

  /** What follows the backslash. */
  function EscapeLetters(c: char): string {
    if c == '\\' then "\\"
    else if c == '\"' then "\""
    else if c as int == 8 then "b"
    else if c as int == 12 then "f"
    else if c == '\n' then "n"
    else if c == '\r' then "r"
    else if c == '\t' then "t"
    else "u00" + [HexDigit(c as int / 16 % 16), HexDigit(c as int % 16)]
  }

  function Pow10(k: nat): nat { if k == 0 then 1 else 10 * Pow10(k - 1) }

  lemma {:induction false} DigitsLength(n: nat, k: nat)
    requires n < Pow10(k) && k > 0
    ensures |Digits(n)| <= k
  {
    if n >= 10 { DigitsLength(n / 10, k - 1); }
  }

  /** An int fits the room print_number asks for. */
  lemma {:induction false} DecimalLength(n: int)
    requires -INT_MAX - 1 <= n <= INT_MAX
    ensures |Decimal(n)| <= 11
  {
    assert Pow10(5) == 100_000;
    assert Pow10(10) == 10_000_000_000;
    DigitsLength(if n < 0 then -n else n, 10);
  }

  // ---------------------------------------------------------------- texts hold no terminator

  lemma {:induction false} DigitsNoNul(n: nat)
    ensures NoNul(Digits(n))
    decreases n
  {
    if n >= 10 { DigitsNoNul(n / 10); }
  }

  lemma {:induction false} EscapeNoNul(s: string)
    requires CString(s)
    ensures NoNul(Escape(s))
  {
    if s != "" { EscapeNoNul(s[1..]); }
  }

  lemma {:induction false} CatNoNul(a: string, b: string)
    requires NoNul(a) && NoNul(b)
    ensures NoNul(a + b)
  {}

  lemma {:induction false} TextNoNul(v: Value, depth: nat, fmt: bool)
    requires Printable(v)
    ensures NoNul(Text(v, depth, fmt))
    decreases v, 1
  {
    match v
    case Number(d) =>
      DigitsNoNul(if d.Floor < 0 then -d.Floor else d.Floor);
      CatNoNul("-", Digits(if d.Floor < 0 then -d.Floor else d.Floor));
    case Str(s) => QuoteNoNul(s);
    case Array(items) => ArrayNoNul(items, depth, fmt);
    case Object(ms) => ObjectNoNul(ms, depth, fmt);
    case _ =>
  }

  lemma {:induction false} QuoteNoNul(s: string)
    requires CString(s)
    ensures NoNul(Quote(s))
  {
    EscapeNoNul(s);
    CatNoNul("\"", Escape(s));
    CatNoNul("\"" + Escape(s), "\"");
  }

  lemma {:induction false} ArrayNoNul(items: Items, depth: nat, fmt: bool)
    requires PrintableItems(items)
    ensures NoNul(Text(Array(items), depth, fmt))
    decreases items, 1
  {
    ItemsNoNul(items, depth + 1, fmt);
    CatNoNul("[", ItemsText(items, depth + 1, fmt));
    CatNoNul("[" + ItemsText(items, depth + 1, fmt), "]");
  }

  lemma {:induction false} ItemsNoNul(items: Items, depth: nat, fmt: bool)
    requires PrintableItems(items)
    ensures NoNul(ItemsText(items, depth, fmt))
    decreases items, 0
  {
    if items.Item? {
      TextNoNul(items.head, depth, fmt);
      ItemsNoNul(items.next, depth, fmt);
    }
  }

  lemma {:induction false} ObjectNoNul(ms: Members, depth: nat, fmt: bool)
    requires PrintableMembers(ms)
    ensures NoNul(Text(Object(ms), depth, fmt))
    decreases ms, 1
  {
    var open, body := if fmt then "{\n" else "{", MembersText(ms, depth + 1, fmt);
    var tabs := if !fmt then "" else if ms.Member? then Tabs(depth) else Tabs(if depth == 0 then 0 else depth - 1);
    MembersNoNul(ms, depth + 1, fmt);
    CatNoNul(tabs, "}");
    CatNoNul(body, tabs + "}");
    CatNoNul(open, body + (tabs + "}"));
    ObjectText(ms, depth, fmt, open, body, tabs);
  }

  lemma {:induction false} MembersNoNul(ms: Members, depth: nat, fmt: bool)
    requires PrintableMembers(ms)
    ensures NoNul(MembersText(ms, depth, fmt))
    decreases ms, 0
  {
    if ms.Member? {
      var tabs, colon := if fmt then Tabs(depth) else "", if fmt then ":\t" else ":";
      var comma, nl := if ms.rest.Member? then "," else "", if fmt then "\n" else "";
      var x, more := Text(ms.value, depth, fmt), MembersText(ms.rest, depth, fmt);
      TextNoNul(ms.value, depth, fmt);
      MembersNoNul(ms.rest, depth, fmt);
      QuoteNoNul(ms.name);
      CatNoNul(comma + nl, more);
      CatNoNul(x, comma + nl + more);
      CatNoNul(colon, x + (comma + nl + more));
      CatNoNul(Quote(ms.name), colon + (x + (comma + nl + more)));
      CatNoNul(tabs, Quote(ms.name) + (colon + (x + (comma + nl + more))));
      MembersTexts(ms, depth, fmt, tabs, colon, comma, nl);
    }
  }

  // ---------------------------------------------------------------- the buffer

  /** Sizes stay in the range where rounding up to a power of two is still an int. */
  ghost predicate Fits(n: nat) { n <= Pow2(30) }

  lemma {:induction false} RoundsUp(x: int)
    requires 0 < x && Fits(x)
    ensures Pow2gt(x) >= x
  {
    var n := Pow2gtIsLeast(x);
  }

  /** What the printers may ask for past the end of a text: numbers reserve 21 characters. */
  const SPARE := 21

  function Comma(items: Items, fmt: bool): string {
    if items.Item? && items.next.Item? then (if fmt then ", " else ",") else ""
  }

  lemma {:induction false} ItemsTexts(items: Items, depth: nat, fmt: bool, p: string)
    requires items.Item?
    ensures p + ItemsText(items, depth, fmt)
         == p + Text(items.head, depth, fmt) + Comma(items, fmt) + ItemsText(items.next, depth, fmt)
  {
    var t, comma, more := Text(items.head, depth, fmt), Comma(items, fmt), ItemsText(items.next, depth, fmt);
    assert ItemsText(items, depth, fmt) == t + comma + more;
    assert p + (t + comma + more) == p + t + comma + more;
  }

  /** The text of one member, its comma and newline included. */
  function OneMember(ms: Members, depth: nat, fmt: bool): string
    requires ms.Member?
  {
    (if fmt then Tabs(depth) else "") + Quote(ms.name) + (if fmt then ":\t" else ":") + Text(ms.value, depth, fmt)
    + ((if ms.rest.Member? then "," else "") + (if fmt then "\n" else ""))
  }

  lemma {:induction false} MemberTexts(ms: Members, depth: nat, fmt: bool, p: string)
    requires ms.Member?
    ensures p + MembersText(ms, depth, fmt) == p + OneMember(ms, depth, fmt) + MembersText(ms.rest, depth, fmt)
  {
    var a, b, c := if fmt then Tabs(depth) else "", Quote(ms.name), if fmt then ":\t" else ":";
    var e, f := if ms.rest.Member? then "," else "", if fmt then "\n" else "";
    Nested(p, a + b + c + Text(ms.value, depth, fmt), e, f, MembersText(ms.rest, depth, fmt));
  }

  lemma {:induction false} Nested(p: string, d: string, e: string, f: string, g: string)
    ensures p + (d + e + f + g) == p + (d + (e + f)) + g
  {}

  lemma {:induction false} MemberParts(s: string, tabs: string, name: string, colon: string, t: string, end: string)
    ensures s + tabs + name + colon + t + end == s + (tabs + name + colon + t + end)
    ensures tabs == "" ==> s + tabs == s
  {}

  lemma {:induction false} Bracket(s: string, body: string)
    ensures s + "[" + body + "]" + "\0" == s + ("[" + body + "]") + "\0"
  {}

  lemma {:induction false} Braces(s: string, open: string, body: string, tabs: string)
    ensures s + open + body + (tabs + "}") + "\0" == s + (open + (body + (tabs + "}"))) + "\0"
  {}

  lemma {:induction false} QuoteParts(s: string, e: string)
    ensures s + "\"" + e + "\"\0" == s + ("\"" + e + "\"") + "\0"
    ensures |s + "\"" + e + "\"\0"| == |s| + |e| + 3
  {}

  method CopyInto(out: array<char>, at: nat, t: string)
    requires at + |t| <= out.Length
    modifies out
    ensures out[..at + |t|] == old(out[..at]) + t
  {
    var i := 0;
    while i < |t|
      invariant i <= |t| && out[..at + i] == old(out[..at]) + t[..i]
    {
      out[at + i] := t[i];
      i := i + 1;
    }
    assert t[..i] == t;
  }

  /** Where the printers say that a value they printed at offset start begins. */
  function Announced(v: Value, depth: nat, fmt: bool, start: nat): nat {
    if fmt && v.Object? && v.members.Member? then depth else start
  }

  /**
    The place announced is the right one except exactly for a formatted, non-empty object not as far in as it is deep.
   */
  lemma AnnouncedExactly(v: Value, depth: nat, fmt: bool, start: nat)
    ensures Announced(v, depth, fmt, start) == start <==> !(fmt && v.Object? && v.members.Member?) || depth == start
    ensures Announced(v, 0, fmt, 0) == 0
  {
  }

  class PrintBuffer {
    var buffer: array<char>
    var length: nat
    var offset: nat

    ghost predicate Valid()
      reads this
    {
      buffer.Length == length && offset <= length
    }

    /** The buffer starts with s. */
    ghost predicate Has(s: string)
      reads this, buffer
    {
      |s| <= buffer.Length && buffer[..|s|] == s
    }

    /** The offset stands at the end of s. */
    ghost predicate At(s: string)
      reads this, buffer
    {
      Valid() && Has(s) && offset == |s|
    }

    /** A value's text t with its terminator follows s, and the offset is somewhere in the text. */
    ghost predicate Wrote(s: string, t: string)
      reads this, buffer
    {
      Valid() && Has(s + t + "\0") && |s| <= offset <= |s| + |t|
    }

    constructor (prebuffer: nat)
      ensures fresh(buffer) && length == prebuffer && At("")
    {
      buffer := new char[prebuffer];
      length := prebuffer;
      offset := 0;
    }

    /** Room for needed characters from the offset on; what the buffer held stays, in the same place or a larger one. */
    method Ensure(needed: nat, ghost s: string) returns (at: nat)
      requires At(s) && Fits(|s| + needed)
      modifies this
      ensures At(s) && at == offset && offset + needed <= length
      ensures if old(offset) + needed <= old(length) then buffer == old(buffer)
              else fresh(buffer) && length == Pow2gt(old(offset) + needed)
    {
      var total := needed + offset;
      if total > length {
        RoundsUp(total);
        var newsize := Pow2gt(total);
        var newbuffer := new char[newsize];
        forall i | 0 <= i < length { newbuffer[i] := buffer[i]; }
        assert newbuffer[..|s|] == buffer[..|s|];
        length := newsize;
        buffer := newbuffer;
      }
      at := offset;
    }

    method Write(at: nat, t: string, ghost s: string)
      requires Valid() && Has(s) && at == |s| && at + |t| <= length
      modifies buffer
      ensures Has(s + t)
    {
      CopyInto(buffer, at, t);
    }

    /** Past the terminator of what was last printed. */
    method Update(ghost s: string, ghost t: string)
      requires Wrote(s, t) && NoNul(t)
      modifies this`offset
      ensures At(s + t)
    {
      ghost var w := s + t + "\0";
      assert forall k {:trigger buffer[k]} :: |s| <= k < |s| + |t| ==> buffer[k] == t[k - |s|] by {
        assert forall k {:trigger buffer[k]} :: 0 <= k < |w| ==> buffer[k] == buffer[..|w|][k];
      }
      assert buffer[|s| + |t|] == buffer[..|w|][|s| + |t|];
      var end := offset;
      while buffer[end] != '\0'
        invariant |s| <= end <= |s| + |t|
        decreases |s| + |t| - end
      {
        end := end + 1;
      }
      offset := end;
      assert buffer[..|s + t|] == w[..|s + t|];
    }

    /** strcpy: a text and its terminator. */
    method Put(at: nat, t: string, ghost s: string)
      requires At(s) && at == offset && at + |t| + 1 <= length
      modifies buffer
      ensures Wrote(s, t)
    {
      Write(at, t + "\0", s);
      assert s + (t + "\0") == s + t + "\0";
    }

    method PrintNumber(d: real, ghost s: string) returns (out: nat)
      requires IsInt32(d) && At(s) && Fits(|s| + 21)
      modifies this, buffer
      ensures Wrote(s, NumberText(d)) && out == |s| && (buffer == old(buffer) || fresh(buffer))
    {
      if d == 0.0 {
        out := Ensure(2, s);
        Put(out, "0", s);
      } else {
        out := Ensure(21, s);
        DecimalLength(d.Floor);
        Put(out, Decimal(d.Floor), s);
      }
    }

    /** print_string_ptr. */
    method PrintString(x: string, ghost s: string) returns (out: nat)
      requires CString(x) && At(s) && Fits(|s| + |Quote(x)| + 1)
      modifies this, buffer
      ensures Wrote(s, Quote(x)) && out == |s| && (buffer == old(buffer) || fresh(buffer))
    {
      var flag := NeedsEscape(x);
      if !flag {
        NothingToEscape(x);
        var len := |x|;
        out := Ensure(len + 3, s);
        WriteQuoted(out, x, len, s, false);
      } else {
        var len := EscapedLength(x);
        out := Ensure(len + 3, s);
        WriteQuoted(out, x, len, s, true);
      }
    }

    /** The two ways a string is copied between its quotes, in the room the sizing pass asked for. */
    method WriteQuoted(at: nat, x: string, len: nat, ghost s: string, escaped: bool)
      requires CString(x) && At(s) && at == offset && at + len + 3 <= length && len == |Escape(x)|
      requires escaped || Escape(x) == x
      modifies buffer
      ensures Wrote(s, Quote(x))
    {
      Write(at, "\"", s);
      if escaped {
        WriteEscaped(at + 1, x, s + "\"");
      } else {
        Write(at + 1, x, s + "\"");
      }
      Write(at + 1 + len, "\"\0", s + "\"" + Escape(x));
      QuoteParts(s, Escape(x));
    }

    method WriteEscaped(at: nat, x: string, ghost s: string)
      requires CString(x) && Valid() && Has(s) && at == |s| && at + |Escape(x)| <= length
      modifies buffer
      ensures Has(s + Escape(x))
    {
      var to: nat := at;
      var i := 0;
      assert s + "" == s;
      while i < |x|
        invariant i <= |x| && to == at + |EscapeTo(x, i)| && Has(s + EscapeTo(x, i))
      {
        EscapeStep(s, x, i);
        to := WriteChar(to, x[i], s + EscapeTo(x, i));
        i := i + 1;
      }
      EscapeWhole(x);
    }

    method WriteChar(at: nat, c: char, ghost s: string) returns (to: nat)
      requires 0 < c as int < 256 && Valid() && Has(s) && at == |s| && at + |EscapeChar(c)| <= length
      modifies buffer
      ensures Has(s + EscapeChar(c)) && to == at + |EscapeChar(c)|
    {
      if c as int > 31 && c != '\"' && c != '\\' {
        Write(at, [c], s);
        to := at + 1;
      } else {
        var code := "\\" + EscapeLetters(c);
        assert code == EscapeChar(c);
        Write(at, code, s);
        to := at + |code|;
      }
    }

    /** print_value. */
    method PrintValue(v: Value, depth: nat, fmt: bool, ghost s: string) returns (out: nat)
      requires Printable(v) && At(s) && Fits(|s| + |Text(v, depth, fmt)| + SPARE)
      modifies this, buffer
      ensures Wrote(s, Text(v, depth, fmt)) && out == Announced(v, depth, fmt, |s|)
              && (buffer == old(buffer) || fresh(buffer))
      decreases v, 4
    {
      match v
      case Null => out := Ensure(5, s); Put(out, "null", s);
      case False => out := Ensure(6, s); Put(out, "false", s);
      case True => out := Ensure(5, s); Put(out, "true", s);
      case Number(d) => out := PrintNumber(d, s);
      case Str(x) => out := PrintString(x, s);
      case Array(items) => out := PrintArray(items, depth, fmt, s);
      case Object(ms) => out := PrintObject(ms, depth, fmt, s);
    }

    method PrintArray(items: Items, depth: nat, fmt: bool, ghost s: string) returns (out: nat)
      requires PrintableItems(items) && At(s) && Fits(|s| + |ItemsText(items, depth + 1, fmt)| + 2 + SPARE)
      modifies this, buffer
      ensures Wrote(s, "[" + ItemsText(items, depth + 1, fmt) + "]") && out == |s|
      ensures buffer == old(buffer) || fresh(buffer)
      decreases items, 3
    {
      if items.NoItems? {
        out := Ensure(3, s);
        Put(out, "[]", s);
        assert "[" + "" + "]" == "[]";
      } else {
        out := offset;
        PrintBracketed(items, depth + 1, fmt, s);
      }
    }

    method PrintBracketed(items: Items, depth: nat, fmt: bool, ghost s: string)
      requires PrintableItems(items) && At(s) && Fits(|s| + |ItemsText(items, depth, fmt)| + 2 + SPARE)
      modifies this, buffer
      ensures Wrote(s, "[" + ItemsText(items, depth, fmt) + "]") && (buffer == old(buffer) || fresh(buffer))
      decreases items, 2
    {
      ghost var body := ItemsText(items, depth, fmt);
      Raw("[", s);
      PrintItems(items, depth, fmt, s + "[");
      var at := Ensure(2, s + "[" + body);
      Put(at, "]", s + "[" + body);
      Bracket(s, body);
    }

    method PrintItems(items: Items, depth: nat, fmt: bool, ghost s: string)
      requires PrintableItems(items) && At(s) && Fits(|s| + |ItemsText(items, depth, fmt)| + SPARE)
      modifies this, buffer
      ensures At(s + ItemsText(items, depth, fmt)) && (buffer == old(buffer) || fresh(buffer))
      decreases items, 1
    {
      ghost var p := s;
      var child := items;
      while child.Item?
        invariant child == items || child < items
        invariant PrintableItems(child) && At(p) && p + ItemsText(child, depth, fmt) == s + ItemsText(items, depth, fmt)
        invariant buffer == old(buffer) || fresh(buffer)
        decreases child
      {
        ItemsTexts(child, depth, fmt, p);
        PrintItem(child, depth, fmt, p);
        p := p + Text(child.head, depth, fmt) + Comma(child, fmt);
        child := child.next;
      }
      assert p + "" == p;
    }

    /** Characters without a terminator, and past them. */
    method Raw(t: string, ghost s: string)
      requires At(s) && Fits(|s| + |t|)
      modifies this, buffer
      ensures At(s + t) && (buffer == old(buffer) || fresh(buffer))
    {
      var at := Ensure(|t|, s);
      Write(at, t, s);
      offset := offset + |t|;
    }

    /** Characters with a terminator, and up to it. */
    method Mark(t: string, ghost s: string)
      requires At(s) && Fits(|s| + |t| + 1)
      modifies this, buffer
      ensures At(s + t) && (buffer == old(buffer) || fresh(buffer))
    {
      var at := Ensure(|t| + 1, s);
      Put(at, t, s);
      offset := offset + |t|;
      Dropped(s + t);
    }

    /** One round of the array's loop. */
    method PrintItem(child: Items, depth: nat, fmt: bool, ghost s: string)
      requires child.Item? && PrintableItems(child) && At(s) && Fits(|s| + |ItemsText(child, depth, fmt)| + SPARE)
      modifies this, buffer
      ensures At(s + Text(child.head, depth, fmt) + Comma(child, fmt)) && (buffer == old(buffer) || fresh(buffer))
      decreases child, 0
    {
      ghost var t := Text(child.head, depth, fmt);
      ItemsTexts(child, depth, fmt, s);
      var _ := PrintValue(child.head, depth, fmt, s);
      TextNoNul(child.head, depth, fmt);
      Update(s, t);
      if child.next.Item? {
        Mark(if fmt then ", " else ",", s + t);
      } else {
        assert s + t + "" == s + t;
      }
    }

    /** The text before a terminator. */
    lemma Dropped(s: string)
      requires Has(s + "\0")
      ensures Has(s)
    {
      assert (s + "\0")[..|s|] == s;
      assert buffer[..|s|] == buffer[..|s| + 1][..|s|];
    }

    method PrintObject(ms: Members, depth: nat, fmt: bool, ghost s: string) returns (out: nat)
      requires PrintableMembers(ms) && At(s) && Fits(|s| + |Text(Object(ms), depth, fmt)| + SPARE)
      modifies this, buffer
      ensures Wrote(s, Text(Object(ms), depth, fmt)) && out == Announced(Object(ms), depth, fmt, |s|)
      ensures buffer == old(buffer) || fresh(buffer)
      decreases ms, 3
    {
      if ms.NoMembers? {
        out := Ensure(if fmt then depth + 4 else 3, s);
        Put(out, if fmt then "{\n" + Tabs(if depth == 0 then 0 else depth - 1) + "}" else "{}", s);
      } else {
        var i := offset;
        ObjectText(ms, depth, fmt, if fmt then "{\n" else "{", MembersText(ms, depth + 1, fmt),
            if fmt then Tabs(depth) else "");
        out := PrintBraced(i, ms, depth, fmt, s);
      }
    }

    /** The object's loop and its brackets; start is the offset it began at. */
    method PrintBraced(start: nat, ms: Members, depth: nat, fmt: bool, ghost s: string) returns (out: nat)
      requires PrintableMembers(ms) && At(s)
               && Fits(|s| + |MembersText(ms, depth + 1, fmt)| + (if fmt then depth else 0) + 2 + SPARE)
      modifies this, buffer
      ensures Wrote(s, (if fmt then "{\n" else "{")
                       + (MembersText(ms, depth + 1, fmt) + ((if fmt then Tabs(depth) else "") + "}")))
      ensures out == (if fmt then depth else start) && (buffer == old(buffer) || fresh(buffer))
      decreases ms, 2
    {
      ghost var body, tabs := MembersText(ms, depth + 1, fmt), if fmt then Tabs(depth) else "";
      var open := if fmt then "{\n" else "{";
      Mark(open, s);
      PrintMembers(ms, depth + 1, fmt, s + open);
      out := PrintBrace(start, depth, fmt, s + open + body);
      Braces(s, open, body, tabs);
    }

    /** The closing bracket. The variable that kept the start is the one that counts the tabs. */
    method PrintBrace(start: nat, depth: nat, fmt: bool, ghost s: string) returns (i: nat)
      requires At(s) && Fits(|s| + (if fmt then depth else 0) + 2)
      modifies this, buffer
      ensures Wrote(s, (if fmt then Tabs(depth) else "") + "}") && offset == |s| && i == (if fmt then depth else start)
      ensures buffer == old(buffer) || fresh(buffer)
    {
      var at := Ensure(if fmt then depth + 2 else 2, s);
      i := start;
      ghost var tabs := "";
      if fmt {
        i := WriteTabs(at, depth, s);
        tabs := Tabs(depth);
      }
      assert s + "" == s;
      Write(at + (if fmt then depth else 0), "}\0", s + tabs);
      assert s + tabs + "}\0" == s + (tabs + "}") + "\0";
    }

    method WriteTabs(at: nat, depth: nat, ghost s: string) returns (i: nat)
      requires Valid() && Has(s) && at == |s| && at + depth <= length
      modifies buffer
      ensures Has(s + Tabs(depth)) && i == depth
    {
      i := 0;
      assert s + "" == s;
      while i < depth
        invariant i <= depth && Has(s + Tabs(i)) && |Tabs(i)| == i
      {
        Write(at + i, "\t", s + Tabs(i));
        assert Tabs(i) + "\t" == Tabs(i + 1);
        assert s + Tabs(i) + "\t" == s + Tabs(i + 1);
        i := i + 1;
      }
    }

    method PrintMembers(ms: Members, depth: nat, fmt: bool, ghost s: string)
      requires PrintableMembers(ms) && At(s) && depth > 0 && Fits(|s| + |MembersText(ms, depth, fmt)| + SPARE)
      modifies this, buffer
      ensures At(s + MembersText(ms, depth, fmt)) && (buffer == old(buffer) || fresh(buffer))
      decreases ms, 1
    {
      ghost var p := s;
      var child := ms;
      while child.Member?
        invariant child == ms || child < ms
        invariant PrintableMembers(child) && At(p)
                  && p + MembersText(child, depth, fmt) == s + MembersText(ms, depth, fmt)
        invariant buffer == old(buffer) || fresh(buffer)
        decreases child
      {
        MemberTexts(child, depth, fmt, p);
        PrintMember(child, depth, fmt, p);
        p := p + OneMember(child, depth, fmt);
        child := child.rest;
      }
      assert p + "" == p;
    }

    /** One round of the object's loop. */
    method PrintMember(child: Members, depth: nat, fmt: bool, ghost s: string)
      requires child.Member? && PrintableMembers(child) && At(s) && depth > 0
      requires Fits(|s| + |OneMember(child, depth, fmt)| + SPARE)
      modifies this, buffer
      ensures At(s + OneMember(child, depth, fmt)) && (buffer == old(buffer) || fresh(buffer))
      decreases child, 0
    {
      ghost var tabs, name := if fmt then Tabs(depth) else "", Quote(child.name);
      ghost var t := Text(child.value, depth, fmt);
      var colon := if fmt then ":\t" else ":";
      var end := (if child.rest.Member? then "," else "") + (if fmt then "\n" else "");
      MemberParts(s, tabs, name, colon, t, end);
      if fmt {
        Raw(Tabs(depth), s);
      }
      PrintName(child.name, s + tabs);
      Raw(colon, s + tabs + name);
      var _ := PrintValue(child.value, depth, fmt, s + tabs + name + colon);
      TextNoNul(child.value, depth, fmt);
      Update(s + tabs + name + colon, t);
      Mark(end, s + tabs + name + colon + t);
    }

    method PrintName(x: string, ghost s: string)
      requires CString(x) && At(s) && Fits(|s| + |Quote(x)| + 1)
      modifies this, buffer
      ensures At(s + Quote(x)) && (buffer == old(buffer) || fresh(buffer))
    {
      var _ := PrintString(x, s);
      QuoteNoNul(x);
      Update(s, Quote(x));
    }
  }

  /** cJSON_PrintBuffered, for any first size: the text the other printers give, from where the result points to. */
  method PrintBuffered(v: Value, prebuffer: nat, fmt: bool) returns (out: array<char>, at: nat)
    requires Printable(v) && prebuffer >= 1 && Fits(|Text(v, 0, fmt)| + SPARE)
    ensures at == 0
    ensures |Text(v, 0, fmt)| < out.Length && out[..|Text(v, 0, fmt)|] == Text(v, 0, fmt)
    ensures out[|Text(v, 0, fmt)|] == '\0'
  {
    var p := new PrintBuffer(prebuffer);
    at := p.PrintValue(v, 0, fmt, "");
    out := p.buffer;
    ghost var w := "" + Text(v, 0, fmt) + "\0";
    assert out[|w| - 1] == out[..|w|][|w| - 1];
    assert out[..|w| - 1] == out[..|w|][..|w| - 1];
  }
}
