/** Parsing what was printed gives the tree back, formatted or not. */
module JsonRoundTrip {
  import opened JsonText
  import opened JsonParse

  predicate Blank(w: string) {
    forall i {:trigger w[i]} :: 0 <= i < |w| ==> w[i] as int <= 32
  }

  /** A text that cannot be read as the continuation of a number. */
  predicate Closes(rest: string) {
    var c := At(rest, 0);
    !IsDigit(c) && c != '.' && c != 'e' && c != 'E'
  }

  lemma {:induction false} SkipBlank(w: string, t: string)
    requires Blank(w) && At(t, 0) as int > 32
    ensures Skip(w + t) == t
  {
    if w == "" {
      assert w + t == t;
    } else {
      assert (w + t)[1..] == w[1..] + t;
      SkipBlank(w[1..], t);
    }
  }

  /** As SkipBlank, whatever follows. */
  lemma {:induction false} SkipBlanks(w: string, t: string)
    requires Blank(w)
    ensures Skip(w + t) == Skip(t)
  {
    if w == "" {
      assert w + t == t;
    } else {
      assert (w + t)[1..] == w[1..] + t;
      SkipBlanks(w[1..], t);
    }
  }

  // ---------------------------------------------------------------- numbers

  lemma {:induction false} ReadsDigits(n: nat, t: string, count: nat)
    ensures ReadDigits(Digits(n) + t, 0, count) == ReadDigits(t, n, count + |Digits(n)|)
    ensures n > 0 ==> '1' <= Digits(n)[0] <= '9'
    ensures IsDigit(Digits(n)[0])
    decreases n
  {
    if n < 10 {
      assert (Digits(n) + t)[1..] == t;
    } else {
      var d := [Digit(n % 10)];
      ReadsDigits(n / 10, d + t, count);
      assert Digits(n) + t == Digits(n / 10) + (d + t);
      assert (d + t)[1..] == t;
    }
  }

  lemma {:induction false} NumberRoundTrip(d: real, rest: string)
    requires IsInt32(d) && Closes(rest)
    ensures var c := NumberText(d)[0]; c == '-' || IsDigit(c)
    ensures ParseNumber(NumberText(d) + rest) == Ok(Number(d), rest)
  {
    var s := NumberText(d) + rest;
    if d == 0.0 {
      assert s[1..] == rest;
    } else {
      var n: nat := if d.Floor < 0 then -d.Floor else d.Floor;
      ReadsDigits(n, rest, 0);
      assert 1 <= n && At(Digits(n) + rest, 0) == Digits(n)[0];
      if d.Floor < 0 {
        assert s[1..] == Digits(n) + rest;
      } else {
        assert s == Digits(n) + rest;
      }
      assert ReadDigits(rest, n, |Digits(n)|) == (n, |Digits(n)|, rest);
    }
  }

  // ---------------------------------------------------------------- strings

  lemma {:induction false} EscapeRoundTrip(c: char, t: string)
    requires 0 < c as int < 256
    ensures var e := EscapeChar(c);
            && e != "" && e[0] != '\"'
            && (e[0] == '\\' <==> |e| > 1)
            && (|e| > 1 ==> OneEscape(e + t) == ([c], |e|))
            && (|e| == 1 ==> e == [c])
  {
    var e := EscapeChar(c);
    if 2 < |e| {
      assert (e + t)[2..] == e[2..] + t;
    }
  }

  lemma {:induction false} UnescapeEscape(s: string, t: string)
    requires CString(s)
    ensures Unescape(Escape(s) + "\"" + t) == Ok(s, "\"" + t)
  {
    var q := "\"" + t;
    assert Escape(s) + "\"" + t == Escape(s) + q;
    if s != "" {
      var e, u := EscapeChar(s[0]), Escape(s[1..]) + "\"" + t;
      assert Escape(s) + q == e + u;
      EscapeRoundTrip(s[0], u);
      UnescapeEscape(s[1..], t);
      assert (e + u)[|e|..] == u;
      assert s == [s[0]] + s[1..];
    } else {
      assert Escape(s) + q == q;
    }
  }

  lemma {:induction false} StringRoundTrip(s: string, rest: string)
    requires CString(s)
    ensures ParseString(Quote(s) + rest) == Ok(s, rest)
  {
    UnescapeEscape(s, rest);
    assert (Quote(s) + rest)[1..] == Escape(s) + "\"" + rest;
    assert ("\"" + rest)[1..] == rest;
  }

  // ---------------------------------------------------------------- trees

  /** No value's text starts with a blank or a closing bracket. */
  lemma {:induction false} TextHead(v: Value, depth: nat, fmt: bool)
    requires Printable(v)
    ensures var t := Text(v, depth, fmt);
            t != "" && t[0] as int > 32 && t[0] != ']' && t[0] != '}'
  {
    if v.Number? { NumberRoundTrip(v.d, ""); }
  }

  lemma {:induction false} Unlike(s: string, t: string)
    requires t != "" && At(s, 0) != t[0]
    ensures !Starts(s, t)
  {
    assert |t| <= |s| ==> s[..|t|][0] == s[0];
  }

  /** A first character that starts none of the three words decides the kind of value. */
  lemma {:induction false} NoWord(s: string)
    requires At(s, 0) !in {'n', 'f', 't'}
    ensures !Starts(s, "null") && !Starts(s, "false") && !Starts(s, "true")
  {
    Unlike(s, "null");
    Unlike(s, "false");
    Unlike(s, "true");
  }

  lemma {:induction false} IsObject(s: string)
    requires At(s, 0) == '{'
    ensures ParseValue(s) == ParseObject(s)
  {
    NoWord(s);
  }

  lemma {:induction false} IsArray(s: string)
    requires At(s, 0) == '['
    ensures ParseValue(s) == ParseArray(s)
  {
    NoWord(s);
  }

  lemma {:induction false} IsNumber(s: string)
    requires At(s, 0) == '-' || IsDigit(At(s, 0))
    ensures ParseValue(s) == ParseNumber(s)
  {
    NoWord(s);
  }

  lemma {:induction false} IsString(s: string, x: string, rest: string)
    requires ParseString(s) == Ok(x, rest)
    ensures ParseValue(s) == Ok(Str(x), rest)
  {
    NoWord(s);
  }

  lemma {:induction false} Cat(a: string, b: string, c: string, d: string)
    ensures a + b + c + d == a + (b + (c + d))
  {}

  lemma {:induction false} Tail(a: char, b: string, c: string, d: string)
    ensures ([a] + b + c + d)[1..] == b + (c + d)
  {
    Cat([a], b, c, d);
  }

  /** A value, then a comma and more items. */
  lemma {:induction false} ItemsStep(s: string, v: Value, u: string, next: Items, end: string)
    requires ParseValue(s) == Ok(v, "," + u) && ParseItems(Skip(u)) == Ok(next, end)
    ensures ParseItems(s) == Ok(Item(v, next), end)
  {
    assert Skip("," + u) == "," + u && ("," + u)[1..] == u;
  }

  lemma {:induction false} ItemsShape(t: string, comma: string, sep: string, more: string, end: string)
    requires comma == "," + sep
    ensures t + comma + more + end == t + ("," + (sep + (more + end)))
  {
    Cat(t, comma, more, end);
    assert comma + (more + end) == "," + (sep + (more + end));
  }

  lemma {:induction false} ItemsRoundTrip(items: Items, depth: nat, fmt: bool, end: string)
    requires items.Item? && PrintableItems(items) && At(end, 0) == ']'
    ensures ParseItems(ItemsText(items, depth, fmt) + end) == Ok(items, end)
    decreases items, 0
  {
    var t := Text(items.head, depth, fmt);
    if items.next.NoItems? {
      ValueRoundTrip(items.head, depth, fmt, end);
    } else {
      var more := ItemsText(items.next, depth, fmt);
      var sep := if fmt then " " else "";
      ItemsRoundTrip(items.next, depth, fmt, end);
      assert Skip(sep + (more + end))
          == more + end by { ItemsHead(items.next, depth, fmt, end); SkipBlank(sep, more + end); }
      ValueRoundTrip(items.head, depth, fmt, "," + (sep + (more + end)));
      ItemsShape(t, if fmt then ", " else ",", sep, more, end);
      ItemsStep(t + ("," + (sep + (more + end))), items.head, sep + (more + end), items.next, end);
    }
  }

  lemma {:induction false} ItemsHead(items: Items, depth: nat, fmt: bool, end: string)
    requires items.Item? && PrintableItems(items)
    ensures var c := At(ItemsText(items, depth, fmt) + end, 0); c as int > 32 && c != ']'
  {
    TextHead(items.head, depth, fmt);
    assert ItemsText(items, depth, fmt)[0] == Text(items.head, depth, fmt)[0];
  }

  /** From a bracket, past blanks, to the items and the closing bracket. */
  lemma {:induction false} ArrayStep(s: string, t: string, items: Items, rest: string)
    requires At(s, 0) == '[' && Skip(s[1..]) == t && At(t, 0) != ']' && Skip(t) == t
    requires ParseItems(t) == Ok(items, "]" + rest)
    ensures ParseValue(s) == Ok(Array(items), rest)
  {
    assert ("]" + rest)[1..] == rest;
    IsArray(s);
  }

  lemma {:induction false} ArrayRoundTrip(items: Items, depth: nat, fmt: bool, rest: string)
    requires PrintableItems(items)
    ensures ParseValue(Text(Array(items), depth, fmt) + rest) == Ok(Array(items), rest)
    decreases items, 2
  {
    var body := ItemsText(items, depth + 1, fmt);
    assert Text(Array(items), depth, fmt) == "[" + body + "]";
    if items.Item? {
      FullArray(items, depth + 1, fmt, rest);
    } else {
      assert body == "";
      EmptyArray(rest);
    }
  }

  lemma {:induction false} FullArray(items: Items, depth: nat, fmt: bool, rest: string)
    requires items.Item? && PrintableItems(items)
    ensures ParseValue("[" + ItemsText(items, depth, fmt) + "]" + rest) == Ok(Array(items), rest)
    decreases items, 1
  {
    var body := ItemsText(items, depth, fmt);
    var end := "]" + rest;
    Tail('[', body, "]", rest);
    ItemsHead(items, depth, fmt, end);
    assert Skip(body + end) == body + end;
    ItemsRoundTrip(items, depth, fmt, end);
    ArrayStep("[" + body + "]" + rest, body + end, items, rest);
  }

  lemma {:induction false} EmptyArray(rest: string)
    ensures ParseValue("[" + "" + "]" + rest) == Ok(Array(NoItems), rest)
  {
    var s := "[" + "" + "]" + rest;
    assert s[1..] == "]" + rest && s[1..][1..] == rest;
    IsArray(s);
  }

  /** A member, then a comma and more members. */
  lemma {:induction false} MembersStep(s: string, name: string, u: string, v: Value, w: string, ms: Members,
      end: string)
    requires ParseString(s) == Ok(name, ":" + u) && ParseValue(Skip(u)) == Ok(v, "," + w)
    requires ParseMembers(Skip(w)) == Ok(ms, end)
    ensures ParseMembers(s) == Ok(Member(name, v, ms), end)
  {
    assert Skip(":" + u) == ":" + u && (":" + u)[1..] == u;
    assert Skip("," + w) == "," + w && ("," + w)[1..] == w;
  }

  lemma {:induction false} MembersLast(s: string, name: string, u: string, v: Value, w: string)
    requires ParseString(s) == Ok(name, ":" + u) && ParseValue(Skip(u)) == Ok(v, w) && At(Skip(w), 0) != ','
    ensures ParseMembers(s) == Ok(Member(name, v, NoMembers), Skip(w))
  {
    assert Skip(":" + u) == ":" + u && (":" + u)[1..] == u;
  }

  function AfterValue(ms: Members, depth: nat, fmt: bool, end: string): string
    requires ms.Member?
  {
    (if ms.rest.Member? then "," else "") + ((if fmt then "\n" else "") + (MembersText(ms.rest, depth, fmt) + end))
  }

  /** A member's text, nested to the right from its name on. */
  lemma {:induction false} MembersShape(ms: Members, depth: nat, fmt: bool, end: string)
    requires ms.Member?
    ensures var gap := if fmt then "\t" else "";
            var s := Quote(ms.name) + (":" + (gap + (Text(ms.value, depth, fmt) + AfterValue(ms, depth, fmt, end))));
            Skip(MembersText(ms, depth, fmt) + end) == s
  {
    var tabs, q := if fmt then Tabs(depth) else "", Quote(ms.name);
    var colon, gap := if fmt then ":\t" else ":", if fmt then "\t" else "";
    var t := Text(ms.value, depth, fmt);
    var comma, nl := if ms.rest.Member? then "," else "", if fmt then "\n" else "";
    var more := MembersText(ms.rest, depth, fmt);
    assert MembersText(ms, depth, fmt) == tabs + q + colon + t + comma + nl + more;
    var s := q + (":" + (gap + (t + (comma + (nl + (more + end))))));
    Nest(tabs, q, colon, t, comma, nl, more, end);
    assert colon + (t + (comma + (nl + (more + end)))) == ":" + (gap + (t + (comma + (nl + (more + end))))) by {
      Colon(colon, gap, t + (comma + (nl + (more + end))));
    }
    SkipBlank(tabs, s);
  }

  lemma {:induction false} Colon(colon: string, gap: string, t: string)
    requires colon == ":" + gap
    ensures colon + t == ":" + (gap + t)
  {}

  lemma {:induction false} Nest(a: string, b: string, c: string, d: string, e: string, f: string, g: string, h: string)
    ensures a + b + c + d + e + f + g + h == a + (b + (c + (d + (e + (f + (g + h))))))
  {}

  lemma {:induction false} MembersRoundTrip(ms: Members, depth: nat, fmt: bool, end: string)
    requires ms.Member? && PrintableMembers(ms) && At(Skip(end), 0) == '}' && Closes(end)
    ensures ParseMembers(Skip(MembersText(ms, depth, fmt) + end)) == Ok(ms, Skip(end))
    decreases ms, 0
  {
    MembersShape(ms, depth, fmt, end);
    var gap, nl := if fmt then "\t" else "", if fmt then "\n" else "";
    var after := AfterValue(ms, depth, fmt, end);
    var value := Text(ms.value, depth, fmt) + after;
    var s := Quote(ms.name) + (":" + (gap + value));
    StringRoundTrip(ms.name, ":" + (gap + value));
    assert Skip(gap + value) == value by { TextHead(ms.value, depth, fmt); SkipBlank(gap, value); }
    var more := MembersText(ms.rest, depth, fmt) + end;
    SkipBlanks(nl, more);
    if ms.rest.Member? {
      ValueRoundTrip(ms.value, depth, fmt, "," + (nl + more));
      MembersRoundTrip(ms.rest, depth, fmt, end);
      MembersStep(s, ms.name, gap + value, ms.value, nl + more, ms.rest, Skip(end));
    } else {
      assert more == end && after == nl + end;
      ValueRoundTrip(ms.value, depth, fmt, nl + end);
      MembersLast(s, ms.name, gap + value, ms.value, nl + end);
    }
  }

  lemma {:induction false} ObjectStep(s: string, t: string, ms: Members, rest: string)
    requires At(s, 0) == '{' && Skip(s[1..]) == t && At(t, 0) == '\"'
    requires ParseMembers(t) == Ok(ms, "}" + rest)
    ensures ParseValue(s) == Ok(Object(ms), rest)
  {
    var close := "}" + rest;
    assert close[0] == '}' && close[1..] == rest;
    assert Skip(t) == t;
    assert ParseObject(s) == Ok(Object(ms), rest);
    IsObject(s);
  }

  lemma {:induction false} ObjectRoundTrip(ms: Members, depth: nat, fmt: bool, rest: string)
    requires PrintableMembers(ms)
    ensures ParseValue(Text(Object(ms), depth, fmt) + rest) == Ok(Object(ms), rest)
    decreases ms, 1
  {
    var lead := if fmt then "\n" else "";
    var close := "}" + rest;
    if ms.NoMembers? {
      var tabs := if fmt then Tabs(if depth == 0 then 0 else depth - 1) else "";
      EmptyObject(lead + tabs, rest);
      EmptyShape(depth, fmt, lead, tabs, rest);
    } else {
      var tabs := if fmt then Tabs(depth) else "";
      var body := MembersText(ms, depth + 1, fmt);
      ObjectShape(ms, depth, fmt, lead, tabs, rest);
      SkipBlanks(lead, body + (tabs + close));
      SkipBlank(tabs, close);
      MembersShape(ms, depth + 1, fmt, tabs + close);
      MembersRoundTrip(ms, depth + 1, fmt, tabs + close);
      ObjectStep(Text(Object(ms), depth, fmt) + rest, Skip(body + (tabs + close)), ms, rest);
    }
  }

  lemma {:induction false} EmptyShape(depth: nat, fmt: bool, lead: string, tabs: string, rest: string)
    requires lead == (if fmt then "\n" else "")
    requires tabs == if fmt then Tabs(if depth == 0 then 0 else depth - 1) else ""
    ensures Text(Object(NoMembers), depth, fmt) + rest == "{" + ((lead + tabs) + ("}" + rest))
  {
    var t := "{" + ((lead + tabs) + "}");
    assert Text(Object(NoMembers), depth, fmt) == t;
    assert t + rest == "{" + ((lead + tabs) + ("}" + rest));
  }

  lemma {:induction false} ObjectShape(ms: Members, depth: nat, fmt: bool, lead: string, tabs: string, rest: string)
    requires ms.Member? && lead == (if fmt then "\n" else "") && tabs == if fmt then Tabs(depth) else ""
    ensures var s := Text(Object(ms), depth, fmt) + rest;
            s != "" && s[0] == '{' && s[1..] == lead + (MembersText(ms, depth + 1, fmt) + (tabs + ("}" + rest)))
  {
    var body := MembersText(ms, depth + 1, fmt);
    var open := if fmt then "{\n" else "{";
    assert Text(Object(ms), depth, fmt) == open + body + tabs + "}" by {
      if !fmt { assert open + body + tabs == open + body; }
    }
    Brace(open, lead, body, tabs, rest);
  }

  lemma {:induction false} Brace(open: string, lead: string, body: string, tabs: string, rest: string)
    requires open == "{" + lead
    ensures var s := open + body + tabs + "}" + rest;
            s[0] == '{' && s[1..] == lead + (body + (tabs + ("}" + rest)))
  {
    var u := body + (tabs + ("}" + rest));
    assert open + body + tabs + "}" + rest == open + u;
    assert (open + u)[1..] == lead + u;
  }

  lemma {:induction false} EmptyObject(blank: string, rest: string)
    requires Blank(blank)
    ensures ParseValue("{" + (blank + ("}" + rest))) == Ok(Object(NoMembers), rest)
  {
    var s := "{" + (blank + ("}" + rest));
    assert s[1..] == blank + ("}" + rest);
    SkipBlank(blank, "}" + rest);
    assert ("}" + rest)[1..] == rest;
    IsObject(s);
  }

  lemma {:induction false} ValueRoundTrip(v: Value, depth: nat, fmt: bool, rest: string)
    requires Printable(v) && Closes(rest)
    ensures ParseValue(Text(v, depth, fmt) + rest) == Ok(v, rest)
    decreases v, 1
  {
    var s := Text(v, depth, fmt) + rest;
    match v
    case Number(d) =>
      NumberRoundTrip(d, rest);
      assert s[0] == NumberText(d)[0];
      IsNumber(s);
    case Str(x) =>
      StringRoundTrip(x, rest);
      IsString(s, x, rest);
    case Array(items) => ArrayRoundTrip(items, depth, fmt, rest);
    case Object(ms) => ObjectRoundTrip(ms, depth, fmt, rest);
    case _ => WordRoundTrip(v, depth, fmt, rest);
  }

  lemma {:induction false} WordRoundTrip(v: Value, depth: nat, fmt: bool, rest: string)
    requires v.Null? || v.False? || v.True?
    ensures ParseValue(Text(v, depth, fmt) + rest) == Ok(v, rest)
  {
    var t := Text(v, depth, fmt);
    assert (t + rest)[..|t|] == t && (t + rest)[|t|..] == rest;
    assert (t + rest)[0] == t[0];
    if v.False? { assert !Starts(t + rest, "null") by { assert (t + rest)[..4][0] == 'f'; } }
    if v.True? {
      assert !Starts(t + rest, "null") by { assert (t + rest)[..4][0] == 't'; }
      assert !Starts(t + rest, "false") by { if 5 <= |t + rest| { assert (t + rest)[..5][0] == 't'; } }
    }
  }

  /** Print then parse: the tree, with the whole text consumed. */
  lemma {:induction false} ParsePrinted(v: Value, fmt: bool)
    requires Printable(v)
    ensures Parse(Text(v, 0, fmt)) == Ok(v, "") && ParseWhole(Text(v, 0, fmt)) == Ok(v, "")
  {
    var t := Text(v, 0, fmt);
    TextHead(v, 0, fmt);
    assert t + "" == t;
    ValueRoundTrip(v, 0, fmt, "");
  }

  /** So no two printable trees share a text, even across the two formats. */
  lemma {:induction false} PrintedApart(v: Value, w: Value, fmt: bool, gmt: bool)
    requires Printable(v) && Printable(w)
    requires Text(v, 0, fmt) == Text(w, 0, gmt)
    ensures v == w
  {
    ParsePrinted(v, fmt);
    ParsePrinted(w, gmt);
  }
}
