/** Any text the parser accepts, however it was written: what minifying keeps of it, and printing what was parsed. */
module JsonAccepted {
  import opened JsonText
  import opened JsonParse
  import opened JsonRoundTrip
  import opened JsonMinify
  import opened JsonNumbers
  import opened JsonStrings

  // ---------------------------------------------------------------- printing what was parsed

  /** The numbers of the tree are those that print with %d. */
  predicate Int32s(v: Value) {
    match v
    case Number(d) => IsInt32(d)
    case Array(items) => Int32Items(items)
    case Object(members) => Int32Members(members)
    case _ => true
  }

  predicate Int32Items(items: Items) {
    items.Item? ==> Int32s(items.head) && Int32Items(items.next)
  }

  predicate Int32Members(ms: Members) {
    ms.Member? ==> Int32s(ms.value) && Int32Members(ms.rest)
  }

  lemma {:induction false} SkipCString(s: string)
    requires CString(s)
    ensures CString(Skip(s))
  {
    if s != "" && s[0] as int <= 32 { SkipCString(s[1..]); }
  }

  lemma {:induction false} Utf8CString(u: nat)
    requires 0 < u < 0x110000
    ensures CString(Utf8(u))
  {}

  lemma {:induction false} EscapeCString(s: string)
    requires CString(s) && s != "" && OneEscape(s).1 <= |s|
    ensures CString(OneEscape(s).0)
  {
    if At(s, 1) == 'u' {
      var u := Hex4(s[2..]);
      if u != 0 && !IsLow(u) {
        if !IsHigh(u) { Utf8CString(u); } else if At(s, 6) == '\\' && At(s, 7) == 'u'
            && IsLow(Hex4(s[8..])) { Utf8CString(Combine(u, Hex4(s[8..]))); }
      }
    }
  }

  lemma {:induction false} UnescapeCString(s: string)
    requires CString(s) && Unescape(s).Ok?
    ensures CString(Unescape(s).value) && CString(Unescape(s).rest)
    decreases |s|
  {
    if s != "" && s[0] != '\"' {
      if s[0] != '\\' {
        UnescapeCString(s[1..]);
      } else {
        EscapeCString(s);
        UnescapeCString(s[OneEscape(s).1..]);
      }
    }
  }

  lemma {:induction false} StringCString(s: string)
    requires CString(s) && ParseString(s).Ok?
    ensures CString(ParseString(s).value) && CString(ParseString(s).rest)
  {
    UnescapeCString(s[1..]);
  }

  lemma {:induction false} NumberCString(s: string)
    requires CString(s) && (At(s, 0) == '-' || IsDigit(At(s, 0)))
    ensures CString(ParseNumber(s).rest)
  {
    NumberAt(s, "");
    var r := ParseNumber(s).rest;
    forall i | 0 <= i < |r| ensures 0 < r[i] as int < 256 { assert r[i] == s[|Front(s, r)| + i]; }
  }

  lemma {:induction false} ValueCString(s: string)
    requires CString(s) && ParseValue(s).Ok?
    ensures CString(ParseValue(s).rest) && (Int32s(ParseValue(s).value) ==> Printable(ParseValue(s).value))
    decreases |s|, 1
  {
    if At(s, 0) == '\"' {
      NoWord(s);
      StringCString(s);
    } else if At(s, 0) == '-' || IsDigit(At(s, 0)) {
      IsNumber(s);
      NumberCString(s);
    } else if At(s, 0) == '[' {
      IsArray(s);
      SkipCString(s[1..]);
      SkipCString(Skip(s[1..]));
      if At(Skip(s[1..]), 0) != ']' { ItemsCString(Skip(Skip(s[1..]))); }
    } else if At(s, 0) == '{' {
      IsObject(s);
      SkipCString(s[1..]);
      SkipCString(Skip(s[1..]));
      if At(Skip(s[1..]), 0) != '}' { MembersCString(Skip(Skip(s[1..]))); }
    }
  }

  lemma {:induction false} ItemsCString(s: string)
    requires CString(s) && ParseItems(s).Ok?
    ensures CString(ParseItems(s).rest) && (Int32Items(ParseItems(s).value) ==> PrintableItems(ParseItems(s).value))
    decreases |s|, 2
  {
    ValueCString(s);
    var t := Skip(ParseValue(s).rest);
    SkipCString(ParseValue(s).rest);
    if At(t, 0) == ',' {
      SkipCString(t[1..]);
      ItemsCString(Skip(t[1..]));
    }
  }

  lemma {:induction false} MembersCString(s: string)
    requires CString(s) && ParseMembers(s).Ok?
    ensures CString(ParseMembers(s).rest)
            && (Int32Members(ParseMembers(s).value) ==> PrintableMembers(ParseMembers(s).value))
    decreases |s|, 2
  {
    StringCString(s);
    var t := Skip(ParseString(s).rest);
    SkipCString(ParseString(s).rest);
    SkipCString(t[1..]);
    ValueCString(Skip(t[1..]));
    var after := ParseValue(Skip(t[1..])).rest;
    var u := Skip(after);
    SkipCString(after);
    if At(u, 0) == ',' {
      SkipCString(u[1..]);
      MembersCString(Skip(u[1..]));
    }
  }

  /** What the parser makes of any text prints and parses back, as long as its numbers are 32-bit integers. */
  lemma {:induction false} ReprintStable(s: string, fmt: bool)
    requires CString(s) && Parse(s).Ok? && Int32s(Parse(s).value)
    ensures Printable(Parse(s).value) && Parse(Text(Parse(s).value, 0, fmt)) == Ok(Parse(s).value, "")
  {
    SkipCString(s);
    ValueCString(Skip(s));
    ParsePrinted(Parse(s).value, fmt);
  }

  // ---------------------------------------------------------------- minifying what is accepted

  /** Every literal of the text is well formed. */
  predicate WellQuoted(s: string)
    decreases |s|
  {
    s == "" || (
      if s[0] == '\"' then Literal(s[1..]) && |AfterQuote(s[1..])| < |s| && WellQuoted(AfterQuote(s[1..]))
      else WellQuoted(s[1..]))
  }

  /** The text s begins with what minifying turns into q, and goes on with r. */
  ghost predicate Keeps(s: string, q: string, r: string) {
    Minify(s) == Prefixed(q, Minify(r)) && WellQuoted(r)
  }

  /** Whatever may follow it, q is parsed as v. */
  ghost predicate Reads(q: string, v: Value) {
    forall u {:trigger q + u} :: Ends(u) ==> ParseValue(q + u) == Ok(v, u)
  }

  lemma {:induction false} KeepsBoth(s: string, q: string, t: string, p: string, r: string)
    requires Keeps(s, q, t) && Keeps(t, p, r)
    ensures Keeps(s, q + p, r)
  {
    PrefixedTwice(q, p, Minify(r));
  }

  lemma {:induction false} PlainQuoted(p: string, t: string)
    requires Plain(p) && WellQuoted(p + t)
    ensures WellQuoted(t)
  {
    if p == "" {
      assert p + t == t;
    } else {
      assert (p + t)[1..] == p[1..] + t;
      PlainQuoted(p[1..], t);
    }
  }

  lemma {:induction false} PlainKeeps(p: string, t: string)
    requires Plain(p) && WellQuoted(p + t)
    ensures Keeps(p + t, p, t)
  {
    PlainKept(p, t);
    PlainQuoted(p, t);
  }

  /** Skipping blanks: of those the minifier keeps what only the parser takes for a blank. */
  lemma {:induction false} SkipKeeps(s: string) returns (b: string)
    requires WellQuoted(s)
    ensures Blank(b) && Keeps(s, b, Skip(s)) && (At(Skip(s), 0) as int > 32 || Skip(s) == "")
  {
    if s != "" && s[0] as int <= 32 {
      b := SkipKeeps(s[1..]);
      if !IsSpace(s[0]) {
        PrefixedTwice([s[0]], b, Minify(Skip(s)));
        b := [s[0]] + b;
      }
    } else {
      b := "";
      assert Minify(s).Clean? ==> "" + Minify(s).text == Minify(s).text;
    }
  }

  lemma {:induction false} SkipAgain(s: string)
    ensures Skip(Skip(s)) == Skip(s)
  {
    if s != "" && s[0] as int <= 32 { SkipAgain(s[1..]); }
  }

  /** One punctuation mark, and the blanks behind it. */
  lemma {:induction false} MarkKeeps(s: string) returns (b: string)
    requires s != "" && s[0] in "[]{}:," && WellQuoted(s)
    ensures Blank(b) && Keeps(s, [s[0]] + b, Skip(s[1..]))
  {
    assert s == [s[0]] + s[1..];
    PlainKeeps([s[0]], s[1..]);
    b := SkipKeeps(s[1..]);
    KeepsBoth(s, [s[0]], s[1..], b, Skip(s[1..]));
  }

  lemma {:induction false} NumberKeeps(s: string) returns (q: string)
    requires (At(s, 0) == '-' || IsDigit(At(s, 0))) && WellQuoted(s)
    ensures ParseValue(s).Ok? && q != "" && q[0] == s[0] && Keeps(s, q, ParseValue(s).rest)
    ensures Reads(q, ParseValue(s).value)
  {
    IsNumber(s);
    var r := ParseNumber(s);
    q := Front(s, r.rest);
    NumberAt(s, "");
    PlainKeeps(q, r.rest);
    forall u {:trigger q + u} | Ends(u) ensures ParseValue(q + u) == Ok(r.value, u) {
      NumberAt(s, u);
      IsNumber(q + u);
    }
  }

  // ---------------------------------------------------------------- literals

  lemma {:induction false} AfterShorter(b: string)
    requires Literal(b)
    ensures |AfterQuote(b)| < |b|
    decreases |b|
  {
    if b[0] != '\"' { AfterShorter(b[if b[0] != '\\' then 1 else if b[1] == 'u' then 6 else 2..]); }
  }

  /** How many characters a literal takes, its closing quote included. */
  function Len(b: string): (n: nat)
    requires Literal(b)
    ensures 1 <= n <= |b|
  {
    AfterShorter(b);
    |b| - |AfterQuote(b)|
  }

  /** How many of them one round of the parser takes. */
  function Round(b: string): nat
    requires b != ""
  {
    if b[0] != '\\' then 1 else OneEscape(b).1
  }

  lemma {:induction false} UnitRound(b: string)
    requires Literal(b) && IsUnit(b)
    ensures Literal(b[6..]) && AfterQuote(b) == AfterQuote(b[6..]) && LiteralEnd(b) == 6 + LiteralEnd(b[6..])
            && Len(b) == 6 + Len(b[6..])
  {
    var e := b[2..6];
    assert b[2..] == e + b[6..];
    forall i | 0 <= i < |e| ensures e[i] != '\"' && e[i] != '\\' { assert e[i] == b[i + 2] && IsHex(b[i + 2]); }
    LiteralSteps(e, b[6..]);
  }

  /** The parser and the minifier go through a literal in step. */
  lemma {:induction false} RoundFacts(b: string)
    requires Literal(b) && b[0] != '\"'
    ensures var k := Round(b);
            k <= |b| && Literal(b[k..]) && LiteralEnd(b) == k + LiteralEnd(b[k..]) && Len(b) == k + Len(b[k..])
            && AfterQuote(b) == AfterQuote(b[k..])
  {
    if b[0] == '\\' && b[1] == 'u' {
      UnitRound(b);
      if Round(b) == 12 {
        assert b[6] == b[6..][0] && b[7] == b[6..][1];
        UnitRound(b[6..]);
        assert b[6..][6..] == b[12..];
      }
    }
  }

  lemma {:induction false} SameHex(b: string, c: string, i: nat)
    requires i + 4 <= |b| && i + 4 <= |c| && forall k {:trigger b[k]} :: i <= k < i + 4 ==> b[k] == c[k]
    ensures Hex4(b[i..]) == Hex4(c[i..])
  {
    assert At(b[i..], 0) == b[i] && At(b[i..], 1) == b[i + 1] && At(b[i..], 2) == b[i + 2] && At(b[i..], 3) == b[i + 3];
    assert At(c[i..], 0) == c[i] && At(c[i..], 1) == c[i + 1] && At(c[i..], 2) == c[i + 2] && At(c[i..], 3) == c[i + 3];
  }

  /** c begins with the literal b. */
  predicate Agrees(b: string, c: string)
    requires Literal(b)
  {
    Len(b) <= |c| && forall i {:trigger b[i]} {:trigger c[i]} :: 0 <= i < Len(b) ==> b[i] == c[i]
  }

  /** What follows the first unit escape of a literal, if it is looked at. */
  lemma {:induction false} SecondLocal(b: string, c: string)
    requires Literal(b) && IsUnit(b) && Agrees(b, c)
    ensures At(c, 6) == At(b, 6) && (At(b, 6) == '\\' ==> At(c, 7) == At(b, 7))
    ensures At(b, 6) == '\\' && At(b, 7) == 'u' ==> |b| >= 8 && |c| >= 8 && Hex4(b[8..]) == Hex4(c[8..])
  {
    UnitRound(b);
    if b[6] == '\\' {
      assert b[6..][0] == b[6] && b[6..][1] == b[7];
      if b[7] == 'u' {
        UnitRound(b[6..]);
        SameHex(b, c, 8);
      } else {
        RoundFacts(b[6..]);
      }
    }
  }

  /** An escape is read from the literal alone. */
  lemma {:induction false} EscapeLocal(b: string, c: string)
    requires Literal(b) && b[0] == '\\' && Agrees(b, c)
    ensures c != "" && c[0] == '\\' && OneEscape(c) == OneEscape(b)
  {
    if b[1] == 'u' {
      UnitRound(b);
      SameHex(b, c, 2);
      SecondLocal(b, c);
    } else {
      RoundFacts(b);
    }
  }

  /** One round goes the same way when the rest behind the literal is exchanged. */
  lemma {:induction false} RoundLocal(b: string, u: string)
    requires Literal(b) && b[0] != '\"'
    ensures var k, c := Round(b), b[..Len(b)] + u;
            c[0] == b[0] && k <= Len(b) && c[k..] == b[k..][..Len(b) - k] + u
                && (b[0] == '\\' ==> OneEscape(c) == OneEscape(b))
  {
    var n, c := Len(b), b[..Len(b)] + u;
    RoundFacts(b);
    assert c[0] == b[0];
    if b[0] == '\\' { EscapeLocal(b, c); }
  }

  /** A literal is read and copied up to its closing quote. */
  lemma {:induction false} LiteralEnds(b: string)
    requires Literal(b)
    ensures LiteralEnd(b) == Len(b) && Unescape(b).Ok? && Unescape(b).rest == "\"" + AfterQuote(b)
    decreases |b|
  {
    if b[0] == '\"' {
      assert b == "\"" + b[1..];
    } else {
      RoundFacts(b);
      LiteralEnds(b[Round(b)..]);
    }
  }

  /** And read as the same string, whatever follows it. */
  lemma {:induction false} LiteralReads(b: string, u: string)
    requires Literal(b)
    ensures Unescape(b).Ok? && Unescape(b[..Len(b)] + u) == Ok(Unescape(b).value, "\"" + u)
    decreases |b|
  {
    if b[0] == '\"' {
      assert b[..1] + u == "\"" + u;
    } else {
      RoundFacts(b);
      RoundLocal(b, u);
      LiteralReads(b[Round(b)..], u);
    }
  }

  lemma {:induction false} Closed(s: string, b: string, u: string, x: string)
    requires s != "" && s[0] == '\"' && s[1..] == b && Unescape(b) == Ok(x, "\"" + u)
    ensures ParseString(s) == Ok(x, u)
  {
    assert ("\"" + u)[1..] == u;
  }

  lemma {:induction false} QuoteEnds(s: string)
    requires At(s, 0) == '\"' && Literal(s[1..])
    ensures Unescape(s[1..]).Ok? && ParseString(s) == Ok(Unescape(s[1..]).value, AfterQuote(s[1..]))
  {
    LiteralEnds(s[1..]);
    Closed(s, s[1..], AfterQuote(s[1..]), Unescape(s[1..]).value);
  }

  lemma {:induction false} QuoteReads(b: string, u: string)
    requires Literal(b)
    ensures Unescape(b).Ok? && ParseString("\"" + b[..Len(b)] + u) == Ok(Unescape(b).value, u)
  {
    LiteralReads(b, u);
    Closed("\"" + b[..Len(b)] + u, b[..Len(b)] + u, u, Unescape(b).value);
  }

  lemma {:induction false} LiteralKept(s: string)
    requires At(s, 0) == '\"' && WellQuoted(s)
    ensures Literal(s[1..]) && Keeps(s, "\"" + s[1..][..Len(s[1..])], AfterQuote(s[1..]))
  {
    var b := s[1..];
    var n := 1 + Len(b);
    LiteralEnds(b);
    AfterIs(b);
    assert s[..n] == "\"" + b[..Len(b)] && s[n..] == AfterQuote(b);
  }

  lemma {:induction false} StringKeeps(s: string) returns (q: string)
    requires At(s, 0) == '\"' && WellQuoted(s)
    ensures ParseString(s).Ok? && q != "" && q[0] == s[0] && Keeps(s, q, ParseString(s).rest)
            && ReadsName(q, ParseString(s).value)
  {
    q := "\"" + s[1..][..Len(s[1..])];
    QuoteEnds(s);
    LiteralKept(s);
    forall u {:trigger q + u} ensures ParseString(q + u) == Ok(ParseString(s).value, u) { QuoteReads(s[1..], u); }
  }

  lemma {:induction false} AfterIs(b: string)
    requires Literal(b)
    ensures AfterQuote(b) == b[Len(b)..]
    decreases |b|
  {
    if b[0] != '\"' {
      var k := if b[0] != '\\' then 1 else if b[1] == 'u' then 6 else 2;
      AfterIs(b[k..]);
      assert b[k..][Len(b) - k..] == b[Len(b)..];
    }
  }

  // ---------------------------------------------------------------- trees

  lemma {:induction false} WordKeeps(s: string, v: Value)
    requires (v.Null? || v.False? || v.True?) && Starts(s, Text(v, 0, false)) && WellQuoted(s)
    ensures var q := Text(v, 0, false);
            ParseValue(s) == Ok(v, s[|q|..]) && Keeps(s, q, s[|q|..]) && Reads(q, v) && q[0] == s[0]
  {
    var q := Text(v, 0, false);
    var r := s[|q|..];
    assert s == q + r;
    PlainKeeps(q, r);
    WordRoundTrip(v, 0, false, r);
    forall u {:trigger q + u} | Ends(u) ensures ParseValue(q + u) == Ok(v, u) { WordRoundTrip(v, 0, false, u); }
  }

  lemma {:induction false} QuotedKeeps(s: string) returns (q: string)
    requires At(s, 0) == '\"' && WellQuoted(s)
    ensures ParseValue(s).Ok? && q != "" && q[0] == s[0] && Keeps(s, q, ParseValue(s).rest)
            && Reads(q, ParseValue(s).value)
  {
    q := StringKeeps(s);
    var x := ParseString(s);
    IsString(s, x.value, x.rest);
    forall u {:trigger q + u} | Ends(u)
        ensures ParseValue(q + u) == Ok(Str(x.value), u) { IsString(q + u, x.value, u); }
  }

  lemma {:induction false} ValueKeeps(s: string) returns (q: string)
    requires ParseValue(s).Ok? && WellQuoted(s) && Ends(ParseValue(s).rest)
    ensures q != "" && s != "" && q[0] == s[0] && Keeps(s, q, ParseValue(s).rest) && Reads(q, ParseValue(s).value)
    decreases |s|, 1
  {
    if Starts(s, "null") {
      q := "null";
      WordKeeps(s, Null);
    } else if Starts(s, "false") {
      q := "false";
      WordKeeps(s, False);
    } else if Starts(s, "true") {
      q := "true";
      WordKeeps(s, True);
    } else if At(s, 0) == '\"' {
      q := QuotedKeeps(s);
    } else if At(s, 0) == '-' || IsDigit(At(s, 0)) {
      q := NumberKeeps(s);
    } else if At(s, 0) == '[' {
      q := ArrayKeeps(s);
    } else {
      q := ObjectKeeps(s);
    }
  }

  /** A closing bracket behind what is kept. */
  lemma {:induction false} ClosedKeeps(s: string, p: string, t: string)
    requires Keeps(s, p, t) && t != "" && t[0] in "]}" && WellQuoted(t)
    ensures Keeps(s, p + [t[0]], t[1..])
  {
    assert t == [t[0]] + t[1..];
    PlainKeeps([t[0]], t[1..]);
    KeepsBoth(s, p, t, [t[0]], t[1..]);
  }

  lemma {:induction false} Nested(a: string, b: string, c: string, d: string, u: string)
    ensures a + b + c + d + u == a + (b + (c + (d + u)))
  {}

  lemma {:induction false} ArrayKeeps(s: string) returns (q: string)
    requires At(s, 0) == '[' && ParseValue(s).Ok? && WellQuoted(s)
    ensures q != "" && q[0] == s[0] && Keeps(s, q, ParseValue(s).rest) && Reads(q, ParseValue(s).value)
    decreases |s|, 0
  {
    IsArray(s);
    var v, t := ParseValue(s).value, Skip(s[1..]);
    var b := MarkKeeps(s);
    SkipAgain(s[1..]);
    if At(t, 0) == ']' {
      ClosedKeeps(s, "[" + b, t);
      q := "[" + b + "]";
      forall u {:trigger q + u} | Ends(u) ensures ParseValue(q + u) == Ok(v, u) { EmptyReads(b, u); }
    } else {
      var p := ItemsKeeps(t);
      KeepsBoth(s, "[" + b, t, p, ParseItems(t).rest);
      ClosedKeeps(s, "[" + b + p, ParseItems(t).rest);
      q := "[" + b + p + "]";
      forall u {:trigger q + u} | Ends(u) ensures ParseValue(q + u) == Ok(v, u) { ArrayReads(b, p, v.items, u); }
    }
  }

  lemma {:induction false} EmptyReads(b: string, u: string)
    requires Blank(b)
    ensures ParseValue("[" + b + "]" + u) == Ok(Array(NoItems), u)
  {
    var s := "[" + b + "]" + u;
    assert s[1..] == b + ("]" + u) && ("]" + u)[1..] == u;
    SkipBlank(b, "]" + u);
    IsArray(s);
  }

  lemma {:induction false} ArrayReads(b: string, p: string, items: Items, u: string)
    requires Blank(b) && p != "" && p[0] as int > 32 && p[0] != ']' && ReadsItems(p, items)
    ensures ParseValue("[" + b + p + "]" + u) == Ok(Array(items), u)
  {
    var s, t := "[" + b + p + "]" + u, p + ("]" + u);
    Nested("[", b, p, "]", u);
    assert s[1..] == b + t && t[0] == p[0];
    SkipBlank(b, t);
    ArrayStep(s, t, items, u);
  }

  /** Before a closing bracket, q is parsed as the items. */
  ghost predicate ReadsItems(q: string, items: Items) {
    forall u {:trigger q + u} :: At(u, 0) == ']' ==> ParseItems(q + u) == Ok(items, u)
  }

  /** What follows a value ends it, if a mark or a bracket is found past the blanks. */
  lemma {:induction false} MarkEnds(s: string)
    requires At(Skip(s), 0) in {',', ']', '}'}
    ensures Ends(s)
  {}

  /** A value and the blanks before the mark behind it. */
  lemma {:induction false} ItemKeeps(s: string) returns (p: string, b: string)
    requires ParseValue(s).Ok? && At(Skip(ParseValue(s).rest), 0) in {',', ']'} && WellQuoted(s)
    ensures p != "" && s != "" && p[0] == s[0] && Blank(b) && Reads(p, ParseValue(s).value)
    ensures Keeps(s, p + b, Skip(ParseValue(s).rest))
    decreases |s|, 2
  {
    var after := ParseValue(s).rest;
    MarkEnds(after);
    p := ValueKeeps(s);
    b := SkipKeeps(after);
    KeepsBoth(s, p, after, b, Skip(after));
  }

  lemma {:induction false} ItemsKeeps(s: string) returns (q: string)
    requires ParseItems(s).Ok? && At(ParseItems(s).rest, 0) == ']' && WellQuoted(s)
    ensures q != "" && s != "" && q[0] == s[0] && Keeps(s, q, ParseItems(s).rest) && ReadsItems(q, ParseItems(s).value)
    decreases |s|, 3
  {
    var v, t := ParseValue(s).value, Skip(ParseValue(s).rest);
    var p, b := ItemKeeps(s);
    if At(t, 0) != ',' {
      q := p + b;
      LastReads(p, b, v);
    } else {
      q := MoreItemsKeep(s, p, b);
    }
  }

  /** A comma behind what is kept, and the blanks after it. */
  lemma {:induction false} CommaKeeps(s: string, p: string, t: string) returns (c: string)
    requires Keeps(s, p, t) && At(t, 0) == ',' && WellQuoted(t)
    ensures Blank(c) && Keeps(s, p + ("," + c), Skip(t[1..])) && (At(Skip(t[1..]), 0) as int > 32 || Skip(t[1..]) == "")
  {
    c := MarkKeeps(t);
    KeepsBoth(s, p, t, "," + c, Skip(t[1..]));
    SkipStops(t[1..]);
  }

  lemma {:induction false} SkipStops(s: string)
    ensures At(Skip(s), 0) as int > 32 || Skip(s) == ""
  {
    if s != "" && s[0] as int <= 32 { SkipStops(s[1..]); }
  }

  lemma {:induction false} MoreItemsKeep(s: string, p: string, b: string) returns (q: string)
    requires ParseItems(s).Ok? && At(ParseItems(s).rest, 0) == ']' && At(Skip(ParseValue(s).rest), 0) == ','
    requires p != "" && s != "" && p[0] == s[0] && Blank(b) && Reads(p, ParseValue(s).value)
    requires Keeps(s, p + b, Skip(ParseValue(s).rest))
    ensures q != "" && q[0] == s[0] && Keeps(s, q, ParseItems(s).rest) && ReadsItems(q, ParseItems(s).value)
    decreases |s|, 2
  {
    var t := Skip(ParseValue(s).rest);
    var u := Skip(t[1..]);
    var c := CommaKeeps(s, p + b, t);
    var m := ItemsKeeps(u);
    KeepsBoth(s, p + b + ("," + c), u, m, ParseItems(u).rest);
    MoreReads(p, b, c, m, ParseValue(s).value, ParseItems(u).value);
    q := p + b + ("," + c) + m;
  }

  lemma {:induction false} BlankEnds(b: string, u: string)
    requires Blank(b) && Ends(u)
    ensures Ends(b + u)
  {
    if b == "" { assert b + u == u; }
  }

  lemma {:induction false} LastReads(p: string, b: string, v: Value)
    requires Blank(b) && Reads(p, v)
    ensures ReadsItems(p + b, Item(v, NoItems))
  {
    forall u {:trigger p + b + u} | At(u, 0) == ']' ensures ParseItems(p + b + u) == Ok(Item(v, NoItems), u) {
      assert p + b + u == p + (b + u);
      BlankEnds(b, u);
      SkipBlank(b, u);
    }
  }

  /** Blanks, a comma, blanks and more. */
  lemma {:induction false} CommaSkips(b: string, c: string, m: string)
    requires Blank(b) && Blank(c) && At(m, 0) as int > 32
    ensures var s := b + ("," + (c + m)); Ends(s) && At(Skip(s), 0) == ',' && Skip(Skip(s)[1..]) == m
  {
    var w := c + m;
    BlankEnds(b, "," + w);
    SkipBlank(b, "," + w);
    assert ("," + w)[1..] == w;
    SkipBlank(c, m);
  }

  lemma {:induction false} MoreReads(p: string, b: string, c: string, m: string, v: Value, next: Items)
    requires Blank(b) && Blank(c) && Reads(p, v) && ReadsItems(m, next) && m != "" && m[0] as int > 32
    ensures ReadsItems(p + b + ("," + c) + m, Item(v, next))
  {
    var q := p + b + ("," + c) + m;
    forall u {:trigger q + u} | At(u, 0) == ']' ensures ParseItems(q + u) == Ok(Item(v, next), u) {
      var w := b + ("," + (c + (m + u)));
      Commas(p, b, c, m, u);
      CommaSkips(b, c, m + u);
      assert ParseValue(p + w) == Ok(v, w);
    }
  }

  lemma {:induction false} Commas(p: string, b: string, c: string, m: string, u: string)
    ensures p + b + ("," + c) + m + u == p + (b + ("," + (c + (m + u))))
  {
    Nested(p, b, "," + c, m, u);
    assert "," + c + (m + u) == "," + (c + (m + u));
  }

  lemma {:induction false} ObjectKeeps(s: string) returns (q: string)
    requires At(s, 0) == '{' && ParseValue(s).Ok? && WellQuoted(s)
    ensures q != "" && q[0] == s[0] && Keeps(s, q, ParseValue(s).rest) && Reads(q, ParseValue(s).value)
    decreases |s|, 0
  {
    IsObject(s);
    var v, t := ParseValue(s).value, Skip(s[1..]);
    var b := MarkKeeps(s);
    SkipAgain(s[1..]);
    if At(t, 0) == '}' {
      ClosedKeeps(s, "{" + b, t);
      q := "{" + b + "}";
      forall u {:trigger q + u} | Ends(u) ensures ParseValue(q + u) == Ok(v, u) {
        assert q + u == "{" + (b + ("}" + u));
        EmptyObject(b, u);
      }
    } else {
      var p := MembersKeeps(t);
      KeepsBoth(s, "{" + b, t, p, ParseMembers(t).rest);
      ClosedKeeps(s, "{" + b + p, ParseMembers(t).rest);
      q := "{" + b + p + "}";
      forall u {:trigger q + u} | Ends(u) ensures ParseValue(q + u) == Ok(v, u) { ObjectReads(b, p, v.members, u); }
    }
  }

  lemma {:induction false} ObjectReads(b: string, p: string, ms: Members, u: string)
    requires Blank(b) && p != "" && p[0] == '\"' && ReadsMembers(p, ms)
    ensures ParseValue("{" + b + p + "}" + u) == Ok(Object(ms), u)
  {
    var s, t := "{" + b + p + "}" + u, p + ("}" + u);
    Nested("{", b, p, "}", u);
    assert s[1..] == b + t && t[0] == p[0];
    SkipBlank(b, t);
    ObjectStep(s, t, ms, u);
  }

  ghost predicate ReadsMembers(q: string, ms: Members) {
    forall u {:trigger q + u} :: At(u, 0) == '}' ==> ParseMembers(q + u) == Ok(ms, u)
  }

  /** q is parsed as the name, whatever follows. */
  ghost predicate ReadsName(q: string, name: string) {
    forall u {:trigger q + u} :: ParseString(q + u) == Ok(name, u)
  }

  /** A name, its colon and a value, blanks included. */
  function Pair(n: string, a: string, c: string, p: string): string { n + a + (":" + c) + p }

  lemma {:induction false} PairKeeps(s: string) returns (n: string, a: string, c: string, p: string)
    requires ParseMembers(s).Ok? && WellQuoted(s)
    requires var t := Skip(ParseString(s).rest); At(Skip(ParseValue(Skip(t[1..])).rest), 0) in {',', '}'}
    ensures var t := Skip(ParseString(s).rest);
            var x := ParseValue(Skip(t[1..]));
            At(s, 0) == '\"' && n != "" && n[0] == '\"' && Blank(a) && Blank(c) && p != "" && p[0] as int > 32
            && ReadsName(n, ParseString(s).value) && Reads(p, x.value) && Keeps(s, Pair(n, a, c, p), x.rest)
    decreases |s|, 1
  {
    var after := ParseString(s).rest;
    var t := Skip(after);
    n := StringKeeps(s);
    a := SkipKeeps(after);
    KeepsBoth(s, n, after, a, t);
    c := MarkKeeps(t);
    KeepsBoth(s, n + a, t, ":" + c, Skip(t[1..]));
    MarkEnds(ParseValue(Skip(t[1..])).rest);
    SkipAgain(t[1..]);
    p := ValueKeeps(Skip(t[1..]));
    KeepsBoth(s, n + a + (":" + c), Skip(t[1..]), p, ParseValue(Skip(t[1..])).rest);
    var _ := SkipKeeps(t[1..]);
  }

  lemma {:induction false} MembersKeeps(s: string) returns (q: string)
    requires ParseMembers(s).Ok? && At(ParseMembers(s).rest, 0) == '}' && WellQuoted(s)
    ensures q != "" && q[0] == '\"' && Keeps(s, q, ParseMembers(s).rest) && ReadsMembers(q, ParseMembers(s).value)
    decreases |s|, 2
  {
    var name, t := ParseString(s).value, Skip(ParseString(s).rest);
    var v, after := ParseValue(Skip(t[1..])).value, ParseValue(Skip(t[1..])).rest;
    var w := Skip(after);
    var n, a, c, p := PairKeeps(s);
    var b := SkipKeeps(after);
    KeepsBoth(s, Pair(n, a, c, p), after, b, w);
    if At(w, 0) != ',' {
      q := Pair(n, a, c, p) + b;
      LastMemberReads(n, a, c, p, b, name, v);
    } else {
      var d := CommaKeeps(s, Pair(n, a, c, p) + b, w);
      var m := MembersKeeps(Skip(w[1..]));
      var rest := ParseMembers(Skip(w[1..])).value;
      KeepsBoth(s, Pair(n, a, c, p) + b + ("," + d), Skip(w[1..]), m, ParseMembers(s).rest);
      q := Pair(n, a, c, p) + b + ("," + d) + m;
      MoreMembersRead(n, a, c, p, b, d, m, name, v, rest);
    }
  }

  lemma {:induction false} ColonSkips(a: string, c: string, m: string)
    requires Blank(a) && Blank(c) && At(m, 0) as int > 32
    ensures var s := a + (":" + (c + m)); At(Skip(s), 0) == ':' && Skip(Skip(s)[1..]) == m
  {
    var w := c + m;
    SkipBlank(a, ":" + w);
    assert (":" + w)[1..] == w;
    SkipBlank(c, m);
  }

  lemma {:induction false} Colons(n: string, a: string, c: string, p: string, u: string)
    ensures Pair(n, a, c, p) + u == n + (a + (":" + (c + (p + u))))
  {
    Nested(n, a, ":" + c, p, u);
    assert ":" + c + (p + u) == ":" + (c + (p + u));
  }

  /** s starts with a name, a colon and a value, and goes on with u. */
  predicate StartsPair(s: string, name: string, v: Value, u: string) {
    var x := ParseString(s);
    x.Ok? && x.value == name && At(Skip(x.rest), 0) == ':' && ParseValue(Skip(Skip(x.rest)[1..])) == Ok(v, u)
  }

  /** A name, blanks, a colon, blanks and a value are read as a pair. */
  lemma {:induction false} PairReads(n: string, a: string, c: string, p: string, name: string, v: Value, u: string)
    requires Blank(a) && Blank(c) && p != "" && p[0] as int > 32 && ReadsName(n, name) && Reads(p, v) && Ends(u)
    ensures StartsPair(Pair(n, a, c, p) + u, name, v, u)
  {
    var w := a + (":" + (c + (p + u)));
    Colons(n, a, c, p, u);
    ColonSkips(a, c, p + u);
    assert ParseString(n + w) == Ok(name, w);
    assert ParseValue(p + u) == Ok(v, u);
  }

  lemma {:induction false} PairLast(s: string, name: string, v: Value, w: string)
    requires StartsPair(s, name, v, w) && At(Skip(w), 0) != ','
    ensures ParseMembers(s) == Ok(Member(name, v, NoMembers), Skip(w))
  {}

  lemma {:induction false} PairMore(s: string, name: string, v: Value, w: string, ms: Members, end: string)
    requires StartsPair(s, name, v, w) && At(Skip(w), 0) == ',' && ParseMembers(Skip(Skip(w)[1..])) == Ok(ms, end)
    ensures ParseMembers(s) == Ok(Member(name, v, ms), end)
  {}

  lemma {:induction false} LastMemberReads(n: string, a: string, c: string, p: string, b: string, name: string,
      v: Value)
    requires Blank(a) && Blank(c) && Blank(b) && p != "" && p[0] as int > 32 && ReadsName(n, name) && Reads(p, v)
    ensures ReadsMembers(Pair(n, a, c, p) + b, Member(name, v, NoMembers))
  {
    var x := Pair(n, a, c, p);
    forall u {:trigger x + b + u} | At(u, 0) == '}'
        ensures ParseMembers(x + b + u) == Ok(Member(name, v, NoMembers), u) {
      assert x + b + u == x + (b + u);
      BlankEnds(b, u);
      SkipBlank(b, u);
      PairReads(n, a, c, p, name, v, b + u);
      PairLast(x + (b + u), name, v, b + u);
    }
  }

  lemma {:induction false} MoreMembersRead(n: string, a: string, c: string, p: string, b: string, d: string, m: string,
                                           name: string, v: Value, rest: Members)
    requires Blank(a) && Blank(c) && Blank(b) && Blank(d) && p != "" && p[0] as int > 32 && m != "" && m[0] == '\"'
    requires ReadsName(n, name) && Reads(p, v) && ReadsMembers(m, rest)
    ensures ReadsMembers(Pair(n, a, c, p) + b + ("," + d) + m, Member(name, v, rest))
  {
    var x := Pair(n, a, c, p);
    var q := x + b + ("," + d) + m;
    forall u {:trigger q + u} | At(u, 0) == '}' ensures ParseMembers(q + u) == Ok(Member(name, v, rest), u) {
      var w := b + ("," + (d + (m + u)));
      Commas(x, b, d, m, u);
      CommaSkips(b, d, m + u);
      PairReads(n, a, c, p, name, v, w);
      PairMore(x + w, name, v, w, rest, u);
    }
  }

  /** Minifying any accepted text whose literals are well formed keeps what it is parsed as. */
  lemma {:induction false} MinifyKeepsParse(s: string)
    requires ParseWhole(s).Ok? && WellQuoted(s)
    ensures Minify(s).Clean? && ParseWhole(Minify(s).text) == ParseWhole(s)
  {
    var x := Skip(s);
    var v, r := ParseValue(x).value, ParseValue(x).rest;
    var b := SkipKeeps(s);
    var q := ValueKeeps(x);
    var c := SkipKeeps(r);
    KeepsBoth(s, b, x, q, r);
    KeepsBoth(s, b + q, r, c, "");
    assert b + q + c + "" == b + (q + c);
    SkipBlank(b, q + c);
    SkipBlanks(c, "");
    assert c + "" == c;
  }
}
