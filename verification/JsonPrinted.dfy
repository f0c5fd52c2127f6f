/** What either printer writes is a text of the grammar of RFC 8259 and denotes the tree it was printed from. */
module JsonPrinted {
  import opened JsonText
  import opened JsonParse
  import opened JsonStrings
  import opened JsonNumbers
  import opened JsonAccepted
  import opened JsonGrammar

  function Gap(fmt: bool, s: string): string { if fmt then s else "" }

  /** The structure of a printed text. */
  function TreeOf(v: Value, depth: nat, fmt: bool): Tree
    decreases v
  {
    match v
    case Null => Word("null")
    case False => Word("false")
    case True => Word("true")
    case Number(d) => Num(Numeral(d < 0.0, Digits(if d.Floor < 0 then -d.Floor else d.Floor), "", NoExponent))
    case Str(s) => Quoted(Escape(s) + "\"")
    case Array(items) => Bracketed("", ElementsOf(items, depth + 1, fmt))
    case Object(NoMembers) => Braced(Gap(fmt, "\n" + Tabs(if depth == 0 then 0 else depth - 1)), NoPairs)
    case Object(ms) => Braced(Gap(fmt, "\n" + Tabs(depth + 1)), PairsOf(ms, depth, fmt))
  }

  function ElementsOf(items: Items, depth: nat, fmt: bool): Elements
    decreases items
  {
    if items.NoItems? then NoElements
    else Element(TreeOf(items.head, depth, fmt), "", Gap(fmt, " "), ElementsOf(items.next, depth, fmt))
  }

  /** The members of an object at the depth given. */
  function PairsOf(ms: Members, depth: nat, fmt: bool): Pairs
    decreases ms
  {
    if ms.NoMembers? then NoPairs
    else APair(Escape(ms.name) + "\"", "", Gap(fmt, "\t"), TreeOf(ms.value, depth + 1, fmt),
               if ms.rest.Member? then "" else Gap(fmt, "\n" + Tabs(depth)), Gap(fmt, "\n" + Tabs(depth + 1)),
               PairsOf(ms.rest, depth, fmt))
  }

  // ---------------------------------------------------------------- numbers and strings

  lemma {:induction false} DigitsWhole(n: nat)
    ensures AllDigits(Digits(n)) && Whole(Digits(n)) == n && (|Digits(n)| > 1 ==> Digits(n)[0] != '0')
    ensures n > 0 ==> Digits(n)[0] != '0'
    decreases n
  {
    if n >= 10 {
      DigitsWhole(n / 10);
      var s, c := Digits(n / 10), Digit(n % 10);
      assert Digits(n) == s + [c] && (s + [c])[..|s|] == s;
    } else {
      assert [Digit(n)][..0] == "";
    }
  }

  lemma {:induction false} NumeralIs(minus: bool, n: nat)
    ensures var x := Numeral(minus, Digits(n), "", NoExponent);
            ValidNumeral(x) && NumeralText(x) == (if minus then "-" + Digits(n) else Digits(n))
            && NumeralValue(x) == if minus then -(n as real) else n as real
  {
    DigitsWhole(n);
    assert Digits(n) + ("" + "") == Digits(n) && "" + Digits(n) == Digits(n);
  }

  lemma {:induction false} NumberDigits(d: real, n: nat)
    requires IsInt32(d) && n == if d.Floor < 0 then -d.Floor else d.Floor
    ensures NumberText(d) == if d.Floor < 0 then "-" + Digits(n) else Digits(n)
  {
    if d == 0.0 { assert Digits(0) == "0"; }
  }

  lemma {:induction false} NumberIs(d: real)
    requires IsInt32(d)
    ensures var t := TreeOf(Number(d), 0, false);
            Valid(t) && Written(t) == NumberText(d) && Means(t) == Number(d)
  {
    var n: nat := if d.Floor < 0 then -d.Floor else d.Floor;
    assert d == d.Floor as real && (d < 0.0 <==> d.Floor < 0);
    NumeralIs(d < 0.0, n);
    NumberDigits(d, n);
  }

  /** One character's escape is one token, which means the character. */
  lemma {:induction false} EscapeMeans(c: char, s: string)
    requires 0 < c as int < 256 && ValidQuoted(s)
    ensures var t := EscapeChar(c) + s; ValidQuoted(t) && Meaning(Tokens(t)) == [c] + Meaning(Tokens(s))
  {
    var e := EscapeChar(c);
    if |e| == 1 { PlainMeans(c, s); } else if |e| == 2 { PairMeans(c, e, s); } else { ControlMeans(c, s); }
  }

  lemma {:induction false} PlainMeans(c: char, s: string)
    requires 32 <= c as int && c != '\"' && c != '\\' && ValidQuoted(s)
    ensures ValidQuoted([c] + s) && Meaning(Tokens([c] + s)) == [c] + Meaning(Tokens(s))
  {
    var t := [c] + s;
    assert t[1..] == s && t[0] == c;
    assert Tokens(t) == [Byte(c)] + Tokens(s);
    OneMore(Byte(c), Tokens(s));
  }

  /** A backslash and a letter. */
  lemma {:induction false} PairMeans(c: char, e: string, s: string)
    requires e == EscapeChar(c) && |e| == 2 && ValidQuoted(s)
    ensures ValidQuoted(e + s) && Meaning(Tokens(e + s)) == [c] + Meaning(Tokens(s))
  {
    var t := e + s;
    assert t[2..] == s && t[0] == '\\' && t[1] == e[1];
    assert Tokens(t) == [Byte(c)] + Tokens(s);
    OneMore(Byte(c), Tokens(s));
  }

  lemma {:induction false} OneMore(x: Token, ts: seq<Token>)
    requires Paired(ts) && (x.Byte? || (0 < x.u < 0x80))
    ensures Paired([x] + ts) && Meaning([x] + ts) == [if x.Byte? then x.c else x.u as char] + Meaning(ts)
  {
    assert ([x] + ts)[1..] == ts;
  }

  /** A control character is written with its code in four hexadecimal digits. */
  lemma {:induction false} ControlMeans(c: char, s: string)
    requires 0 < c as int < 32 && |EscapeChar(c)| > 2 && ValidQuoted(s)
    ensures var t := EscapeChar(c) + s; ValidQuoted(t) && Meaning(Tokens(t)) == [c] + Meaning(Tokens(s))
  {
    var e := EscapeChar(c);
    var t := e + s;
    assert e == "\\u00" + [HexDigit(c as int / 16), HexDigit(c as int % 16)];
    assert t[6..] == s && forall i {:trigger t[i]} :: 0 <= i < 6 ==> t[i] == e[i];
    assert IsUnit(t) && UnitValue(t) == c as int;
    assert Tokens(t) == [Unit(c as int)] + Tokens(s);
    OneMore(Unit(c as int), Tokens(s));
  }

  lemma {:induction false} QuotedIs(s: string)
    requires CString(s)
    ensures ValidQuoted(Escape(s) + "\"") && Meaning(Tokens(Escape(s) + "\"")) == s
  {
    if s == "" {
      assert Escape(s) + "\"" == "\"";
    } else {
      QuotedIs(s[1..]);
      EscapeMeans(s[0], Escape(s[1..]) + "\"");
      assert EscapeChar(s[0]) + Escape(s[1..]) + "\"" == EscapeChar(s[0]) + (Escape(s[1..]) + "\"");
      assert s == [s[0]] + s[1..];
    }
  }

  lemma {:induction false} QuoteText(s: string)
    ensures "\"" + (Escape(s) + "\"") == Quote(s)
  {
    assert "\"" + Escape(s) + "\"" == "\"" + (Escape(s) + "\"");
  }

  // ---------------------------------------------------------------- trees

  lemma {:induction false} WhiteGap(fmt: bool, depth: nat)
    ensures White(Gap(fmt, "\n" + Tabs(depth))) && White(Gap(fmt, " ")) && White(Gap(fmt, "\t"))
  {
    var s := "\n" + Tabs(depth);
    forall i | 0 <= i < |s| ensures s[i] == '\n' || s[i] == '\t' { if i > 0 { assert s[i] == Tabs(depth)[i - 1]; } }
  }

  /** Formatted or not, what is printed for a tree is a text of the grammar that denotes it. */
  lemma {:induction false} PrintedDenotes(v: Value, depth: nat, fmt: bool)
    requires Printable(v)
    ensures var t := TreeOf(v, depth, fmt); Valid(t) && Written(t) == Text(v, depth, fmt) && Means(t) == v
    decreases v, 1
  {
    match v
    case Number(d) => NumberIs(d);
    case Str(s) => QuotedIs(s); QuoteText(s);
    case Array(items) => ArrayDenotes(items, depth, fmt);
    case Object(ms) => ObjectDenotes(ms, depth, fmt);
    case _ =>
  }

  lemma {:induction false} ArrayDenotes(items: Items, depth: nat, fmt: bool)
    requires PrintableItems(items)
    ensures var t := TreeOf(Array(items), depth, fmt);
            Valid(t) && Written(t) == Text(Array(items), depth, fmt) && Means(t) == Array(items)
    decreases items, 1
  {
    if items.Item? { ElementsDenote(items, depth + 1, fmt); }
    assert "[" + "" == "[";
  }

  lemma {:induction false} ElementsDenote(items: Items, depth: nat, fmt: bool)
    requires PrintableItems(items) && items.Item?
    ensures var es := ElementsOf(items, depth, fmt);
            ValidElements(es) && WrittenElements(es) == ItemsText(items, depth, fmt) && MeansElements(es) == items
    decreases items, 0
  {
    var t := Text(items.head, depth, fmt);
    PrintedDenotes(items.head, depth, fmt);
    WhiteGap(fmt, 0);
    assert t + "" == t;
    if items.next.Item? {
      ElementsDenote(items.next, depth, fmt);
      assert "," + Gap(fmt, " ") == if fmt then ", " else ",";
    }
  }

  lemma {:induction false} ObjectDenotes(ms: Members, depth: nat, fmt: bool)
    requires PrintableMembers(ms)
    ensures var t := TreeOf(Object(ms), depth, fmt);
            Valid(t) && Written(t) == Text(Object(ms), depth, fmt) && Means(t) == Object(ms)
    decreases ms, 1
  {
    if ms.NoMembers? {
      var d := if depth == 0 then 0 else depth - 1;
      WhiteGap(fmt, d);
      BareText(Gap(fmt, "\n" + Tabs(d)), depth, fmt, Tabs(d));
    } else {
      WhiteGap(fmt, depth + 1);
      PairsDenote(ms, depth, fmt);
      BraceText(ms, depth, fmt);
    }
  }

  lemma {:induction false} BareText(blank: string, depth: nat, fmt: bool, tabs: string)
    requires blank == Gap(fmt, "\n" + tabs) && tabs == Tabs(if depth == 0 then 0 else depth - 1)
    ensures "{" + blank + "" + "}" == Text(Object(NoMembers), depth, fmt)
  {
    assert "{" + ("\n" + tabs) + "" + "}" == "{\n" + tabs + "}";
  }

  lemma {:induction false} BraceText(ms: Members, depth: nat, fmt: bool)
    requires ms.Member?
    requires Gap(fmt, Tabs(depth + 1)) + WrittenPairs(PairsOf(ms, depth, fmt))
             == MembersText(ms, depth + 1, fmt) + Gap(fmt, Tabs(depth))
    ensures "{" + Gap(fmt, "\n" + Tabs(depth + 1)) + WrittenPairs(PairsOf(ms, depth, fmt)) + "}"
         == Text(Object(ms), depth, fmt)
  {
    var p, m := WrittenPairs(PairsOf(ms, depth, fmt)), MembersText(ms, depth + 1, fmt);
    if fmt { Formatted(Tabs(depth + 1), p, m, Tabs(depth)); } else { Plain(p, m); }
  }

  lemma {:induction false} Formatted(a: string, p: string, m: string, d: string)
    requires a + p == m + d
    ensures "{" + ("\n" + a) + p + "}" == "{\n" + m + d + "}"
  {
    assert "{" + ("\n" + a) + p + "}" == "{\n" + (a + p) + "}";
    assert "{\n" + (m + d) + "}" == "{\n" + m + d + "}";
  }

  lemma {:induction false} Plain(p: string, m: string)
    requires "" + p == m + ""
    ensures "{" + "" + p + "}" == "{" + m + "}"
  {
    assert "" + p == p && m + "" == m && "{" + "" == "{";
  }

  lemma {:induction false} PairsDenote(ms: Members, depth: nat, fmt: bool)
    requires PrintableMembers(ms) && ms.Member?
    ensures var ps := PairsOf(ms, depth, fmt);
            ValidPairs(ps) && MeansPairs(ps) == ms
            && Gap(fmt, Tabs(depth + 1)) + WrittenPairs(ps) == MembersText(ms, depth + 1, fmt) + Gap(fmt, Tabs(depth))
    decreases ms, 0
  {
    PrintedDenotes(ms.value, depth + 1, fmt);
    QuotedIs(ms.name);
    QuoteText(ms.name);
    WhiteGap(fmt, depth);
    WhiteGap(fmt, depth + 1);
    if ms.rest.Member? {
      PairsDenote(ms.rest, depth, fmt);
      MorePairsText(ms, depth, fmt, WrittenPairs(PairsOf(ms.rest, depth, fmt)));
    } else {
      LastPairText(ms, depth, fmt);
    }
  }

  lemma {:induction false} LastPairText(ms: Members, depth: nat, fmt: bool)
    requires ms.Member? && ms.rest.NoMembers?
    ensures Gap(fmt, Tabs(depth + 1))
            + (Pair(Quote(ms.name), "", Gap(fmt, "\t"), Text(ms.value, depth + 1, fmt)) + Gap(fmt, "\n" + Tabs(depth)))
         == MembersText(ms, depth + 1, fmt) + Gap(fmt, Tabs(depth))
  {
    var tabs, d := Gap(fmt, Tabs(depth + 1)), Gap(fmt, Tabs(depth));
    var q, t := Quote(ms.name), Text(ms.value, depth + 1, fmt);
    var nl := Gap(fmt, "\n");
    Colon(fmt);
    assert Gap(fmt, "\n" + Tabs(depth)) == nl + d;
    LastNest(tabs, q, ":" + Gap(fmt, "\t"), t, nl, d);
  }

  lemma {:induction false} Colon(fmt: bool)
    ensures ":" + Gap(fmt, "\t") == if fmt then ":\t" else ":"
  {}

  lemma {:induction false} LastNest(a: string, q: string, c: string, t: string, nl: string, d: string)
    ensures a + (q + "" + c + t + (nl + d)) == a + q + c + t + "" + nl + "" + d
  {}

  lemma {:induction false} MorePairsText(ms: Members, depth: nat, fmt: bool, more: string)
    requires ms.Member? && ms.rest.Member?
    requires Gap(fmt, Tabs(depth + 1)) + more == MembersText(ms.rest, depth + 1, fmt) + Gap(fmt, Tabs(depth))
    ensures Gap(fmt, Tabs(depth + 1))
            + (Pair(Quote(ms.name), "", Gap(fmt, "\t"), Text(ms.value, depth + 1, fmt)) + ""
               + ("," + Gap(fmt, "\n" + Tabs(depth + 1))) + more)
         == MembersText(ms, depth + 1, fmt) + Gap(fmt, Tabs(depth))
  {
    var tabs, d := Gap(fmt, Tabs(depth + 1)), Gap(fmt, Tabs(depth));
    var q, t := Quote(ms.name), Text(ms.value, depth + 1, fmt);
    var nl, rest := Gap(fmt, "\n"), MembersText(ms.rest, depth + 1, fmt);
    Colon(fmt);
    assert Gap(fmt, "\n" + Tabs(depth + 1)) == nl + tabs;
    MoreNest(tabs, q, ":" + Gap(fmt, "\t"), t, nl, more, rest, d);
  }

  lemma {:induction false} MoreNest(a: string, q: string, c: string, t: string, nl: string, more: string, rest: string,
      d: string)
    requires a + more == rest + d
    ensures a + (q + "" + c + t + "" + ("," + (nl + a)) + more) == a + q + c + t + "," + nl + rest + d
  {
    assert q + "" + c + t + "" + ("," + (nl + a)) + more == q + c + t + "," + nl + (a + more);
    assert a + (q + c + t + "," + nl + (rest + d)) == a + q + c + t + "," + nl + rest + d;
  }
}
