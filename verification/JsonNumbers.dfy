/** Reading a number does not look past the number: what follows it can be exchanged. */
module JsonNumbers {
  import opened JsonText
  import opened JsonParse
  import opened JsonMinify

  /** What may follow a value. */
  predicate Ends(s: string) {
    s == "" || s[0] as int <= 32 || s[0] == ',' || s[0] == ']' || s[0] == '}'
  }

  predicate AllDigits(d: string) {
    forall i {:trigger d[i]} :: 0 <= i < |d| ==> IsDigit(d[i])
  }

  /** What was read of s when r is left. */
  function Front(s: string, r: string): string
    requires |r| <= |s|
  {
    s[..|s| - |r|]
  }

  /** s is p and then r. */
  predicate Splits(s: string, p: string, r: string) { |r| <= |s| && p == Front(s, r) && s == p + r }

  lemma {:induction false} SplitsTwice(s: string, p: string, t: string, q: string, r: string, u: string)
    requires Splits(s, p, t) && Splits(t, q, r)
    ensures Splits(s, p + q, r) && p + q + u == p + (q + u)
  {
    assert p + q + r == p + (q + r);
  }

  /** The first character of p and what follows. */
  lemma {:induction false} AtBoth(p: string, u: string)
    ensures At(p + u, 0) == if p != "" then p[0] else At(u, 0)
    ensures p == "" ==> p + u == u
  {}

  /** The first k characters, what is read behind them, and another rest in the place of r. */
  lemma {:induction false} LeadAt(s: string, k: nat, d: string, r: string, u: string)
    requires k <= |s| && Splits(s[k..], d, r)
    ensures |r| <= |s| && Front(s, r) == s[..k] + d && Splits(s, s[..k] + d, r)
    ensures (s[..k] + d + u)[k..] == d + u && (s[..k] + d + u)[..k] == s[..k]
  {
    assert s == s[..k] + s[k..];
  }

  lemma {:induction false} PlainCat(a: string, b: string)
    requires Plain(a) && (Plain(b) || AllDigits(b))
    ensures Plain(a + b)
  {
    forall i | 0 <= i < |a + b| ensures (a + b)[i] == if i < |a| then a[i] else b[i - |a|] {}
  }

  lemma {:induction false} DigitsAt(s: string, n: nat, count: nat, u: string)
    requires !IsDigit(At(u, 0))
    ensures var (m, k, r) := ReadDigits(s, n, count);
            var d := Front(s, r);
            Splits(s, d, r) && AllDigits(d) && (d == "" <==> !IsDigit(At(s, 0)))
                && ReadDigits(d + u, n, count) == (m, k, u)
  {
    if IsDigit(At(s, 0)) {
      DigitsAt(s[1..], n * 10 + DigitValue(s[0]), count + 1, u);
      MoreDigits(s, n, count, u);
    } else {
      assert Front(s, s) == "";
      AtBoth("", u);
    }
  }

  lemma {:induction false} MoreDigits(s: string, n: nat, count: nat, u: string)
    requires IsDigit(At(s, 0))
    requires var (m, k, r) := ReadDigits(s[1..], n * 10 + DigitValue(s[0]), count + 1);
             var e := Front(s[1..], r);
             Splits(s[1..], e, r) && AllDigits(e)
                 && ReadDigits(e + u, n * 10 + DigitValue(s[0]), count + 1) == (m, k, u)
    ensures var (m, k, r) := ReadDigits(s, n, count);
            var d := Front(s, r);
            Splits(s, d, r) && AllDigits(d) && d != "" && ReadDigits(d + u, n, count) == (m, k, u)
  {
    var r := ReadDigits(s, n, count).2;
    var e := Front(s[1..], r);
    LeadAt(s, 1, e, r, u);
    assert s[..1] == [s[0]];
    forall i | 0 <= i < |[s[0]] + e|
        ensures IsDigit(([s[0]] + e)[i]) { if i > 0 { assert ([s[0]] + e)[i] == e[i - 1]; } }
    assert ([s[0]] + e + u)[0] == s[0];
  }

  lemma {:induction false} WholeAt(s: string, u: string)
    requires !IsDigit(At(u, 0))
    ensures var (n, r) := ReadWhole(s);
            var p := Front(s, r);
            Splits(s, p, r) && AllDigits(p) && (p == "" <==> !('1' <= At(s, 0) <= '9')) && ReadWhole(p + u) == (n, u)
  {
    var p := Front(s, ReadWhole(s).1);
    AtBoth(p, u);
    if '1' <= At(s, 0) <= '9' { DigitsAt(s, 0, 0, u); }
  }

  lemma {:induction false} FractionAt(s: string, n: nat, u: string)
    requires !IsDigit(At(u, 0)) && At(u, 0) != '.'
    ensures var (m, places, r) := ReadFraction(s, n);
            var p := Front(s, r);
            Splits(s, p, r) && Plain(p) && (p != "" ==> p[0] == '.') && ReadFraction(p + u, n) == (m, places, u)
  {
    var r := ReadFraction(s, n).2;
    var p := Front(s, r);
    AtBoth(p, u);
    if At(s, 0) == '.' && IsDigit(At(s, 1)) {
      DigitsAt(s[1..], n, 0, u);
      var d := Front(s[1..], r);
      LeadAt(s, 1, d, r, u);
      AtBoth(d, u);
      assert s[..1] == ".";
      PlainCat(s[..1], d);
      assert At(p + u, 1) == At((p + u)[1..], 0);
    }
  }

  /** How many characters stand before the exponent's digits. */
  function Marks(s: string): nat { if At(s, 1) == '+' || At(s, 1) == '-' then 2 else 1 }

  function Signed(s: string, n: nat): int { if At(s, 1) == '-' then 0 - n else n }

  lemma {:induction false} ExponentIs(s: string)
    requires At(s, 0) == 'e' || At(s, 0) == 'E'
    ensures Marks(s) <= |s|
    ensures ReadExponent(s) == (Signed(s, ReadDigits(s[Marks(s)..], 0, 0).0), ReadDigits(s[Marks(s)..], 0, 0).2)
  {}

  /** The marks of s before other digits are the same marks, if the digits and what follows do not start with a sign. */
  lemma {:induction false} SameMarks(s: string, p: string, t: string)
    requires (At(s, 0) == 'e' || At(s, 0) == 'E') && Marks(s) <= |p| && p[..Marks(s)] == s[..Marks(s)]
             && p[Marks(s)..] == t
    requires At(t, 0) != '+' && At(t, 0) != '-'
    ensures At(p, 0) == At(s, 0) && Marks(p) == Marks(s) && forall n: nat :: Signed(p, n) == Signed(s, n)
  {
    assert p[0] == p[..Marks(s)][0] == s[0];
    if Marks(s) == 2 {
      assert p[1] == p[..2][1] == s[1];
    } else {
      assert At(p, 1) == At(t, 0);
    }
  }

  lemma {:induction false} MarksPlain(s: string)
    requires At(s, 0) == 'e' || At(s, 0) == 'E'
    ensures Plain(s[..Marks(s)])
  {
    var p := s[..Marks(s)];
    forall i | 0 <= i < |p| ensures p[i] in {'e', 'E', '+', '-'} { assert p[i] == s[i]; }
  }

  lemma {:induction false} MarkedShape(s: string)
    requires At(s, 0) == 'e' || At(s, 0) == 'E'
    ensures Marks(s) <= |s|
    ensures var r := ReadExponent(s).1;
            |r| <= |s[Marks(s)..]| && var p := s[..Marks(s)] + Front(s[Marks(s)..], r);
            Front(s, r) == p && Splits(s, p, r) && Plain(p) && p != "" && p[0] == s[0]
  {
    ExponentIs(s);
    var k, r := Marks(s), ReadExponent(s).1;
    DigitsAt(s[k..], 0, 0, "");
    LeadAt(s, k, Front(s[k..], r), r, "");
    MarksPlain(s);
    PlainCat(s[..k], Front(s[k..], r));
  }

  lemma {:induction false} MarkedReads(s: string, u: string)
    requires (At(s, 0) == 'e' || At(s, 0) == 'E') && Ends(u)
    ensures Marks(s) <= |s|
    ensures var (e, r) := ReadExponent(s);
            |r| <= |s[Marks(s)..]| && ReadExponent(s[..Marks(s)] + Front(s[Marks(s)..], r) + u) == (e, u)
  {
    ExponentIs(s);
    var k, r := Marks(s), ReadExponent(s).1;
    var d := Front(s[k..], r);
    DigitsAt(s[k..], 0, 0, u);
    LeadAt(s, k, d, r, u);
    AtBoth(d, u);
    SameMarks(s, s[..k] + d + u, d + u);
    ExponentIs(s[..k] + d + u);
  }

  lemma {:induction false} ExponentAt(s: string, u: string)
    requires Ends(u)
    ensures var (e, r) := ReadExponent(s);
            var p := Front(s, r);
            Splits(s, p, r) && Plain(p) && (p != "" ==> p[0] == 'e' || p[0] == 'E') && ReadExponent(p + u) == (e, u)
  {
    if At(s, 0) == 'e' || At(s, 0) == 'E' { MarkedShape(s); MarkedReads(s, u); } else { AtBoth("", u); }
  }

  lemma {:induction false} ScaledIs(s: string, n: nat, m: nat, places: nat, t: string, e: int, r: string)
    requires ReadFraction(s, n) == (m, places, t) && ReadExponent(t) == (e, r)
    ensures ReadScaled(s, n) == (Scale(m, e - places), r)
  {}

  /** A number's point, digits and exponent. */
  lemma {:induction false} ScaledAt(s: string, n: nat, u: string)
    requires Ends(u)
    ensures var (d, r) := ReadScaled(s, n);
            var p := Front(s, r);
            Splits(s, p, r) && Plain(p) && (p != "" ==> p[0] in {'.', 'e', 'E'}) && ReadScaled(p + u, n) == (d, u)
  {
    var (m, places, t) := ReadFraction(s, n);
    var (e, r) := ReadExponent(t);
    var f, x := Front(s, t), Front(t, r);
    ExponentAt(t, u);
    AtBoth(x, u);
    FractionAt(s, n, x + u);
    AtBoth(f, x);
    SplitsTwice(s, f, t, x, r, u);
    ScaledIs(s, n, m, places, t, e, r);
    ScaledIs(f + x + u, n, m, places, x + u, e, u);
  }

  lemma {:induction false} UnsignedAt(s: string, u: string)
    requires Ends(u)
    ensures var (d, r) := ReadUnsigned(s);
            var p := Front(s, r);
            Splits(s, p, r) && Plain(p) && ReadUnsigned(p + u) == (d, u)
  {
    if At(s, 0) == '0' {
      var r := ReadUnsigned(s).1;
      ZeroOr(s[1..], u);
      var p := Front(s[1..], r);
      LeadAt(s, 1, p, r, u);
      PlainCat(s[..1], p);
      assert s[..1] == "0";
    } else {
      ZeroOr(s, u);
    }
  }

  /** From after a leading zero, if there is one. */
  lemma {:induction false} ZeroOr(s: string, u: string)
    requires Ends(u)
    ensures var (n, t) := ReadWhole(s);
            var (d, r) := ReadScaled(t, n);
            var p := Front(s, r);
            Splits(s, p, r) && Plain(p)
            && ReadScaled(ReadWhole(p + u).1, ReadWhole(p + u).0) == (d, u) && (At(s, 0) != '0' ==> At(p + u, 0) != '0')
  {
    var (n, t) := ReadWhole(s);
    var (d, r) := ReadScaled(t, n);
    var w, x := Front(s, t), Front(t, r);
    ScaledAt(t, n, u);
    AtBoth(x, u);
    WholeAt(s, x + u);
    AtBoth(w, x + u);
    SplitsTwice(s, w, t, x, r, u);
  }

  lemma {:induction false} NegativeAt(s: string, u: string)
    requires At(s, 0) == '-' && Ends(u)
    ensures var r := ParseNumber(s);
            var p := Front(s, r.rest);
            Splits(s, p, r.rest) && Plain(p) && p != "" && p[0] == s[0] && ParseNumber(p + u) == Ok(r.value, u)
  {
    var (d, r) := ReadUnsigned(s[1..]);
    assert ParseNumber(s) == Ok(Number(-d), r);
    var p := Front(s[1..], r);
    UnsignedAt(s[1..], u);
    LeadAt(s, 1, p, r, u);
    assert s[..1] == "-";
    PlainCat(s[..1], p);
    Negated("-" + p + u, p + u, d, u);
  }

  lemma {:induction false} Negated(s: string, t: string, d: real, u: string)
    requires s != "" && s[0] == '-' && s[1..] == t && ReadUnsigned(t) == (d, u)
    ensures ParseNumber(s) == Ok(Number(-d), u)
  {}

  lemma {:induction false} NumberAt(s: string, u: string)
    requires (At(s, 0) == '-' || IsDigit(At(s, 0))) && Ends(u)
    ensures var r := ParseNumber(s);
            var p := Front(s, r.rest);
            Splits(s, p, r.rest) && Plain(p) && p != "" && p[0] == s[0] && ParseNumber(p + u) == Ok(r.value, u)
  {
    if s[0] == '-' { NegativeAt(s, u); } else { PositiveAt(s, u); }
  }

  lemma {:induction false} PositiveAt(s: string, u: string)
    requires IsDigit(At(s, 0)) && Ends(u)
    ensures var r := ParseNumber(s);
            var p := Front(s, r.rest);
            Splits(s, p, r.rest) && Plain(p) && p != "" && p[0] == s[0] && ParseNumber(p + u) == Ok(r.value, u)
  {
    var (d, r) := ReadUnsigned(s);
    assert ParseNumber(s) == Ok(Number(d), r);
    UnsignedAt(s, u);
    var p := Front(s, r);
    AtBoth(p, u);
    AtBoth(p, r);
  }
}
