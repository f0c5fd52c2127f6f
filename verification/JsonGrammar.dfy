/**
  RFC 8259 as a grammar of its own: what its texts are and what they denote. The parser accepts every one of them with
  that meaning, and what is printed is one of them.
 */
module JsonGrammar {
  import opened JsonText
  import opened JsonParse
  import opened JsonStrings
  import opened JsonNumbers
  import opened JsonRoundTrip
  import opened JsonAccepted

  // ---------------------------------------------------------------- the grammar

  /** Section 6: a number. fraction is empty, or the digits behind the point. */
  datatype Numeral = Numeral(minus: bool, whole: string, fraction: string, exponent: Exponent)

  datatype Exponent = NoExponent | Exponent(mark: char, sign: string, digits: string)

  /** A text with its structure; a quoted one is what stands behind the opening quote. */
  datatype Tree =
    | Word(name: string)
    | Num(n: Numeral)
    | Quoted(body: string)
    | Bracketed(blank: string, elements: Elements)
    | Braced(blank: string, pairs: Pairs)

  /** after: the blanks behind the value; before: those behind the comma. */
  datatype Elements = NoElements | Element(t: Tree, after: string, before: string, next: Elements)

  /** a and c: the blanks before and behind the colon. */
  datatype Pairs =
    | NoPairs
    | APair(name: string, a: string, c: string, t: Tree, after: string, before: string, next: Pairs)

  /** Section 2: insignificant white space. */
  predicate White(s: string) {
    forall i {:trigger s[i]} :: 0 <= i < |s| ==> s[i] == ' ' || s[i] == '\t' || s[i] == '\n' || s[i] == '\r'
  }

  predicate ValidNumeral(n: Numeral) {
    AllDigits(n.whole) && n.whole != "" && (|n.whole| > 1 ==> n.whole[0] != '0') && AllDigits(n.fraction)
    && (n.exponent.Exponent? ==>
          (n.exponent.mark == 'e' || n.exponent.mark == 'E')
          && (n.exponent.sign == "" || n.exponent.sign == "+" || n.exponent.sign == "-")
          && n.exponent.digits != "" && AllDigits(n.exponent.digits))
  }

  ghost predicate ValidQuoted(body: string) { WellFormed(body) && AfterQuote(body) == "" }

  ghost predicate Valid(t: Tree)
    decreases t
  {
    match t
    case Word(name) => name == "null" || name == "false" || name == "true"
    case Num(n) => ValidNumeral(n)
    case Quoted(body) => ValidQuoted(body)
    case Bracketed(blank, elements) => White(blank) && ValidElements(elements)
    case Braced(blank, pairs) => White(blank) && ValidPairs(pairs)
  }

  ghost predicate ValidElements(es: Elements)
    decreases es
  {
    es.Element? ==> Valid(es.t) && White(es.after) && White(es.before) && ValidElements(es.next)
  }

  ghost predicate ValidPairs(ps: Pairs)
    decreases ps
  {
    ps.APair? ==>
      ValidQuoted(ps.name) && White(ps.a) && White(ps.c) && Valid(ps.t) && White(ps.after) && White(ps.before)
      && ValidPairs(ps.next)
  }

  function FractionText(fraction: string): string { if fraction == "" then "" else "." + fraction }

  function ExponentText(e: Exponent): string {
    if e.NoExponent? then "" else [e.mark] + (e.sign + e.digits)
  }

  function NumeralText(n: Numeral): string {
    (if n.minus then "-" else "") + (n.whole + (FractionText(n.fraction) + ExponentText(n.exponent)))
  }

  function Written(t: Tree): string
    decreases t
  {
    match t
    case Word(name) => name
    case Num(n) => NumeralText(n)
    case Quoted(body) => "\"" + body
    case Bracketed(blank, elements) => "[" + blank + WrittenElements(elements) + "]"
    case Braced(blank, pairs) => "{" + blank + WrittenPairs(pairs) + "}"
  }

  function WrittenElements(es: Elements): string
    decreases es
  {
    match es
    case NoElements => ""
    case Element(t, after, _, NoElements) => Written(t) + after
    case Element(t, after, before, next) => Written(t) + after + ("," + before) + WrittenElements(next)
  }

  function WrittenPairs(ps: Pairs): string
    decreases ps
  {
    match ps
    case NoPairs => ""
    case APair(name, a, c, t, after, _, NoPairs) => Pair("\"" + name, a, c, Written(t)) + after
    case APair(name, a, c, t, after, before, next) =>
      Pair("\"" + name, a, c, Written(t)) + after + ("," + before) + WrittenPairs(next)
  }

  // ---------------------------------------------------------------- what it denotes

  function ValueOf(c: char): int { c as int - '0' as int }

  /** Decimal digits, the most significant first. */
  function Whole(ds: string): int {
    if ds == "" then 0 else Whole(ds[..|ds| - 1]) * 10 + ValueOf(ds[|ds| - 1])
  }

  /** Digits behind a point. */
  function Fraction(ds: string): real {
    if ds == "" then 0.0 else (ValueOf(ds[0]) as real + Fraction(ds[1..])) / 10.0
  }

  function Tens(k: nat): (t: real)
    ensures t > 0.0
  {
    if k == 0 then 1.0 else 10.0 * Tens(k - 1)
  }

  /** The power of ten the exponent asks for. */
  function Shifted(x: real, e: Exponent): real {
    if e.NoExponent? || Whole(e.digits) < 0 then x
    else if e.sign == "-" then x / Tens(Whole(e.digits))
    else x * Tens(Whole(e.digits))
  }

  function NumeralValue(n: Numeral): real {
    var x := Shifted(Whole(n.whole) as real + Fraction(n.fraction), n.exponent);
    if n.minus then -x else x
  }

  ghost function Means(t: Tree): Value
    requires Valid(t)
    decreases t
  {
    match t
    case Word(name) => if name == "null" then Null else if name == "false" then False else True
    case Num(n) => Number(NumeralValue(n))
    case Quoted(body) => Str(Meaning(Tokens(body)))
    case Bracketed(_, elements) => Array(MeansElements(elements))
    case Braced(_, pairs) => Object(MeansPairs(pairs))
  }

  ghost function MeansElements(es: Elements): Items
    requires ValidElements(es)
    decreases es
  {
    if es.NoElements? then NoItems else Item(Means(es.t), MeansElements(es.next))
  }

  ghost function MeansPairs(ps: Pairs): Members
    requires ValidPairs(ps)
    decreases ps
  {
    if ps.NoPairs? then NoMembers else Member(Meaning(Tokens(ps.name)), Means(ps.t), MeansPairs(ps.next))
  }

  /** Section 7: what the two-character escapes stand for, and the values of the hexadecimal digits. */
  lemma {:induction false} EscapesMean()
    ensures SimpleEscape('\"') as int == 0x22 && SimpleEscape('\\') as int == 0x5C && SimpleEscape('/') as int == 0x2F
    ensures SimpleEscape('b') as int == 0x8 && SimpleEscape('f') as int == 0xC && SimpleEscape('n') as int == 0xA
            && SimpleEscape('r') as int == 0xD && SimpleEscape('t') as int == 0x9
    ensures forall k {:trigger "0123456789ABCDEF"[k]} :: 0 <= k < 16 ==> HexValue("0123456789ABCDEF"[k]) == k
    ensures forall k {:trigger "0123456789abcdef"[k]} :: 0 <= k < 16 ==> HexValue("0123456789abcdef"[k]) == k
  {}

  // ---------------------------------------------------------------- numbers

  /** The number whose digits are n's and then ds. */
  function Onto(n: nat, ds: string): nat
    requires AllDigits(ds)
    decreases |ds|
  {
    if ds == "" then n else Onto(n * 10 + DigitValue(ds[0]), ds[1..])
  }

  lemma {:induction false} DigitsOnto(ds: string, u: string, n: nat, count: nat)
    requires AllDigits(ds) && !IsDigit(At(u, 0))
    ensures ReadDigits(ds + u, n, count) == (Onto(n, ds), count + |ds|, u)
    decreases |ds|
  {
    if ds == "" {
      assert ds + u == u;
    } else {
      assert (ds + u)[1..] == ds[1..] + u && (ds + u)[0] == ds[0];
      DigitsOnto(ds[1..], u, n * 10 + DigitValue(ds[0]), count + 1);
    }
  }

  lemma {:induction false} OntoLast(n: nat, ds: string, c: char)
    requires AllDigits(ds) && IsDigit(c) && AllDigits(ds + [c])
    ensures Onto(n, ds + [c]) == Onto(n, ds) * 10 + DigitValue(c)
    decreases |ds|
  {
    if ds == "" {
      assert (ds + [c])[1..] == "";
    } else {
      assert (ds + [c])[1..] == ds[1..] + [c];
      OntoLast(n * 10 + DigitValue(ds[0]), ds[1..], c);
    }
  }

  lemma {:induction false} OntoWhole(ds: string)
    requires AllDigits(ds)
    ensures Onto(0, ds) == Whole(ds)
    decreases |ds|
  {
    if ds != "" {
      var s, c := ds[..|ds| - 1], ds[|ds| - 1];
      assert ds == s + [c];
      OntoWhole(s);
      OntoLast(0, s, c);
    }
  }

  /** Digits read onto a number, and the point put before them again. */
  lemma {:induction false} OntoFraction(n: nat, ds: string)
    requires AllDigits(ds)
    ensures Onto(n, ds) as real == (n as real + Fraction(ds)) * Tens(|ds|)
    decreases |ds|
  {
    if ds != "" {
      var d, t, f := DigitValue(ds[0]), Tens(|ds| - 1), Fraction(ds[1..]);
      OntoFraction(n * 10 + d, ds[1..]);
      assert (n * 10 + d) as real == n as real * 10.0 + d as real;
      assert Fraction(ds) == (d as real + f) / 10.0;
      Regrouped(n as real, d as real, f, t);
    }
  }

  lemma {:induction false} Regrouped(n: real, d: real, f: real, t: real)
    ensures (n * 10.0 + d + f) * t == (n + (d + f) / 10.0) * (10.0 * t)
  {}

  lemma {:induction false} PowNext(j: int)
    ensures Pow10(j + 1) == 10.0 * Pow10(j)
  {}

  lemma {:induction false} PowTens(k: nat)
    ensures Pow10(k) == Tens(k) && Pow10(0 - k) * Tens(k) == 1.0
  {
    if k > 0 {
      PowTens(k - 1);
      PowNext(0 - k);
      Cancel(Pow10(0 - k), Tens(k - 1));
    }
  }

  lemma {:induction false} Cancel(p: real, t: real)
    requires 10.0 * p * t == 1.0
    ensures p * (10.0 * t) == 1.0
  {}

  lemma {:induction false} PowMinus(e: int, k: nat)
    ensures Pow10(e - k) * Tens(k) == Pow10(e)
  {
    if k > 0 {
      PowMinus(e, k - 1);
      PowNext(e - k);
      Moved(Pow10(e - k), Tens(k - 1));
    }
  }

  lemma {:induction false} Moved(p: real, t: real)
    ensures p * (10.0 * t) == 10.0 * p * t
  {}

  /** What the exponent's reader returns. */
  function Power(e: Exponent): int
    requires e.Exponent? ==> AllDigits(e.digits)
  {
    if e.NoExponent? then 0 else if e.sign == "-" then 0 - Onto(0, e.digits) else Onto(0, e.digits)
  }

  lemma {:induction false} ScaleIs(x: real, m: nat, k: nat, e: int)
    requires m as real == x * Tens(k)
    ensures Scale(m, e - k) == x * Pow10(e)
  {
    PowMinus(e, k);
    Together(x, Tens(k), Pow10(e - k));
  }

  lemma {:induction false} PowerShifts(x: real, e: Exponent)
    requires e.Exponent? ==> AllDigits(e.digits)
    ensures x * Pow10(Power(e)) == Shifted(x, e)
  {
    if e.Exponent? {
      OntoWhole(e.digits);
      var w: nat := Onto(0, e.digits);
      PowTens(w);
      if e.sign == "-" { Inverse(x, Pow10(0 - w), Tens(w)); }
    }
  }

  lemma {:induction false} Together(x: real, t: real, p: real)
    ensures (x * t) * p == x * (p * t)
  {}

  lemma {:induction false} Inverse(x: real, p: real, t: real)
    requires p * t == 1.0 && t > 0.0
    ensures x * p == x / t
  {
    Together(x, p, t);
    Divided(x * p, t, x);
  }

  lemma {:induction false} Divided(y: real, t: real, x: real)
    requires y * t == x && t > 0.0
    ensures y == x / t
  {}

  // ---------------------------------------------------------------- reading a number

  /** From behind the whole part: the fraction and the exponent. */
  lemma {:induction false} FractionReads(ds: string, u: string, n: nat)
    requires AllDigits(ds) && !IsDigit(At(u, 0)) && At(u, 0) != '.'
    ensures ReadFraction(FractionText(ds) + u, n) == (Onto(n, ds), |ds|, u)
  {
    if ds == "" {
      assert FractionText(ds) + u == u;
    } else {
      var s := FractionText(ds) + u;
      assert s == "." + (ds + u) && s[1..] == ds + u && At(s, 1) == ds[0];
      DigitsOnto(ds, u, n, 0);
    }
  }

  lemma {:induction false} ExponentReads(e: Exponent, u: string)
    requires Ends(u)
    requires e.Exponent? ==>
               (e.mark == 'e' || e.mark == 'E') && (e.sign == "" || e.sign == "+" || e.sign == "-")
               && e.digits != "" && AllDigits(e.digits)
    ensures ReadExponent(ExponentText(e) + u) == (Power(e), u)
  {
    if e.NoExponent? {
      assert ExponentText(e) + u == u;
    } else {
      SignReads(e, u);
      DigitsOnto(e.digits, u, 0, 0);
      ExponentIs(ExponentText(e) + u);
    }
  }

  /** The mark and the sign, and that the digits stand behind them. */
  lemma {:induction false} SignReads(e: Exponent, u: string)
    requires e.Exponent? && (e.sign == "" || e.sign == "+" || e.sign == "-") && e.digits != "" && AllDigits(e.digits)
    ensures var s := ExponentText(e) + u;
            At(s, 0) == e.mark && Marks(s) <= |s| && s[Marks(s)..] == e.digits + u
            && (At(s, 1) == '-' <==> e.sign == "-")
  {
    var s, t := ExponentText(e) + u, e.digits + u;
    assert s == [e.mark] + (e.sign + t);
    if e.sign == "" { Unsigned(e.mark, e.digits, u, s); } else { SignFirst(e.mark, e.sign, t, s); }
  }

  lemma {:induction false} Unsigned(mark: char, digits: string, u: string, s: string)
    requires digits != "" && AllDigits(digits) && s == [mark] + ("" + (digits + u))
    ensures At(s, 0) == mark && Marks(s) == 1 && s[1..] == digits + u && At(s, 1) != '-'
  {
    assert At(s, 1) == digits[0];
  }

  lemma {:induction false} SignFirst(mark: char, sign: string, t: string, s: string)
    requires (sign == "+" || sign == "-") && s == [mark] + (sign + t)
    ensures At(s, 0) == mark && Marks(s) == 2 <= |s| && s[2..] == t && (At(s, 1) == '-' <==> sign == "-")
  {
    assert At(s, 1) == sign[0];
  }

  lemma {:induction false} WholeReads(ds: string, u: string)
    requires AllDigits(ds) && ds != "" && (|ds| > 1 ==> ds[0] != '0') && !IsDigit(At(u, 0))
    ensures var s := ds + u; ReadWhole(if At(s, 0) == '0' then s[1..] else s) == (Onto(0, ds), u)
  {
    var s := ds + u;
    assert At(s, 0) == ds[0];
    if ds[0] == '0' {
      assert ds == "0" && s[1..] == u && ds[1..] == "";
    } else {
      DigitsOnto(ds, u, 0, 0);
    }
  }

  function MarksText(n: Numeral): string { FractionText(n.fraction) + ExponentText(n.exponent) }

  lemma {:induction false} MarksStart(n: Numeral, u: string)
    requires ValidNumeral(n) && Ends(u)
    ensures var e := ExponentText(n.exponent) + u;
            !IsDigit(At(e, 0)) && At(e, 0) != '.' && !IsDigit(At(MarksText(n) + u, 0))
            && MarksText(n) + u == FractionText(n.fraction) + e
  {
    var e := ExponentText(n.exponent) + u;
    assert MarksText(n) + u == FractionText(n.fraction) + e;
    AtBoth(ExponentText(n.exponent), u);
    AtBoth(FractionText(n.fraction), e);
  }

  lemma {:induction false} MarksRead(n: Numeral, u: string, w: nat)
    requires ValidNumeral(n) && Ends(u)
    ensures ReadScaled(MarksText(n) + u, w) == (Scale(Onto(w, n.fraction), Power(n.exponent) - |n.fraction|), u)
  {
    var e := ExponentText(n.exponent) + u;
    MarksStart(n, u);
    FractionReads(n.fraction, e, w);
    ExponentReads(n.exponent, u);
    ScaledIs(MarksText(n) + u, w, Onto(w, n.fraction), |n.fraction|, e, Power(n.exponent), u);
  }

  lemma {:induction false} ScaledFrom(x: real, m: nat, k: nat, e: Exponent)
    requires m as real == x * Tens(k) && (e.Exponent? ==> AllDigits(e.digits))
    ensures Scale(m, Power(e) - k) == Shifted(x, e)
  {
    ScaleIs(x, m, k, Power(e));
    PowerShifts(x, e);
  }

  lemma {:induction false} ScaledShifts(w: nat, ds: string, e: Exponent)
    requires AllDigits(ds) && (e.Exponent? ==> AllDigits(e.digits))
    ensures Scale(Onto(w, ds), Power(e) - |ds|) == Shifted(w as real + Fraction(ds), e)
  {
    var x, m := w as real + Fraction(ds), Onto(w, ds);
    OntoFraction(w, ds);
    ScaledFrom(x, m, |ds|, e);
  }

  /** The unsigned numeral is read as the number it denotes. */
  lemma {:induction false} UnsignedReads(n: Numeral, u: string)
    requires ValidNumeral(n) && Ends(u)
    ensures ReadUnsigned(n.whole + MarksText(n) + u)
         == (Shifted(Whole(n.whole) as real + Fraction(n.fraction), n.exponent), u)
  {
    var t, w := MarksText(n) + u, Onto(0, n.whole);
    MarksStart(n, u);
    assert n.whole + MarksText(n) + u == n.whole + t;
    WholeReads(n.whole, t);
    MarksRead(n, u, w);
    ScaledShifts(w, n.fraction, n.exponent);
    OntoWhole(n.whole);
  }

  lemma {:induction false} NumeralAt(n: Numeral, x: string, u: string)
    requires ValidNumeral(n) && Ends(u) && x == n.whole + MarksText(n)
    ensures ParseNumber((if n.minus then "-" + x else x) + u) == Ok(Number(NumeralValue(n)), u)
  {
    UnsignedReads(n, u);
    if n.minus { assert ("-" + x + u)[1..] == x + u; } else { assert (x + u)[0] == n.whole[0]; }
  }

  lemma {:induction false} NumeralStarts(n: Numeral, x: string)
    requires ValidNumeral(n) && x == n.whole + MarksText(n)
    ensures var q := NumeralText(n);
            q == (if n.minus then "-" + x else x) && q != "" && (q[0] == '-' || IsDigit(q[0]))
  {
    assert x[0] == n.whole[0];
    assert "" + x == x;
  }

  lemma {:induction false} NumeralReads(n: Numeral)
    requires ValidNumeral(n)
    ensures var q := NumeralText(n);
            q != "" && (q[0] == '-' || IsDigit(q[0])) && Reads(q, Number(NumeralValue(n)))
  {
    var q, x := NumeralText(n), n.whole + MarksText(n);
    NumeralStarts(n, x);
    forall u {:trigger q + u} | Ends(u) ensures ParseValue(q + u) == Ok(Number(NumeralValue(n)), u) {
      NumeralAt(n, x, u);
      assert (q + u)[0] == q[0];
      JsonRoundTrip.IsNumber(q + u);
    }
  }

  // ---------------------------------------------------------------- every text of the grammar is parsed

  lemma {:induction false} WhiteBlank(s: string)
    requires White(s)
    ensures Blank(s)
  {}

  lemma {:induction false} WordReads(v: Value)
    requires v.Null? || v.False? || v.True?
    ensures Reads(Text(v, 0, false), v)
  {
    var q := Text(v, 0, false);
    forall u {:trigger q + u} | Ends(u) ensures ParseValue(q + u) == Ok(v, u) { WordRoundTrip(v, 0, false, u); }
  }

  /** A literal is read as the string it means. */
  lemma {:induction false} NameReads(body: string)
    requires ValidQuoted(body)
    ensures ReadsName("\"" + body, Meaning(Tokens(body)))
  {
    var q := "\"" + body;
    UnescapeMeaning(body);
    AfterIs(body);
    assert body[Len(body)..] == "" && body[..Len(body)] == body;
    forall u {:trigger q + u} ensures ParseString(q + u) == Ok(Meaning(Tokens(body)), u) { QuoteReads(body, u); }
  }

  lemma {:induction false} QuotedReads(body: string)
    requires ValidQuoted(body)
    ensures Reads("\"" + body, Str(Meaning(Tokens(body))))
  {
    var q, x := "\"" + body, Meaning(Tokens(body));
    NameReads(body);
    forall u {:trigger q + u} | Ends(u) ensures ParseValue(q + u) == Ok(Str(x), u) {
      assert ParseString(q + u) == Ok(x, u);
      JsonRoundTrip.IsString(q + u, x, u);
    }
  }

  /** A value starts with something to be seen that closes no list. */
  predicate Opens(q: string) { q != "" && q[0] as int > 32 && q[0] != ']' && q[0] != '}' }

  /** Every text of the grammar is parsed as what it denotes, whatever follows that may follow a value. */
  lemma {:induction false} TreeReads(t: Tree)
    requires Valid(t)
    ensures Opens(Written(t)) && Reads(Written(t), Means(t))
    decreases t, 1
  {
    match t
    case Word(name) => WordReads(Means(t));
    case Num(n) => NumeralReads(n);
    case Quoted(body) => QuotedReads(body);
    case Bracketed(blank, elements) => BracketedReads(blank, elements);
    case Braced(blank, pairs) => BracedReads(blank, pairs);
  }

  lemma {:induction false} OpenReads(blank: string)
    requires Blank(blank)
    ensures Reads("[" + blank + "" + "]", Array(NoItems))
  {
    var q := "[" + blank + "" + "]";
    forall u {:trigger q + u} | Ends(u) ensures ParseValue(q + u) == Ok(Array(NoItems), u) {
      assert q + u == "[" + blank + "]" + u;
      EmptyReads(blank, u);
    }
  }

  lemma {:induction false} ListReads(blank: string, p: string, items: Items)
    requires Blank(blank) && Opens(p) && ReadsItems(p, items)
    ensures Reads("[" + blank + p + "]", Array(items))
  {
    var q := "[" + blank + p + "]";
    forall u {:trigger q + u} | Ends(u) ensures ParseValue(q + u) == Ok(Array(items), u) {
      ArrayReads(blank, p, items, u);
    }
  }

  lemma {:induction false} BracketedReads(blank: string, es: Elements)
    requires White(blank) && ValidElements(es)
    ensures Reads(Written(Bracketed(blank, es)), Array(MeansElements(es)))
    decreases es, 1
  {
    WhiteBlank(blank);
    if es.NoElements? {
      OpenReads(blank);
    } else {
      ElementsRead(es);
      ListReads(blank, WrittenElements(es), MeansElements(es));
    }
  }

  lemma {:induction false} ElementsRead(es: Elements)
    requires ValidElements(es) && es.Element?
    ensures Opens(WrittenElements(es)) && ReadsItems(WrittenElements(es), MeansElements(es))
    decreases es, 0
  {
    var p := Written(es.t);
    TreeReads(es.t);
    WhiteBlank(es.after);
    if es.next.NoElements? {
      LastReads(p, es.after, Means(es.t));
    } else {
      ElementsRead(es.next);
      WhiteBlank(es.before);
      MoreReads(p, es.after, es.before, WrittenElements(es.next), Means(es.t), MeansElements(es.next));
    }
  }

  lemma {:induction false} BareReads(blank: string)
    requires Blank(blank)
    ensures Reads("{" + blank + "" + "}", Object(NoMembers))
  {
    var q := "{" + blank + "" + "}";
    forall u {:trigger q + u} | Ends(u) ensures ParseValue(q + u) == Ok(Object(NoMembers), u) {
      assert q + u == "{" + (blank + ("}" + u));
      EmptyObject(blank, u);
    }
  }

  lemma {:induction false} FullReads(blank: string, p: string, ms: Members)
    requires Blank(blank) && p != "" && p[0] == '\"' && ReadsMembers(p, ms)
    ensures Reads("{" + blank + p + "}", Object(ms))
  {
    var q := "{" + blank + p + "}";
    forall u {:trigger q + u} | Ends(u) ensures ParseValue(q + u) == Ok(Object(ms), u) { ObjectReads(blank, p, ms, u); }
  }

  lemma {:induction false} BracedReads(blank: string, ps: Pairs)
    requires White(blank) && ValidPairs(ps)
    ensures Reads(Written(Braced(blank, ps)), Object(MeansPairs(ps)))
    decreases ps, 1
  {
    WhiteBlank(blank);
    if ps.NoPairs? {
      BareReads(blank);
    } else {
      PairsRead(ps);
      FullReads(blank, WrittenPairs(ps), MeansPairs(ps));
    }
  }

  lemma {:induction false} PairsRead(ps: Pairs)
    requires ValidPairs(ps) && ps.APair?
    ensures WrittenPairs(ps) != "" && WrittenPairs(ps)[0] == '\"' && ReadsMembers(WrittenPairs(ps), MeansPairs(ps))
    decreases ps, 0
  {
    var q, p := "\"" + ps.name, Written(ps.t);
    NameReads(ps.name);
    TreeReads(ps.t);
    WhiteBlank(ps.a);
    WhiteBlank(ps.c);
    WhiteBlank(ps.after);
    if ps.next.NoPairs? {
      LastMemberReads(q, ps.a, ps.c, p, ps.after, Meaning(Tokens(ps.name)), Means(ps.t));
    } else {
      PairsRead(ps.next);
      WhiteBlank(ps.before);
      MoreMembersRead(q, ps.a, ps.c, p, ps.after, ps.before, WrittenPairs(ps.next), Meaning(Tokens(ps.name)),
                      Means(ps.t), MeansPairs(ps.next));
    }
  }

  /** With white space around it as well, and then the whole text has been read. */
  lemma {:induction false} ParseAccepts(before: string, t: Tree, after: string)
    requires Valid(t) && White(before) && White(after)
    ensures ParseWhole(before + Written(t) + after) == Ok(Means(t), "")
  {
    var q := Written(t);
    TreeReads(t);
    WhiteBlank(before);
    WhiteBlank(after);
    assert before + q + after == before + (q + after);
    SkipBlank(before, q + after);
    assert after + "" == after;
    SkipBlanks(after, "");
    assert Ends(after);
    assert ParseValue(q + after) == Ok(Means(t), after);
  }

  /** So no text denotes two values. */
  lemma {:induction false} MeaningUnique(t: Tree, u: Tree)
    requires Valid(t) && Valid(u) && Written(t) == Written(u)
    ensures Means(t) == Means(u)
  {
    ParseAccepts("", t, "");
    ParseAccepts("", u, "");
  }
}
