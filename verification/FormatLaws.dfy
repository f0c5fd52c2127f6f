/**
  What a directive prints, read off the text: a directive is written in its parts, and its output is laid out, padded
  and denotes its argument.
 */
module FormatLaws {
  import opened Formats
  import opened Seqs

  // ---------------------------------------------------------------- arguments

  /** The first argument as an integer of 16 or 32 bits, in two's complement if it is signed. */
  function Argument(args: seq<Arg>, half: bool, signed: bool): int {
    var w := if args != [] && args[0].Word? then args[0].n else 0;
    var span := if half then 0x1_0000 else 0x1_0000_0000;
    if signed && w % span >= span / 2 then w % span - span else w % span
  }

  // ---------------------------------------------------------------- a directive in its parts

  /** A width or a precision: none, its digits, or a star that stands for an argument. */
  datatype Count = Absent | Given(digits: string) | Star

  /** A precision is written behind a point; qualifier is empty, h or l. */
  datatype Directive = Directive(flags: string, width: Count, precision: Count, qualifier: string, conversion: char)

  predicate Decimal(s: string) { forall i {:trigger s[i]} :: 0 <= i < |s| ==> '0' <= s[i] <= '9' }

  predicate IsFlag(c: char) { c == '-' || c == '+' || c == ' ' || c == '#' || c == '0' }

  predicate IsInteger(c: char) { c == 'd' || c == 'i' || c == 'u' || c == 'x' || c == 'X' || c == 'o' }

  predicate IsConversion(c: char) { IsInteger(c) || c == 'c' || c == 's' || c == 'p' || c == '%' }

  /** Such a character does not end a directive but belongs to its flags, width, precision or qualifier. */
  predicate IsPart(c: char) { IsFlag(c) || IsDigit(c) || c == '*' || c == '.' || c == 'h' || c == 'l' || c == '\0' }

  predicate WellFormed(d: Directive) {
    (forall i {:trigger d.flags[i]} :: 0 <= i < |d.flags| ==> IsFlag(d.flags[i]))
    && (d.width.Given? ==> d.width.digits != "" && Decimal(d.width.digits) && d.width.digits[0] != '0')
    && (d.precision.Given? ==> Decimal(d.precision.digits))
    && (d.qualifier == "" || d.qualifier == "h" || d.qualifier == "l")
    && !IsPart(d.conversion)
  }

  function CountText(c: Count): string {
    match c
    case Absent => ""
    case Given(digits) => digits
    case Star => "*"
  }

  function PointText(c: Count): string { if c.Absent? then "" else "." + CountText(c) }

  /** The directive behind its percent sign, and what follows it. */
  function Written(d: Directive, more: string): string {
    d.flags + (CountText(d.width) + (PointText(d.precision) + (d.qualifier + ([d.conversion] + more))))
  }

  /** A numeral, read from its most significant digit on. */
  function Reads(s: string, base: int): int {
    if s == "" then 0 else Reads(s[..|s| - 1], base) * base + DigitValue(s[|s| - 1])
  }

  /** The arguments behind those that stars stand for. */
  function WidthArg(args: seq<Arg>): int { Argument(args, false, true) }

  lemma {:induction false} StarIs(args: seq<Arg>)
    ensures WidthArg(args) == Signed(WordOf(args))
  {}

  function AfterWidth(d: Directive, args: seq<Arg>): seq<Arg> { if d.width.Star? then Tail(args) else args }

  function AfterStars(d: Directive, args: seq<Arg>): seq<Arg> {
    if d.precision.Star? then Tail(AfterWidth(d, args)) else AfterWidth(d, args)
  }

  /** What the parts ask for. */
  predicate AsksLeft(d: Directive, args: seq<Arg>) { '-' in d.flags || (d.width.Star? && WidthArg(args) < 0) }

  function Width(d: Directive, args: seq<Arg>): int {
    match d.width
    case Absent => -1
    case Given(digits) => Reads(digits, 10)
    case Star => if WidthArg(args) < 0 then -WidthArg(args) else WidthArg(args)
  }

  function Precision(d: Directive, args: seq<Arg>): int {
    match d.precision
    case Absent => -1
    case Given(digits) => Reads(digits, 10)
    case Star => if WidthArg(AfterWidth(d, args)) < 0 then 0 else WidthArg(AfterWidth(d, args))
  }

  // ---------------------------------------------------------------- the formatter reads those parts

  function Onto(n: nat, s: string): int
    decreases |s|
  {
    if s == "" then n else Onto(if DigitValue(s[0]) < 0 then 0 else n * 10 + DigitValue(s[0]), s[1..])
  }

  lemma {:induction false} OntoLast(n: nat, s: string, c: char)
    requires Decimal(s + [c])
    ensures Decimal(s) && '0' <= c <= '9' && Onto(n, s + [c]) == Onto(n, s) * 10 + DigitValue(c)
    decreases |s|
  {
    assert (s + [c])[|s|] == c;
    assert forall i {:trigger s[i]} :: 0 <= i < |s| ==> s[i] == (s + [c])[i];
    if s == "" {
      assert (s + [c])[1..] == "" && (s + [c])[0] == c;
    } else {
      assert (s + [c])[0] == s[0] && (s + [c])[1..] == s[1..] + [c];
      OntoLast(n * 10 + DigitValue(s[0]), s[1..], c);
    }
  }

  lemma {:induction false} OntoReads(s: string)
    requires Decimal(s)
    ensures Onto(0, s) == Reads(s, 10) >= 0
    decreases |s|
  {
    if s != "" {
      var t, c := s[..|s| - 1], s[|s| - 1];
      assert s == t + [c];
      OntoLast(0, t, c);
      OntoReads(t);
    }
  }

  lemma {:induction false} NumberRead(s: string, more: string, n: nat)
    requires Decimal(s) && !IsDigit(At(more))
    ensures Onto(n, s) >= 0 && TakeNumber(s + more, n) == (Onto(n, s), more)
  {
    if s == "" {
      assert s + more == more;
    } else {
      assert (s + more)[0] == s[0] && (s + more)[1..] == s[1..] + more;
      NumberRead(s[1..], more, n * 10 + DigitValue(s[0]));
    }
  }

  function Flagged(f: Flags, c: char): Flags {
    if c == '-' then f.(left := true) else if c == '+' then f.(plus := true) else if c == ' ' then f.(space := true)
    else if c == '0' then f.(zeroPad := true) else f
  }

  /** The flags f and those written in s. */
  function With(f: Flags, s: string): Flags {
    f.(left := f.left || '-' in s, plus := f.plus || '+' in s, space := f.space || ' ' in s,
       zeroPad := f.zeroPad || '0' in s)
  }

  lemma {:induction false} WithFirst(f: Flags, s: string)
    requires s != ""
    ensures With(f, s) == With(Flagged(f, s[0]), s[1..])
  {
    HasFirst(s, '-');
    HasFirst(s, '+');
    HasFirst(s, ' ');
    HasFirst(s, '0');
  }

  lemma {:induction false} HasFirst(s: string, c: char)
    requires s != ""
    ensures c in s <==> c == s[0] || c in s[1..]
  {
    assert s == [s[0]] + s[1..];
  }

  lemma {:induction false} FlagRead(c: char, more: string, f: Flags)
    requires IsFlag(c)
    ensures TakeFlags([c] + more, f) == TakeFlags(more, Flagged(f, c))
  {
    assert ([c] + more)[1..] == more;
  }

  lemma {:induction false} FlagsRead(s: string, more: string, f: Flags)
    requires (forall i {:trigger s[i]} :: 0 <= i < |s| ==> IsFlag(s[i])) && !IsFlag(At(more))
    ensures TakeFlags(s + more, f) == (With(f, s), more)
  {
    if s == "" {
      assert s + more == more;
    } else {
      assert s + more == [s[0]] + (s[1..] + more);
      FlagRead(s[0], s[1..] + more, f);
      FlagsRead(s[1..], more, Flagged(f, s[0]));
      WithFirst(f, s);
    }
  }

  lemma {:induction false} FirstOf(a: string, b: string)
    ensures At(a + b) == if a == "" then At(b) else a[0]
  {}

  lemma {:induction false} WidthRead(d: Directive, more: string, f: Flags, args: seq<Arg>)
    requires WellFormed(d) && !IsDigit(At(more)) && At(more) != '*'
    ensures TakeWidth(f, CountText(d.width) + more, args)
         == Spec(f.(left := f.left || (d.width.Star? && WidthArg(args) < 0)), Width(d, args), -1, '\0', more,
                AfterWidth(d, args))
  {
    FirstOf(CountText(d.width), more);
    match d.width
    case Absent => assert "" + more == more;
    case Given(digits) => NumberRead(digits, more, 0); OntoReads(digits);
    case Star => StarIs(args); assert ("*" + more)[1..] == more;
  }

  lemma {:induction false} PrecisionRead(d: Directive, more: string, s: Spec, args: seq<Arg>)
    requires WellFormed(d) && s.rest == PointText(d.precision) + more && s.args == AfterWidth(d, args)
    requires s.precision == -1 && !IsDigit(At(more)) && At(more) != '*' && At(more) != '.'
    ensures TakePrecision(s) == s.(precision := Precision(d, args), rest := more, args := AfterStars(d, args))
  {
    if d.precision.Absent? {
      assert s.rest == more;
    } else {
      var digits := CountText(d.precision);
      assert s.rest == "." + (digits + more) && s.rest[1..] == digits + more;
      FirstOf(digits, more);
      match d.precision
      case Given(_) =>
        if digits != "" { NumberRead(digits, more, 0); } else { assert digits + more == more; }
        OntoReads(digits);
      case Star => StarIs(s.args); assert ("*" + more)[1..] == more;
      case Absent =>
    }
  }

  lemma {:induction false} QualifierRead(d: Directive, more: string, s: Spec)
    requires WellFormed(d) && s.rest == d.qualifier + ([d.conversion] + more) && s.qualifier == '\0'
    ensures TakeQualifier(s)
         == s.(qualifier := if d.qualifier == "" then '\0' else d.qualifier[0], rest := [d.conversion] + more)
  {
    FirstOf(d.qualifier, [d.conversion] + more);
    if d.qualifier == "" { assert s.rest == [d.conversion] + more; }
        else { assert s.rest[1..] == [d.conversion] + more; }
  }

  lemma {:induction false} PartsStart(d: Directive, t2: string, t3: string, t4: string)
    requires WellFormed(d) && t4 != "" && t4[0] == d.conversion && t3 == d.qualifier + t4
             && t2 == PointText(d.precision) + t3
    ensures !IsDigit(At(t3)) && At(t3) != '*' && At(t3) != '.' && !IsDigit(At(t2)) && At(t2) != '*' && !IsFlag(At(t2))
  {
    FirstOf(d.qualifier, t4);
    FirstOf(PointText(d.precision), t3);
  }

  lemma {:induction false} WidthStarts(d: Directive, t2: string)
    requires WellFormed(d) && !IsFlag(At(t2))
    ensures !IsFlag(At(CountText(d.width) + t2))
  {
    FirstOf(CountText(d.width), t2);
  }

  /** The formatter takes a directive apart into the parts it was written in. */
  lemma {:induction false} ParseReads(d: Directive, more: string, args: seq<Arg>)
    requires WellFormed(d)
    ensures Parse(Written(d, more), args)
         == Spec(Flags('0' in d.flags, false, '+' in d.flags, ' ' in d.flags, AsksLeft(d, args), false),
                Width(d, args), Precision(d, args), if d.qualifier == "" then '\0' else d.qualifier[0],
                [d.conversion] + more, AfterStars(d, args))
  {
    var t4 := [d.conversion] + more;
    var t3 := d.qualifier + t4;
    var t2 := PointText(d.precision) + t3;
    PartsStart(d, t2, t3, t4);
    WidthStarts(d, t2);
    var none := Flags(false, false, false, false, false, false);
    FlagsRead(d.flags, CountText(d.width) + t2, none);
    WidthRead(d, t2, With(none, d.flags), args);
    var s := TakeWidth(With(none, d.flags), CountText(d.width) + t2, args);
    PrecisionRead(d, t3, s, args);
    QualifierRead(d, more, TakePrecision(s));
  }

  /** A directive prints the text of its conversion, and the rest of the format is printed behind it. */
  lemma {:induction false} OutputIs(d: Directive, more: string, args: seq<Arg>)
    requires WellFormed(d)
    ensures var s := Parse(Written(d, more), args);
            Convert(s).1 == more
            && Output("%" + Written(d, more), args) == Convert(s).0 + Output(more, Convert(s).2)
  {
    ParseReads(d, more, args);
    var fmt := "%" + Written(d, more);
    assert fmt[0] == '%' && fmt[1..] == Written(d, more);
    assert ([d.conversion] + more)[1..] == more && At([d.conversion] + more) == d.conversion;
  }

  // ---------------------------------------------------------------- numerals

  /** A digit of base ten or sixteen, in small or large letters. */
  predicate DigitOf(c: char, base: int, large: bool) {
    '0' <= c <= '9' || (base == 16 && if large then 'A' <= c <= 'F' else 'a' <= c <= 'f')
  }

  /** Digits of the base, without leading zeros. */
  predicate Numeral(s: string, base: int, large: bool) {
    s != "" && (|s| > 1 ==> s[0] != '0') && forall i {:trigger s[i]} :: 0 <= i < |s| ==> DigitOf(s[i], base, large)
  }

  lemma {:induction false} ReversedReads(s: string, base: int)
    ensures Reads(Reversed(s), base) == Denotes(s, base)
  {
    if s != "" {
      ReversedReads(s[1..], base);
      var r := Reversed(s);
      assert r[..|r| - 1] == Reversed(s[1..]) && r[|r| - 1] == s[0];
    }
  }

  /** The scratch array's digits, and that the last one stored is no zero. */
  lemma {:induction false} ScratchNumeral(n: nat, base: int, large: bool)
    requires (base == 10 || base == 16) && n > 0
    ensures var r := Reversed(Scratch(n, base, large)); Numeral(r, base, large) && r[0] != '0'
    decreases n
  {
    var c, t := Digit(n % Divisor(base), large), Scratch(n / Divisor(base), base, large);
    assert Scratch(n, base, large) == [c] + t && ([c] + t)[1..] == t;
    var r := Reversed(t) + [c];
    assert Reversed(Scratch(n, base, large)) == r;
    if n / Divisor(base) > 0 {
      ScratchNumeral(n / Divisor(base), base, large);
      assert r[0] == Reversed(t)[0];
      NumeralMore(Reversed(t), base, large, c);
    } else {
      assert t == "" && r == [c];
    }
  }

  lemma {:induction false} NumeralMore(s: string, base: int, large: bool, c: char)
    requires Numeral(s, base, large) && DigitOf(c, base, large) && s[0] != '0'
    ensures Numeral(s + [c], base, large)
  {
    var r := s + [c];
    forall i | 0 <= i < |r| ensures DigitOf(r[i], base, large) { if i < |s| { assert r[i] == s[i]; } }
  }

  /** The digits of a number are its numeral. */
  lemma {:induction false} DigitsRead(num: nat, base: int, f: Flags)
    requires num < 0x1_0000_0000 && (base == 10 || base == 16)
    ensures var r := Reversed(Digits(num, base, f));
            Numeral(r, base, f.large) && Reads(r, base) == if num == 0 then 0 else Magnitude(num, f)
  {
    ReversedReads(Digits(num, base, f), base);
    if num == 0 {
      assert Reversed("0") == "0" by { assert "0"[1..] == ""; }
      assert Denotes("0", base) == 0 by { assert "0"[1..] == ""; }
    } else {
      ScratchDenotes(Magnitude(num, f), base, f.large);
      ScratchNumeral(Magnitude(num, f), base, f.large);
    }
  }

  /** The low half of the low word. */
  lemma {:induction false} LowHalf(n: nat)
    ensures n % 0x1_0000_0000 % 0x1_0000 == n % 0x1_0000
  {
    var q, r := n / 0x1_0000_0000, n % 0x1_0000_0000;
    var a, b := r / 0x1_0000, r % 0x1_0000;
    assert n == q * 0x1_0000_0000 + r && r == a * 0x1_0000 + b;
    LowOf(n, q * 0x1_0000 + a, b);
  }

  lemma {:induction false} LowOf(n: int, q: int, b: int)
    requires n == q * 0x1_0000 + b && 0 <= b < 0x1_0000
    ensures n % 0x1_0000 == b
  {}

  lemma {:induction false} OperandIs(s: Spec, signed: bool)
    ensures var v, w := Argument(s.args, s.qualifier == 'h', signed), Operand(s, signed);
            w == if v < 0 then v + 0x1_0000_0000 else v
    ensures signed ==> -0x8000_0000 <= Argument(s.args, s.qualifier == 'h', signed) < 0x8000_0000
  {
    var n := if s.args != [] && s.args[0].Word? then s.args[0].n else 0;
    LowHalf(n);
    assert WordOf(s.args) == n % 0x1_0000_0000;
  }

  // ---------------------------------------------------------------- the layout of a padded number

  function Abs(v: int): nat { if v < 0 then -v else v }

  predicate All(s: string, c: char) { forall i {:trigger s[i]} :: 0 <= i < |s| ==> s[i] == c }

  /** The paddings: blanks in front, zeros between sign and digits, blanks behind. */
  datatype Layout = Layout(lead: string, zeros: string, trail: string)

  /** The number is as wide as asked for and padded on the side asked for; zeros also fill up to the precision. */
  predicate Laid(text: string, l: Layout, sign: string, digits: string, width: int, precision: int, left: bool,
                 zero: bool)
  {
    text == l.lead + (sign + (l.zeros + (digits + l.trail))) && All(l.lead, ' ') && All(l.zeros, '0')
    && All(l.trail, ' ') && |text| == Max(width, |sign| + Max(precision, |digits|))
    && (if left then l.lead == "" else l.trail == "") && (zero && !left ==> l.lead == "")
    && (left || !zero ==> |l.zeros| == Max(precision - |digits|, 0))
  }

  lemma {:induction false} RepeatAll(c: char, n: int)
    ensures All(Repeat(c, n), c)
  {}

  lemma {:induction false} RepeatTwice(c: char, n: int, m: int)
    ensures All(Repeat(c, n) + Repeat(c, m), c)
  {}

  lemma {:induction false} FivePieces(a: string, b: string, c: string, d: string, e: string, g: string)
    ensures a + b + c + d + e + g == a + (b + ((c + d) + (e + g)))
  {}

  lemma {:induction false} PaddedLaid(tmp: string, sign: string, width: int, precision: int, f: Flags)
      returns (l: Layout)
    requires |sign| <= 1 && precision != 0
    ensures Laid(Padded(tmp, sign, width, precision, f), l, sign, Reversed(tmp), width, precision, f.left, f.zeroPad)
  {
    var field := width - Max(precision, |tmp|);
    var a, c, g := Lead(field, sign, f), Middle(field, sign, f), Trail(field, sign, f);
    var d := Repeat('0', precision - |tmp|);
    FivePieces(a, sign, c, d, Reversed(tmp), g);
    RepeatTwice('0', if !f.left && f.zeroPad then field - |sign| else 0, precision - |tmp|);
    l := Layout(a, c + d, g);
  }

  /** A precision of zero hides the digits, but the field is as narrow as if they were there. */
  lemma {:induction false} HiddenDigits(tmp: string, sign: string, width: int, f: Flags)
    requires 0 < |sign| <= 1 || sign == ""
    ensures |Padded(tmp, sign, width, 0, f)| == Max(width - |tmp|, |sign|)
    ensures forall c :: c in Padded(tmp, sign, width, 0, f) ==> c == ' ' || c == '0' || c in sign
  {
    var field := width - Max(0, |tmp|);
    FivePieces(Lead(field, sign, f), sign, Middle(field, sign, f), Repeat('0', 0 - |tmp|), "", Trail(field, sign, f));
  }

  // ---------------------------------------------------------------- what each conversion prints

  /** A signed number has a minus; another may have a plus or a blank. */
  function Sign(v: int, signed: bool, d: Directive): string {
    if v < 0 then "-" else if signed && '+' in d.flags then "+" else if signed && ' ' in d.flags then " " else ""
  }

  /** o should be base eight, but its digits are those of base sixteen. */
  function Base(c: char): int { if c == 'x' || c == 'X' || c == 'o' then 16 else 10 }

  predicate IsSigned(c: char) { c == 'd' || c == 'i' }

  /**
    d and i print their argument in base ten with its sign, u prints it unsigned, x and X in base sixteen, and so does
    o; the numeral is padded as the flags, the width and the precision say.
   */
  lemma {:induction false} IntegerPrints(d: Directive, more: string, args: seq<Arg>)
      returns (text: string, digits: string, l: Layout)
    requires WellFormed(d) && IsInteger(d.conversion) && Precision(d, args) != 0
    ensures var c, v := d.conversion, Argument(AfterStars(d, args), d.qualifier == "h", IsSigned(d.conversion));
            Output("%" + Written(d, more), args) == text + Output(more, Tail(AfterStars(d, args)))
            && Numeral(digits, Base(c), c == 'X') && Reads(digits, Base(c)) == Abs(v)
            && Laid(text, l, Sign(v, IsSigned(c), d), digits, Width(d, args), Precision(d, args), AsksLeft(d, args),
                   '0' in d.flags)
  {
    OutputIs(d, more, args);
    ParseReads(d, more, args);
    var s := Parse(Written(d, more), args);
    var c, v := d.conversion, Argument(AfterStars(d, args), d.qualifier == "h", IsSigned(d.conversion));
    ConvertedInteger(s, c, more);
    OperandIs(s, IsSigned(c));
    var num, f := Operand(s, IsSigned(c)), s.flags.(sign := IsSigned(c), large := c == 'X');
    DigitsRead(num, Base(c), f);
    text, digits := Convert(s).0, Reversed(Digits(num, Base(c), f));
    l := PaddedLaid(Digits(num, Base(c), f), SignText(num, f), s.width, s.precision, f);
  }

  lemma {:induction false} ScratchOctal(n: nat, large: bool)
    ensures Scratch(n, 8, large) == Scratch(n, 16, large)
    decreases n
  {
    if n > 0 { ScratchOctal(n / 16, large); }
  }

  lemma {:induction false} OctalDigits(num: nat, f: Flags)
    requires num < 0x1_0000_0000
    ensures Digits(num, 8, f) == Digits(num, 16, f)
  {
    ScratchOctal(Magnitude(num, f), f.large);
  }

  lemma {:induction false} ConvertedInteger(s: Spec, c: char, more: string)
    requires IsInteger(c) && s.rest == [c] + more
    ensures Convert(s) == (NumberText(Operand(s, IsSigned(c)), Base(c), s.width, s.precision,
                                     s.flags.(sign := IsSigned(c), large := c == 'X')), more, Tail(s.args))
  {
    assert s.rest[1..] == more && c in "oxXdiu";
    if c == 'o' { OctalDigits(Operand(s, false), s.flags.(sign := false, large := false)); }
  }

  /** With a precision of zero no digit is printed, whatever the number. */
  lemma {:induction false} IntegerHidden(d: Directive, more: string, args: seq<Arg>)
      returns (text: string, digits: string)
    requires WellFormed(d) && IsInteger(d.conversion) && Precision(d, args) == 0
    ensures var c, v := d.conversion, Argument(AfterStars(d, args), d.qualifier == "h", IsSigned(d.conversion));
            var sign := Sign(v, IsSigned(c), d);
            Output("%" + Written(d, more), args) == text + Output(more, Tail(AfterStars(d, args)))
            && Numeral(digits, Base(c), c == 'X') && Reads(digits, Base(c)) == Abs(v)
            && |text| == Max(Width(d, args) - |digits|, |sign|)
            && forall x :: x in text ==> x == ' ' || x == '0' || x in sign
  {
    OutputIs(d, more, args);
    ParseReads(d, more, args);
    var s := Parse(Written(d, more), args);
    var c := d.conversion;
    ConvertedInteger(s, c, more);
    OperandIs(s, IsSigned(c));
    var num, f := Operand(s, IsSigned(c)), s.flags.(sign := IsSigned(c), large := c == 'X');
    DigitsRead(num, Base(c), f);
    text, digits := Convert(s).0, Reversed(Digits(num, Base(c), f));
    HiddenDigits(Digits(num, Base(c), f), SignText(num, f), s.width, f);
  }

  /**
    p prints its argument in base sixteen without a sign, in at least eight places filled with zeros unless a width is
    given.
   */
  lemma {:induction false} PointerPrints(d: Directive, more: string, args: seq<Arg>)
      returns (text: string, digits: string, l: Layout)
    requires WellFormed(d) && d.conversion == 'p' && Precision(d, args) != 0
    ensures var given := Width(d, args) != -1;
            Output("%" + Written(d, more), args) == text + Output(more, Tail(AfterStars(d, args)))
            && Numeral(digits, 16, false) && Reads(digits, 16) == Argument(AfterStars(d, args), false, false)
            && Laid(text, l, "", digits, if given then Width(d, args) else 8, Precision(d, args), AsksLeft(d, args),
                   !given || '0' in d.flags)
  {
    OutputIs(d, more, args);
    ParseReads(d, more, args);
    var s := Parse(Written(d, more), args);
    var num := WordOf(s.args);
    var width, f := if s.width == -1 then 8 else s.width, if s.width == -1 then s.flags.(zeroPad := true) else s.flags;
    ConvertedPointer(s, more);
    DigitsRead(num, 16, f);
    text, digits := Convert(s).0, Reversed(Digits(num, 16, f));
    l := PaddedLaid(Digits(num, 16, f), SignText(num, f), width, s.precision, f);
  }

  lemma {:induction false} ConvertedPointer(s: Spec, more: string)
    requires s.rest == ['p'] + more
    ensures Convert(s) == (NumberText(WordOf(s.args), 16, if s.width == -1 then 8 else s.width, s.precision,
                                     if s.width == -1 then s.flags.(zeroPad := true) else s.flags), more, Tail(s.args))
    ensures Argument(s.args, false, false) == WordOf(s.args)
  {
    assert s.rest[1..] == more;
  }

  lemma {:induction false} ConvertedString(s: Spec, more: string)
    requires s.rest == ['s'] + more
    ensures Convert(s) == (StringText(Spelled(s.args), s.width, s.precision, s.flags), more, Tail(s.args))
  {
    assert s.rest[1..] == more;
  }

  /** c prints the character of its argument, in front of or behind blanks. */
  lemma {:induction false} CharPrints(d: Directive, more: string, args: seq<Arg>) returns (text: string)
    requires WellFormed(d) && d.conversion == 'c'
    ensures var n := Argument(AfterStars(d, args), false, false);
            Output("%" + Written(d, more), args) == text + Output(more, Tail(AfterStars(d, args)))
            && |text| == Max(Width(d, args), 1)
            && if AsksLeft(d, args) then text[0] as int == n % 256 && All(text[1..], ' ')
               else text[|text| - 1] as int == n % 256 && All(text[..|text| - 1], ' ')
  {
    OutputIs(d, more, args);
    ParseReads(d, more, args);
    var s := Parse(Written(d, more), args);
    ConvertedChar(s, more);
    text := Convert(s).0;
    CharIs((WordOf(s.args) % 256) as char, s.width, s.flags);
  }

  lemma {:induction false} ConvertedChar(s: Spec, more: string)
    requires s.rest == ['c'] + more
    ensures Convert(s) == (CharText((WordOf(s.args) % 256) as char, s.width, s.flags), more, Tail(s.args))
    ensures Argument(s.args, false, false) == WordOf(s.args)
  {
    assert s.rest[1..] == more;
  }

  lemma {:induction false} CharIs(c: char, width: int, f: Flags)
    ensures var text := CharText(c, width, f);
            |text| == Max(width, 1)
            && if f.left then text[0] == c && All(text[1..], ' ')
               else text[|text| - 1] == c && All(text[..|text| - 1], ' ')
  {
    var text := CharText(c, width, f);
    RepeatAll(' ', width - 1);
    var blanks := Repeat(' ', width - 1);
    if f.left { assert text[1..] == blanks; } else { assert text[..|text| - 1] == blanks; }
  }

  /** The string an argument stands for. */
  function Spelled(args: seq<Arg>): string {
    if args == [] || args[0].Word? then "" else if args[0].NoText? then "(NULL)" else args[0].s
  }

  /** s prints its argument, cut to a positive precision, in front of or behind blanks. */
  lemma {:induction false} StringPrints(d: Directive, more: string, args: seq<Arg>) returns (text: string)
    requires WellFormed(d) && d.conversion == 's'
    ensures var s, p := Spelled(AfterStars(d, args)), Precision(d, args);
            var n := if 0 < p < |s| then p else |s|;
            Output("%" + Written(d, more), args) == text + Output(more, Tail(AfterStars(d, args)))
            && |text| == Max(Width(d, args), n)
            && if AsksLeft(d, args) then text[..n] == s[..n] && All(text[n..], ' ')
               else text[|text| - n..] == s[..n] && All(text[..|text| - n], ' ')
  {
    OutputIs(d, more, args);
    ParseReads(d, more, args);
    var s := Parse(Written(d, more), args);
    ConvertedString(s, more);
    text := Convert(s).0;
    StringIs(Spelled(s.args), s.precision, s.width, s.flags);
  }

  lemma {:induction false} StringIs(s: string, precision: int, width: int, f: Flags)
    ensures var text, n := StringText(s, width, precision, f), if 0 < precision < |s| then precision else |s|;
            |text| == Max(width, n)
            && if f.left then text[..n] == s[..n] && All(text[n..], ' ')
               else text[|text| - n..] == s[..n] && All(text[..|text| - n], ' ')
  {
    var t, text := Shown(s, precision), StringText(s, width, precision, f);
    assert t == s[..|t|];
    RepeatAll(' ', width - |t|);
    if f.left { assert text[..|t|] == t; } else { assert text[|text| - |t|..] == t; }
  }

  /** A percent sign prints itself and takes no argument. */
  lemma {:induction false} PercentPrints(d: Directive, more: string, args: seq<Arg>)
    requires WellFormed(d) && d.conversion == '%'
    ensures Output("%" + Written(d, more), args) == "%" + Output(more, AfterStars(d, args))
  {
    OutputIs(d, more, args);
    ParseReads(d, more, args);
  }

  /**
    Any other character is printed behind a percent sign and takes no argument; a percent sign at the end is printed.
   */
  lemma {:induction false} UnknownPrints(d: Directive, more: string, args: seq<Arg>)
    requires WellFormed(d) && !IsConversion(d.conversion)
    ensures Output("%" + Written(d, more), args) == "%" + [d.conversion] + Output(more, AfterStars(d, args))
    ensures Output("%", args) == "%"
  {
    OutputIs(d, more, args);
    ParseReads(d, more, args);
    var fmt := "%";
    assert fmt[1..] == "";
  }

  /** What holds no percent sign is printed as it is. */
  lemma {:induction false} PlainPrints(plain: string, more: string, args: seq<Arg>)
    requires '%' !in plain
    ensures Output(plain + more, args) == plain + Output(more, args)
  {
    if plain == "" {
      assert plain + more == more && plain + Output(more, args) == Output(more, args);
    } else {
      assert plain == [plain[0]] + plain[1..];
      PlainPrints(plain[1..], more, args);
      CharFirst(plain[0], plain[1..] + more, args);
      Assoc([plain[0]], plain[1..], more);
      Assoc([plain[0]], plain[1..], Output(more, args));
    }
  }

  lemma {:induction false} CharFirst(c: char, more: string, args: seq<Arg>)
    requires c != '%'
    ensures Output([c] + more, args) == [c] + Output(more, args)
  {
    assert ([c] + more)[1..] == more;
  }
}
