/** The kernel's bounded formatter: what a format and its arguments denote, and what fits the buffer. */
module Formats {
  import opened Seqs

  // ---------------------------------------------------------------- numbers

  function Digit(d: int, large: bool): char
    requires 0 <= d < 16
  {
    if d < 10 then (d + '0' as int) as char else (d - 10 + (if large then 'A' else 'a') as int) as char
  }

  /** The helper divides by ten or else by sixteen, whatever the base. */
  function Divisor(base: int): int { if base == 10 then 10 else 16 }

  /** The digits in the scratch array, the last one first. */
  function Scratch(n: nat, base: int, large: bool): string
    decreases n
  {
    if n == 0 then "" else [Digit(n % Divisor(base), large)] + Scratch(n / Divisor(base), base, large)
  }

  function DigitValue(c: char): int {
    if '0' <= c <= '9' then c as int - '0' as int
    else if 'a' <= c <= 'f' then c as int - 'a' as int + 10
    else if 'A' <= c <= 'F' then c as int - 'A' as int + 10
    else 16
  }

  /** What reversed digits denote in a base. */
  function Denotes(s: string, base: int): int {
    if s == "" then 0 else DigitValue(s[0]) + base * Denotes(s[1..], base)
  }

  /** In bases ten and sixteen the digits denote the number. */
  lemma {:induction false} ScratchDenotes(n: nat, base: int, large: bool)
    requires base == 10 || base == 16
    ensures Denotes(Scratch(n, base, large), base) == n
    decreases n
  {
    if n > 0 {
      ScratchDenotes(n / base, base, large);
      assert Scratch(n, base, large)[1..] == Scratch(n / base, base, large);
      assert n == n / base * base + n % base by {
        if base == 10 { assert n == n / 10 * 10 + n % 10; } else { assert n == n / 16 * 16 + n % 16; }
      }
    }
  }

  function Pow(base: int, k: nat): int { if k == 0 then 1 else base * Pow(base, k - 1) }

  lemma {:induction false} ScratchLength(n: nat, base: int, large: bool, k: nat)
    requires n < Pow(Divisor(base), k)
    ensures |Scratch(n, base, large)| <= k
    decreases k
  {
    if n > 0 && k > 0 {
      if base == 10 { assert n / 10 < Pow(10, k - 1); } else { assert n / 16 < Pow(16, k - 1); }
      ScratchLength(n / Divisor(base), base, large, k - 1);
    }
  }

  /** A 32-bit number never needs more than ten of the sixteen places. */
  lemma {:induction false} ScratchFits(n: nat, base: int, large: bool)
    requires n < 0x1_0000_0000
    ensures |Scratch(n, base, large)| <= 10
  {
    assert Pow(10, 5) == 100_000 && Pow(16, 5) == 0x10_0000;
    assert Pow(10, 10) == 10_000_000_000 && Pow(16, 10) == 0x100_0000_0000;
    ScratchLength(n, base, large, 10);
  }

  /** A text in base eight. */
  predicate Octal(s: string) { forall i {:trigger s[i]} :: 0 <= i < |s| ==> '0' <= s[i] <= '7' }

  lemma {:induction false} SixteenthsBelow(n: nat, large: bool)
    ensures 0 <= Denotes(Scratch(n, 8, large), 8) <= n
    ensures n >= 16 ==> Denotes(Scratch(n, 8, large), 8) < n
    decreases n
  {
    if n > 0 {
      SixteenthsBelow(n / 16, large);
      assert Scratch(n, 8, large)[1..] == Scratch(n / 16, 8, large);
      assert n == n / 16 * 16 + n % 16;
    }
  }

  /** The octal conversion is right exactly for the one-digit numbers: the digits it makes are hexadecimal ones. */
  lemma {:induction false} OctalExactly(n: nat, large: bool)
    ensures Octal(Scratch(n, 8, large)) && Denotes(Scratch(n, 8, large), 8) == n <==> n < 8
  {
    SixteenthsBelow(n, large);
    if 0 < n < 16 {
      assert Scratch(n, 8, large) == [Digit(n, large)] by { assert Scratch(n / 16, 8, large) == ""; }
      assert Scratch(n, 8, large)[0] == Digit(n, large);
    }
  }

  // ---------------------------------------------------------------- directives

  datatype Flags = Flags(zeroPad: bool, sign: bool, plus: bool, space: bool, left: bool, large: bool)

  /** A variadic argument: a word or a string. */
  datatype Arg = Word(n: nat) | Text(s: string) | NoText

  /** What is missing, or of the other kind, reads as zero or as the empty string; C leaves it undefined. */
  function WordOf(args: seq<Arg>): (w: nat)
    ensures w < 0x1_0000_0000
  {
    if args != [] && args[0].Word? then args[0].n % 0x1_0000_0000 else 0
  }

  function TextOf(args: seq<Arg>): string {
    if args != [] && args[0].Text? then args[0].s else if args != [] && args[0].NoText? then "(NULL)" else ""
  }

  function Tail(args: seq<Arg>): seq<Arg> { if args == [] then [] else args[1..] }

  function Signed(n: nat): int { if n >= 0x8000_0000 then n - 0x1_0000_0000 else n }

  function Repeat(c: char, n: int): (s: string)
    ensures |s| == if n < 0 then 0 else n
  {
    if n <= 0 then "" else seq(n, _ => c)
  }

  function Reversed(s: string): (r: string)
    ensures |r| == |s|
  {
    if s == "" then "" else Reversed(s[1..]) + [s[0]]
  }

  function Max(a: int, b: int): int { if a < b then b else a }

  function SignText(num: nat, f: Flags): (s: string)
    ensures |s| <= 1
  {
    if f.sign && num >= 0x8000_0000 then "-" else if f.sign && f.plus then "+" else if f.sign && f.space then " "
        else ""
  }

  function Magnitude(num: nat, f: Flags): (n: nat)
    requires num < 0x1_0000_0000
    ensures n <= num || n <= 0x8000_0000
  {
    if f.sign && num >= 0x8000_0000 then 0x1_0000_0000 - num else num
  }

  /** The digits as they are in the scratch array. */
  function Digits(num: nat, base: int, f: Flags): string
    requires num < 0x1_0000_0000
  {
    if num == 0 then "0" else Scratch(Magnitude(num, f), base, f.large)
  }

  /**
    Blanks before the sign, zeros after it, or blanks behind the number; field is what the digits leave of the width.
   */
  function Lead(field: int, sign: string, f: Flags): string {
    if f.left || f.zeroPad then "" else Repeat(' ', field - (if field > 0 then |sign| else 0))
  }

  function Middle(field: int, sign: string, f: Flags): string {
    if !f.left && f.zeroPad then Repeat('0', field - |sign|) else ""
  }

  function Trail(field: int, sign: string, f: Flags): string {
    if f.left then Repeat(' ', field - |sign|) else ""
  }

  /** print_number: a precision of zero hides the digits. */
  function NumberText(num: nat, base: int, width: int, precision: int, f: Flags): string
    requires num < 0x1_0000_0000
  {
    Padded(Digits(num, base, f), SignText(num, f), width, precision, f)
  }

  /** Digits, last one first, and a sign between their paddings. */
  function Padded(tmp: string, sign: string, width: int, precision: int, f: Flags): string {
    var field := width - Max(precision, |tmp|);
    Lead(field, sign, f) + sign + Middle(field, sign, f) + Repeat('0', precision - |tmp|)
    + (if precision == 0 then "" else Reversed(tmp)) + Trail(field, sign, f)
  }

  function CharText(c: char, width: int, f: Flags): string {
    if f.left then [c] + Repeat(' ', width - 1) else Repeat(' ', width - 1) + [c]
  }

  function Shown(s: string, precision: int): string {
    if 0 < precision < |s| then s[..precision] else s
  }

  function StringText(s: string, width: int, precision: int, f: Flags): string {
    var t := Shown(s, precision);
    if f.left then t + Repeat(' ', width - |t|) else Repeat(' ', width - |t|) + t
  }

  function At(s: string): char { if s == "" then '\0' else s[0] }

  predicate IsDigit(c: char) { '0' <= c <= '9' }

  function TakeFlags(fmt: string, f: Flags): (Flags, string) {
    if fmt == "" then (f, fmt)
    else if fmt[0] == '-' then TakeFlags(fmt[1..], f.(left := true))
    else if fmt[0] == '+' then TakeFlags(fmt[1..], f.(plus := true))
    else if fmt[0] == ' ' then TakeFlags(fmt[1..], f.(space := true))
    else if fmt[0] == '#' then TakeFlags(fmt[1..], f)
    else if fmt[0] == '0' then TakeFlags(fmt[1..], f.(zeroPad := true))
    else (f, fmt)
  }

  /** skip_atoi. */
  function TakeNumber(fmt: string, n: nat): (nat, string) {
    if IsDigit(At(fmt)) then TakeNumber(fmt[1..], n * 10 + (fmt[0] as int - '0' as int)) else (n, fmt)
  }

  /** What stands between the percent sign and the conversion. */
  datatype Spec = Spec(flags: Flags, width: int, precision: int, qualifier: char, rest: string, args: seq<Arg>)

  function TakeWidth(f: Flags, fmt: string, args: seq<Arg>): Spec {
    if IsDigit(At(fmt)) then var (n, rest) := TakeNumber(fmt, 0); Spec(f, n, -1, '\0', rest, args)
    else if At(fmt) == '*' then
      var w := Signed(WordOf(args));
      Spec(if w < 0 then f.(left := true) else f, if w < 0 then -w else w, -1, '\0', fmt[1..], Tail(args))
    else Spec(f, -1, -1, '\0', fmt, args)
  }

  function TakePrecision(s: Spec): Spec {
    if At(s.rest) != '.' then s
    else
      var fmt := s.rest[1..];
      if IsDigit(At(fmt)) then var (n, rest) := TakeNumber(fmt, 0); s.(precision := n, rest := rest)
      else if At(fmt) == '*' then
        s.(precision := Max(Signed(WordOf(s.args)), 0), rest := fmt[1..], args := Tail(s.args))
      else s.(precision := 0, rest := fmt)
  }

  function TakeQualifier(s: Spec): Spec {
    if At(s.rest) == 'h' || At(s.rest) == 'l' then s.(qualifier := s.rest[0], rest := s.rest[1..]) else s
  }

  function Parse(fmt: string, args: seq<Arg>): Spec {
    var (f, rest) := TakeFlags(fmt, Flags(false, false, false, false, false, false));
    TakeQualifier(TakePrecision(TakeWidth(f, rest, args)))
  }

  /** The word an integer conversion prints: a half word is extended by its sign for a signed conversion. */
  function Operand(s: Spec, sign: bool): (w: nat)
    ensures w < 0x1_0000_0000
  {
    var w := WordOf(s.args);
    if s.qualifier != 'h' then w
    else if sign && w % 0x1_0000 >= 0x8000 then w % 0x1_0000 + 0xFFFF_0000
    else w % 0x1_0000
  }

  function IntegerText(s: Spec, c: char): string {
    var signed := c == 'd' || c == 'i';
    var f := s.flags.(sign := signed, large := c == 'X');
    NumberText(Operand(s, signed), if c == 'o' then 8 else if c == 'x' || c == 'X' then 16 else 10, s.width,
        s.precision, f)
  }

  /** What one directive prints, and what is left of the format and of the arguments. */
  function Convert(s: Spec): (string, string, seq<Arg>) {
    var c := At(s.rest);
    if s.rest == "" then ("%", "", s.args)
    else if c == 'c' then (CharText((WordOf(s.args) % 256) as char, s.width, s.flags), s.rest[1..], Tail(s.args))
    else if c == 's' then (StringText(TextOf(s.args), s.width, s.precision, s.flags), s.rest[1..], Tail(s.args))
    else if c == 'p' then
      (NumberText(WordOf(s.args), 16, if s.width == -1 then 8 else s.width, s.precision,
                  if s.width == -1 then s.flags.(zeroPad := true) else s.flags), s.rest[1..], Tail(s.args))
    else if c == '%' then ("%", s.rest[1..], s.args)
    else if c in "oxXdiu" then (IntegerText(s, c), s.rest[1..], Tail(s.args))
    else (['%', c], s.rest[1..], s.args)
  }

  lemma {:induction false} FlagsShorten(fmt: string, f: Flags)
    ensures |TakeFlags(fmt, f).1| <= |fmt|
  {
    if fmt != "" {
      FlagsShorten(fmt[1..], f.(left := true));
      FlagsShorten(fmt[1..], f.(plus := true));
      FlagsShorten(fmt[1..], f.(space := true));
      FlagsShorten(fmt[1..], f);
      FlagsShorten(fmt[1..], f.(zeroPad := true));
    }
  }

  lemma {:induction false} NumberShortens(fmt: string, n: nat)
    ensures |TakeNumber(fmt, n).1| <= |fmt|
  {
    if IsDigit(At(fmt)) { NumberShortens(fmt[1..], n * 10 + (fmt[0] as int - '0' as int)); }
  }

  lemma {:induction false} WidthShortens(f: Flags, fmt: string, args: seq<Arg>)
    ensures |TakeWidth(f, fmt, args).rest| <= |fmt|
  {
    NumberShortens(fmt, 0);
  }

  lemma {:induction false} PrecisionShortens(s: Spec)
    ensures |TakePrecision(s).rest| <= |s.rest|
  {
    if At(s.rest) == '.' { NumberShortens(s.rest[1..], 0); }
  }

  lemma {:induction false} ConvertShortens(fmt: string, args: seq<Arg>)
    ensures |Convert(Parse(fmt, args)).1| <= |fmt|
  {
    var none := Flags(false, false, false, false, false, false);
    var (f, rest) := TakeFlags(fmt, none);
    FlagsShorten(fmt, none);
    WidthShortens(f, rest, args);
    PrecisionShortens(TakeWidth(f, rest, args));
  }

  /** Everything the format prints, without a bound. */
  function Output(fmt: string, args: seq<Arg>): string
    decreases |fmt|
  {
    if fmt == "" then ""
    else if fmt[0] != '%' then [fmt[0]] + Output(fmt[1..], args)
    else
      ConvertShortens(fmt[1..], args);
      var (text, rest, more) := Convert(Parse(fmt[1..], args));
      text + Output(rest, more)
  }

  // ---------------------------------------------------------------- the bounded writer

  /** The buffer holds as much of the output as its size allows. */
  ghost predicate Bounded(b: seq<char>, size: nat, out: string) {
    size <= |b| && b[..Min(|out|, size)] == out[..Min(|out|, size)]
  }

  /** One character: stored if there is room, counted in any case. */
  method Put(buf: array<char>, size: nat, str: nat, c: char, ghost out: string) returns (next: nat)
    requires str == |out| && Bounded(buf[..], size, out)
    modifies buf
    ensures next == |out + [c]| && Bounded(buf[..], size, out + [c]) && buf[size..] == old(buf[size..])
  {
    if str < size {
      buf[str] := c;
    }
    next := str + 1;
    ghost var m := Min(|out|, size);
    assert buf[..][..m] == old(buf[..])[..m];
  }

  method PutMany(buf: array<char>, size: nat, str: nat, c: char, n: int, ghost out: string) returns (next: nat)
    requires str == |out| && Bounded(buf[..], size, out)
    modifies buf
    ensures next == |out + Repeat(c, n)| && Bounded(buf[..], size, out + Repeat(c, n))
            && buf[size..] == old(buf[size..])
  {
    next := str;
    var left := n;
    ghost var done := "";
    assert out + "" == out;
    while left > 0
      invariant done == Repeat(c, n - (if left < 0 then 0 else left))
                && (n < 0 ==> left == n) && (n >= 0 ==> 0 <= left <= n)
      invariant next == |out + done| && Bounded(buf[..], size, out + done) && buf[size..] == old(buf[size..])
    {
      next := Put(buf, size, next, c, out + done);
      assert out + done + [c] == out + (done + [c]);
      done := done + [c];
      left := left - 1;
    }
  }

  method PutString(buf: array<char>, size: nat, str: nat, s: string, ghost out: string) returns (next: nat)
    requires str == |out| && Bounded(buf[..], size, out)
    modifies buf
    ensures next == |out + s| && Bounded(buf[..], size, out + s) && buf[size..] == old(buf[size..])
  {
    next := str;
    assert out + s[..0] == out;
    for i := 0 to |s|
      invariant next == |out + s[..i]| && Bounded(buf[..], size, out + s[..i]) && buf[size..] == old(buf[size..])
    {
      next := Put(buf, size, next, s[i], out + s[..i]);
      assert out + s[..i] + [s[i]] == out + s[..i + 1];
    }
    assert s[..|s|] == s;
  }

  /** The digits of a number in the scratch array, which they fit. */
  method FillScratch(num: nat, base: int, large: bool) returns (tmp: array<char>, i: nat)
    requires 0 < num < 0x1_0000_0000
    ensures fresh(tmp) && i <= tmp.Length == 16 && tmp[..i] == Scratch(num, base, large)
  {
    tmp := new char[16];
    i := 0;
    ScratchFits(num, base, large);
    var n: nat := num;
    ghost var done := "";
    assert done + Scratch(n, base, large) == Scratch(num, base, large);
    while n != 0
      invariant i + |Scratch(n, base, large)| <= 10 && tmp[..i] == done
      invariant done + Scratch(n, base, large) == Scratch(num, base, large)
      decreases n
    {
      ScratchStep(done, n, base, large);
      tmp[i] := Digit(n % Divisor(base), large);
      done := done + [Digit(n % Divisor(base), large)];
      n := n / Divisor(base);
      i := i + 1;
    }
    assert done + "" == done;
  }

  lemma {:induction false} ScratchStep(done: string, n: nat, base: int, large: bool)
    requires n > 0
    ensures done + Scratch(n, base, large)
            == done + [Digit(n % Divisor(base), large)] + Scratch(n / Divisor(base), base, large)
    ensures |Scratch(n, base, large)| == 1 + |Scratch(n / Divisor(base), base, large)|
  {
    Assoc(done, [Digit(n % Divisor(base), large)], Scratch(n / Divisor(base), base, large));
  }

  /** The scratch array from its last digit back. */
  method PutReversed(buf: array<char>, size: nat, str: nat, tmp: array<char>, count: nat, ghost out: string)
      returns (next: nat)
    requires str == |out| && Bounded(buf[..], size, out) && count <= tmp.Length && tmp != buf
    modifies buf
    ensures next == |out + Reversed(tmp[..count])| && Bounded(buf[..], size, out + Reversed(tmp[..count]))
    ensures buf[size..] == old(buf[size..])
  {
    next := str;
    var i := count;
    ghost var all, done := tmp[..count], "";
    assert all[..count] == all && out + "" == out;
    while i > 0
      invariant 0 <= i <= count && done + Reversed(all[..i]) == Reversed(all)
      invariant next == |out + done| && Bounded(buf[..], size, out + done) && buf[size..] == old(buf[size..])
    {
      i := i - 1;
      ReversedLast(all[..i], all[i]);
      assert all[..i + 1] == all[..i] + [all[i]];
      next := Put(buf, size, next, tmp[i], out + done);
      assert out + done + [all[i]] == out + (done + [all[i]]);
      assert done + ([all[i]] + Reversed(all[..i])) == done + [all[i]] + Reversed(all[..i]);
      done := done + [all[i]];
    }
    assert done + "" == done;
  }

  lemma {:induction false} ReversedLast(s: string, c: char)
    ensures Reversed(s + [c]) == [c] + Reversed(s)
  {
    if s == "" {
      assert [c][1..] == "";
    } else {
      ReversedLast(s[1..], c);
      assert (s + [c])[1..] == s[1..] + [c];
    }
  }

  lemma {:induction false} Joined(out: string, a: string, b: string, c: string, d: string, e: string, g: string)
    ensures out + a + b + c + d + e + g == out + (a + b + c + d + e + g)
  {}

  lemma {:induction false} PaddedIs(out: string, tmp: string, sign: string, width: int, precision: int, f: Flags,
                                    a: string, b: string, c: string, d: string, e: string, g: string)
    requires var field := width - Max(precision, |tmp|);
             a == Lead(field, sign, f) && b == sign && c == Middle(field, sign, f)
                 && d == Repeat('0', precision - |tmp|)
             && e == (if precision == 0 then "" else Reversed(tmp)) && g == Trail(field, sign, f)
    ensures out + Padded(tmp, sign, width, precision, f) == out + a + b + c + d + e + g
  {
    Joined(out, a, b, c, d, e, g);
  }

  /** print_number. */
  method PrintNumber(buf: array<char>, size: nat, str: nat, num: nat, base: int, width: int, precision: int, f: Flags,
      ghost out: string)
    returns (next: nat)
    requires num < 0x1_0000_0000 && str == |out| && Bounded(buf[..], size, out)
    modifies buf
    ensures next == |out + NumberText(num, base, width, precision, f)|
    ensures Bounded(buf[..], size, out + NumberText(num, base, width, precision, f)) && buf[size..] == old(buf[size..])
  {
    var tmp, i := FillDigits(num, base, f);
    ghost var digits := Digits(num, base, f);
    assert |digits| == i && digits == tmp[..i];
    next := PrintPieces(buf, size, str, SignText(num, f), tmp, i, width, precision, f, out);
  }

  method FillDigits(num: nat, base: int, f: Flags) returns (tmp: array<char>, i: nat)
    requires num < 0x1_0000_0000
    ensures fresh(tmp) && i <= tmp.Length == 16 && tmp[..i] == Digits(num, base, f)
  {
    if num == 0 {
      tmp := new char[16];
      tmp[0] := '0';
      i := 1;
      assert tmp[..1] == "0";
    } else {
      tmp, i := FillScratch(Magnitude(num, f), base, f.large);
    }
  }

  /** The sign and the digits between their paddings. */
  method PrintPieces(buf: array<char>, size: nat, str: nat, sign: string, tmp: array<char>, i: nat,
                     width: int, precision: int, f: Flags, ghost out: string)
    returns (next: nat)
    requires str == |out| && Bounded(buf[..], size, out) && |sign| <= 1 && i <= tmp.Length && tmp != buf
    modifies buf
    ensures var text := Padded(tmp[..i], sign, width, precision, f);
            next == |out + text| && Bounded(buf[..], size, out + text) && buf[size..] == old(buf[size..])
  {
    var field := width - Max(precision, i);
    ghost var a, b, c, d := Lead(field, sign, f), sign, Middle(field, sign, f), Repeat('0', precision - i);
    ghost var e, g := if precision == 0 then "" else Reversed(tmp[..i]), Trail(field, sign, f);
    PaddedIs(out, tmp[..i], sign, width, precision, f, a, b, c, d, e, g);
    next := PrintLead(buf, size, str, sign, field, f, out);
    next := PutMany(buf, size, next, '0', if !f.left && f.zeroPad then field - |sign| else 0, out + a + b);
    next := PutMany(buf, size, next, '0', precision - i, out + a + b + c);
    next := PrintDigits(buf, size, next, tmp, i, precision, out + a + b + c + d);
    next := PutMany(buf, size, next, ' ', if f.left then field - |sign| else 0, out + a + b + c + d + e);
  }

  method PrintDigits(buf: array<char>, size: nat, str: nat, tmp: array<char>, i: nat, precision: int, ghost out: string)
    returns (next: nat)
    requires str == |out| && Bounded(buf[..], size, out) && i <= tmp.Length && tmp != buf
    modifies buf
    ensures var e := if precision == 0 then "" else Reversed(tmp[..i]);
            next == |out + e| && Bounded(buf[..], size, out + e) && buf[size..] == old(buf[size..])
  {
    next := str;
    if precision != 0 {
      next := PutReversed(buf, size, next, tmp, i, out);
    } else {
      assert out + "" == out;
    }
  }

  /** The blanks before the sign, and the sign. */
  method PrintLead(buf: array<char>, size: nat, str: nat, sign: string, field: int, f: Flags, ghost out: string)
      returns (next: nat)
    requires str == |out| && Bounded(buf[..], size, out) && |sign| <= 1
    modifies buf
    ensures next == |out + Lead(field, sign, f) + sign| && Bounded(buf[..], size, out + Lead(field, sign, f) + sign)
    ensures buf[size..] == old(buf[size..])
  {
    next := str;
    if !f.zeroPad && !f.left {
      var blanks := field;
      if sign != "" && field > 0 {
        blanks := blanks - 1;
      }
      next := PutMany(buf, size, next, ' ', blanks, out);
    } else {
      assert out + "" == out;
    }
    next := PutString(buf, size, next, sign, out + Lead(field, sign, f));
  }

  method PrintChar(buf: array<char>, size: nat, str: nat, c: char, width: int, f: Flags, ghost out: string)
      returns (next: nat)
    requires str == |out| && Bounded(buf[..], size, out)
    modifies buf
    ensures next == |out + CharText(c, width, f)| && Bounded(buf[..], size, out + CharText(c, width, f))
    ensures buf[size..] == old(buf[size..])
  {
    next := str;
    var left := width - 1;
    ghost var pad := Repeat(' ', width - 1);
    if !f.left {
      next := PutMany(buf, size, next, ' ', left, out);
      next := Put(buf, size, next, c, out + pad);
      assert out + pad + [c] == out + (pad + [c]);
    } else {
      next := Put(buf, size, next, c, out);
      next := PutMany(buf, size, next, ' ', left, out + [c]);
      assert out + [c] + pad == out + ([c] + pad);
    }
  }

  method PrintText(buf: array<char>, size: nat, str: nat, s: string, width: int, precision: int, f: Flags,
      ghost out: string)
    returns (next: nat)
    requires str == |out| && Bounded(buf[..], size, out)
    modifies buf
    ensures next == |out + StringText(s, width, precision, f)|
            && Bounded(buf[..], size, out + StringText(s, width, precision, f))
    ensures buf[size..] == old(buf[size..])
  {
    var len := |s|;
    if precision > 0 && len > precision {
      len := precision;
    }
    ghost var t, pad := Shown(s, precision), Repeat(' ', width - len);
    assert s[..len] == t;
    next := str;
    if !f.left {
      next := PutMany(buf, size, next, ' ', width - len, out);
      next := PutString(buf, size, next, s[..len], out + pad);
      assert out + pad + t == out + (pad + t);
    } else {
      next := PutString(buf, size, next, s[..len], out);
      next := PutMany(buf, size, next, ' ', width - len, out + t);
      assert out + t + pad == out + (t + pad);
    }
  }

  /** One directive. */
  method PrintDirective(buf: array<char>, size: nat, str: nat, s: Spec, ghost out: string)
    returns (next: nat, rest: string, args: seq<Arg>)
    requires str == |out| && Bounded(buf[..], size, out)
    modifies buf
    ensures rest == Convert(s).1 && args == Convert(s).2
    ensures next == |out + Convert(s).0| && Bounded(buf[..], size, out + Convert(s).0)
            && buf[size..] == old(buf[size..])
  {
    rest, args := if s.rest == "" then "" else s.rest[1..], s.args;
    var c := At(s.rest);
    if s.rest == "" || c == '%' {
      next := Put(buf, size, str, '%', out);
    } else if c == 'c' {
      next := PrintChar(buf, size, str, (WordOf(args) % 256) as char, s.width, s.flags, out);
      args := Tail(args);
    } else if c == 's' {
      next := PrintText(buf, size, str, TextOf(args), s.width, s.precision, s.flags, out);
      args := Tail(args);
    } else if c == 'p' {
      var width, f := s.width, s.flags;
      if width == -1 {
        width := 8;
        f := f.(zeroPad := true);
      }
      next := PrintNumber(buf, size, str, WordOf(args), 16, width, s.precision, f, out);
      args := Tail(args);
    } else if c in "oxXdiu" {
      var signed := c == 'd' || c == 'i';
      var base := if c == 'o' then 8 else if c == 'x' || c == 'X' then 16 else 10;
      next := PrintNumber(buf, size, str, Operand(s, signed), base, s.width, s.precision,
                          s.flags.(sign := signed, large := c == 'X'), out);
      args := Tail(args);
    } else {
      next := PutString(buf, size, str, ['%', c], out);
    }
  }

  lemma {:induction false} OutputStep(out: string, fmt: string, args: seq<Arg>)
    requires fmt != "" && fmt[0] == '%'
    ensures var (text, rest, more) := Convert(Parse(fmt[1..], args));
            out + Output(fmt, args) == out + text + Output(rest, more)
  {
    var (text, rest, more) := Convert(Parse(fmt[1..], args));
    Assoc(out, text, Output(rest, more));
  }

  lemma {:induction false} CutIs(b: seq<char>, size: nat, out: string, m: nat)
    requires Bounded(b, size, out) && m <= |out| && m <= size
    ensures b[..m] == out[..m]
  {
    assert b[..Min(|out|, size)][..m] == out[..Min(|out|, size)][..m];
  }

  /**
    rt_vsnprintf: the length does not depend on the size, and the buffer gets the output, cut to leave room
    for the terminator it always gets when there is room at all.
   */
  method Vsnprintf(buf: array<char>, size: nat, fmt: string, args: seq<Arg>) returns (len: nat)
    requires size <= buf.Length
    modifies buf
    ensures len == |Output(fmt, args)| && buf[size..] == old(buf[size..])
    ensures size > 0 ==> var m := Min(len, size - 1); buf[..m] == Output(fmt, args)[..m] && buf[m] == '\0'
  {
    ghost var all, out := Output(fmt, args), "";
    var rest, left, str: nat := fmt, args, 0;
    assert out + all == all;
    while rest != ""
      invariant out + Output(rest, left) == all && str == |out| && Bounded(buf[..], size, out)
                && buf[size..] == old(buf[size..])
      decreases |rest|
    {
      if rest[0] != '%' {
        Assoc(out, [rest[0]], Output(rest[1..], left));
        str := Put(buf, size, str, rest[0], out);
        out := out + [rest[0]];
        rest := rest[1..];
      } else {
        var s := Parse(rest[1..], left);
        ConvertShortens(rest[1..], left);
        ghost var t := Convert(s).0;
        OutputStep(out, rest, left);
        str, rest, left := PrintDirective(buf, size, str, s, out);
        out := out + t;
      }
    }
    assert out + "" == out;
    len := str;
    if size > 0 {
      ghost var b := buf[..];
      var m := if str < size then str else size - 1;
      buf[m] := '\0';
      CutIs(b, size, all, m);
      assert buf[..m] == b[..m];
    }
  }
}
