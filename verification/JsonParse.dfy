/** The cJSON parser as functions from the remaining text. */
module JsonParse {
  import opened JsonText

  /** Ok carries the remaining text, Fail the error pointer; Overrun: the source reads past the terminator. */
  datatype Parsed<T> = Ok(value: T, rest: string) | Fail(ep: string) | Overrun

  predicate Starts(s: string, t: string) {
    |t| <= |s| && s[..|t|] == t
  }

  /** The character a C pointer at the start of s sees. */
  function At(s: string, i: nat): char {
    if i < |s| then s[i] else '\0'
  }

  function Skip(s: string): (t: string)
    ensures |t| <= |s|
  {
    if s != "" && s[0] as int <= 32 then Skip(s[1..]) else s
  }

  predicate IsDigit(c: char) { '0' <= c <= '9' }

  // ---------------------------------------------------------------- numbers

  function DigitValue(c: char): int
    requires IsDigit(c)
  {
    c as int - '0' as int
  }

  /** Read digits onto n; also how many were read. */
  function ReadDigits(s: string, n: nat, count: nat): (r: (nat, nat, string))
    ensures |r.2| <= |s|
  {
    if IsDigit(At(s, 0)) then ReadDigits(s[1..], n * 10 + DigitValue(s[0]), count + 1) else (n, count, s)
  }

  function Pow10(k: int): real
    decreases if k < 0 then -k else k
  {
    if k == 0 then 1.0 else if k > 0 then 10.0 * Pow10(k - 1) else Pow10(k + 1) / 10.0
  }

  /** The digits before the point, unless the first is a zero. */
  function ReadWhole(s: string): (r: (nat, string))
    ensures |r.1| <= |s|
  {
    if '1' <= At(s, 0) <= '9' then (ReadDigits(s, 0, 0).0, ReadDigits(s, 0, 0).2) else (0, s)
  }

  /** A point and digits onto n; also how many places. */
  function ReadFraction(s: string, n: nat): (r: (nat, nat, string))
    ensures |r.2| <= |s|
  {
    if At(s, 0) == '.' && IsDigit(At(s, 1)) then ReadDigits(s[1..], n, 0) else (n, 0, s)
  }

  function ReadExponent(s: string): (r: (int, string))
    ensures |r.1| <= |s|
  {
    if At(s, 0) == 'e' || At(s, 0) == 'E' then
      var t := if At(s, 1) == '+' || At(s, 1) == '-' then s[2..] else s[1..];
      var (k, _, u) := ReadDigits(t, 0, 0);
      (if At(s, 1) == '-' then 0 - k else k, u)
    else (0, s)
  }

  function Scale(m: nat, e: int): real { m as real * Pow10(e) }

  /** From after the whole part n. */
  function ReadScaled(s: string, n: nat): (r: (real, string))
    ensures |r.1| <= |s|
  {
    var (m, places, s1) := ReadFraction(s, n);
    var (e, s2) := ReadExponent(s1);
    (Scale(m, e - places), s2)
  }

  /** From after the sign. */
  function ReadUnsigned(s: string): (r: (real, string))
    ensures |r.1| <= |s|
  {
    var (n, t) := ReadWhole(if At(s, 0) == '0' then s[1..] else s);
    ReadScaled(t, n)
  }

  function ParseNumber(s: string): (r: Parsed<Value>)
    requires At(s, 0) == '-' || IsDigit(At(s, 0))
    ensures r.Ok? && |r.rest| < |s|
  {
    if s[0] == '-' then
      var (d, rest) := ReadUnsigned(s[1..]);
      Ok(Number(-d), rest)
    else
      UnsignedReads(s);
      var (d, rest) := ReadUnsigned(s);
      Ok(Number(d), rest)
  }

  lemma UnsignedReads(s: string)
    requires IsDigit(At(s, 0))
    ensures |ReadUnsigned(s).1| < |s|
  {
  }

  // ---------------------------------------------------------------- strings

  function HexValue(c: char): int {
    if '0' <= c <= '9' then c as int - '0' as int
    else if 'A' <= c <= 'F' then 10 + c as int - 'A' as int
    else if 'a' <= c <= 'f' then 10 + c as int - 'a' as int
    else -1
  }

  /** parse_hex4: 0 when any of the four is not a hex digit. */
  function Hex4(s: string): (h: nat)
    ensures h < 0x10000
  {
    var (a, b, c, d) := (HexValue(At(s, 0)), HexValue(At(s, 1)), HexValue(At(s, 2)), HexValue(At(s, 3)));
    if a < 0 || b < 0 || c < 0 || d < 0 then 0 else a * 0x1000 + b * 0x100 + c * 0x10 + d
  }

  /** The UTF-8 bytes the source stores for a code point, from the last byte back. */
  function Utf8(u: nat): (s: string)
    requires 0 < u < 0x110000
    ensures 1 <= |s| <= 4
  {
    if u < 0x80 then [u as char]
    else if u < 0x800 then [(0xC0 + u / 0x40) as char, (0x80 + u % 0x40) as char]
    else if u < 0x10000 then [(0xE0 + u / 0x1000) as char, (0x80 + u / 0x40 % 0x40) as char, (0x80 + u % 0x40) as char]
    else [(0xF0 + u / 0x40000) as char, (0x80 + u / 0x1000 % 0x40) as char, (0x80 + u / 0x40 % 0x40) as char,
          (0x80 + u % 0x40) as char]
  }

  function SimpleEscape(c: char): char {
    if c == 'b' then 8 as char
    else if c == 'f' then 12 as char
    else if c == 'n' then '\n'
    else if c == 'r' then '\r'
    else if c == 't' then '\t'
    else c
  }

  predicate IsLow(u: int) { 0xDC00 <= u <= 0xDFFF }
  predicate IsHigh(u: int) { 0xD800 <= u <= 0xDBFF }

  function Combine(hi: int, lo: int): int { 0x10000 + hi % 0x400 * 0x400 + lo % 0x400 }

  /** What one escape (s starts with a backslash) stores, and how many characters it consumes. */
  function OneEscape(s: string): (r: (string, nat))
    requires |s| > 0
    ensures r.1 >= 2
  {
    if At(s, 1) != 'u' then ([SimpleEscape(At(s, 1))], 2)
    else
      var u := Hex4(s[2..]);
      if IsLow(u) || u == 0 then ("", 6)
      else if !IsHigh(u) then (Utf8(u), 6)
      else if At(s, 6) != '\\' || At(s, 7) != 'u' then ("", 6)
      else
        var lo := Hex4(s[8..]);
        if !IsLow(lo) then ("", 12) else (Utf8(Combine(u, lo)), 12)
  }

  /** The second pass of parse_string, from after the opening quote. */
  function Unescape(s: string): (r: Parsed<string>)
    ensures r.Ok? ==> |r.rest| <= |s|
  {
    if s == "" || s[0] == '\"' then Ok("", s)
    else if s[0] != '\\' then
      var r := Unescape(s[1..]);
      if r.Ok? then Ok([s[0]] + r.value, r.rest) else r
    else
      var (out, used) := OneEscape(s);
      if used > |s| then Overrun
      else
        var r := Unescape(s[used..]);
        if r.Ok? then Ok(out + r.value, r.rest) else r
  }

  function ParseString(s: string): (r: Parsed<string>)
    ensures r.Ok? ==> |r.rest| < |s|
  {
    if At(s, 0) != '\"' then Fail(s)
    else
      var r := Unescape(s[1..]);
      if r.Ok? && At(r.rest, 0) == '\"' then Ok(r.value, r.rest[1..]) else r
  }

  // ---------------------------------------------------------------- trees

  function ParseValue(s: string): (r: Parsed<Value>)
    ensures r.Ok? ==> |r.rest| < |s|
    decreases |s|, 1
  {
    if Starts(s, "null") then Ok(Null, s[4..])
    else if Starts(s, "false") then Ok(False, s[5..])
    else if Starts(s, "true") then Ok(True, s[4..])
    else if At(s, 0) == '\"' then
      match ParseString(s)
      case Ok(x, rest) => Ok(Str(x), rest)
      case Fail(ep) => Fail(ep)
      case Overrun => Overrun
    else if At(s, 0) == '-' || IsDigit(At(s, 0)) then ParseNumber(s)
    else if At(s, 0) == '[' then ParseArray(s)
    else if At(s, 0) == '{' then ParseObject(s)
    else Fail(s)
  }

  function ParseArray(s: string): (r: Parsed<Value>)
    requires At(s, 0) == '['
    ensures r.Ok? ==> |r.rest| < |s|
    decreases |s|, 0
  {
    var t := Skip(s[1..]);
    if At(t, 0) == ']' then Ok(Array(NoItems), t[1..])
    else
      match ParseItems(Skip(t))
      case Ok(items, rest) => if At(rest, 0) == ']' then Ok(Array(items), rest[1..]) else Fail(rest)
      case Fail(ep) => Fail(ep)
      case Overrun => Overrun
  }

  /** value, then as long as a comma follows, another; spaces are skipped. */
  function ParseItems(s: string): (r: Parsed<Items>)
    ensures r.Ok? ==> |r.rest| < |s|
    decreases |s|, 2
  {
    match ParseValue(s)
    case Fail(ep) => Fail(ep)
    case Overrun => Overrun
    case Ok(v, after) =>
      var t := Skip(after);
      if At(t, 0) != ',' then Ok(Item(v, NoItems), t)
      else
        match ParseItems(Skip(t[1..]))
        case Ok(next, rest) => Ok(Item(v, next), rest)
        case Fail(ep) => Fail(ep)
        case Overrun => Overrun
  }

  function ParseObject(s: string): (r: Parsed<Value>)
    requires At(s, 0) == '{'
    ensures r.Ok? ==> |r.rest| < |s|
    decreases |s|, 0
  {
    var t := Skip(s[1..]);
    if At(t, 0) == '}' then Ok(Object(NoMembers), t[1..])
    else
      match ParseMembers(Skip(t))
      case Ok(ms, rest) => if At(rest, 0) == '}' then Ok(Object(ms), rest[1..]) else Fail(rest)
      case Fail(ep) => Fail(ep)
      case Overrun => Overrun
  }

  function ParseMembers(s: string): (r: Parsed<Members>)
    ensures r.Ok? ==> |r.rest| < |s|
    decreases |s|, 2
  {
    match ParseString(s)
    case Fail(ep) => Fail(ep)
    case Overrun => Overrun
    case Ok(name, after) =>
      var t := Skip(after);
      if At(t, 0) != ':' then Fail(t)
      else
        match ParseValue(Skip(t[1..]))
        case Fail(ep) => Fail(ep)
        case Overrun => Overrun
        case Ok(v, after2) =>
          var u := Skip(after2);
          if At(u, 0) != ',' then Ok(Member(name, v, NoMembers), u)
          else
            match ParseMembers(Skip(u[1..]))
            case Ok(ms, rest) => Ok(Member(name, v, ms), rest)
            case Fail(ep) => Fail(ep)
            case Overrun => Overrun
  }

  /** cJSON_Parse: trailing text is ignored. */
  function Parse(s: string): Parsed<Value> { ParseValue(Skip(s)) }

  /** cJSON_ParseWithOpts with require_null_terminated. */
  function ParseWhole(s: string): Parsed<Value> {
    match ParseValue(Skip(s))
    case Ok(v, rest) => if Skip(rest) == "" then Ok(v, "") else Fail(Skip(rest))
    case r => r
  }
}
