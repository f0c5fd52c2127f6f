/**
  String literals (section 7 of RFC 8259): what a literal means, that the parser's second pass stores
  exactly that, and that its first pass counts enough room for it.
 */
module JsonStrings {
  import opened JsonParse

  /** A literal is a sequence of bytes and of UTF-16 code units written as escapes. */
  datatype Token = Byte(c: char) | Unit(u: CodeUnit)

  type CodeUnit = u: int | 0 <= u < 0x10000

  predicate IsHex(c: char) { HexValue(c) >= 0 }

  predicate IsUnit(s: string) {
    |s| > 6 && s[0] == '\\' && s[1] == 'u' && IsHex(s[2]) && IsHex(s[3]) && IsHex(s[4]) && IsHex(s[5])
  }

  function UnitValue(s: string): CodeUnit
    requires IsUnit(s)
  {
    ((HexValue(s[2]) * 16 + HexValue(s[3])) * 16 + HexValue(s[4])) * 16 + HexValue(s[5])
  }

  /** The text after an opening quote is a literal up to some closing quote. */
  predicate Literal(s: string) {
    s != "" && (
      if s[0] == '\"' then true
      else if s[0] != '\\' then s[0] as int >= 32 && Literal(s[1..])
      else if At(s, 1) == 'u' then
        IsUnit(s) && Literal(s[6..])
      else At(s, 1) in "\"\\/bfnrt" && Literal(s[2..]))
  }

  function Tokens(s: string): seq<Token>
    requires Literal(s)
  {
    if s[0] == '\"' then []
    else if s[0] != '\\' then [Byte(s[0])] + Tokens(s[1..])
    else if s[1] == 'u' then [Unit(UnitValue(s))] + Tokens(s[6..])
    else [Byte(SimpleEscape(s[1]))] + Tokens(s[2..])
  }

  /** What follows the closing quote. */
  function AfterQuote(s: string): string
    requires Literal(s)
  {
    if s[0] == '\"' then s[1..]
    else if s[0] != '\\' then AfterQuote(s[1..])
    else if s[1] == 'u' then AfterQuote(s[6..])
    else AfterQuote(s[2..])
  }

  /** Section 2.1 of RFC 2781: the surrogate pair of a code point from 0x10000 on. */
  function Surrogates(u: nat): (nat, nat)
    requires 0x10000 <= u < 0x110000
  {
    (0xD800 + (u - 0x10000) / 0x400, 0xDC00 + (u - 0x10000) % 0x400)
  }

  /** High and low surrogates come in pairs. */
  predicate Paired(ts: seq<Token>) {
    ts == [] || (
      if ts[0].Byte? || (!IsHigh(ts[0].u) && !IsLow(ts[0].u)) then Paired(ts[1..])
      else IsHigh(ts[0].u) && |ts| > 1 && ts[1].Unit? && IsLow(ts[1].u) && Paired(ts[2..]))
  }

  /** The source's combination of two halves is the inverse of splitting into a pair. */
  lemma {:induction false} SurrogatesInverse(u: nat, hi: nat, lo: nat)
    ensures 0x10000 <= u < 0x110000 ==>
            var p := Surrogates(u); IsHigh(p.0) && IsLow(p.1) && Combine(p.0, p.1) == u
    ensures IsHigh(hi) && IsLow(lo) ==>
            0x10000 <= Combine(hi, lo) < 0x110000 && Surrogates(Combine(hi, lo)) == (hi, lo)
  {
    if IsHigh(hi) && IsLow(lo) {
      var a, b := hi - 0xD800, lo - 0xDC00;
      assert hi % 0x400 == a && lo % 0x400 == b;
      assert Combine(hi, lo) - 0x10000 == a * 0x400 + b;
    }
  }

  /** The bytes a literal means: U+0000 cannot be stored in a C string and is dropped. */
  ghost function Meaning(ts: seq<Token>): string
    requires Paired(ts)
  {
    if ts == [] then ""
    else if ts[0].Byte? then [ts[0].c] + Meaning(ts[1..])
    else if IsHigh(ts[0].u) then
      SurrogatesInverse(0, ts[0].u, ts[1].u);
      var u: nat :| 0x10000 <= u < 0x110000 && Surrogates(u) == (ts[0].u, ts[1].u);
      Utf8(u) + Meaning(ts[2..])
    else if ts[0].u == 0 then Meaning(ts[1..])
    else Utf8(ts[0].u) + Meaning(ts[1..])
  }

  // ---------------------------------------------------------------- UTF-8

  predicate IsTail(c: char) { 0x80 <= c as int < 0xC0 }

  function TailBits(c: char): int { c as int - 0x80 }

  /** Section 3 of RFC 3629, read from the bytes; overlong forms and surrogates are not UTF-8. */
  function DecodeUtf8(s: string): int {
    if |s| == 1 && s[0] as int < 0x80 then s[0] as int
    else if |s| == 2 && 0xC0 <= s[0] as int < 0xE0 && IsTail(s[1]) then
      var u := (s[0] as int - 0xC0) * 0x40 + TailBits(s[1]);
      if u >= 0x80 then u else -1
    else if |s| == 3 && 0xE0 <= s[0] as int < 0xF0 && IsTail(s[1]) && IsTail(s[2]) then
      var u := (s[0] as int - 0xE0) * 0x1000 + TailBits(s[1]) * 0x40 + TailBits(s[2]);
      if u >= 0x800 && !(0xD800 <= u < 0xE000) then u else -1
    else if |s| == 4 && 0xF0 <= s[0] as int < 0xF8 && IsTail(s[1]) && IsTail(s[2]) && IsTail(s[3]) then
      var u := (s[0] as int - 0xF0) * 0x40000 + TailBits(s[1]) * 0x1000 + TailBits(s[2]) * 0x40 + TailBits(s[3]);
      if 0x10000 <= u < 0x110000 then u else -1
    else -1
  }

  /** Every code point but U+0000 and the surrogates is stored as its UTF-8 encoding. */
  lemma {:induction false} Utf8RoundTrip(u: nat)
    requires 0 < u < 0x110000 && !IsHigh(u) && !IsLow(u)
    ensures DecodeUtf8(Utf8(u)) == u
  {
    var a, b, c := u / 0x40, u / 0x40 / 0x40, u / 0x40 / 0x40 / 0x40;
    Shifted(u);
    assert u == 0x40 * a + u % 0x40 && a == 0x40 * b + a % 0x40 && b == 0x40 * c + b % 0x40;
    if 0x80 <= u < 0x800 { TwoBytes(u, a); } else if 0x800 <= u < 0x10000 { ThreeBytes(u, a, b); }
        else if 0x10000 <= u { FourBytes(u, a, b, c); }
  }

  lemma {:induction false} TwoBytes(u: nat, a: nat)
    requires 0x80 <= u < 0x800 && u == 0x40 * a + u % 0x40
    ensures DecodeUtf8([(0xC0 + a) as char, Tail(u)]) == u
  {}

  lemma {:induction false} ThreeBytes(u: nat, a: nat, b: nat)
    requires 0x800 <= u < 0x10000 && !IsHigh(u) && !IsLow(u)
    requires u == 0x40 * a + u % 0x40 && a == 0x40 * b + a % 0x40
    ensures DecodeUtf8([(0xE0 + b) as char, Tail(a), Tail(u)]) == u
  {}

  lemma {:induction false} FourBytes(u: nat, a: nat, b: nat, c: nat)
    requires 0x10000 <= u < 0x110000
    requires u == 0x40 * a + u % 0x40 && a == 0x40 * b + a % 0x40 && b == 0x40 * c + b % 0x40
    ensures DecodeUtf8([(0xF0 + c) as char, Tail(b), Tail(a), Tail(u)]) == u
  {}

  // ---------------------------------------------------------------- the second pass

  /** A closed literal whose surrogates pair up. */
  ghost predicate WellFormed(s: string) {
    Literal(s) && Paired(Tokens(s))
  }

  lemma {:induction false} Hex4Value(s: string)
    requires IsUnit(s)
    ensures Hex4(s[2..]) == UnitValue(s)
  {
    var h := s[2..];
    assert h[0] == s[2] && h[1] == s[3] && h[2] == s[4] && h[3] == s[5];
  }

  /** A unit that is no surrogate. */
  lemma {:induction false} UnitEscape(s: string)
    requires IsUnit(s) && !IsHigh(UnitValue(s)) && !IsLow(UnitValue(s))
    ensures OneEscape(s) == (if UnitValue(s) == 0 then "" else Utf8(UnitValue(s)), 6)
  {
    Hex4Value(s);
  }

  /** The two escapes of a pair are read as one. */
  lemma {:induction false} PairEscape(s: string)
    requires IsUnit(s) && IsHigh(UnitValue(s)) && IsUnit(s[6..]) && IsLow(UnitValue(s[6..]))
    ensures IsHigh(UnitValue(s)) && OneEscape(s) == (Utf8(Combine(UnitValue(s), UnitValue(s[6..]))), 12)
  {
    Hex4Value(s);
    Hex4Value(s[6..]);
    assert s[6..][2..] == s[8..];
    assert s[6] == s[6..][0] && s[7] == s[6..][1];
  }

  /** A first unit in a literal's tokens was written as an escape. */
  lemma {:induction false} FirstToken(s: string)
    requires Literal(s) && Tokens(s) != [] && Tokens(s)[0].Unit?
    ensures IsUnit(s) && Tokens(s)[0] == Unit(UnitValue(s)) && Tokens(s)[1..] == Tokens(s[6..])
  {
    assert s[0] == '\\' && s[1] == 'u';
    assert ([Unit(UnitValue(s))] + Tokens(s[6..]))[1..] == Tokens(s[6..]);
  }

  lemma {:induction false} UniquePair(hi: nat, lo: nat)
    requires IsHigh(hi) && IsLow(lo)
    ensures forall u: nat {:trigger Surrogates(u)} :: 0x10000 <= u < 0x110000 && Surrogates(u) == (hi, lo) ==>
              u == Combine(hi, lo)
  {
    forall u: nat {:trigger Surrogates(u)} | 0x10000 <= u < 0x110000 && Surrogates(u) == (hi, lo)
      ensures u == Combine(hi, lo)
    {
      SurrogatesInverse(u, hi, lo);
    }
  }

  // ---------------------------------------------------------------- the first pass

  /** What the first pass counts up to the closing quote. */
  function Room(s: string): nat {
    if s == "" || s[0] == '\"' then 0
    else if s[0] == '\\' then 1 + (if |s| == 1 then 0 else Room(s[2..]))
    else 1 + Room(s[1..])
  }

  lemma {:induction false} RoomOfUnit(s: string)
    requires IsUnit(s) && Literal(s[6..])
    ensures Literal(s[2..]) && Room(s[2..]) == 4 + Room(s[6..])
    ensures AfterQuote(s[2..]) == AfterQuote(s[6..])
  {
    assert s[5..][1..] == s[6..];
    HexIsPlain(s[5..], s[5]);
    assert s[4..][1..] == s[5..];
    HexIsPlain(s[4..], s[4]);
    assert s[3..][1..] == s[4..];
    HexIsPlain(s[3..], s[3]);
    assert s[2..][1..] == s[3..];
    HexIsPlain(s[2..], s[2]);
  }

  lemma {:induction false} HexIsPlain(s: string, c: char)
    requires s != "" && s[0] == c && IsHex(c) && Literal(s[1..])
    ensures Literal(s) && Room(s) == 1 + Room(s[1..]) && AfterQuote(s) == AfterQuote(s[1..])
  {}

  // ---------------------------------------------------------------- one round of the second pass

  /** What one round stores and how many characters it consumes. */
  function OneRound(s: string): (string, nat)
    requires s != ""
  {
    if s[0] != '\\' then ([s[0]], 1) else OneEscape(s)
  }

  /** One round takes the next character, unit or pair of a literal, and stores no more than was counted for it. */
  ghost predicate Takes(s: string, o: string, n: nat) {
    WellFormed(s) && n <= |s| && WellFormed(s[n..])
    && Meaning(Tokens(s)) == o + Meaning(Tokens(s[n..]))
    && AfterQuote(s) == AfterQuote(s[n..])
    && |o| + Room(s[n..]) <= Room(s)
  }

  lemma {:induction false} RoundTakes(s: string)
    requires WellFormed(s) && s[0] != '\"'
    ensures Takes(s, OneRound(s).0, OneRound(s).1)
  {
    if s[0] != '\\' {
      assert Tokens(s)[1..] == Tokens(s[1..]);
    } else if s[1] != 'u' {
      assert Tokens(s)[1..] == Tokens(s[2..]);
    } else if !IsHigh(UnitValue(s)) {
      FirstToken(s);
      UnitEscape(s);
      RoomOfUnit(s);
      assert "" + Meaning(Tokens(s[6..])) == Meaning(Tokens(s[6..]));
    } else {
      PairTakes(s);
    }
  }

  lemma {:induction false} PairTakes(s: string)
    requires WellFormed(s) && IsUnit(s) && IsHigh(UnitValue(s))
    ensures Takes(s, OneEscape(s).0, OneEscape(s).1)
  {
    var t := s[6..];
    FirstToken(s);
    assert Tokens(s)[1] == Tokens(t)[0];
    FirstToken(t);
    PairEscape(s);
    SurrogatesInverse(0, UnitValue(s), UnitValue(t));
    UniquePair(UnitValue(s), UnitValue(t));
    assert t[6..] == s[12..];
    assert Tokens(s)[2..] == Tokens(s)[1..][1..] == Tokens(s[12..]);
    RoomOfUnit(s);
    RoomOfUnit(t);
  }

  /** What the second pass stores is what the literal means, and it stops at the closing quote. */
  lemma {:induction false} UnescapeMeaning(s: string)
    requires WellFormed(s)
    ensures Unescape(s) == Ok(Meaning(Tokens(s)), "\"" + AfterQuote(s))
    decreases |s|
  {
    if s[0] == '\"' {
      assert s == "\"" + s[1..];
    } else {
      RoundTakes(s);
      UnescapeMeaning(s[OneRound(s).1..]);
    }
  }

  /** The room counted by the first pass is enough for what the second pass stores. */
  lemma {:induction false} MeaningFits(s: string)
    requires WellFormed(s)
    ensures |Meaning(Tokens(s))| <= Room(s)
    decreases |s|
  {
    if s[0] != '\"' {
      RoundTakes(s);
      MeaningFits(s[OneRound(s).1..]);
    }
  }

  // ---------------------------------------------------------------- both passes over arrays

  /** The first pass, and the room for the string and its terminator. */
  method CountRoom(str: string) returns (len: nat)
    requires At(str, 0) == '\"' && Literal(str[1..])
    ensures len == Room(str[1..])
  {
    var ptr: nat := 1;
    len := 0;
    while At(str, ptr) != '\"' && ptr < |str|
      invariant ptr < |str| && Literal(str[ptr..]) && len + Room(str[ptr..]) == Room(str[1..])
      decreases |str| - ptr
    {
      ghost var s := str[ptr..];
      len := len + 1;
      if At(str, ptr) == '\\' {
        assert s[2..] == str[ptr + 2..];
        if At(str, ptr + 1) == 'u' { RoomOfUnit(s); }
        ptr := ptr + 1;
      } else {
        assert s[1..] == str[ptr + 1..];
      }
      ptr := ptr + 1;
    }
    assert str[ptr..][0] == str[ptr];
  }

  method Utf8Length(u: nat) returns (len: nat)
    requires 0 < u < 0x110000
    ensures len == |Utf8(u)| && Shift(u, len - 1) < 0x1000
    ensures Utf8(u) == [(LeadByte(len) + Shift(u, len - 1)) as char] + Tails(u, len - 1)
  {
    len := 4;
    if u < 0x80 {
      len := 1;
    } else if u < 0x800 {
      len := 2;
    } else if u < 0x10000 {
      len := 3;
    }
    Utf8Is(u, len);
  }

  /** The bytes of a code point, stored from the last one back. */
  method StoreUtf8(out: array<char>, at: nat, u: nat) returns (to: nat)
    requires 0 < u < 0x110000 && at + |Utf8(u)| <= out.Length
    modifies out
    ensures to == at + |Utf8(u)| && out[..to] == old(out[..at]) + Utf8(u)
  {
    var len := Utf8Length(u);
    var ptr, uc := StoreTails(out, at + len, len, u);
    ptr := Prepend(out, ptr, (LeadByte(len) + uc) as char, at + len);
    to := ptr + len;
    assert out[..to] == out[..ptr] + out[ptr..to];
  }

  /** firstByteMark. */
  function LeadByte(len: nat): nat
    requires 1 <= len <= 4
  {
    [0, 0, 0xC0, 0xE0, 0xF0][len]
  }

  /** What is left of a code point after k bytes, and those bytes. */
  function Shift(u: nat, k: nat): nat
    decreases k
  {
    if k == 0 then u else Shift(u / 0x40, k - 1)
  }

  function Tails(u: nat, k: nat): (s: string)
    ensures |s| == k
    decreases k
  {
    if k == 0 then "" else Tails(u / 0x40, k - 1) + [Tail(u)]
  }

  lemma {:induction false} TailsAre(u: nat)
    ensures var a, b, c := u / 0x40, u / 0x40 / 0x40, u / 0x40 / 0x40 / 0x40;
            Shift(u, 0) == u && Shift(u, 1) == a && Shift(u, 2) == b && Shift(u, 3) == c && Tails(u, 0) == ""
            && Tails(u, 1) == [Tail(u)] && Tails(u, 2) == [Tail(a), Tail(u)]
                && Tails(u, 3) == [Tail(b), Tail(a), Tail(u)]
  {
    var a, b, c := u / 0x40, u / 0x40 / 0x40, u / 0x40 / 0x40 / 0x40;
    assert Shift(u, 1) == Shift(a, 0) && Tails(u, 1) == [Tail(u)];
    assert Shift(u, 2) == Shift(a, 1) == Shift(b, 0) && Tails(a, 1) == [Tail(a)] && Tails(u, 2) == [Tail(a), Tail(u)];
    assert Shift(u, 3) == Shift(a, 2) == Shift(b, 1) == Shift(c, 0) && Tails(b, 1) == [Tail(b)];
    assert Tails(a, 2) == [Tail(b), Tail(a)] && Tails(u, 3) == [Tail(b), Tail(a), Tail(u)];
  }

  lemma {:induction false} Utf8Is(u: nat, len: nat)
    requires 0 < u < 0x110000 && len == if u < 0x80 then 1 else if u < 0x800 then 2 else if u < 0x10000 then 3 else 4
    ensures Shift(u, len - 1) < 0x40 * 0x40 && |Utf8(u)| == len
    ensures Utf8(u) == [(LeadByte(len) + Shift(u, len - 1)) as char] + Tails(u, len - 1)
  {
    Shifted(u);
    TailsAre(u);
  }

  /** All bytes but the first, the last one first; also what is left of the code point. */
  method StoreTails(out: array<char>, end: nat, len: nat, u: nat) returns (ptr: nat, uc: nat)
    requires 1 <= len <= 4 && len <= end <= out.Length
    modifies out
    ensures ptr == end - len + 1 && out[..ptr] == old(out[..end - len + 1])
    ensures uc == Shift(u, len - 1) && out[ptr..end] == Tails(u, len - 1)
  {
    uc := u;
    ptr := end;
    TailsAre(u);
    assert out[end..end] == "";
    if len >= 4 {
      ptr := Prepend(out, ptr, (0x80 + uc % 0x40) as char, end);
      uc := uc / 0x40;
    }
    if len >= 3 {
      ptr := Prepend(out, ptr, (0x80 + uc % 0x40) as char, end);
      uc := uc / 0x40;
    }
    if len >= 2 {
      ptr := Prepend(out, ptr, (0x80 + uc % 0x40) as char, end);
      uc := uc / 0x40;
    }
  }

  /** One byte in front of those stored. */
  method Prepend(out: array<char>, at: nat, c: char, ghost end: nat) returns (ptr: nat)
    requires 0 < at <= end <= out.Length
    modifies out
    ensures ptr == at - 1 && out[..ptr] == old(out[..at - 1]) && out[ptr..end] == [c] + old(out[at..end])
  {
    ptr := at - 1;
    out[ptr] := c;
  }

  function Tail(uc: nat): char { (0x80 + uc % 0x40) as char }

  /** The bytes of a code point, by how often it is shifted. */
  lemma {:induction false} Shifted(u: nat)
    requires 0 < u < 0x110000
    ensures u < 0x80 ==> Utf8(u) == [u as char]
    ensures 0x80 <= u < 0x800 ==> Utf8(u) == [(0xC0 + u / 0x40) as char, Tail(u)]
    ensures 0x800 <= u < 0x10000 ==> Utf8(u) == [(0xE0 + u / 0x40 / 0x40) as char, Tail(u / 0x40), Tail(u)]
    ensures 0x10000 <= u
            ==> Utf8(u) == [(0xF0 + u / 0x40 / 0x40 / 0x40) as char, Tail(u / 0x40 / 0x40), Tail(u / 0x40), Tail(u)]
  {
    assert u / 0x40 / 0x40 == u / 0x1000 && u / 0x40 / 0x40 / 0x40 == u / 0x40000;
  }

  /** One round of the second pass: its stores and its steps. */
  method StoreRound(out: array<char>, at: nat, str: string, ptr: nat) returns (to: nat, next: nat)
    requires ptr < |str| && WellFormed(str[ptr..]) && str[ptr] != '\"'
    requires at + Room(str[ptr..]) < out.Length
    modifies out
    ensures var (o, n) := OneRound(str[ptr..]);
            next == ptr + n && to == at + |o| <= out.Length && out[..to] == old(out[..at]) + o
  {
    ghost var s := str[ptr..];
    RoundTakes(s);
    assert |s| >= 2 && s[1] == str[ptr + 1];
    to, next := at, ptr;
    if str[next] != '\\' {
      out[to] := str[next];
      to, next := to + 1, next + 1;
      return;
    }
    if str[next + 1] != 'u' {
      out[to] := SimpleEscape(str[next + 1]);
      to, next := to + 1, next + 2;
    } else {
      to, next := StoreUnit(out, to, str, next);
    }
  }

  /** One unit or pair: its bytes and its steps. */
  method StoreUnit(out: array<char>, at: nat, str: string, ptr: nat) returns (to: nat, next: nat)
    requires ptr + 1 < |str| && str[ptr] == '\\' && str[ptr + 1] == 'u'
    requires var (o, n) := OneEscape(str[ptr..]); ptr + n <= |str| && at + |o| <= out.Length
    modifies out
    ensures var (o, n) := OneEscape(str[ptr..]);
            next == ptr + n && to == at + |o| <= out.Length && out[..to] == old(out[..at]) + o
  {
    ghost var s := str[ptr..];
    to, next := at, ptr + 1;
    assert s[2..] == str[next + 1..];
    var uc := Hex4(str[next + 1..]);
    next := next + 4;
    if !IsLow(uc) && uc != 0 {
      if !IsHigh(uc) {
        to := StoreUtf8(out, to, uc);
      } else if At(str, next + 1) == '\\' && At(str, next + 2) == 'u' {
        assert s[8..] == str[next + 3..];
        var uc2 := Hex4(str[next + 3..]);
        next := next + 6;
        if IsLow(uc2) {
          to := StoreUtf8(out, to, Combine(uc, uc2));
        }
      }
    }
    next := next + 1;
  }

  /** parse_string: the literal's meaning and a terminator, inside the room counted. */
  method ParseStringInto(str: string) returns (out: array<char>, len: nat, end: nat)
    requires At(str, 0) == '\"' && WellFormed(str[1..])
    ensures len == |Meaning(Tokens(str[1..]))| < out.Length == Room(str[1..]) + 1
    ensures out[..len] == Meaning(Tokens(str[1..])) && out[len] == '\0'
    ensures end <= |str| && str[end..] == AfterQuote(str[1..])
  {
    var room := CountRoom(str);
    ghost var whole := str[1..];
    out := new char[room + 1];
    var ptr: nat := 1;
    len := 0;
    assert out[..0] + Meaning(Tokens(whole)) == Meaning(Tokens(whole));
    while At(str, ptr) != '\"' && ptr < |str|
      invariant ptr <= |str| && len <= room && out.Length == room + 1
      invariant Storing(str[ptr..], out[..len], whole, room)
      decreases |str| - ptr
    {
      ghost var s, done := str[ptr..], out[..len];
      StoringStep(s, done, whole, room);
      len, ptr := StoreRound(out, len, str, ptr);
      assert s[OneRound(s).1..] == str[ptr..];
    }
    assert str[ptr..][0] == str[ptr] && str[ptr..][1..] == str[ptr + 1..];
    assert out[..len] + "" == out[..len];
    out[len] := '\0';
    end := ptr + 1;
  }

  /** What is stored so far, what is still to read and the room left, against the whole literal. */
  ghost predicate Storing(s: string, done: string, whole: string, room: nat) {
    WellFormed(s) && WellFormed(whole) && AfterQuote(s) == AfterQuote(whole)
    && |done| + Room(s) <= room && done + Meaning(Tokens(s)) == Meaning(Tokens(whole))
  }

  lemma {:induction false} StoringStep(s: string, done: string, whole: string, room: nat)
    requires Storing(s, done, whole, room) && s[0] != '\"'
    ensures var (o, n) := OneRound(s);
            0 < n <= |s| && |done| + |o| <= room && Storing(s[n..], done + o, whole, room)
  {
    var (o, n) := OneRound(s);
    RoundTakes(s);
    assert done + (o + Meaning(Tokens(s[n..]))) == done + o + Meaning(Tokens(s[n..]));
  }
}
