/** The base64 codec of the WiFi settings (section 4 of RFC 4648). */
module Base64 {
  import opened Seqs

  type Byte = x: int | 0 <= x < 256

  // ---------------------------------------------------------------- the two tables

  /** The letter of every 6-bit value, and the value of every 8-bit character. */
  datatype Tables = Tables(letters: string, values: seq<int>)

  /** The second table undoes the first, and no letter is the padding. */
  ghost predicate Inverse(t: Tables) {
    |t.letters| == 64 && |t.values| == 256
    && (forall k {:trigger t.letters[k]} :: 0 <= k < 64 ==>
          t.letters[k] as int < 256 && t.letters[k] != '=' && t.values[t.letters[k] as int] == k)
    && (forall c {:trigger t.values[c]} :: 0 <= c < 256 ==> 0 <= t.values[c] < 64)
  }

  function Letter(k: int): char
    requires 0 <= k < 64
  {
    if k < 26 then (k + 'A' as int) as char
    else if k < 52 then (k - 26 + 'a' as int) as char
    else if k < 62 then (k - 52 + '0' as int) as char
    else if k == 62 then '+'
    else '/'
  }

  function Value(c: char): int {
    if 'A' <= c <= 'Z' then c as int - 'A' as int
    else if 'a' <= c <= 'z' then 26 + c as int - 'a' as int
    else if '0' <= c <= '9' then 52 + c as int - '0' as int
    else if c == '+' then 62
    else if c == '/' then 63
    else 0
  }

  /** base64_table and base64_decode_table. */
  function SourceTables(): Tables {
    Tables(seq(64, k requires 0 <= k < 64 => Letter(k)), seq(256, c requires 0 <= c < 256 => Value(c as char)))
  }

  lemma {:induction false} SourceTablesInverse()
    ensures Inverse(SourceTables())
  {
    var t := SourceTables();
    forall k {:trigger t.letters[k]} | 0 <= k < 64
      ensures t.letters[k] as int < 256 && t.letters[k] != '=' && t.values[t.letters[k] as int] == k
    {
      assert t.letters[k] == Letter(k) && t.values[Letter(k) as int] == Value(Letter(k));
    }
  }

  /** The letters from one place of the table on. */
  predicate LettersAt(k: nat, letters: string) {
    k + |letters| <= 64
    && forall i {:trigger letters[i]} :: 0 <= i < |letters| ==> SourceTables().letters[k + i] == letters[i]
  }

  /** The letters are those of table 1 of RFC 4648. */
  lemma {:induction false} SourceLetters()
    ensures LettersAt(0, "ABCDEFGHIJKLM") && LettersAt(13, "NOPQRSTUVWXYZ")
    ensures LettersAt(26, "abcdefghijklm") && LettersAt(39, "nopqrstuvwxyz")
    ensures LettersAt(52, "0123456789") && LettersAt(62, "+/")
  {
    SmallLetters();
  }

  lemma {:induction false} SmallLetters()
    ensures LettersAt(26, "abcdefghijklm") && LettersAt(39, "nopqrstuvwxyz")
  {}

  // ---------------------------------------------------------------- encoding

  /** The four letters of one to three bytes; missing bytes count as zero and leave padding. */
  function Group(t: Tables, s: seq<Byte>): (g: string)
    requires |t.letters| == 64 && |s| > 0
    ensures |g| == 4
  {
    var (a, b, c) := (s[0], if |s| > 1 then s[1] else 0, if |s| > 2 then s[2] else 0);
    [t.letters[a / 4], t.letters[a % 4 * 16 + b / 16],
     if |s| > 1 then t.letters[b % 16 * 4 + c / 64] else '=', if |s| > 2 then t.letters[c % 64] else '=']
  }

  /**
    Section 4 of RFC 4648: the bytes as one 24-bit number, most significant first, and its four digits in base 64;
    digits without any bit of a byte are written as padding.
   */
  lemma {:induction false} GroupDigits(t: Tables, s: seq<Byte>)
    requires |t.letters| == 64 && 0 < |s| <= 3
    ensures var n := ByteAt(s, 0) * 0x1_0000 + ByteAt(s, 1) * 0x100 + ByteAt(s, 2);
            0 <= n < 0x100_0000
            && Group(t, s)[0] == t.letters[n / 0x4_0000] && Group(t, s)[1] == t.letters[n / 0x1000 % 0x40]
            && Group(t, s)[2] == (if |s| > 1 then t.letters[n / 0x40 % 0x40] else '=')
            && Group(t, s)[3] == if |s| > 2 then t.letters[n % 0x40] else '='
  {
    DigitsOf(ByteAt(s, 0), ByteAt(s, 1), ByteAt(s, 2));
  }

  lemma {:induction false} DigitsOf(a: Byte, b: Byte, c: Byte)
    ensures var n := a * 0x1_0000 + b * 0x100 + c;
            n / 0x4_0000 == a / 4 && n / 0x1000 % 0x40 == a % 4 * 16 + b / 16
            && n / 0x40 % 0x40 == b % 16 * 4 + c / 64 && n % 0x40 == c % 64
  {
    var n := a * 0x1_0000 + b * 0x100 + c;
    var w, x, y, z := a / 4, a % 4 * 16 + b / 16, b % 16 * 4 + c / 64, c % 64;
    Bits(a, b, c);
    Sextets(n, w, x, y, z);
  }

  lemma {:induction false} Low6(n: int, q: int, r: int)
    requires n == q * 0x40 + r && 0 <= r < 0x40
    ensures n / 0x40 == q && n % 0x40 == r
  {}

  lemma {:induction false} Low12(n: int, q: int, r: int)
    requires n == q * 0x1000 + r && 0 <= r < 0x1000
    ensures n / 0x1000 == q
  {}

  lemma {:induction false} Low18(n: int, q: int, r: int)
    requires n == q * 0x4_0000 + r && 0 <= r < 0x4_0000
    ensures n / 0x4_0000 == q
  {}

  lemma {:induction false} Sextets(n: int, w: int, x: int, y: int, z: int)
    requires n == w * 0x4_0000 + x * 0x1000 + y * 0x40 + z && 0 <= x < 0x40 && 0 <= y < 0x40 && 0 <= z < 0x40
    ensures n / 0x4_0000 == w && n / 0x1000 % 0x40 == x && n / 0x40 % 0x40 == y && n % 0x40 == z
  {
    Low18(n, w, x * 0x1000 + y * 0x40 + z);
    Low12(n, w * 0x40 + x, y * 0x40 + z);
    Low6(n, (w * 0x40 + x) * 0x40 + y, z);
    Low6(w * 0x40 + x, w, x);
    Low6((w * 0x40 + x) * 0x40 + y, w * 0x40 + x, y);
  }

  function Encode(t: Tables, s: seq<Byte>): (e: string)
    requires |t.letters| == 64
    ensures |e| == (|s| + 2) / 3 * 4
    decreases |s|
  {
    if s == [] then "" else if |s| <= 3 then Group(t, s) else Group(t, s[..3]) + Encode(t, s[3..])
  }

  /** The text and its terminator fit what is allocated for it: exactly, when one byte is left over. */
  lemma {:induction false} EncodedFits(t: Tables, s: seq<Byte>)
    requires |t.letters| == 64
    ensures s != [] ==> |Encode(t, s)| + 1 <= |s| * 4 / 3 + 4
    ensures |Encode(t, s)| + 1 == |s| * 4 / 3 + 4 <==> |s| % 3 == 1
  {
    var n := |s|;
    var q, r := n / 3, n % 3;
    assert n == 3 * q + r && n * 4 / 3 == 4 * q + r * 4 / 3;
  }

  lemma {:induction false} ThreeFirst(t: Tables, s: seq<Byte>)
    requires |t.letters| == 64 && |s| >= 3
    ensures Encode(t, s) == Group(t, s[..3]) + Encode(t, s[3..])
  {
    if |s| == 3 { assert s[..3] == s && Group(t, s) + "" == Group(t, s); }
  }

  /** Three bytes on, four letters on. */
  lemma {:induction false} EncodeStep(t: Tables, src: seq<Byte>, at: nat, done: string)
    requires |t.letters| == 64 && at + 3 <= |src|
    ensures done + Encode(t, src[at..]) == done + Group(t, src[at..at + 3]) + Encode(t, src[at + 3..])
    ensures |Encode(t, src[at..])| == 4 + |Encode(t, src[at + 3..])|
  {
    var left := src[at..];
    assert left[..3] == src[at..at + 3] && left[3..] == src[at + 3..];
    ThreeFirst(t, left);
    Assoc(done, Group(t, left[..3]), Encode(t, left[3..]));
  }

  /** The four writes of a round. */
  method Store(out: array<char>, pos: nat, g: string, ghost done: string)
    requires |g| == 4 && pos + 4 <= out.Length && out[..pos] == done
    modifies out
    ensures out[..pos + 4] == done + g
  {
    out[pos] := g[0];
    out[pos + 1] := g[1];
    out[pos + 2] := g[2];
    out[pos + 3] := g[3];
  }

  /** str_base64_encode_len into the room write_cfg allocates. */
  method EncodeInto(t: Tables, src: seq<Byte>, out: array<char>) returns (len: nat)
    requires Inverse(t) && src != [] && out.Length >= |src| * 4 / 3 + 4
    modifies out
    ensures len == |Encode(t, src)| < out.Length && out[..len] == Encode(t, src) && out[len] == '\0'
  {
    EncodedFits(t, src);
    var at, pos := EncodeTriples(t, src, out);
    if |src| - at > 0 {
      Store(out, pos, Group(t, src[at..]), out[..pos]);
      pos := pos + 4;
    } else {
      assert out[..pos] + "" == out[..pos];
    }
    out[pos] := '\0';
    len := pos;
  }

  /** The loop over whole groups. */
  method EncodeTriples(t: Tables, src: seq<Byte>, out: array<char>) returns (at: nat, pos: nat)
    requires |t.letters| == 64 && |Encode(t, src)| < out.Length
    modifies out
    ensures |src| - 3 < at <= |src| && pos + |Encode(t, src[at..])| == |Encode(t, src)|
    ensures out[..pos] + Encode(t, src[at..]) == Encode(t, src)
  {
    at, pos := 0, 0;
    assert src[0..] == src && out[..0] + Encode(t, src) == Encode(t, src);
    while |src| - at >= 3
      invariant at <= |src| && pos + |Encode(t, src[at..])| == |Encode(t, src)| < out.Length
      invariant out[..pos] + Encode(t, src[at..]) == Encode(t, src)
    {
      EncodeTriple(t, src, at, out, pos);
      pos, at := pos + 4, at + 3;
    }
  }

  /** One round of it. */
  method EncodeTriple(t: Tables, src: seq<Byte>, at: nat, out: array<char>, pos: nat)
    requires |t.letters| == 64 && at + 3 <= |src| && pos + |Encode(t, src[at..])| < out.Length
    modifies out
    ensures |Encode(t, src[at..])| == 4 + |Encode(t, src[at + 3..])|
    ensures out[..pos + 4] + Encode(t, src[at + 3..]) == old(out[..pos]) + Encode(t, src[at..])
  {
    EncodeStep(t, src, at, out[..pos]);
    Store(out, pos, Group(t, src[at..at + 3]), out[..pos]);
  }

  // ---------------------------------------------------------------- decoding

  /** The padding, and whatever the table does not hold, reads as zero. */
  function Sextet(t: Tables, c: char): int
    requires |t.values| == 256
  {
    if c == '=' || c as int >= 256 then 0 else t.values[c as int]
  }

  function Triple(t: Tables, g: string): int
    requires |t.values| == 256 && |g| == 4
  {
    Sextet(t, g[0]) * 0x4_0000 + Sextet(t, g[1]) * 0x1000 + Sextet(t, g[2]) * 0x40 + Sextet(t, g[3])
  }

  function Unpack(n: int): (s: seq<Byte>)
    ensures |s| == 3
  {
    [n / 0x1_0000 % 256, n / 0x100 % 256, n % 256]
  }

  function Ungroups(t: Tables, text: string): (s: seq<Byte>)
    requires |t.values| == 256 && |text| % 4 == 0
    ensures |s| == |text| / 4 * 3
    decreases |text|
  {
    if text == "" then [] else Unpack(Triple(t, text[..4])) + Ungroups(t, text[4..])
  }

  function OutLength(text: string): int
    requires |text| >= 4
  {
    |text| / 4 * 3 - (if text[|text| - 1] == '=' then 1 else 0) - (if text[|text| - 2] == '=' then 1 else 0)
  }

  /** str_base64_decode: nothing for a text that is not a whole number of groups. */
  function Decode(t: Tables, text: string): seq<Byte>
    requires |t.values| == 256 && text != ""
  {
    if |text| % 4 != 0 then [] else Ungroups(t, text)[..OutLength(text)]
  }

  lemma {:induction false} Bits(a: Byte, b: Byte, c: Byte)
    ensures a / 4 * 0x4_0000 + (a % 4 * 16 + b / 16) * 0x1000 + (b % 16 * 4 + c / 64) * 0x40 + c % 64
         == a * 0x1_0000 + b * 0x100 + c
  {}

  lemma {:induction false} UnpackOf(a: Byte, b: Byte, c: Byte)
    ensures Unpack(a * 0x1_0000 + b * 0x100 + c) == [a, b, c]
  {
    var n, r := a * 0x1_0000 + b * 0x100 + c, b * 0x100 + c;
    assert n / 0x1_0000 == a by { assert n == a * 0x1_0000 + r && 0 <= r < 0x1_0000; }
    assert n / 0x100 == a * 0x100 + b;
  }

  function ByteAt(s: seq<Byte>, i: nat): int { if i < |s| then s[i] else 0 }

  /** The missing bytes of a short group come back as zeros. */
  lemma {:induction false} TripleOf(t: Tables, s: seq<Byte>)
    requires Inverse(t) && 0 < |s| <= 3
    ensures Triple(t, Group(t, s)) == ByteAt(s, 0) * 0x1_0000 + ByteAt(s, 1) * 0x100 + ByteAt(s, 2)
  {
    Bits(ByteAt(s, 0), ByteAt(s, 1), ByteAt(s, 2));
  }

  lemma {:induction false} GroupRoundTrip(t: Tables, s: seq<Byte>)
    requires Inverse(t) && 0 < |s| <= 3
    ensures Unpack(Triple(t, Group(t, s)))[..|s|] == s
    ensures var g := Group(t, s); (g[3] == '=' <==> |s| < 3) && (g[2] == '=' <==> |s| < 2)
  {
    TripleOf(t, s);
    UnpackOf(ByteAt(s, 0), ByteAt(s, 1), ByteAt(s, 2));
  }

  lemma {:induction false} Halves(g: string, u: string)
    requires |g| == 4
    ensures (g + u)[..4] == g && (g + u)[4..] == u
    ensures |u| >= 4 ==> (g + u)[|g + u| - 1] == u[|u| - 1] && (g + u)[|g + u| - 2] == u[|u| - 2]
  {}

  lemma {:induction false} OutLengthIs(t: Tables, s: seq<Byte>)
    requires Inverse(t) && s != []
    ensures OutLength(Encode(t, s)) == |s|
    decreases |s|
  {
    if |s| <= 3 {
      GroupRoundTrip(t, s);
    } else {
      OutLengthIs(t, s[3..]);
      LongerOut(Group(t, s[..3]), Encode(t, s[3..]));
    }
  }

  lemma {:induction false} LongerOut(g: string, u: string)
    requires |g| == 4 && |u| >= 4
    ensures OutLength(g + u) == OutLength(u) + 3
  {
    Halves(g, u);
  }

  lemma {:induction false} UngroupsEncoded(t: Tables, s: seq<Byte>)
    requires Inverse(t) && s != []
    ensures var e := Encode(t, s); |s| <= |Ungroups(t, e)| && Ungroups(t, e)[..|s|] == s
    decreases |s|
  {
    if |s| <= 3 {
      OneGroup(t, s);
    } else {
      UngroupsEncoded(t, s[3..]);
      MoreGroups(t, s);
    }
  }

  lemma {:induction false} OneGroup(t: Tables, s: seq<Byte>)
    requires Inverse(t) && 0 < |s| <= 3
    ensures Ungroups(t, Encode(t, s))[..|s|] == s
  {
    var e := Group(t, s);
    GroupRoundTrip(t, s);
    assert e[..4] == e && e[4..] == "";
    assert Ungroups(t, e) == Unpack(Triple(t, e)) + [];
  }

  lemma {:induction false} MoreGroups(t: Tables, s: seq<Byte>)
    requires Inverse(t) && |s| > 3
    requires var u := Ungroups(t, Encode(t, s[3..])); |s| - 3 <= |u| && u[..|s| - 3] == s[3..]
    ensures var e := Encode(t, s); |s| <= |Ungroups(t, e)| && Ungroups(t, e)[..|s|] == s
  {
    GroupRoundTrip(t, s[..3]);
    FirstGroup(t, Group(t, s[..3]), Encode(t, s[3..]), s);
  }

  lemma {:induction false} FirstGroup(t: Tables, g: string, u: string, s: seq<Byte>)
    requires |t.values| == 256 && |g| == 4 && |u| % 4 == 0 && |s| > 3 && Unpack(Triple(t, g))[..3] == s[..3]
    requires |s| - 3 <= |Ungroups(t, u)| && Ungroups(t, u)[..|s| - 3] == s[3..]
    ensures |s| <= |Ungroups(t, g + u)| && Ungroups(t, g + u)[..|s|] == s
  {
    Halves(g, u);
    Prefix(Unpack(Triple(t, g)), Ungroups(t, u), |s| - 3, s);
  }

  lemma {:induction false} Prefix(x: seq<Byte>, y: seq<Byte>, n: nat, s: seq<Byte>)
    requires |x| == 3 && n <= |y| && |s| == n + 3 && x[..3] == s[..3] && y[..n] == s[3..]
    ensures (x + y)[..|s|] == s
  {}

  lemma {:induction false} TablesRoundTrip(t: Tables, s: seq<Byte>)
    requires Inverse(t) && s != []
    ensures Encode(t, s) != "" && Decode(t, Encode(t, s)) == s
  {
    OutLengthIs(t, s);
    UngroupsEncoded(t, s);
  }

  /** Decoding what was encoded gives the bytes back, all of them and no more, whatever the padding. */
  lemma {:induction false} RoundTrip(s: seq<Byte>)
    requires s != []
    ensures var t := SourceTables(); Inverse(t) && Encode(t, s) != "" && Decode(t, Encode(t, s)) == s
  {
    SourceTablesInverse();
    TablesRoundTrip(SourceTables(), s);
  }

  /** Four letters on, three bytes on. */
  lemma {:induction false} NextGroup(t: Tables, text: string, i: nat, all: seq<Byte>, n: nat)
    requires |t.values| == 256 && i < |text| && |text[i..]| % 4 == 0 && n <= |all| && all[n..] == Ungroups(t, text[i..])
    ensures i + 4 <= |text| && n + 3 <= |all| && all[n + 3..] == Ungroups(t, text[i + 4..])
    ensures all[n..n + 3] == Unpack(Triple(t, text[i..i + 4]))
  {
    var d := text[i..];
    assert d[4..] == text[i + 4..] && d[..4] == text[i..i + 4];
    assert all[n + 3..] == all[n..][3..];
    assert all[n..n + 3] == all[n..][..3];
  }

  /** str_base64_decode; the room must hold the decoded bytes. */
  method DecodeInto(t: Tables, data: string, out: array<Byte>) returns (len: nat)
    requires Inverse(t) && data != "" && (|data| % 4 == 0 ==> OutLength(data) <= out.Length)
    modifies out
    ensures len == |Decode(t, data)| <= out.Length && out[..len] == Decode(t, data)
  {
    if |data| % 4 != 0 { return 0; }
    var outLen := |data| / 4 * 3;
    if data[|data| - 1] == '=' { outLen := outLen - 1; }
    if data[|data| - 2] == '=' { outLen := outLen - 1; }
    DecodeGroups(t, data, out, outLen);
    len := outLen;
  }

  method DecodeGroups(t: Tables, data: string, out: array<Byte>, outLen: nat)
    requires |t.values| == 256 && |data| % 4 == 0 && outLen <= out.Length && outLen <= |data| / 4 * 3
    modifies out
    ensures out[..outLen] == Ungroups(t, data)[..outLen]
  {
    ghost var all, n: nat := Ungroups(t, data), 0;
    var i: nat, j: nat := 0, 0;
    assert data[0..] == data && all[0..] == all;
    while i < |data|
      invariant i <= |data| && (|data| - i) % 4 == 0 && j == (if n < outLen then n else outLen)
      invariant n <= |all| && all[n..] == Ungroups(t, data[i..])
      invariant out[..j] == all[..j]
    {
      NextGroup(t, data, i, all, n);
      j := StoreBytes(out, j, outLen, Triple(t, data[i..i + 4]), all, n);
      i, n := i + 4, n + 3;
    }
  }

  /** The three bytes of a group, as far as the output goes. */
  method StoreBytes(out: array<Byte>, at: nat, outLen: nat, triple: int, ghost all: seq<Byte>, ghost n: nat)
      returns (j: nat)
    requires outLen <= out.Length && outLen <= |all| && at == (if n < outLen then n else outLen) && n + 3 <= |all|
    requires out[..at] == all[..at] && all[n..n + 3] == Unpack(triple)
    modifies out
    ensures j == (if n + 3 < outLen then n + 3 else outLen) && out[..j] == all[..j]
  {
    assert all[n] == all[n..n + 3][0] && all[n + 1] == all[n..n + 3][1] && all[n + 2] == all[n..n + 3][2];
    j := at;
    if j < outLen { out[j] := triple / 0x1_0000 % 256; j := j + 1; }
    if j < outLen { out[j] := triple / 0x100 % 256; j := j + 1; }
    if j < outLen { out[j] := triple % 256; j := j + 1; }
  }
}
