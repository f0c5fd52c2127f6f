/**
  cJSON trees and the text cJSON prints for them. A C string is a sequence of chars below 256
  without NUL; reading one position past its end reads the terminator. Sibling chains (next) are lists.
 */
module JsonText {

  datatype Value =
    | Null
    | False
    | True
    | Number(d: real)
    | Str(s: string)
    | Array(items: Items)
    | Object(members: Members)

  datatype Items = NoItems | Item(head: Value, next: Items)

  datatype Members = NoMembers | Member(name: string, value: Value, rest: Members)

  predicate CString(s: string) {
    forall i {:trigger s[i]} :: 0 <= i < |s| ==> 0 < s[i] as int < 256
  }

  predicate NoNul(s: string) {
    forall i {:trigger s[i]} :: 0 <= i < |s| ==> s[i] != '\0'
  }

  const INT_MAX: int := 0x7fff_ffff

  predicate IsInt32(d: real) {
    d == d.Floor as real && -INT_MAX - 1 <= d.Floor <= INT_MAX
  }

  /** Trees whose numbers print with %d and whose strings are C strings. */
  predicate Printable(v: Value) {
    match v
    case Number(d) => IsInt32(d)
    case Str(s) => CString(s)
    case Array(items) => PrintableItems(items)
    case Object(members) => PrintableMembers(members)
    case _ => true
  }

  predicate PrintableItems(items: Items) {
    items.Item? ==> Printable(items.head) && PrintableItems(items.next)
  }

  predicate PrintableMembers(ms: Members) {
    ms.Member? ==> CString(ms.name) && Printable(ms.value) && PrintableMembers(ms.rest)
  }

  // ---------------------------------------------------------------- numbers

  function Digit(k: int): char
    requires 0 <= k < 10
  {
    ('0' as int + k) as char
  }

  function Digits(n: nat): (s: string)
    ensures |s| > 0
  {
    if n < 10 then [Digit(n)] else Digits(n / 10) + [Digit(n % 10)]
  }

  /** sprintf "%d". */
  function Decimal(n: int): string {
    if n < 0 then "-" + Digits(-n) else Digits(n)
  }

  function NumberText(d: real): (s: string)
    ensures s != ""
  {
    if d == 0.0 then "0" else Decimal(d.Floor)
  }

  // ---------------------------------------------------------------- strings

  function HexDigit(k: int): char
    requires 0 <= k < 16
  {
    if k < 10 then ('0' as int + k) as char else ('a' as int + k - 10) as char
  }

  function EscapeChar(c: char): string {
    if c == '\\' then "\\\\"
    else if c == '\"' then "\\\""
    else if c as int == 8 then "\\b"
    else if c as int == 12 then "\\f"
    else if c == '\n' then "\\n"
    else if c == '\r' then "\\r"
    else if c == '\t' then "\\t"
    else if c as int < 32 then "\\u00" + [HexDigit(c as int / 16), HexDigit(c as int % 16)]
    else [c]
  }

  function Escape(s: string): string {
    if s == "" then "" else EscapeChar(s[0]) + Escape(s[1..])
  }

  function Quote(s: string): string { "\"" + Escape(s) + "\"" }

  // ---------------------------------------------------------------- trees

  function Tabs(n: nat): string {
    seq(n, _ => '\t')
  }

  function Text(v: Value, depth: nat, fmt: bool): string
    decreases v
  {
    match v
    case Null => "null"
    case False => "false"
    case True => "true"
    case Number(d) => NumberText(d)
    case Str(s) => Quote(s)
    case Array(items) => "[" + ItemsText(items, depth + 1, fmt) + "]"
    case Object(NoMembers) => if fmt then "{\n" + Tabs(if depth == 0 then 0 else depth - 1) + "}" else "{}"
    case Object(ms) =>
      if fmt then "{\n" + MembersText(ms, depth + 1, fmt) + Tabs(depth) + "}"
      else "{" + MembersText(ms, depth + 1, fmt) + "}"
  }

  function ItemsText(items: Items, depth: nat, fmt: bool): string
    decreases items
  {
    match items
    case NoItems => ""
    case Item(v, NoItems) => Text(v, depth, fmt)
    case Item(v, next) => Text(v, depth, fmt) + (if fmt then ", " else ",") + ItemsText(next, depth, fmt)
  }

  function MembersText(ms: Members, depth: nat, fmt: bool): string
    decreases ms
  {
    match ms
    case NoMembers => ""
    case Member(name, v, rest) =>
      (if fmt then Tabs(depth) else "") + Quote(name) + (if fmt then ":\t" else ":") + Text(v, depth, fmt)
      + (if rest.Member? then "," else "") + (if fmt then "\n" else "") + MembersText(rest, depth, fmt)
  }

  // ---------------------------------------------------------------- the same texts, nested to the right

  lemma {:induction false} ObjectText(ms: Members, depth: nat, fmt: bool, open: string, body: string, tabs: string)
    requires open == (if fmt then "{\n" else "{") && body == MembersText(ms, depth + 1, fmt)
    requires tabs == if !fmt then "" else if ms.Member? then Tabs(depth) else Tabs(if depth == 0 then 0 else depth - 1)
    ensures Text(Object(ms), depth, fmt) == open + (body + (tabs + "}"))
  {
    assert Text(Object(ms), depth, fmt) == open + body + tabs + "}" by {
      assert ms.NoMembers? ==> open + body == open;
      assert !fmt ==> open + body + tabs == open + body;
    }
    assert open + body + tabs + "}" == open + (body + (tabs + "}"));
  }

  lemma {:induction false} MemberText(a: string, b: string, c: string, d: string, e: string, f: string, g: string)
    ensures a + b + c + d + e + f + g == a + (b + (c + (d + (e + f + g))))
  {}

  lemma {:induction false} MembersTexts(ms: Members, depth: nat, fmt: bool, tabs: string, colon: string, comma: string,
      nl: string)
    requires ms.Member? && tabs == (if fmt then Tabs(depth) else "") && colon == (if fmt then ":\t" else ":")
    requires comma == (if ms.rest.Member? then "," else "") && nl == if fmt then "\n" else ""
    ensures MembersText(ms, depth, fmt)
         == tabs + (Quote(ms.name) + (colon + (Text(ms.value, depth, fmt)
                                               + (comma + nl + MembersText(ms.rest, depth, fmt)))))
  {
    MemberText(tabs, Quote(ms.name), colon, Text(ms.value, depth, fmt), comma, nl, MembersText(ms.rest, depth, fmt));
  }
}
