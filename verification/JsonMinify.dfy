/** cJSON_Minify: what it leaves of a text, and the in-place loop that leaves it. */
module JsonMinify {
  import opened JsonText
  import opened JsonParse
  import opened Seqs

  /** RunsOn: the loop steps past the terminator (an unclosed string or comment). */
  datatype Minified = Clean(text: string) | RunsOn

  predicate IsSpace(c: char) { c == ' ' || c == '\t' || c == '\r' || c == '\n' }

  function AfterLine(s: string): (t: string)
    ensures |t| <= |s|
  {
    if s == "" || s[0] == '\n' then s else AfterLine(s[1..])
  }

  /** Where the comment's loop stops, and then two characters on. */
  function CommentEnd(s: string): (n: nat)
    ensures 2 <= n <= |s| + 2
  {
    if s == "" || (s[0] == '*' && At(s, 1) == '/') then 2 else 1 + CommentEnd(s[1..])
  }

  /** Characters copied for a literal, from after its opening quote. */
  function LiteralEnd(s: string): (n: nat)
    ensures 1 <= n
    decreases |s|
  {
    if s == "" || s[0] == '\"' then 1
    else if s[0] != '\\' then 1 + LiteralEnd(s[1..])
    else if |s| == 1 then 2 + LiteralEnd("")
    else 2 + LiteralEnd(s[2..])
  }

  function Prefixed(p: string, m: Minified): Minified {
    if m.Clean? then Clean(p + m.text) else RunsOn
  }

  function Minify(s: string): (m: Minified)
    ensures m.Clean? ==> |m.text| <= |s|
    decreases |s|
  {
    if s == "" then Clean("")
    else if IsSpace(s[0]) then Minify(s[1..])
    else if s[0] == '/' && At(s, 1) == '/' then Minify(AfterLine(s))
    else if s[0] == '/' && At(s, 1) == '*' then
      var n := CommentEnd(s);
      if n > |s| then RunsOn else Minify(s[n..])
    else if s[0] == '\"' then
      var n := 1 + LiteralEnd(s[1..]);
      if n > |s| then RunsOn else Prefixed(s[..n], Minify(s[n..]))
    else Prefixed([s[0]], Minify(s[1..]))
  }

  // ---------------------------------------------------------------- which texts the loop stays inside

  /** What may stand between the quotes of a literal: every backslash takes the next character with it. */
  predicate Body(b: string)
    decreases |b|
  {
    b == "" || (if b[0] == '\\' then |b| >= 2 && Body(b[2..]) else b[0] != '\"' && Body(b[1..]))
  }

  predicate IsLiteral(q: string) {
    |q| >= 2 && q[0] == '\"' && q[|q| - 1] == '\"' && Body(q[1..|q| - 1])
  }

  predicate Mark(c: string, k: nat) {
    k + 1 < |c| && c[k] == '*' && c[k + 1] == '/'
  }

  /** A block comment ends with the first closing mark; the star that opens it may be that mark's. */
  predicate IsComment(c: string) {
    |c| >= 3 && c[0] == '/' && c[1] == '*' && Mark(c, |c| - 2)
        && forall k {:trigger Mark(c, k)} :: 0 <= k < |c| - 2 ==> !Mark(c, k)
  }

  /** Every literal and every block comment of the text is closed. */
  ghost predicate Closed(s: string)
    decreases |s|
  {
    s == "" || (
      if s[0] == '/' && At(s, 1) == '/' then Closed(AfterLine(s))
      else if s[0] == '/' && At(s, 1) == '*' then exists n: nat :: 3 <= n <= |s| && IsComment(s[..n]) && Closed(s[n..])
      else if s[0] == '\"' then exists n: nat :: 2 <= n <= |s| && IsLiteral(s[..n]) && Closed(s[n..])
      else Closed(s[1..]))
  }

  lemma {:induction false} BodyEnds(b: string, u: string)
    requires Body(b)
    ensures LiteralEnd(b + ("\"" + u)) == |b| + 1
    decreases |b|
  {
    var s := b + ("\"" + u);
    if b != "" {
      var n := if b[0] == '\\' then 2 else 1;
      assert s[n..] == b[n..] + ("\"" + u);
      BodyEnds(b[n..], u);
    }
  }

  lemma {:induction false} EndsBody(s: string)
    requires LiteralEnd(s) <= |s|
    ensures s[LiteralEnd(s) - 1] == '\"' && Body(s[..LiteralEnd(s) - 1])
    decreases |s|
  {
    if s[0] != '\"' {
      var n := if s[0] == '\\' then 2 else 1;
      EndsBody(s[n..]);
      assert s[..LiteralEnd(s) - 1][n..] == s[n..][..LiteralEnd(s[n..]) - 1];
    }
  }

  /** The copying loop stays inside exactly when some beginning of the text is a literal, and copies that one. */
  lemma {:induction false} LiteralExactly(s: string, n: nat)
    requires s != "" && s[0] == '\"'
    ensures n <= |s| && n == 1 + LiteralEnd(s[1..]) <==> n <= |s| && IsLiteral(s[..n])
  {
    if n == 1 + LiteralEnd(s[1..]) <= |s| {
      EndsBody(s[1..]);
      assert s[..n][1..n - 1] == s[1..][..n - 2];
    }
    if n <= |s| && IsLiteral(s[..n]) {
      var b := s[..n][1..n - 1];
      assert s[..n] == "\"" + b + "\"" && s == s[..n] + s[n..];
      PastQuote(b, s[n..]);
      BodyEnds(b, s[n..]);
    }
  }

  lemma {:induction false} PastQuote(b: string, u: string)
    ensures ("\"" + b + "\"" + u)[1..] == b + ("\"" + u)
  {
    assert "\"" + b + "\"" + u == "\"" + (b + ("\"" + u));
  }

  lemma {:induction false} CommentEndIs(s: string)
    ensures var n := CommentEnd(s);
            (n <= |s| ==> Mark(s, n - 2)) && forall k: nat {:trigger Mark(s, k)} :: k < n - 2 ==> !Mark(s, k)
  {
    if s != "" && !(s[0] == '*' && At(s, 1) == '/') {
      CommentEndIs(s[1..]);
      forall k: nat {:trigger Mark(s, k)} | k < CommentEnd(s) - 2 ensures !Mark(s, k) {
        if k > 0 { assert Mark(s, k) == Mark(s[1..], k - 1); }
      }
      assert CommentEnd(s) <= |s| ==> Mark(s[1..], CommentEnd(s) - 3);
    }
  }

  lemma {:induction false} CommentExactly(s: string, n: nat)
    requires s != "" && s[0] == '/' && At(s, 1) == '*'
    ensures n <= |s| && n == CommentEnd(s) <==> n <= |s| && IsComment(s[..n])
  {
    CommentEndIs(s);
    if n <= |s| {
      forall k: nat {:trigger Mark(s[..n], k)} | k < n ensures Mark(s[..n], k) == (k + 1 < n && Mark(s, k)) {}
      assert CommentEnd(s) == 1 + CommentEnd(s[1..]);
      if n == CommentEnd(s) { assert Mark(s, n - 2); }
      if IsComment(s[..n]) {
        assert Mark(s, n - 2);
        assert Mark(s[..n], CommentEnd(s) - 2) ==> CommentEnd(s) >= n;
      }
    }
  }

  /** The loop stays inside the text exactly when every literal and every block comment is closed. */
  lemma {:induction false} CleanExactly(s: string)
    ensures Minify(s).Clean? <==> Closed(s)
    decreases |s|
  {
    if s != "" {
      if s[0] == '/' && At(s, 1) == '/' {
        CleanExactly(AfterLine(s));
      } else if s[0] == '/' && At(s, 1) == '*' {
        CleanToken(s, CommentEnd(s));
        forall n: nat | n <= |s| ensures n == CommentEnd(s) <==> IsComment(s[..n]) { CommentExactly(s, n); }
      } else if s[0] == '\"' {
        CleanToken(s, 1 + LiteralEnd(s[1..]));
        forall n: nat | n <= |s| ensures n == 1 + LiteralEnd(s[1..]) <==> IsLiteral(s[..n]) { LiteralExactly(s, n); }
      } else {
        CleanExactly(s[1..]);
      }
    }
  }

  lemma {:induction false} CleanToken(s: string, n: nat)
    requires n > 0
    ensures n <= |s| ==> (Minify(s[n..]).Clean? <==> Closed(s[n..]))
    decreases |s|, 0
  {
    if n <= |s| { CleanExactly(s[n..]); }
  }

  /** An unclosed literal and an unclosed comment, which the loop runs past, and the shortest comment. */
  lemma {:induction false} UnclosedRunOn()
    ensures Minify("\"").RunsOn? && !Closed("\"") && Minify("/*").RunsOn? && !Closed("/*")
    ensures Minify("/*/") == Clean("") && Closed("/*/")
  {
    CleanExactly("\"");
    assert "\""[1..] == "";
    CleanExactly("/*");
    assert "/*"[1..] == "*" && "*"[1..] == "";
    CleanExactly("/*/");
    assert "/*/"[1..] == "*/" && "/*/"[3..] == "";
  }

  // ---------------------------------------------------------------- on printed text

  /** Copied as it stands, wherever it is outside a literal. */
  predicate Plain(p: string) {
    forall i {:trigger p[i]} :: 0 <= i < |p| ==> !IsSpace(p[i]) && p[i] != '/' && p[i] != '\"'
  }

  predicate Spaces(w: string) {
    forall i {:trigger w[i]} :: 0 <= i < |w| ==> IsSpace(w[i])
  }

  lemma {:induction false} PlainKept(p: string, t: string)
    requires Plain(p)
    ensures Minify(p + t) == Prefixed(p, Minify(t))
  {
    if p == "" {
      assert p + t == t;
      assert Minify(t).Clean? ==> "" + Minify(t).text == Minify(t).text;
    } else {
      assert (p + t)[1..] == p[1..] + t;
      PlainKept(p[1..], t);
      assert Minify(t).Clean? ==> [p[0]] + (p[1..] + Minify(t).text) == p + Minify(t).text;
    }
  }

  lemma {:induction false} SpacesDropped(w: string, t: string)
    requires Spaces(w)
    ensures Minify(w + t) == Minify(t)
  {
    if w == "" {
      assert w + t == t;
    } else {
      assert (w + t)[1..] == w[1..] + t;
      SpacesDropped(w[1..], t);
    }
  }

  lemma {:induction false} DigitsPlain(n: nat)
    ensures Plain(Digits(n))
    decreases n
  {
    if n >= 10 { DigitsPlain(n / 10); }
  }

  /** A character that starts no escape and ends no literal is one step of the copying loop. */
  lemma {:induction false} LiteralSteps(e: string, u: string)
    requires forall i {:trigger e[i]} :: 0 <= i < |e| ==> e[i] != '\"' && e[i] != '\\'
    ensures LiteralEnd(e + u) == |e| + LiteralEnd(u)
  {
    if e == "" {
      assert e + u == u;
    } else {
      assert (e + u)[1..] == e[1..] + u;
      LiteralSteps(e[1..], u);
    }
  }

  lemma {:induction false} EscapeIsOneStep(c: char, u: string)
    requires 0 < c as int < 256
    ensures LiteralEnd(EscapeChar(c) + u) == |EscapeChar(c)| + LiteralEnd(u)
  {
    var e := EscapeChar(c);
    if |e| == 1 {
      LiteralSteps(e, u);
    } else {
      assert (e + u)[2..] == e[2..] + u;
      LiteralSteps(e[2..], u);
    }
  }

  lemma {:induction false} LiteralIsWhole(s: string, t: string)
    requires CString(s)
    ensures LiteralEnd(Escape(s) + "\"" + t) == |Escape(s)| + 1
  {
    if s == "" {
      assert Escape(s) + "\"" + t == "\"" + t;
    } else {
      var u := Escape(s[1..]) + "\"" + t;
      assert Escape(s) + "\"" + t == EscapeChar(s[0]) + u;
      EscapeIsOneStep(s[0], u);
      LiteralIsWhole(s[1..], t);
    }
  }

  lemma {:induction false} QuoteKept(s: string, t: string)
    requires CString(s)
    ensures Minify(Quote(s) + t) == Prefixed(Quote(s), Minify(t))
  {
    var q := Quote(s) + t;
    assert q[1..] == Escape(s) + "\"" + t;
    LiteralIsWhole(s, t);
    assert q[..|Quote(s)|] == Quote(s) && q[|Quote(s)|..] == t;
  }

  /** What Minify leaves of a text that ends with t, when it leaves p of the part before t. */
  predicate Leaves(s: string, t: string, p: string) {
    Minify(s + t) == Prefixed(p, Minify(t))
  }

  lemma {:induction false} LeavesBoth(a: string, b: string, t: string, p: string, q: string)
    requires Leaves(a, b + t, p) && Leaves(b, t, q)
    ensures Leaves(a + b, t, p + q)
  {
    assert a + b + t == a + (b + t);
    assert Minify(t).Clean? ==> p + (q + Minify(t).text) == p + q + Minify(t).text;
  }

  lemma {:induction false} LeavesPlain(a: string, t: string)
    requires Plain(a)
    ensures Leaves(a, t, a)
  {
    PlainKept(a, t);
  }

  /** One plain character, then blanks. */
  lemma {:induction false} LeavesMark(a: string, w: string, t: string)
    requires Plain(a) && Spaces(w)
    ensures Leaves(a + w, t, a)
  {
    PlainKept(a, w + t);
    SpacesDropped(w, t);
    assert a + w + t == a + (w + t);
  }

  lemma {:induction false} ValueMinified(v: Value, depth: nat, e: nat, fmt: bool, t: string)
    requires Printable(v)
    ensures Leaves(Text(v, depth, fmt), t, Text(v, e, false))
    decreases v
  {
    match v
    case Number(d) =>
      DigitsPlain(if d.Floor < 0 then -d.Floor else d.Floor);
      LeavesPlain(NumberText(d), t);
    case Str(s) => QuoteKept(s, t);
    case Array(items) =>
      var body := ItemsText(items, depth + 1, fmt);
      LeavesPlain("]", t);
      ItemsMinified(items, depth + 1, e + 1, fmt, "]" + t);
      LeavesBoth(body, "]", t, ItemsText(items, e + 1, false), "]");
      LeavesPlain("[", body + "]" + t);
      LeavesBoth("[", body + "]", t, "[", ItemsText(items, e + 1, false) + "]");
      Assoc("[", body, "]");
      Assoc("[", ItemsText(items, e + 1, false), "]");
    case Object(ms) => ObjectMinified(ms, depth, e, fmt, t);
    case _ => LeavesPlain(Text(v, depth, fmt), t);
  }

  lemma {:induction false} ItemsMinified(items: Items, depth: nat, e: nat, fmt: bool, t: string)
    requires PrintableItems(items)
    ensures Leaves(ItemsText(items, depth, fmt), t, ItemsText(items, e, false))
    decreases items
  {
    match items
    case NoItems => LeavesPlain("", t);
    case Item(v, NoItems) => ValueMinified(v, depth, e, fmt, t);
    case Item(v, next) =>
      var comma := if fmt then ", " else ",";
      var more := ItemsText(next, depth, fmt);
      ItemsMinified(next, depth, e, fmt, t);
      LeavesMark(",", if fmt then " " else "", more + t);
      assert comma == "," + (if fmt then " " else "");
      LeavesBoth(comma, more, t, ",", ItemsText(next, e, false));
      ValueMinified(v, depth, e, fmt, comma + more + t);
      LeavesBoth(Text(v, depth, fmt), comma + more, t, Text(v, e, false), "," + ItemsText(next, e, false));
      Assoc(Text(v, depth, fmt), comma, more);
      Assoc(Text(v, e, false), ",", ItemsText(next, e, false));
  }

  lemma {:induction false} ObjectMinified(ms: Members, depth: nat, e: nat, fmt: bool, t: string)
    requires PrintableMembers(ms)
    ensures Leaves(Text(Object(ms), depth, fmt), t, Text(Object(ms), e, false))
    decreases ms, 1
  {
    var tabs := if !fmt then "" else if ms.Member? then Tabs(depth) else Tabs(if depth == 0 then 0 else depth - 1);
    var body, least := MembersText(ms, depth + 1, fmt), MembersText(ms, e + 1, false);
    var open, w := Opening(fmt);
    BlankTabs(if ms.Member? then depth else if depth == 0 then 0 else depth - 1);
    MembersMinified(ms, depth + 1, e + 1, fmt, tabs + "}" + t);
    BracesMinified(open, w, body, tabs, t, least);
    ObjectText(ms, depth, fmt, open, body, tabs);
    ObjectText(ms, e, false, "{", least, "");
    assert "" + "}" == "}";
  }

  /** The opening bracket and the blank behind it. */
  lemma {:induction false} Opening(fmt: bool) returns (open: string, w: string)
    ensures open == (if fmt then "{\n" else "{") && w == (if fmt then "\n" else "") && open == "{" + w && Spaces(w)
  {
    open, w := if fmt then "{\n" else "{", if fmt then "\n" else "";
  }

  lemma {:induction false} BlankTabs(n: nat)
    ensures Spaces(Tabs(n)) && Spaces("")
  {
  }

  lemma {:induction false} BracesMinified(open: string, w: string, body: string, tabs: string, t: string, least: string)
    requires open == "{" + w && Spaces(w) && Spaces(tabs) && Leaves(body, tabs + "}" + t, least)
    ensures Leaves(open + (body + (tabs + "}")), t, "{" + (least + "}"))
  {
    LeavesPlain("}", t);
    LeavesSpaces(tabs, "}" + t);
    LeavesBoth(tabs, "}", t, "", "}");
    assert "" + "}" == "}";
    LeavesBoth(body, tabs + "}", t, least, "}");
    LeavesMark("{", w, body + (tabs + "}") + t);
    LeavesBoth(open, body + (tabs + "}"), t, "{", least + "}");
  }

  lemma {:induction false} LeavesSpaces(w: string, t: string)
    requires Spaces(w)
    ensures Leaves(w, t, "")
  {
    SpacesDropped(w, t);
    assert Minify(t).Clean? ==> "" + Minify(t).text == Minify(t).text;
  }

  lemma {:induction false} MembersMinified(ms: Members, depth: nat, e: nat, fmt: bool, t: string)
    requires PrintableMembers(ms)
    ensures Leaves(MembersText(ms, depth, fmt), t, MembersText(ms, e, false))
    decreases ms, 0
  {
    if ms.NoMembers? {
      LeavesPlain("", t);
    } else {
      var tabs, colon := if fmt then Tabs(depth) else "", if fmt then ":\t" else ":";
      var comma, nl := if ms.rest.Member? then "," else "", if fmt then "\n" else "";
      var x, y := Text(ms.value, depth, fmt), Text(ms.value, e, false);
      var more, least := MembersText(ms.rest, depth, fmt), MembersText(ms.rest, e, false);
      MembersMinified(ms.rest, depth, e, fmt, t);
      ValueMinified(ms.value, depth, e, fmt, comma + nl + more + t);
      AfterNameMinified(colon, if fmt then "\t" else "", x, comma, nl, more, t, y, least);
      MemberMinified(ms.name, tabs, colon + (x + (comma + nl + more)), t, ":" + (y + (comma + least)));
      MembersTexts(ms, depth, fmt, tabs, colon, comma, nl);
      MembersTexts(ms, e, false, "", ":", comma, "");
      Unpad(Quote(ms.name), y, comma, least);
    }
  }

  lemma {:induction false} Unpad(q: string, y: string, comma: string, least: string)
    ensures "" + (q + (":" + (y + (comma + "" + least)))) == q + (":" + (y + (comma + least)))
  {
    assert comma + "" == comma;
  }

  lemma {:induction false} AfterNameMinified(colon: string, gap: string, x: string, comma: string, nl: string,
                                             more: string, t: string, y: string, least: string)
    requires colon == ":" + gap && Spaces(gap) && Spaces(nl) && Plain(comma)
    requires Leaves(x, comma + nl + more + t, y) && Leaves(more, t, least)
    ensures Leaves(colon + (x + (comma + nl + more)), t, ":" + (y + (comma + least)))
  {
    LeavesMark(comma, nl, more + t);
    LeavesBoth(comma + nl, more, t, comma, least);
    LeavesBoth(x, comma + nl + more, t, y, comma + least);
    LeavesMark(":", gap, x + (comma + nl + more) + t);
    LeavesBoth(colon, x + (comma + nl + more), t, ":", y + (comma + least));
  }

  lemma {:induction false} MemberMinified(name: string, tabs: string, tail: string, t: string, least: string)
    requires CString(name) && Spaces(tabs) && Leaves(tail, t, least)
    ensures Leaves(tabs + (Quote(name) + tail), t, Quote(name) + least)
  {
    QuoteKept(name, tail + t);
    LeavesBoth(Quote(name), tail, t, Quote(name), least);
    LeavesSpaces(tabs, Quote(name) + tail + t);
    LeavesBoth(tabs, Quote(name) + tail, t, "", Quote(name) + least);
    assert "" + (Quote(name) + least) == Quote(name) + least;
  }

  /** Minifying either print of a tree leaves exactly its unformatted print. */
  lemma {:induction false} MinifyPrinted(v: Value, fmt: bool)
    requires Printable(v)
    ensures Minify(Text(v, 0, fmt)) == Clean(Text(v, 0, false))
  {
    ValueMinified(v, 0, 0, fmt, "");
    assert Text(v, 0, fmt) + "" == Text(v, 0, fmt);
    assert Text(v, 0, false) + "" == Text(v, 0, false);
  }

  // ---------------------------------------------------------------- in place

  /** From position j the array still holds text and its terminator; what is past them is as given. */
  predicate Unread(json: seq<char>, j: nat, text: string, given: seq<char>) {
    j <= |text| < |json| == |given| && json[j..|text|] == text[j..] && json[|text|..] == given[|text|..]
        && json[|text|] == '\0'
  }

  lemma {:induction false} Reads(json: seq<char>, j: nat, text: string, given: seq<char>)
    requires Unread(json, j, text, given) && NoNul(text)
    ensures json[j] == At(text[j..], 0) && (json[j] == '\0' <==> j == |text|)
    ensures j < |text| ==> json[j + 1] == At(text[j..], 1)
  {
    if j < |text| {
      assert json[j..|text|][0] == text[j..][0];
      if j + 1 < |text| { assert json[j..|text|][1] == text[j..][1]; }
    }
  }

  lemma {:induction false} MovesOn(json: seq<char>, j: nat, k: nat, text: string, given: seq<char>)
    requires Unread(json, j, text, given) && j <= k <= |text|
    ensures Unread(json, k, text, given) && text[k..] == text[j..][k - j..]
  {
    assert json[k..|text|] == json[j..|text|][k - j..] == text[j..][k - j..] == text[k..];
  }

  lemma {:induction false} Written(json: seq<char>, i: nat, j: nat, text: string, given: seq<char>)
    requires Unread(json, j, text, given) && i <= j < |text|
    ensures var w := json[i := json[j]];
            Unread(w, j + 1, text, given) && w[..i + 1] == json[..i] + [text[j]] && text[j] == json[j]
  {
    var w := json[i := json[j]];
    assert json[j..|text|][0] == text[j..][0];
    assert w[j + 1..|text|] == json[j..|text|][1..] == text[j..][1..] == text[j + 1..];
    assert w[|text|..] == json[|text|..];
  }

  method SkipLine(json: array<char>, start: nat, ghost text: string, ghost given: seq<char>) returns (j: nat)
    requires NoNul(text) && Unread(json[..], start, text, given)
    ensures start <= j <= |text| && text[j..] == AfterLine(text[start..])
  {
    j := start;
    while j < json.Length && json[j] != '\0' && json[j] != '\n'
      invariant start <= j <= |text| && AfterLine(text[j..]) == AfterLine(text[start..])
    {
      MovesOn(json[..], start, j, text, given);
      Reads(json[..], j, text, given);
      assert text[j..][1..] == text[j + 1..];
      j := j + 1;
    }
    MovesOn(json[..], start, j, text, given);
    Reads(json[..], j, text, given);
  }

  /** Two characters past where the closing mark, or the terminator, is found. */
  method SkipComment(json: array<char>, start: nat, ghost text: string, ghost given: seq<char>) returns (j: nat)
    requires NoNul(text) && Unread(json[..], start, text, given)
    ensures j == start + CommentEnd(text[start..])
  {
    j := start;
    Reads(json[..], j, text, given);
    while json[j] != '\0' && !(json[j] == '*' && json[j + 1] == '/')
      invariant start <= j <= |text|
      invariant json[j] == At(text[j..], 0) && (json[j] == '\0' <==> j == |text|)
      invariant j < |text| ==> json[j + 1] == At(text[j..], 1)
      invariant j + CommentEnd(text[j..]) == start + CommentEnd(text[start..])
      decreases |text| - j
    {
      assert text[j..][1..] == text[j + 1..];
      j := j + 1;
      MovesOn(json[..], start, j, text, given);
      Reads(json[..], j, text, given);
    }
    j := j + 2;
  }

  /** Unread, with the text's characters from start to j written after out. */
  predicate Copied(json: seq<char>, out: string, start: nat, i: nat, j: nat, text: string, given: seq<char>) {
    Unread(json, j, text, given) && start <= j && i <= j && json[..i] == out + text[start..j]
  }

  method CopyChar(json: array<char>, to: nat, at: nat, ghost out: string, ghost start: nat,
                  ghost text: string, ghost given: seq<char>)
    returns (i: nat, j: nat)
    requires Copied(json[..], out, start, to, at, text, given) && at < |text|
    modifies json
    ensures i == to + 1 && j == at + 1 && Copied(json[..], out, start, i, j, text, given)
  {
    Written(json[..], to, at, text, given);
    ghost var w := json[..][to := json[at]];
    json[to] := json[at];
    assert json[..] == w;
    assert out + text[start..at] + [text[at]] == out + text[start..at + 1];
    i, j := to + 1, at + 1;
  }

  lemma {:induction false} LiteralPair(text: string, j: nat)
    requires j < |text| && text[j] == '\\' && j + LiteralEnd(text[j..]) <= |text|
    ensures j + 1 < |text| && LiteralEnd(text[j..]) == 2 + LiteralEnd(text[j + 2..])
  {
    var s := text[j..];
    if |s| >= 2 { assert s[2..] == text[j + 2..]; }
  }

  lemma {:induction false} LiteralNext(text: string, j: nat)
    requires j < |text| && text[j] != '\\'
    ensures LiteralEnd(text[j..]) == if text[j] == '\"' then 1 else 1 + LiteralEnd(text[j + 1..])
  {
    assert text[j..][1..] == text[j + 1..];
  }

  /** One round of the loop inside a literal: a character, or a backslash and the one after it. */
  method CopyInside(json: array<char>, to: nat, at: nat, ghost out: string, ghost start: nat,
                    ghost text: string, ghost given: seq<char>, ghost end: nat)
    returns (i: nat, j: nat)
    requires NoNul(text) && Copied(json[..], out, start, to, at, text, given)
    requires at < end <= |text| && at + LiteralEnd(text[at..]) == end && json[at] == text[at] != '\"'
    modifies json
    ensures at < j < end && j + LiteralEnd(text[j..]) == end
    ensures Copied(json[..], out, start, i, j, text, given) && json[j] == text[j]
  {
    i, j := to, at;
    if json[j] == '\\' {
      LiteralPair(text, j);
      i, j := CopyChar(json, i, j, out, start, text, given);
    } else {
      LiteralNext(text, j);
    }
    i, j := CopyChar(json, i, j, out, start, text, given);
    Reads(json[..], j, text, given);
  }

  /** Copies a whole literal, quotes included, from position at down to position to. */
  method CopyLiteral(json: array<char>, to: nat, at: nat, ghost out: string, ghost text: string, ghost given: seq<char>)
    returns (i: nat, j: nat)
    requires NoNul(text) && Copied(json[..], out, at, to, at, text, given) && at < |text|
    requires 1 + LiteralEnd(text[at + 1..]) <= |text| - at
    modifies json
    ensures j == at + 1 + LiteralEnd(text[at + 1..]) && Copied(json[..], out, at, i, j, text, given)
  {
    ghost var end := at + 1 + LiteralEnd(text[at + 1..]);
    i, j := CopyChar(json, to, at, out, at, text, given);
    Reads(json[..], j, text, given);
    while json[j] != '\0' && json[j] != '\"'
      invariant at < j < end <= |text| && j + LiteralEnd(text[j..]) == end
      invariant Copied(json[..], out, at, i, j, text, given) && json[j] == text[j]
      decreases |text| - j
    {
      i, j := CopyInside(json, i, j, out, at, text, given, end);
    }
    LiteralNext(text, j);
    i, j := CopyChar(json, i, j, out, at, text, given);
  }

  /** Minify's text is what is written so far and what is still to come. */
  ghost predicate Progress(json: seq<char>, i: nat, j: nat, text: string, given: seq<char>) {
    Unread(json, j, text, given) && i <= j && Minify(text[j..]).Clean?
    && Minify(text) == Clean(json[..i] + Minify(text[j..]).text)
  }

  /** Skipping what Minify skips. */
  lemma {:induction false} Skipped(json: seq<char>, i: nat, j: nat, k: nat, text: string, given: seq<char>)
    requires Progress(json, i, j, text, given) && j <= k <= |text| && Minify(text[k..]) == Minify(text[j..])
    ensures Progress(json, i, k, text, given)
  {
    MovesOn(json, j, k, text, given);
  }

  lemma {:induction false} PrefixedTwice(a: string, b: string, m: Minified)
    ensures Prefixed(a, Prefixed(b, m)) == Prefixed(a + b, m)
  {
    assert m.Clean? ==> a + (b + m.text) == a + b + m.text;
  }

  /** Copying what Minify keeps. */
  lemma {:induction false} Kept(before: seq<char>, h: nat, j: nat, json: seq<char>, i: nat, k: nat, text: string,
      given: seq<char>)
    requires Progress(before, h, j, text, given) && Copied(json, before[..h], j, i, k, text, given)
    requires Minify(text[j..]) == Prefixed(text[j..k], Minify(text[k..]))
    ensures Progress(json, i, k, text, given)
  {
    PrefixedTwice(before[..h], text[j..k], Minify(text[k..]));
  }

  lemma {:induction false} MinifyAt(text: string, j: nat)
    requires j < |text| && Minify(text[j..]).Clean?
    ensures var c, d := text[j], At(text[j..], 1);
            if IsSpace(c) then Minify(text[j..]) == Minify(text[j + 1..])
            else if c == '/' && d == '/' then Minify(text[j..]) == Minify(AfterLine(text[j..]))
            else if c == '/' && d == '*' then
              var k := j + CommentEnd(text[j..]);
              k <= |text| && Minify(text[j..]) == Minify(text[k..])
            else
              var k := if c == '\"' then j + 1 + LiteralEnd(text[j + 1..]) else j + 1;
              k <= |text| && Minify(text[j..]) == Prefixed(text[j..k], Minify(text[k..]))
  {
    if text[j] == '\"' {
      MinifyLiteral(text, j);
    } else if text[j] == '/' && At(text[j..], 1) == '*' {
      MinifyComment(text, j);
    } else {
      MinifyOther(text, j);
    }
  }

  lemma {:induction false} TailOf(text: string, j: nat, n: nat)
    requires j + n <= |text|
    ensures text[j..][..n] == text[j..j + n] && text[j..][n..] == text[j + n..]
  {
  }

  lemma {:induction false} MinifyLiteral(text: string, j: nat)
    requires j < |text| && text[j] == '\"' && Minify(text[j..]).Clean?
    ensures var k := j + 1 + LiteralEnd(text[j + 1..]);
            k <= |text| && Minify(text[j..]) == Prefixed(text[j..k], Minify(text[k..]))
  {
    var n := 1 + LiteralEnd(text[j + 1..]);
    TailOf(text, j, 1);
    assert n <= |text[j..]|;
    TailOf(text, j, n);
  }

  lemma {:induction false} MinifyComment(text: string, j: nat)
    requires j < |text| && text[j] == '/' && At(text[j..], 1) == '*' && Minify(text[j..]).Clean?
    ensures var k := j + CommentEnd(text[j..]); k <= |text| && Minify(text[j..]) == Minify(text[k..])
  {
    assert CommentEnd(text[j..]) <= |text[j..]|;
    TailOf(text, j, CommentEnd(text[j..]));
  }

  lemma {:induction false} MinifyOther(text: string, j: nat)
    requires j < |text| && text[j] != '\"' && !(text[j] == '/' && At(text[j..], 1) == '*')
    ensures var c := text[j];
            Minify(text[j..]) == if IsSpace(c) then Minify(text[j + 1..])
                                 else if c == '/' && At(text[j..], 1) == '/' then Minify(AfterLine(text[j..]))
                                 else Prefixed(text[j..j + 1], Minify(text[j + 1..]))
  {
    TailOf(text, j, 1);
    assert text[j..j + 1] == [text[j]];
  }

  /**
    Of a text whose literals and comments are closed the loop leaves Minify's text, terminated, and nothing past it
    changes.
   */
  method MinifyInPlace(json: array<char>, ghost text: string)
    requires NoNul(text) && Unread(json[..], 0, text, json[..]) && Closed(text)
    modifies json
    ensures Minify(text).Clean?
    ensures var m := Minify(text).text;
            |m| <= |text| && json[..|m|] == m && json[|m|] == '\0' && json[|text| + 1..] == old(json[|text| + 1..])
  {
    ghost var given := json[..];
    CleanExactly(text);
    assert text[0..] == text && json[..0] + Minify(text).text == Minify(text).text;
    var i := MinifyLoop(json, text, given);
    json[i] := '\0';
    assert json[|text| + 1..] == given[|text|..][1..];
  }

  /** The loop, down to the terminator of what it read. */
  method MinifyLoop(json: array<char>, ghost text: string, ghost given: seq<char>) returns (i: nat)
    requires NoNul(text) && Progress(json[..], 0, 0, text, given)
    modifies json
    ensures i <= |text| && Unread(json[..], |text|, text, given) && Minify(text) == Clean(json[..i])
  {
    i := 0;
    var j: nat := 0;
    Reads(json[..], 0, text, given);
    while json[j] != '\0'
      invariant Progress(json[..], i, j, text, given)
      invariant json[j] == At(text[j..], 0) && (json[j] == '\0' <==> j == |text|)
      decreases |text| - j
    {
      i, j := MinifyStep(json, i, j, text, given);
      Reads(json[..], j, text, given);
    }
    assert text[j..] == "" && json[..i] + "" == json[..i];
  }

  /** A literal, or one of the other characters. */
  method CopyStep(json: array<char>, to: nat, at: nat, ghost text: string, ghost given: seq<char>)
    returns (i: nat, j: nat)
    requires NoNul(text) && Unread(json[..], at, text, given) && to <= at < |text|
    requires text[at] == '\"' ==> at + 1 + LiteralEnd(text[at + 1..]) <= |text|
    modifies json
    ensures j == if text[at] == '\"' then at + 1 + LiteralEnd(text[at + 1..]) else at + 1
    ensures Copied(json[..], old(json[..to]), at, i, j, text, given)
  {
    ghost var out := json[..to];
    assert text[at..at] == "";
    Reads(json[..], at, text, given);
    if json[at] == '\"' {
      i, j := CopyLiteral(json, to, at, out, text, given);
    } else {
      i, j := CopyChar(json, to, at, out, at, text, given);
    }
  }

  method MinifyStep(json: array<char>, to: nat, at: nat, ghost text: string, ghost given: seq<char>)
    returns (i: nat, j: nat)
    requires NoNul(text) && Progress(json[..], to, at, text, given) && at < |text|
    modifies json
    ensures at < j && Progress(json[..], i, j, text, given)
  {
    ghost var before := json[..];
    i, j := to, at;
    Reads(json[..], j, text, given);
    MinifyAt(text, j);
    if json[j] == ' ' || json[j] == '\t' || json[j] == '\r' || json[j] == '\n' {
      j := j + 1;
      Skipped(json[..], i, at, j, text, given);
    } else if json[j] == '/' && json[j + 1] == '/' {
      j := SkipLine(json, j, text, given);
      Skipped(json[..], i, at, j, text, given);
    } else if json[j] == '/' && json[j + 1] == '*' {
      j := SkipComment(json, j, text, given);
      Skipped(json[..], i, at, j, text, given);
    } else {
      i, j := CopyStep(json, i, j, text, given);
      Kept(before, to, at, json[..], i, j, text, given);
    }
  }
}
