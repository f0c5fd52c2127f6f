/** What minifying takes out of a text and leaves: a text is cut into pieces, and only blanks and comments go. */
module JsonPieces {
  import opened JsonText
  import opened JsonParse
  import opened JsonMinify

  /** A blank, a comment up to the end of its line, a block comment, a literal, or any other character. */
  datatype Piece = White(c: char) | Line(text: string) | Block(text: string) | Quoted(text: string) | Other(c: char)

  function TextOf(p: Piece): string {
    match p
    case White(c) => [c]
    case Other(c) => [c]
    case _ => p.text
  }

  function Whole(ps: seq<Piece>): string {
    if ps == [] then "" else TextOf(ps[0]) + Whole(ps[1..])
  }

  /** The literals and the other characters, in their order. */
  function Kept(ps: seq<Piece>): string {
    if ps == [] then ""
    else (if ps[0].Quoted? || ps[0].Other? then TextOf(ps[0]) else "") + Kept(ps[1..])
  }

  predicate IsWhite(c: char) { c as int == 32 || c as int == 9 || c as int == 13 || c as int == 10 }

  /** The piece is of its kind, in front of rest. */
  predicate Stands(p: Piece, rest: string) {
    match p
    case White(c) => IsWhite(c)
    case Line(t) =>
      |t| >= 2 && t[..2] == "//" && (forall i {:trigger t[i]} :: 0 <= i < |t| ==> t[i] != '\n')
      && (rest == "" || rest[0] == '\n')
    case Block(t) => IsComment(t)
    case Quoted(t) => IsLiteral(t)
    case Other(c) => !IsWhite(c) && c != '\"' && !(c == '/' && rest != "" && (rest[0] == '/' || rest[0] == '*'))
  }

  predicate Cut(ps: seq<Piece>) {
    ps != [] ==> Stands(ps[0], Whole(ps[1..])) && Cut(ps[1..])
  }

  // ---------------------------------------------------------------- one piece

  lemma {:induction false} LineSkipped(t: string, rest: string)
    requires (forall i {:trigger t[i]} :: 0 <= i < |t| ==> t[i] != '\n') && (rest == "" || rest[0] == '\n')
    ensures AfterLine(t + rest) == rest
  {
    if t == "" {
      assert t + rest == rest;
    } else {
      assert (t + rest)[1..] == t[1..] + rest;
      LineSkipped(t[1..], rest);
    }
  }

  lemma {:induction false} LineGoes(t: string, rest: string)
    requires Stands(Line(t), rest)
    ensures Minify(t + rest) == Minify(rest)
  {
    LineSkipped(t, rest);
    var s := t + rest;
    assert s[0] == t[..2][0] && s[1] == t[..2][1];
  }

  lemma {:induction false} BlockGoes(t: string, rest: string)
    requires IsComment(t)
    ensures Minify(t + rest) == Minify(rest)
  {
    var s := t + rest;
    assert s[..|t|] == t && s[|t|..] == rest;
    CommentExactly(s, |t|);
  }

  lemma {:induction false} QuotedStays(t: string, rest: string)
    requires IsLiteral(t)
    ensures Minify(t + rest) == Prefixed(t, Minify(rest))
  {
    var s := t + rest;
    assert s[..|t|] == t && s[|t|..] == rest;
    LiteralExactly(s, |t|);
  }

  lemma {:induction false} PieceMinified(p: Piece, rest: string)
    requires Stands(p, rest)
    ensures Minify(TextOf(p) + rest)
         == if p.Quoted? || p.Other? then Prefixed(TextOf(p), Minify(rest)) else Minify(rest)
  {
    match p
    case White(c) => assert ([c] + rest)[1..] == rest;
    case Line(t) => LineGoes(t, rest);
    case Block(t) => BlockGoes(t, rest);
    case Quoted(t) => QuotedStays(t, rest);
    case Other(c) => assert ([c] + rest)[1..] == rest && At([c] + rest, 1) == At(rest, 0);
  }

  // ---------------------------------------------------------------- whole texts

  /** Minifying a text leaves its literals and its other characters, whole and in order, and nothing else. */
  lemma {:induction false} MinifyLeaves(ps: seq<Piece>)
    requires Cut(ps)
    ensures Minify(Whole(ps)) == Clean(Kept(ps))
  {
    if ps != [] {
      MinifyLeaves(ps[1..]);
      PieceMinified(ps[0], Whole(ps[1..]));
      assert "" + Kept(ps[1..]) == Kept(ps[1..]);
    }
  }

  lemma {:induction false} LineEnds(s: string)
    ensures var r := AfterLine(s);
            |r| <= |s| && s == s[..|s| - |r|] + r && (r == "" || r[0] == '\n')
            && forall i {:trigger s[i]} :: 0 <= i < |s| - |r| ==> s[i] != '\n'
  {
    if s != "" && s[0] != '\n' {
      LineEnds(s[1..]);
      var r := AfterLine(s[1..]);
      forall i {:trigger s[i]} | 0 <= i < |s| - |r| ensures s[i] != '\n' { if i > 0 { assert s[i] == s[1..][i - 1]; } }
    }
  }

  /** The first piece of a text the minifier stays inside. */
  lemma {:induction false} FirstPiece(s: string) returns (p: Piece, rest: string)
    requires s != "" && Closed(s)
    ensures s == TextOf(p) + rest && |rest| < |s| && Stands(p, rest) && Closed(rest)
  {
    if s[0] == '/' && At(s, 1) == '/' {
      rest := AfterLine(s);
      LineEnds(s);
      assert AfterLine(s) == AfterLine(s[1..]) == AfterLine(s[1..][1..]);
      var t := s[..|s| - |rest|];
      assert t[..2] == "//";
      p := Line(t);
    } else if s[0] == '/' && At(s, 1) == '*' {
      var n: nat :| 3 <= n <= |s| && IsComment(s[..n]) && Closed(s[n..]);
      p, rest := Block(s[..n]), s[n..];
    } else if s[0] == '\"' {
      var n: nat :| 2 <= n <= |s| && IsLiteral(s[..n]) && Closed(s[n..]);
      p, rest := Quoted(s[..n]), s[n..];
    } else {
      rest := s[1..];
      p := if IsWhite(s[0]) then White(s[0]) else Other(s[0]);
    }
  }

  /** Every text the minifier stays inside can be cut into such pieces. */
  lemma {:induction false} ClosedCut(s: string) returns (ps: seq<Piece>)
    requires Closed(s)
    ensures Cut(ps) && Whole(ps) == s && Minify(s) == Clean(Kept(ps))
    decreases |s|
  {
    ps := [];
    if s != "" {
      var p, rest := FirstPiece(s);
      var qs := ClosedCut(rest);
      ps := [p] + qs;
      assert ps[1..] == qs;
    }
    MinifyLeaves(ps);
  }
}
