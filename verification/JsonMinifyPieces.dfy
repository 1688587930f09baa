/** What `cJSON_Minify` does, without reference to how: a text is a row of pieces, and exactly literals and single characters
    other than white space stay. */
module JsonMinifyPieces {
  import opened JsonTree
  import opened JsonString
  import opened JsonMinify

  datatype Piece =
    | Space(c: char)
    | Line(body: string)    // a comment to the end of the line
    | Rest(body: string)    // such a comment at the end of the text
    | Block(body: string)
    | Cross                 // `/*/`, which is taken for a whole block comment
    | Quoted(body: string)
    | Other(c: char)

  function Written(p: Piece): (t: string)
    ensures p.Rest? || |t| > 0
  {
    match p
    case Space(c) => [c]
    case Line(b) => "//" + b + "\n"
    case Rest(b) => "//" + b
    case Block(b) => "/*" + b + "*/"
    case Cross => "/*/"
    case Quoted(b) => "\"" + b + "\""
    case Other(c) => [c]
  }

  function Kept(p: Piece): string {
    if p.Quoted? || p.Other? then Written(p) else ""
  }

  /** What stands between two quotes: a backslash takes the next character along. */
  predicate Closed(b: string) {
    b == [] || (if b[0] == '\\' then |b| > 1 && Closed(b[2..]) else b[0] != '\"' && b[0] != NUL && Closed(b[1..]))
  }

  /** No `*` is followed by a slash. */
  predicate NoEnd(t: string) {
    forall k | 0 <= k < |t| - 1 :: !(t[k] == '*' && t[k + 1] == '/')
  }

  const SPACES := " \t\r\n"

  /** A piece in front of the character `next`. */
  predicate Proper(p: Piece, next: char) {
    match p
    case Space(c) => c in SPACES
    case Line(b) => '\n' !in b && NUL !in b
    case Rest(b) => '\n' !in b && NUL !in b && next == NUL
    case Block(b) => NUL !in b && NoEnd("*" + b + "*")
    case Cross => true
    case Quoted(b) => Closed(b)
    case Other(c) => c !in SPACES && c != '\"' && c != NUL && (c == '/' ==> next != '/' && next != '*')
  }

  /** From `i` on the text is this row of pieces. */
  predicate Row(s: string, i: nat, ps: seq<Piece>)
    decreases |ps|
  {
    if ps == [] then i == |s|
    else
      var next := i + |Written(ps[0])|;
      Occurs(s, i, Written(ps[0])) && Proper(ps[0], At(s, next)) && Row(s, next, ps[1..])
  }

  function KeptText(ps: seq<Piece>): string {
    if ps == [] then "" else Kept(ps[0]) + KeptText(ps[1..])
  }

  // ----- one piece -----

  predicate InLine(s: string, k: nat) {
    At(s, k) != '\n' && At(s, k) != NUL
  }

  lemma {:induction false} LineEndAt(s: string, i: nat, j: nat)
    requires i <= j && (forall k | i <= k < j :: InLine(s, k)) && !InLine(s, j)
    ensures LineEnd(s, i) == j
    decreases j - i
  {
    if i < j {
      assert InLine(s, i);
      LineEndAt(s, i + 1, j);
    }
  }

  predicate InBlock(s: string, k: nat) {
    At(s, k) != NUL && !(At(s, k) == '*' && At(s, k + 1) == '/')
  }

  lemma {:induction false} BlockEndAt(s: string, i: nat, j: nat)
    requires i <= j && (forall k | i <= k < j :: InBlock(s, k)) && !InBlock(s, j)
    ensures BlockEnd(s, i) == j
    decreases j - i
  {
    if i < j {
      assert InBlock(s, i);
      BlockEndAt(s, i + 1, j);
    }
  }

  lemma {:induction false} ClosedEnd(s: string, i: nat, b: string)
    requires Closed(b) && Occurs(s, i, b + "\"")
    ensures LiteralEnd(s, i) == i + |b|
    decreases |b|
  {
    OccursAt(s, i, b + "\"", 0);
    if b != [] {
      var n := if b[0] == '\\' then 2 else 1;
      assert b + "\"" == b[..n] + (b[n..] + "\"");
      OccursSplit(s, i, b[..n], b[n..] + "\"");
      ClosedEnd(s, i + n, b[n..]);
    }
  }

  lemma CommentLine(s: string, i: nat, b: string)
    requires Occurs(s, i, "//" + b) && '\n' !in b && NUL !in b && !InLine(s, i + 2 + |b|)
    ensures At(s, i) == '/' && At(s, i + 1) == '/' && LineEnd(s, i) == i + 2 + |b|
  {
    forall k | i <= k < i + 2 + |b| ensures InLine(s, k) { OccursAt(s, i, "//" + b, k - i); }
    OccursAt(s, i, "//" + b, 0);
    OccursAt(s, i, "//" + b, 1);
    LineEndAt(s, i, i + 2 + |b|);
  }

  lemma CommentBlock(s: string, i: nat, b: string)
    requires Occurs(s, i, "/*" + b + "*/") && NUL !in b && NoEnd("*" + b + "*")
    ensures At(s, i) == '/' && At(s, i + 1) == '*' && BlockEnd(s, i) == i + 2 + |b| && At(s, i + 2 + |b|) == '*'
  {
    var t := "/*" + b + "*/";
    var u := "*" + b + "*";
    forall k: nat | k < |u| ensures t[k + 1] == u[k] {}
    forall k | i <= k < i + 2 + |b| ensures InBlock(s, k) {
      OccursAt(s, i, t, k - i);
      OccursAt(s, i, t, k - i + 1);
      if k > i { assert t[k - i] == u[k - i - 1] && t[k - i + 1] == u[k - i]; }
    }
    OccursAt(s, i, t, 0);
    OccursAt(s, i, t, 1);
    OccursAt(s, i, t, 2 + |b|);
    OccursAt(s, i, t, 3 + |b|);
    BlockEndAt(s, i, i + 2 + |b|);
  }

  lemma CrossBlock(s: string, i: nat)
    requires Occurs(s, i, "/*/")
    ensures At(s, i) == '/' && At(s, i + 1) == '*' && BlockEnd(s, i) == i + 1
  {
    OccursAt(s, i, "/*/", 0);
    OccursAt(s, i, "/*/", 1);
    OccursAt(s, i, "/*/", 2);
  }

  lemma QuotedEnd(s: string, i: nat, b: string)
    requires Occurs(s, i, "\"" + b + "\"") && Closed(b)
    ensures At(s, i) == '\"' && LiteralEnd(s, i + 1) == i + 1 + |b| && At(s, i + 1 + |b|) == '\"'
    ensures i + 2 + |b| <= |s| && s[i..i + 2 + |b|] == "\"" + b + "\""
  {
    assert "\"" + b + "\"" == "\"" + (b + "\"");
    OccursSplit(s, i, "\"", b + "\"");
    OccursAt(s, i, "\"" + b + "\"", 0);
    OccursAt(s, i, "\"" + b + "\"", 1 + |b|);
    ClosedEnd(s, i + 1, b);
  }

  // ----- one turn -----

  lemma SpaceTurn(s: string, i: nat)
    requires i < |s| && s[i] in SPACES
    ensures Min(s, i) == Min(s, i + 1)
  {
  }

  lemma LineTurn(s: string, i: nat, j: nat)
    requires At(s, i) == '/' && At(s, i + 1) == '/' && j == LineEnd(s, i)
    ensures Min(s, i) == Min(s, j)
  {
    hide LineEnd, BlockEnd, LiteralEnd;
  }

  lemma BlockTurn(s: string, i: nat, j: nat)
    requires At(s, i) == '/' && At(s, i + 1) == '*' && j == BlockEnd(s, i) && At(s, j) == '*'
    ensures Min(s, i) == Min(s, j + 2)
  {
    hide LineEnd, BlockEnd, LiteralEnd;
  }

  lemma QuotedTurn(s: string, i: nat, e: nat)
    requires At(s, i) == '\"' && e == LiteralEnd(s, i + 1) && At(s, e) == '\"'
    ensures e < |s| && Min(s, i) == Prepend(s[i..e + 1], Min(s, e + 1))
  {
    hide LineEnd, BlockEnd, LiteralEnd;
  }

  lemma OtherTurn(s: string, i: nat)
    requires i < |s| && Proper(Other(s[i]), At(s, i + 1))
    ensures Min(s, i) == Prepend([s[i]], Min(s, i + 1))
  {
    hide LineEnd, BlockEnd, LiteralEnd;
  }

  lemma LineMin(s: string, i: nat, b: string, next: nat)
    requires Occurs(s, i, "//" + b + "\n") && next == i + 3 + |b| && '\n' !in b && NUL !in b
    ensures Min(s, i) == Min(s, next)
  {
    hide Min, LineEnd, Occurs;
    OccursSplit(s, i, "//" + b, "\n");
    OccursAt(s, i + 2 + |b|, "\n", 0);
    CommentLine(s, i, b);
    LineTurn(s, i, next - 1);
    SpaceTurn(s, next - 1);
  }

  lemma RestMin(s: string, i: nat, b: string, next: nat)
    requires Occurs(s, i, "//" + b) && next == i + 2 + |b| && next == |s| && '\n' !in b && NUL !in b
    ensures Min(s, i) == Min(s, next)
  {
    hide Min, LineEnd, Occurs;
    CommentLine(s, i, b);
    LineTurn(s, i, next);
  }

  lemma BlockMin(s: string, i: nat, b: string, next: nat)
    requires Occurs(s, i, "/*" + b + "*/") && next == i + 4 + |b| && NUL !in b && NoEnd("*" + b + "*")
    ensures Min(s, i) == Min(s, next)
  {
    hide Min, BlockEnd, Occurs, NoEnd;
    CommentBlock(s, i, b);
    BlockTurn(s, i, next - 2);
  }

  lemma CrossMin(s: string, i: nat)
    requires Occurs(s, i, "/*/")
    ensures Min(s, i) == Min(s, i + 3)
  {
    hide Min, BlockEnd, Occurs;
    CrossBlock(s, i);
    BlockTurn(s, i, i + 1);
  }

  lemma QuotedMin(s: string, i: nat, b: string, next: nat)
    requires Occurs(s, i, "\"" + b + "\"") && next == i + 2 + |b| && Closed(b)
    ensures Min(s, i) == Prepend("\"" + b + "\"", Min(s, next))
  {
    hide Min, LiteralEnd, Occurs, Closed, Prepend;
    QuotedEnd(s, i, b);
    QuotedTurn(s, i, next - 1);
  }

  lemma SpaceMin(s: string, i: nat, c: char)
    requires Occurs(s, i, [c]) && c in SPACES
    ensures Min(s, i) == Min(s, i + 1)
  {
    hide Min, Occurs, SPACES;
    OneThere(s, i, c);
    SpaceTurn(s, i);
  }

  lemma OtherMin(s: string, i: nat, c: char)
    requires Occurs(s, i, [c]) && Proper(Other(c), At(s, i + 1))
    ensures Min(s, i) == Prepend([c], Min(s, i + 1))
  {
    hide Min, Occurs, Proper, Prepend;
    OneThere(s, i, c);
    OtherTurn(s, i);
  }

  lemma EmptyMin(s: string)
    ensures Min(s, |s|) == Small("")
  {
  }

  lemma NothingKept(m: Small)
    ensures Prepend("", m) == m
  {
    if m.Small? { assert "" + m.text == m.text; }
  }

  /** A piece is left out or stays as a whole, and the rest is treated as if it stood alone. */
  lemma PieceMin(s: string, i: nat, p: Piece, next: nat)
    requires Occurs(s, i, Written(p)) && next == i + |Written(p)| && Proper(p, At(s, next))
    requires p.Rest? ==> next == |s|
    ensures Min(s, i) == Prepend(Kept(p), Min(s, next))
  {
    hide Min, Closed, NoEnd, Occurs, Prepend, SPACES;
    NothingKept(Min(s, next));
    match p
    case Space(c) => SpaceMin(s, i, c);
    case Other(c) => OtherMin(s, i, c);
    case Line(b) => LineMin(s, i, b, next);
    case Rest(b) => RestMin(s, i, b, next);
    case Block(b) => BlockMin(s, i, b, next);
    case Cross => CrossMin(s, i);
    case Quoted(b) => QuotedMin(s, i, b, next);
  }

  lemma OneThere(s: string, i: nat, c: char)
    requires Occurs(s, i, [c])
    ensures i < |s| && s[i] == c
  {
    OccursAt(s, i, [c], 0);
  }

  // ----- whole texts -----

  lemma RowFirst(s: string, i: nat, ps: seq<Piece>)
    requires ps != [] && Row(s, i, ps)
    ensures
      var next := i + |Written(ps[0])|;
      Occurs(s, i, Written(ps[0])) && Proper(ps[0], At(s, next)) && Row(s, next, ps[1..])
  {
    hide Written, Proper, Occurs;
  }

  lemma RestLast(s: string, p: Piece, next: nat)
    requires NulFree(s) && p.Rest? && Proper(p, At(s, next)) && next <= |s|
    ensures next == |s|
  {
    assert next < |s| ==> At(s, next) in s;
  }

  lemma RowEmpty(s: string, i: nat)
    requires Row(s, i, [])
    ensures i == |s|
  {
  }

  /** Minifying leaves exactly the pieces that are neither white space nor comments. */
  lemma {:induction false} MinifiedRow(s: string, i: nat, ps: seq<Piece>)
    requires NulFree(s) && i <= |s| && Row(s, i, ps)
    ensures Min(s, i) == Small(KeptText(ps))
    decreases |ps|
  {
    hide Written, Proper, Kept, Row, Occurs, Min, NulFree;
    if ps == [] {
      RowEmpty(s, i);
      EmptyMin(s);
    } else {
      var next := i + |Written(ps[0])|;
      RowFirst(s, i, ps);
      OccursInside(s, i, Written(ps[0]));
      if ps[0].Rest? { RestLast(s, ps[0], next); }
      MinifiedRow(s, next, ps[1..]);
      PieceMin(s, i, ps[0], next);
    }
  }

  lemma {:induction false} EndClosed(s: string, i: nat, e: nat)
    requires i <= e == LiteralEnd(s, i) && e < |s| && s[e] == '\"'
    ensures Closed(s[i..e])
    decreases e - i
  {
    if i < e {
      var n := if s[i] == '\\' then 2 else 1;
      assert n == 2 ==> LiteralEnd(s, i) == LiteralEnd(s, i + 2);
      LiteralNotBefore(s, i + n);
      EndClosed(s, i + n, e);
      assert s[i..e][n..] == s[i + n..e];
    }
  }

  lemma LiteralNotBefore(s: string, i: nat)
    ensures i <= LiteralEnd(s, i)
  {
  }

  lemma {:induction false} LineFree(s: string, i: nat)
    requires i <= |s| && NulFree(s)
    ensures i <= LineEnd(s, i) <= |s| && '\n' !in s[i..LineEnd(s, i)] && NUL !in s[i..LineEnd(s, i)]
    ensures LineEnd(s, i) < |s| ==> s[LineEnd(s, i)] == '\n'
    decreases |s| - i
  {
    if i < |s| && s[i] != '\n' {
      LineFree(s, i + 1);
      assert s[i..LineEnd(s, i)] == [s[i]] + s[i + 1..LineEnd(s, i)];
    }
  }

  lemma {:induction false} BlockFree(s: string, i: nat)
    requires i <= |s|
    ensures i <= BlockEnd(s, i) <= |s| && forall k | i <= k < BlockEnd(s, i) :: InBlock(s, k)
    decreases |s| - i
  {
    if i < |s| && InBlock(s, i) { BlockFree(s, i + 1); }
  }

  lemma LinePiece(s: string, i: nat) returns (p: Piece)
    requires NulFree(s) && i <= |s| && At(s, i) == '/' && At(s, i + 1) == '/'
    ensures Occurs(s, i, Written(p)) && Proper(p, At(s, i + |Written(p)|)) && |Written(p)| > 0
    ensures p.Rest? ==> i + |Written(p)| == |s|
    ensures Min(s, i) == Min(s, i + |Written(p)|)
  {
    hide Min, LineEnd, NulFree, Occurs, Written, Proper;
    LineFree(s, i);
    var j := LineEnd(s, i);
    LineStarts(s, i);
    LineTurn(s, i, j);
    var b := LineBody(s, i, j);
    if j < |s| {
      p := LineClosed(s, i, j, b);
      SpaceTurn(s, j);
    } else {
      p := LineOpen(s, i, b);
    }
  }

  lemma LineClosed(s: string, i: nat, j: nat, b: string) returns (p: Piece)
    requires i <= j < |s| && s[j] == '\n' && s[i..j] == "//" + b && '\n' !in b && NUL !in b
    ensures p == Line(b) && i + |Written(p)| == j + 1 && Occurs(s, i, Written(p)) && Proper(p, At(s, j + 1))
  {
    p := Line(b);
    assert s[i..j + 1] == s[i..j] + [s[j]];
  }

  lemma LineOpen(s: string, i: nat, b: string) returns (p: Piece)
    requires i <= |s| && s[i..|s|] == "//" + b && '\n' !in b && NUL !in b
    ensures p == Rest(b) && |Written(p)| > 0 && i + |Written(p)| == |s| && Occurs(s, i, Written(p)) && Proper(p, At(s, |s|))
  {
    p := Rest(b);
  }

  lemma LineBody(s: string, i: nat, j: nat) returns (b: string)
    requires At(s, i) == '/' && At(s, i + 1) == '/' && i + 2 <= j <= |s| && '\n' !in s[i..j] && NUL !in s[i..j]
    ensures s[i..j] == "//" + b && |b| == j - i - 2 && '\n' !in b && NUL !in b
  {
    b := s[i + 2..j];
    forall k | 0 <= k < |b| ensures b[k] == s[i..j][k + 2] {}
    assert s[i..j] == "//" + b;
  }

  lemma LineStarts(s: string, i: nat)
    requires At(s, i) == '/' && At(s, i + 1) == '/'
    ensures i + 2 <= LineEnd(s, i)
  {
  }

  lemma BlockPiece(s: string, i: nat) returns (p: Piece)
    requires NulFree(s) && i <= |s| && At(s, i) == '/' && At(s, i + 1) == '*' && At(s, BlockEnd(s, i)) == '*'
    ensures Occurs(s, i, Written(p)) && Proper(p, At(s, i + |Written(p)|)) && |Written(p)| > 0 && !p.Rest?
    ensures Min(s, i) == Min(s, i + |Written(p)|)
  {
    hide Min, BlockEnd, Occurs, Written, Proper, InBlock;
    BlockFree(s, i);
    var j := BlockEnd(s, i);
    BlockStarts(s, i);
    BlockTurn(s, i, j);
    if j == i + 1 { p := CrossThere(s, i); } else { p := BlockThere(s, i, j); }
  }

  lemma CrossThere(s: string, i: nat) returns (p: Piece)
    requires i + 2 < |s| && s[i] == '/' && s[i + 1] == '*' && s[i + 2] == '/'
    ensures p == Cross && |Written(p)| == 3 && Occurs(s, i, Written(p)) && Proper(p, At(s, i + 3))
  {
    p := Cross;
    assert s[i..i + 3] == "/*/";
  }

  lemma BlockThere(s: string, i: nat, j: nat) returns (p: Piece)
    requires NulFree(s) && i + 2 <= j && j + 1 < |s| && s[i] == '/' && s[i + 1] == '*' && s[j] == '*' && s[j + 1] == '/'
    requires forall k | i <= k < j :: InBlock(s, k)
    ensures p.Block? && i + |Written(p)| == j + 2 && Occurs(s, i, Written(p)) && Proper(p, At(s, j + 2))
  {
    var b := s[i + 2..j];
    p := Block(b);
    assert s[i..j + 2] == "/*" + b + "*/";
    BlockBody(s, i, j);
  }

  lemma BlockBody(s: string, i: nat, j: nat)
    requires i + 2 <= j && j + 1 < |s| && s[i + 1] == '*' && s[j] == '*' && forall k | i <= k < j :: InBlock(s, k)
    ensures NoEnd("*" + s[i + 2..j] + "*")
  {
    var t := "*" + s[i + 2..j] + "*";
    assert t == s[i + 1..j + 1];
    forall k | 0 <= k < |t| - 1 ensures !(t[k] == '*' && t[k + 1] == '/') { assert InBlock(s, i + 1 + k); }
  }

  lemma BlockStarts(s: string, i: nat)
    requires At(s, i) == '/' && At(s, i + 1) == '*' && At(s, BlockEnd(s, i)) == '*'
    ensures i + 1 <= BlockEnd(s, i) && BlockEnd(s, i) + 1 < |s| && s[BlockEnd(s, i) + 1] == '/'
  {
  }

  lemma QuotedPiece(s: string, i: nat) returns (p: Piece)
    requires At(s, i) == '\"' && At(s, LiteralEnd(s, i + 1)) == '\"'
    ensures Occurs(s, i, Written(p)) && Proper(p, At(s, i + |Written(p)|)) && |Written(p)| > 0 && !p.Rest?
    ensures Min(s, i) == Prepend(Kept(p), Min(s, i + |Written(p)|))
  {
    hide Min, LiteralEnd;
    var e := LiteralEnd(s, i + 1);
    EndClosed(s, i + 1, e);
    QuotedTurn(s, i, e);
    p := Quoted(s[i + 1..e]);
    assert s[i..e + 1] == "\"" + s[i + 1..e] + "\"";
  }

  /** What a text begins with that can be minified. */
  lemma Begins(s: string, i: nat)
    requires i < |s| && Min(s, i).Small?
    ensures s[i] == '/' && At(s, i + 1) == '*' ==> At(s, BlockEnd(s, i)) == '*'
    ensures s[i] == '\"' ==> At(s, LiteralEnd(s, i + 1)) == '\"'
  {
    hide LineEnd, BlockEnd, LiteralEnd;
  }

  lemma SinglePiece(s: string, i: nat) returns (p: Piece)
    requires NulFree(s) && i < |s| && s[i] != '\"' && (s[i] == '/' ==> At(s, i + 1) != '/' && At(s, i + 1) != '*')
    ensures Occurs(s, i, Written(p)) && |Written(p)| == 1 && Proper(p, At(s, i + 1)) && !p.Rest?
    ensures Min(s, i) == Prepend(Kept(p), Min(s, i + 1))
  {
    hide Min, Prepend;
    NothingKept(Min(s, i + 1));
    assert s[i..i + 1] == [s[i]];
    if s[i] in SPACES {
      p := Space(s[i]);
      SpaceTurn(s, i);
    } else {
      p := Other(s[i]);
      OtherTurn(s, i);
    }
  }

  /** The first piece of a text that is minified. */
  lemma FirstPiece(s: string, i: nat) returns (p: Piece)
    requires NulFree(s) && i < |s| && Min(s, i).Small?
    ensures Occurs(s, i, Written(p)) && Proper(p, At(s, i + |Written(p)|)) && |Written(p)| > 0
    ensures p.Rest? ==> i + |Written(p)| == |s|
    ensures Min(s, i + |Written(p)|).Small?
  {
    hide Min, LineEnd, BlockEnd, LiteralEnd, Written, Proper, Occurs, NulFree;
    Begins(s, i);
    if s[i] == '/' && At(s, i + 1) == '/' {
      p := LinePiece(s, i);
    } else if s[i] == '/' && At(s, i + 1) == '*' {
      p := BlockPiece(s, i);
    } else if s[i] == '\"' {
      p := QuotedPiece(s, i);
    } else {
      p := SinglePiece(s, i);
    }
  }

  /** And every text that is minified without running past its end is such a row; so minifying stays inside the text if and
      only if the text is one. */
  lemma {:induction false} RowOf(s: string, i: nat) returns (ps: seq<Piece>)
    requires NulFree(s) && i <= |s| && Min(s, i).Small?
    ensures Row(s, i, ps)
    decreases |s| - i
  {
    hide Min, Written, Proper;
    if i == |s| {
      ps := [];
    } else {
      var p := FirstPiece(s, i);
      var next := i + |Written(p)|;
      OccursInside(s, i, Written(p));
      var rest := RowOf(s, next);
      ps := [p] + rest;
      assert ps[0] == p && ps[1..] == rest;
    }
  }

  lemma OccursInside(s: string, i: nat, t: string)
    requires Occurs(s, i, t)
    ensures i + |t| <= |s|
  {
  }
}
