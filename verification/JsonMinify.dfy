/** `cJSON_Minify`: white space and comments go, everything else stays; done in place, with two positions moving over
    the same text. */
module JsonMinify {
  import opened JsonTree
  import opened JsonString

  /** What is left of a text, or `Overrun` where a literal or a block comment is not closed and the source would run
      past the terminator. */
  datatype Small = Small(text: string) | Overrun

  predicate White(c: char) {
    c == ' ' || c == '\t' || c == '\r' || c == '\n'
  }

  /** The line break that ends a comment, or the terminator. */
  function LineEnd(s: string, i: nat): (j: nat)
    ensures i <= j && (i <= |s| ==> j <= |s|)
    ensures i < |s| && s[i] != '\n' && s[i] != NUL ==> i < j
    decreases |s| - i
  {
    if i < |s| && s[i] != '\n' && s[i] != NUL then LineEnd(s, i + 1) else i
  }

  /** The `*` of the end of a block comment, or the terminator. */
  function BlockEnd(s: string, i: nat): (j: nat)
    ensures i <= j && (i <= |s| ==> j <= |s|)
    ensures At(s, j) == '*' ==> At(s, j + 1) == '/'
    decreases |s| - i
  {
    if i < |s| && s[i] != NUL && !(s[i] == '*' && At(s, i + 1) == '/') then BlockEnd(s, i + 1) else i
  }

  function Prepend(t: string, r: Small): Small {
    match r case Overrun => Overrun case Small(u) => Small(t + u)
  }

  /** The text from `i` on without white space and comments. */
  function Min(s: string, i: nat): Small
    decreases |s| - i
  {
    if i >= |s| || s[i] == NUL then Small("")
    else if White(s[i]) then Min(s, i + 1)
    else if s[i] == '/' && At(s, i + 1) == '/' then Min(s, LineEnd(s, i))
    else if s[i] == '/' && At(s, i + 1) == '*' then
      var j := BlockEnd(s, i);
      if At(s, j) == '*' then Min(s, j + 2) else Overrun
    else if s[i] == '\"' then
      var e := LiteralEnd(s, i + 1);
      if At(s, e) == '\"' then Prepend(s[i..e + 1], Min(s, e + 1)) else Overrun
    else Prepend([s[i]], Min(s, i + 1))
  }

  // ----- in place -----

  /** From `p` on the buffer still holds the text and its terminator. */
  ghost predicate Tail(json: array<char>, s: string, p: nat)
    reads json
  {
    p <= |s| < json.Length && json[|s|] == NUL && forall k :: p <= k < |s| ==> json[k] == s[k]
  }

  /** What is written so far and what is still to come make up `m`. */
  ghost predicate Halfway(json: array<char>, s: string, m: string, into: nat, p: nat)
    reads json
  {
    && Tail(json, s, p) && into <= p
    && Min(s, p).Small? && json[..into] + Min(s, p).text == m
  }

  /** `*into++ = *json++` */
  method MoveOne(json: array<char>, ghost s: string, into: nat, p: nat)
    requires Tail(json, s, p) && into <= p < |s|
    modifies json
    ensures Tail(json, s, p + 1) && json[..into + 1] == old(json[..into]) + [s[p]]
  {
    ghost var front := json[..into];
    json[into] := json[p];
    assert json[..into + 1] == front + [s[p]];
  }

  /** To the end of a `//` comment. */
  method SkipLine(json: array<char>, ghost s: string, start: nat) returns (p: nat)
    requires Tail(json, s, start)
    ensures p == LineEnd(s, start)
  {
    p := start;
    while json[p] != NUL && json[p] != '\n'
      invariant start <= p <= |s| && LineEnd(s, start) == LineEnd(s, p)
      decreases |s| - p
    {
      p := p + 1;
    }
  }

  /** To the `*` that ends a block comment. */
  method SkipBlock(json: array<char>, ghost s: string, start: nat) returns (p: nat)
    requires Tail(json, s, start)
    ensures p == BlockEnd(s, start)
  {
    p := start;
    while json[p] != NUL && !(json[p] == '*' && json[p + 1] == '/')
      invariant start <= p <= |s| && BlockEnd(s, start) == BlockEnd(s, p)
      decreases |s| - p
    {
      p := p + 1;
    }
  }

  lemma Longer(s: string, from: nat, p: nat)
    requires from <= p < |s|
    ensures s[from..p + 1] == s[from..p] + [s[p]]
  {
  }

  /** Inside a literal the first pass of the parser steps as the copying does. */
  lemma UnitStep(s: string, p: nat)
    requires p < LiteralEnd(s, p) && At(s, LiteralEnd(s, p)) == '\"'
    ensures p < |s| && var next := if s[p] == '\\' then p + 2 else p + 1;
      next <= |s| && LiteralEnd(s, next) == LiteralEnd(s, p)
  {
  }

  lemma LiteralGoesOn(s: string, p: nat)
    requires At(s, LiteralEnd(s, p)) == '\"'
    ensures p < |s| && (s[p] != NUL && s[p] != '\"' <==> p < LiteralEnd(s, p))
    ensures s[p] == NUL || s[p] == '\"' ==> p == LiteralEnd(s, p)
  {
  }

  /** One turn of the loop over a literal: an escape is moved as a whole. */
  method MoveUnit(json: array<char>, ghost s: string, into: nat, p: nat, ghost from: nat, ghost front: string)
      returns (into': nat, p': nat)
    requires Tail(json, s, p) && from <= p && into <= p < LiteralEnd(s, p) && At(s, LiteralEnd(s, p)) == '\"'
    requires json[..into] == front + s[from..p]
    modifies json
    ensures p < p' <= |s| && LiteralEnd(s, p') == LiteralEnd(s, p) && p' - into' == p - into
    ensures Tail(json, s, p') && json[..into'] == front + s[from..p']
  {
    hide LiteralEnd;
    UnitStep(s, p);
    into', p' := into, p;
    if json[p'] == '\\' {
      Longer(s, from, p');
      MoveOne(json, s, into', p');
      into', p' := into' + 1, p' + 1;
    }
    Longer(s, from, p');
    MoveOne(json, s, into', p');
    into', p' := into' + 1, p' + 1;
  }

  /** A string literal from its opening to its closing quote, byte for byte. */
  method MoveLiteral(json: array<char>, ghost s: string, start: nat, from: nat) returns (into: nat, p: nat)
    requires Tail(json, s, from) && start <= from < |s| && s[from] == '\"' && At(s, LiteralEnd(s, from + 1)) == '\"'
    modifies json
    ensures p == LiteralEnd(s, from + 1) + 1 && into == start + (p - from)
    ensures Tail(json, s, p) && json[..into] == old(json[..start]) + s[from..p]
  {
    hide LiteralEnd;
    ghost var front, end := json[..start], LiteralEnd(s, from + 1);
    MoveOne(json, s, start, from);
    into, p := start + 1, from + 1;
    assert s[from..p] == [s[from]];
    LiteralGoesOn(s, p);
    while json[p] != NUL && json[p] != '\"'
      invariant from < p < |s| && LiteralEnd(s, p) == end && into == start + (p - from)
      invariant s[p] != NUL && s[p] != '\"' <==> p < end
      invariant s[p] == NUL || s[p] == '\"' ==> p == end
      invariant Tail(json, s, p) && json[..into] == front + s[from..p]
      decreases |s| - p
    {
      into, p := MoveUnit(json, s, into, p, from, front);
      LiteralGoesOn(s, p);
    }
    Longer(s, from, p);
    MoveOne(json, s, into, p);
    into, p := into + 1, p + 1;
  }

  /** `cJSON_Minify`, on a text whose literals and block comments are closed. */
  method Minify(json: array<char>, ghost s: string)
    requires Tail(json, s, 0) && Min(s, 0).Small?
    modifies json
    ensures var m := Min(s, 0).text; |m| <= |s| && json[..|m|] == m && json[|m|] == NUL
  {
    ghost var m := Min(s, 0).text;
    var into: nat, p: nat := 0, 0;
    assert json[..0] + m == m;
    while json[p] != NUL
      invariant Halfway(json, s, m, into, p)
      decreases |s| - p
    {
      into, p := Turn(json, s, m, into, p);
    }
    json[into] := NUL;
  }

  /** What one turn of the loop removes or moves, and how the rest reads then. */
  lemma MinStep(s: string, p: nat, front: string, m: string)
    requires p < |s| && s[p] != NUL && Min(s, p).Small? && front + Min(s, p).text == m
    ensures
      if White(s[p]) then Follows(s, p, p + 1, front, m)
      else if s[p] == '/' && At(s, p + 1) == '/' then Follows(s, p, LineEnd(s, p), front, m)
      else if s[p] == '/' && At(s, p + 1) == '*' then Follows(s, p, BlockEnd(s, p) + 2, front, m)
      else if s[p] == '\"' then
        var e := LiteralEnd(s, p + 1);
        At(s, e) == '\"' && Follows(s, p, e + 1, front + s[p..e + 1], m)
      else Follows(s, p, p + 1, front + [s[p]], m)
  {
    if Moved(s, p) != "" {
      Assoc(front, Moved(s, p), Min(s, p + |Moved(s, p)|));
    }
  }

  /** What is moved at `p`: a whole literal, one other character, or nothing. */
  ghost function Moved(s: string, p: nat): string
    requires p < |s|
  {
    if White(s[p]) || (s[p] == '/' && (At(s, p + 1) == '/' || At(s, p + 1) == '*')) then ""
    else if s[p] == '\"' && LiteralEnd(s, p + 1) < |s| then s[p..LiteralEnd(s, p + 1) + 1]
    else [s[p]]
  }

  lemma Assoc(front: string, t: string, r: Small)
    ensures r.Small? ==> front + Prepend(t, r).text == front + t + r.text
  {
    if r.Small? { assert front + (t + r.text) == front + t + r.text; }
  }

  ghost predicate Follows(s: string, p: nat, p': nat, front: string, m: string) {
    p < p' <= |s| && Min(s, p').Small? && front + Min(s, p').text == m
  }

  /** White space and comments are stepped over. */
  predicate Skips(s: string, p: nat) {
    p < |s| && (White(s[p]) || (s[p] == '/' && (At(s, p + 1) == '/' || At(s, p + 1) == '*')))
  }

  method SkipOne(json: array<char>, ghost s: string, ghost m: string, ghost front: string, p: nat) returns (p': nat)
    requires Tail(json, s, p) && Skips(s, p) && Min(s, p).Small? && front + Min(s, p).text == m
    ensures Follows(s, p, p', front, m)
  {
    MinStep(s, p, front, m);
    hide Min, LineEnd, BlockEnd;
    if White(json[p]) {
      p' := p + 1;
    } else if json[p + 1] == '/' {
      p' := SkipLine(json, s, p);
    } else {
      p' := SkipBlock(json, s, p);
      p' := p' + 2;
    }
  }

  method MoveNext(json: array<char>, ghost s: string, ghost m: string, into: nat, p: nat) returns (into': nat, p': nat)
    requires Halfway(json, s, m, into, p) && json[p] != NUL && !Skips(s, p)
    modifies json
    ensures Halfway(json, s, m, into', p') && p < p'
  {
    MinStep(s, p, json[..into], m);
    hide Min, LineEnd, BlockEnd, LiteralEnd;
    if json[p] == '\"' {
      into', p' := MoveLiteral(json, s, into, p);
    } else {
      MoveOne(json, s, into, p);
      into', p' := into + 1, p + 1;
    }
  }

  /** One turn of the loop. */
  method Turn(json: array<char>, ghost s: string, ghost m: string, into: nat, p: nat) returns (into': nat, p': nat)
    requires Halfway(json, s, m, into, p) && json[p] != NUL
    modifies json
    ensures Halfway(json, s, m, into', p') && p < p'
  {
    hide Min;
    if White(json[p]) || (json[p] == '/' && (json[p + 1] == '/' || json[p + 1] == '*')) {
      into' := into;
      p' := SkipOne(json, s, m, json[..into], p);
    } else {
      into', p' := MoveNext(json, s, m, into, p);
    }
  }
}
