/** `print_string_ptr`: a counting pass, then a writing pass that stays inside the counted space. */
module JsonEscaper {
  import opened JsonTree
  import opened JsonString

  lemma EscapeAllAppend(s: string, k: nat)
    requires k < |s|
    ensures EscapeAll(s[k..]) == Escape(s[k]) + EscapeAll(s[k + 1..])
  {
    assert s[k..][1..] == s[k + 1..];
  }

  /** Copying a string to a position of a buffer. */
  method Copy(out: array<char>, o: nat, t: string)
    requires o + |t| <= out.Length
    modifies out
    ensures out[..o + |t|] == old(out[..o]) + t
  {
    var k := 0;
    ghost var before := out[..o];
    while k < |t|
      invariant k <= |t| && out[..o + k] == before + t[..k]
    {
      out[o + k] := t[k];
      assert t[..k + 1] == t[..k] + [t[k]];
      k := k + 1;
      assert out[..o + k] == out[..o + k - 1] + [t[k - 1]];
    }
    assert t[..|t|] == t;
  }

  lemma Terminated(a: string, t: string)
    ensures (a + (t + [NUL]))[..|a| + |t|] == a + t
  {
  }

  /** The same with a terminator, as by `strcpy`. */
  method CopyText(out: array<char>, o: nat, t: string)
    requires o + |t| < out.Length
    modifies out
    ensures out[..o + |t|] == old(out[..o]) + t
    ensures out[..o + |t| + 1] == old(out[..o]) + t + [NUL]
  {
    ghost var before := out[..o];
    Copy(out, o, t + [NUL]);
    ghost var all := out[..o + |t| + 1];
    Terminated(before, t);
    assert all[..o + |t|] == out[..o + |t|];
    assert before + (t + [NUL]) == before + t + [NUL];
  }

  lemma {:induction false} PlainIsVerbatim(s: string)
    requires forall k | 0 <= k < |s| :: Plain(s[k])
    ensures EscapeAll(s) == s
  {
    if s != [] { PlainIsVerbatim(s[1..]); }
  }

  /** The first loop: whether any character needs an escape. */
  method NeedsEscape(str: string) returns (flag: bool)
    ensures flag <==> exists k :: 0 <= k < |str| && !Plain(str[k])
    ensures !flag ==> EscapeAll(str) == str
  {
    flag := false;
    for k := 0 to |str|
      invariant flag <==> exists j :: 0 <= j < k && !Plain(str[j])
    {
      if !Plain(str[k]) { flag := true; }
    }
    if !flag { PlainIsVerbatim(str); }
  }

  /** The second loop: the length of the escaped text. */
  method CountEscaped(str: string) returns (len: nat)
    ensures len == |EscapeAll(str)|
  {
    len := 0;
    var k := 0;
    assert str[0..] == str;
    while k < |str|
      invariant k <= |str| && len + |EscapeAll(str[k..])| == |EscapeAll(str)|
    {
      EscapeAllAppend(str, k);
      var token := str[k];
      len := len + 1;
      if token in ['\"', '\\', 0x8 as char, 0xC as char, '\n', '\r', '\t'] { len := len + 1; } else if token < ' ' { len := len + 5; }
      k := k + 1;
    }
  }

  /** `*ptr++ = c` */
  method PutChar(out: array<char>, o: nat, c: char)
    requires o < out.Length
    modifies out
    ensures out[..o + 1] == old(out[..o]) + [c]
  {
    ghost var before := out[..o];
    out[o] := c;
    assert out[..o + 1] == before + [c];
  }

  method PutPair(out: array<char>, o: nat, c: char)
    requires o + 2 <= out.Length
    modifies out
    ensures out[..o + 2] == old(out[..o]) + ['\\', c]
  {
    ghost var before := out[..o];
    out[o], out[o + 1] := '\\', c;
    assert out[..o + 2] == before + ['\\', c];
  }

  /** As by `sprintf` with `u%04x`. */
  method PutHex(out: array<char>, o: nat, c: char)
    requires o + 6 <= out.Length && c < ' '
    modifies out
    ensures out[..o + 6] == old(out[..o]) + ['\\', 'u', '0', '0', HexChar(c as nat / 16), HexChar(c as nat % 16)]
  {
    ghost var before := out[..o];
    out[o], out[o + 1], out[o + 2], out[o + 3] := '\\', 'u', '0', '0';
    out[o + 4], out[o + 5] := HexChar(c as nat / 16), HexChar(c as nat % 16);
    assert out[..o + 6] == before + ['\\', 'u', '0', '0', HexChar(c as nat / 16), HexChar(c as nat % 16)];
  }

  /** One character of the third loop. */
  method WriteEscaped(c: char, out: array<char>, o: nat) returns (o': nat)
    requires o + |Escape(c)| <= out.Length
    modifies out
    ensures o' == o + |Escape(c)| && out[..o'] == old(out[..o]) + Escape(c)
  {
    if Plain(c) {
      PutChar(out, o, c);
      o' := o + 1;
    } else {
      o' := o + 2;
      match c
      case '\\' => PutPair(out, o, '\\');
      case '\"' => PutPair(out, o, '\"');
      case '\n' => PutPair(out, o, 'n');
      case '\r' => PutPair(out, o, 'r');
      case '\t' => PutPair(out, o, 't');
      case _ =>
        if c == 0x8 as char { PutPair(out, o, 'b'); }
        else if c == 0xC as char { PutPair(out, o, 'f'); }
        else {
          PutHex(out, o, c);
          o' := o + 6;
        }
    }
  }

  /** The third loop. */
  method WriteAll(str: string, out: array<char>, o: nat) returns (at: nat)
    requires o + |EscapeAll(str)| <= out.Length
    modifies out
    ensures at == o + |EscapeAll(str)| && out[..at] == old(out[..o]) + EscapeAll(str)
  {
    ghost var goal := out[..o] + EscapeAll(str);
    var k := 0;
    at := o;
    assert str[0..] == str;
    while k < |str|
      invariant k <= |str| && at <= out.Length && at + |EscapeAll(str[k..])| == o + |EscapeAll(str)|
      invariant out[..at] + EscapeAll(str[k..]) == goal
    {
      EscapeAllAppend(str, k);
      ghost var soFar, e, rest := out[..at], Escape(str[k]), EscapeAll(str[k + 1..]);
      assert soFar + (e + rest) == soFar + e + rest;
      at := WriteEscaped(str[k], out, at);
      k := k + 1;
    }
  }

  lemma Quoted(before: string, str: string, e: string)
    requires e == EscapeAll(str)
    ensures before + ['\"'] + e + ['\"'] == before + PrintString(str)
  {
    hide EscapeAll;
  }

  /** The quoted text with its escapes, and the terminator. */
  method FillEscaped(str: string, out: array<char>, o: nat)
    requires o + |EscapeAll(str)| + 3 <= out.Length
    modifies out
    ensures out[..o + |PrintString(str)| + 1] == old(out[..o]) + PrintString(str) + [NUL]
  {
    hide EscapeAll, PrintString;
    Quoted(out[..o], str, EscapeAll(str));
    PutChar(out, o, '\"');
    var at := WriteAll(str, out, o + 1);
    PutChar(out, at, '\"');
    PutChar(out, at + 1, NUL);
  }

  /** The shortcut for strings without escapes. */
  method FillPlain(str: string, out: array<char>, o: nat)
    requires o + |str| + 3 <= out.Length && EscapeAll(str) == str
    modifies out
    ensures out[..o + |PrintString(str)| + 1] == old(out[..o]) + PrintString(str) + [NUL]
  {
    hide EscapeAll, PrintString;
    Quoted(out[..o], str, str);
    PutChar(out, o, '\"');
    CopyText(out, o + 1, str);
    var at := o + 1 + |str|;
    PutChar(out, at, '\"');
    PutChar(out, at + 1, NUL);
  }
}
