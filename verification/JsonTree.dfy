/** JSON trees, and how NUL-terminated text is read. */
module JsonTree {

  /** A cJSON item; arrays and objects hold their children as a linked list, in the source through `child` and `next`.
      A number is the exact decimal `mantissa * 10^exponent` that the digits of its text spell. */
  datatype Json =
    | Null | False | True
    | Num(mantissa: int, exponent: int)
    | Str(text: string)
    | Arr(items: Items)
    | Obj(members: Members)

  datatype Items = NoItems | Item(head: Json, next: Items)

  datatype Members = NoMembers | Member(name: string, value: Json, next: Members)

  /** The outcome of a parsing function: a value and the position behind it, a reported failure, or `Wild` where the
      source reads past the terminator (a backslash is the last character of an unclosed literal). */
  datatype Parsed<+T> = Ok(value: T, end: nat) | Fail | Wild

  const NUL := 0 as char

  /** The character at a position of a text; the terminator follows the last one. */
  function At(s: string, i: nat): char {
    if i < |s| then s[i] else NUL
  }

  predicate IsDigit(c: char) {
    '0' <= c <= '9'
  }

  function DigitValue(c: char): (d: nat)
    requires IsDigit(c)
    ensures d < 10
  {
    c as nat - '0' as nat
  }

  function DigitChar(d: nat): (c: char)
    requires d < 10
    ensures IsDigit(c) && DigitValue(c) == d
  {
    ('0' as nat + d) as char
  }

  /** `skip`: past everything up to the space character, but not past the terminator. */
  function SkipSpace(s: string, i: nat): (j: nat)
    ensures i <= j && (i <= |s| ==> j <= |s|)
    decreases |s| - i
  {
    if i < |s| && NUL < s[i] <= ' ' then SkipSpace(s, i + 1) else i
  }

  /** `t` stands in `s` at position `i`. */
  predicate Occurs(s: string, i: nat, t: string) {
    i + |t| <= |s| && s[i..i + |t|] == t
  }

  lemma OccursSplit(s: string, i: nat, a: string, b: string)
    ensures Occurs(s, i, a + b) <==> Occurs(s, i, a) && Occurs(s, i + |a|, b)
  {
    if Occurs(s, i, a + b) {
      assert s[i..i + |a|] == (a + b)[..|a|];
      assert s[i + |a|..i + |a| + |b|] == (a + b)[|a|..];
    }
    if Occurs(s, i, a) && Occurs(s, i + |a|, b) {
      assert s[i..i + |a + b|] == s[i..i + |a|] + s[i + |a|..i + |a| + |b|];
    }
  }

  lemma OccursAt(s: string, i: nat, t: string, k: nat)
    requires Occurs(s, i, t) && k < |t|
    ensures At(s, i + k) == t[k]
  {
    assert s[i..i + |t|][k] == t[k];
  }
}
