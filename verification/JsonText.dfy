/** What `print_value` writes and what `parse_value` reads, as functions on trees and texts, and that reading undoes
    writing (sections 2 to 7 of RFC 8259). */
module JsonText {
  import opened JsonTree
  import opened JsonNumber
  import opened JsonString

  // ----- printing -----

  function Tabs(n: nat): (t: string)
    ensures |t| == n
  {
    seq(n, _ => '\t')
  }

  /** Text that only the formatted output has. */
  function Only(fmt: bool, t: string): string {
    if fmt then t else ""
  }

  /** `print_value`; only numbers in the int range are printed. */
  function Print(v: Json, depth: nat, fmt: bool): string
    decreases v, 2
  {
    match v
    case Null => "null"
    case False => "false"
    case True => "true"
    case Num(m, _) => PrintInt(m)
    case Str(t) => PrintString(t)
    case Arr(items) => if items.NoItems? then "[]" else "[" + PrintItems(items, depth, fmt)
    case Obj(members) =>
      if members.NoMembers? then "{" + (Only(fmt, "\n" + Tabs(depth)) + "}")
      else "{" + (Only(fmt, "\n") + PrintMembers(members, depth + 1, fmt))
  }

  /** The entries of an array up to its closing bracket. */
  function PrintItems(items: Items, depth: nat, fmt: bool): string
    requires items.Item?
    decreases items, 0
  {
    Print(items.head, depth + 1, fmt) + ItemsTail(items.next, depth, fmt)
  }

  /** What is written behind an item. */
  function ItemsTail(rest: Items, depth: nat, fmt: bool): (t: string)
    ensures |t| > 0 && EndsNumber(t[0])
    decreases rest, 1
  {
    if rest.NoItems? then "]" else "," + (Only(fmt, " ") + PrintItems(rest, depth, fmt))
  }

  /** The entries of an object, each indented by `depth` tabs, up to its closing brace. */
  function PrintMembers(members: Members, depth: nat, fmt: bool): string
    requires members.Member? && depth > 0
    decreases members, 0
  {
    Named(Only(fmt, Tabs(depth)), PrintString(members.name), Only(fmt, "\t"),
          Print(members.value, depth, fmt) + MembersTail(members.next, depth, fmt))
  }

  /** White space, a quoted name, a colon, white space and the rest. */
  function Named(w: string, p: string, u: string, rest: string): string {
    w + (p + (":" + (u + rest)))
  }

  /** What is written behind a member's value. */
  function MembersTail(rest: Members, depth: nat, fmt: bool): (t: string)
    requires depth > 0
    ensures |t| > 0 && EndsNumber(t[0])
    decreases rest, 1
  {
    if rest.NoMembers? then Only(fmt, "\n" + Tabs(depth - 1)) + "}"
    else "," + (Only(fmt, "\n") + PrintMembers(rest, depth, fmt))
  }

  /** The trees in scope: C strings hold no NUL, and numbers are integers in the int range. */
  predicate Printable(v: Json) {
    match v
    case Num(m, e) => INT_MIN <= m <= INT_MAX && e == 0
    case Str(t) => NulFree(t)
    case Arr(items) => PrintableItems(items)
    case Obj(members) => PrintableMembers(members)
    case _ => true
  }

  predicate PrintableItems(items: Items) {
    items.Item? ==> Printable(items.head) && PrintableItems(items.next)
  }

  predicate PrintableMembers(members: Members) {
    members.Member? ==> NulFree(members.name) && Printable(members.value) && PrintableMembers(members.next)
  }

  // ----- parsing -----

  /** `parse_value`. */
  function ParseValue(s: string, i: nat): (r: Parsed<Json>)
    requires i <= |s|
    ensures r.Ok? ==> i < r.end <= |s|
    decreases |s| - i, 1
  {
    if Occurs(s, i, "null") then Ok(Null, i + 4)
    else if Occurs(s, i, "false") then Ok(False, i + 5)
    else if Occurs(s, i, "true") then Ok(True, i + 4)
    else if At(s, i) == '\"' then ParseStr(s, i)
    else if At(s, i) == '-' || IsDigit(At(s, i)) then
      var (n, end) := ParseNumber(s, i);
      Ok(n, end)
    else if At(s, i) == '[' then ParseArray(s, i)
    else if At(s, i) == '{' then ParseObject(s, i)
    else Fail
  }

  function ParseStr(s: string, i: nat): (r: Parsed<Json>)
    ensures r.Ok? ==> i < r.end <= |s|
  {
    match ParseString(s, i)
    case Ok(t, end) => Ok(Str(t), end)
    case Fail => Fail
    case Wild => Wild
  }

  /** `parse_array` at its opening bracket. */
  function ParseArray(s: string, i: nat): (r: Parsed<Json>)
    requires i < |s|
    ensures r.Ok? ==> i < r.end <= |s| && r.value.Arr?
    decreases |s| - i, 0
  {
    var j := SkipSpace(s, i + 1);
    if At(s, j) == ']' then Ok(Arr(NoItems), j + 1)
    else
      match ParseItems(s, j)
      case Ok(items, end) => Ok(Arr(items), end)
      case Fail => Fail
      case Wild => Wild
  }

  /** The entries of an array from `i` on, and its closing bracket. */
  function ParseItems(s: string, i: nat): (r: Parsed<Items>)
    requires i <= |s|
    ensures r.Ok? ==> i < r.end <= |s|
    decreases |s| - i, 2
  {
    match ParseValue(s, SkipSpace(s, i))
    case Fail => Fail
    case Wild => Wild
    case Ok(v, end) =>
      var j := SkipSpace(s, end);
      if At(s, j) == ',' then
        match ParseItems(s, j + 1)
        case Ok(rest, end2) => Ok(Item(v, rest), end2)
        case Fail => Fail
        case Wild => Wild
      else if At(s, j) == ']' then Ok(Item(v, NoItems), j + 1)
      else Fail
  }

  /** `parse_object` at its opening brace. */
  function ParseObject(s: string, i: nat): (r: Parsed<Json>)
    requires i < |s|
    ensures r.Ok? ==> i < r.end <= |s| && r.value.Obj?
    decreases |s| - i, 0
  {
    var j := SkipSpace(s, i + 1);
    if At(s, j) == '}' then Ok(Obj(NoMembers), j + 1)
    else
      match ParseMembers(s, j)
      case Ok(members, end) => Ok(Obj(members), end)
      case Fail => Fail
      case Wild => Wild
  }

  /** A name, up to the character behind its colon. */
  function ParseName(s: string, i: nat): (r: Parsed<string>)
    requires i <= |s|
    ensures r.Ok? ==> i < r.end <= |s|
  {
    match ParseString(s, SkipSpace(s, i))
    case Fail => Fail
    case Wild => Wild
    case Ok(name, end) =>
      var j := SkipSpace(s, end);
      if At(s, j) == ':' then Ok(name, j + 1) else Fail
  }

  /** The entries of an object from `i` on, and its closing brace. */
  function ParseMembers(s: string, i: nat): (r: Parsed<Members>)
    requires i <= |s|
    ensures r.Ok? ==> i < r.end <= |s|
    decreases |s| - i, 2
  {
    match ParseName(s, i)
    case Fail => Fail
    case Wild => Wild
    case Ok(name, from) =>
      match ParseValue(s, SkipSpace(s, from))
      case Fail => Fail
      case Wild => Wild
      case Ok(v, end) =>
        var j := SkipSpace(s, end);
        if At(s, j) == ',' then
          match ParseMembers(s, j + 1)
          case Ok(rest, end2) => Ok(Member(name, v, rest), end2)
          case Fail => Fail
          case Wild => Wild
        else if At(s, j) == '}' then Ok(Member(name, v, NoMembers), j + 1)
        else Fail
  }

  /** `cJSON_ParseWithOpts`; `strict` is its `require_null_terminated`. */
  function ParseText(s: string, strict: bool): (r: Parsed<Json>)
    ensures r.Ok? ==> r.end <= |s|
  {
    match ParseValue(s, SkipSpace(s, 0))
    case Fail => Fail
    case Wild => Wild
    case Ok(v, end) =>
      if !strict then Ok(v, end)
      else
        var j := SkipSpace(s, end);
        if At(s, j) == NUL then Ok(v, j) else Fail
  }
}
