/** JSON trees on the heap: items with a kind, a value, a first child and a next sibling, and when they stand for a tree. */
module JsonItems {
  import opened JsonTree

  datatype Kind = NoKind | KindNull | KindFalse | KindTrue | KindNumber | KindString | KindArray | KindObject

  /** A `cJSON` structure; `name` is its `string` field. */
  class Item {
    var kind: Kind
    var mantissa: int
    var exponent: int
    var valuestring: string
    var name: string
    var child: Item?
    var next: Item?
    var prev: Item?

    constructor ()
      ensures kind == NoKind && child == null && next == null && prev == null && name == ""
    {
      kind, mantissa, exponent, valuestring, name := NoKind, 0, 0, "", "";
      child, next, prev := null, null, null;
    }
  }

  // ----- what a heap of items stands for -----

  /** The items of a tree, in its shape. */
  datatype Foot = Foot(node: Item, parts: Feet)
  datatype Feet = NoFeet | Feet(head: Foot, rest: Feet)

  ghost function Nodes(f: Foot): set<Item> {
    {f.node} + NodesOf(f.parts)
  }

  ghost function NodesOf(fs: Feet): set<Item> {
    if fs.NoFeet? then {} else Nodes(fs.head) + NodesOf(fs.rest)
  }

  /** An item and what hangs below it stand for `v`; its siblings and its name do not matter. */
  ghost predicate Stands(f: Foot, v: Json)
    reads Nodes(f)
    decreases v, 0
  {
    match v
    case Null => f.node.kind == KindNull && f.parts.NoFeet?
    case False => f.node.kind == KindFalse && f.parts.NoFeet?
    case True => f.node.kind == KindTrue && f.parts.NoFeet?
    case Num(m, e) => f.node.kind == KindNumber && f.node.mantissa == m && f.node.exponent == e && f.parts.NoFeet?
    case Str(t) => f.node.kind == KindString && f.node.valuestring == t && f.parts.NoFeet?
    case Arr(items) => f.node.kind == KindArray && f.node !in NodesOf(f.parts) && Listed(f.node.child, f.parts, items)
    case Obj(members) => f.node.kind == KindObject && f.node !in NodesOf(f.parts) && NamedList(f.node.child, f.parts, members)
  }

  /** The chain of siblings from `x` on. */
  ghost predicate Listed(x: Item?, fs: Feet, items: Items)
    reads NodesOf(fs)
    decreases items, 1
  {
    match items
    case NoItems => x == null && fs.NoFeet?
    case Item(v, rest) =>
      && fs.Feet? && x == fs.head.node && Stands(fs.head, v)
      && Nodes(fs.head) !! NodesOf(fs.rest) && Listed(fs.head.node.next, fs.rest, rest)
  }

  ghost predicate NamedList(x: Item?, fs: Feet, members: Members)
    reads NodesOf(fs)
    decreases members, 1
  {
    match members
    case NoMembers => x == null && fs.NoFeet?
    case Member(name, v, rest) =>
      && fs.Feet? && x == fs.head.node && Stands(fs.head, v) && (assert fs.head.node in Nodes(fs.head); fs.head.node.name == name)
      && Nodes(fs.head) !! NodesOf(fs.rest) && NamedList(fs.head.node.next, fs.rest, rest)
  }

  /** Children read so far, in front of the rest of the list. */
  function Chain(front: seq<Json>, rest: Items): Items {
    if front == [] then rest else Item(front[0], Chain(front[1..], rest))
  }

  lemma {:induction false} ChainAppend(front: seq<Json>, v: Json, rest: Items)
    ensures Chain(front + [v], rest) == Chain(front, Item(v, rest))
  {
    if front != [] {
      assert (front + [v])[1..] == front[1..] + [v];
      ChainAppend(front[1..], v, rest);
    }
  }

  function ChainMembers(front: seq<(string, Json)>, rest: Members): Members {
    if front == [] then rest else Member(front[0].0, front[0].1, ChainMembers(front[1..], rest))
  }

  lemma {:induction false} ChainMembersAppend(front: seq<(string, Json)>, m: (string, Json), rest: Members)
    ensures ChainMembers(front + [m], rest) == ChainMembers(front, Member(m.0, m.1, rest))
  {
    if front != [] {
      assert (front + [m])[1..] == front[1..] + [m];
      ChainMembersAppend(front[1..], m, rest);
    }
  }

  /** The chain from `x` up to, and not including, `end`. */
  ghost predicate Segment(x: Item?, fs: Feet, front: seq<Json>, end: Item?)
    reads NodesOf(fs)
    decreases |front|
  {
    if front == [] then x == end && fs.NoFeet?
    else
      && fs.Feet? && x == fs.head.node && Stands(fs.head, front[0])
      && Nodes(fs.head) !! NodesOf(fs.rest) && Segment(fs.head.node.next, fs.rest, front[1..], end)
  }

  /** No item is made twice. */
  lemma {:induction false} NodesExist(f: Foot)
    ensures forall x | x in Nodes(f) :: allocated(x)
  {
    FeetExist(f.parts);
  }

  lemma {:induction false} FeetExist(fs: Feet)
    ensures forall x | x in NodesOf(fs) :: allocated(x)
  {
    if fs.Feet? {
      NodesExist(fs.head);
      FeetExist(fs.rest);
    }
  }

  ghost function With(fs: Feet, f: Foot): (r: Feet)
    ensures NodesOf(r) == NodesOf(fs) + Nodes(f)
  {
    if fs.NoFeet? then Feet(f, NoFeet) else Feet(fs.head, With(fs.rest, f))
  }

  lemma {:induction false} SegmentMore(x: Item?, fs: Feet, front: seq<Json>, f: Foot, v: Json)
    requires Segment(x, fs, front, f.node) && Stands(f, v) && Nodes(f) !! NodesOf(fs)
    ensures Segment(x, With(fs, f), front + [v], f.node.next)
    decreases |front|
  {
    if front == [] {
      assert [v][1..] == [];
    } else {
      assert (front + [v])[1..] == front[1..] + [v];
      SegmentMore(fs.head.node.next, fs.rest, front[1..], f, v);
    }
  }

  lemma {:induction false} SegmentListed(x: Item?, fs: Feet, front: seq<Json>)
    requires Segment(x, fs, front, null)
    ensures Listed(x, fs, Chain(front, NoItems))
    decreases |front|
  {
    if front != [] { SegmentListed(fs.head.node.next, fs.rest, front[1..]); }
  }

  /** The children linked so far, with the last one apart, because its `next` is still to change. */
  ghost predicate Building(item: Item, fs: Feet, front: seq<Json>, last: Foot, v: Json)
    reads item, NodesOf(fs), Nodes(last)
  {
    && item !in NodesOf(fs) && item !in Nodes(last) && Nodes(last) !! NodesOf(fs)
    && Segment(item.child, fs, front, last.node) && Stands(last, v) && last.node.next == null
  }

  /** A new child is linked at the end of the chain and has no value yet. */
  ghost predicate Linked(item: Item, fs: Feet, front: seq<Json>, child: Item)
    reads item, child, NodesOf(fs)
  {
    && item !in NodesOf(fs) && item != child && child !in NodesOf(fs)
    && Segment(item.child, fs, front, child) && child.child == null && child.next == null
  }

  /** The chain of named siblings from `x` up to, and not including, `end`. */
  ghost predicate NamedSegment(x: Item?, fs: Feet, front: seq<(string, Json)>, end: Item?)
    reads NodesOf(fs)
    decreases |front|
  {
    if front == [] then x == end && fs.NoFeet?
    else
      && fs.Feet? && x == fs.head.node && Stands(fs.head, front[0].1)
      && (assert fs.head.node in Nodes(fs.head); fs.head.node.name == front[0].0)
      && Nodes(fs.head) !! NodesOf(fs.rest) && NamedSegment(fs.head.node.next, fs.rest, front[1..], end)
  }

  lemma {:induction false} NamedSegmentMore(x: Item?, fs: Feet, front: seq<(string, Json)>, f: Foot, m: (string, Json))
    requires NamedSegment(x, fs, front, f.node) && Stands(f, m.1) && f.node.name == m.0 && Nodes(f) !! NodesOf(fs)
    ensures NamedSegment(x, With(fs, f), front + [m], f.node.next)
    decreases |front|
  {
    if front == [] {
      assert [m][1..] == [];
    } else {
      assert (front + [m])[1..] == front[1..] + [m];
      NamedSegmentMore(fs.head.node.next, fs.rest, front[1..], f, m);
    }
  }

  lemma {:induction false} SegmentNamed(x: Item?, fs: Feet, front: seq<(string, Json)>)
    requires NamedSegment(x, fs, front, null)
    ensures NamedList(x, fs, ChainMembers(front, NoMembers))
    decreases |front|
  {
    if front != [] { SegmentNamed(fs.head.node.next, fs.rest, front[1..]); }
  }

  ghost predicate NamedBuilding(item: Item, fs: Feet, front: seq<(string, Json)>, last: Foot, m: (string, Json))
    reads item, NodesOf(fs), Nodes(last)
  {
    && item !in NodesOf(fs) && item !in Nodes(last) && Nodes(last) !! NodesOf(fs)
    && NamedSegment(item.child, fs, front, last.node) && Stands(last, m.1) && last.node.name == m.0 && last.node.next == null
  }

  ghost predicate NamedLinked(item: Item, fs: Feet, front: seq<(string, Json)>, child: Item)
    reads item, child, NodesOf(fs)
  {
    && item !in NodesOf(fs) && item != child && child !in NodesOf(fs)
    && NamedSegment(item.child, fs, front, child) && child.child == null && child.next == null
  }
}
