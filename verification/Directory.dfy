/** One directory of writable files: entries sorted by name, found by binary search. */
module Directory {
  import opened FileNodes
  import FileNode

  const EEXIST := 17
  const EMFILE := 24
  const ENAMETOOLONG := 36
  const NAME_MAX := 255

  datatype Entry = Entry(fnode: int, name: string)

  /** The sign of `strcmp` on texts without terminators in them. */
  function Compare(a: string, b: string): (r: int)
    ensures -1 <= r <= 1
  {
    if a == [] then (if b == [] then 0 else -1)
    else if b == [] then 1
    else if a[0] < b[0] then -1
    else if a[0] > b[0] then 1
    else Compare(a[1..], b[1..])
  }

  lemma {:induction false} CompareSame(a: string, b: string)
    ensures Compare(a, b) == 0 <==> a == b
  {
    if a != [] && b != [] && a[0] == b[0] {
      CompareSame(a[1..], b[1..]);
      assert a == [a[0]] + a[1..] && b == [b[0]] + b[1..];
    }
  }

  lemma {:induction false} CompareFlip(a: string, b: string)
    ensures Compare(a, b) == -Compare(b, a)
  {
    if a != [] && b != [] && a[0] == b[0] { CompareFlip(a[1..], b[1..]); }
  }

  lemma {:induction false} CompareTransitive(a: string, b: string, c: string)
    requires Compare(a, b) < 0 && Compare(b, c) < 0
    ensures Compare(a, c) < 0
  {
    if a != [] && b != [] && c != [] && a[0] == b[0] == c[0] { CompareTransitive(a[1..], b[1..], c[1..]); }
  }

  /** The names are the same up to `k`, and `a` has the smaller character there. */
  predicate Differs(a: string, b: string, k: nat) {
    k < |a| && k < |b| && a[..k] == b[..k] && a[k] < b[k]
  }

  lemma DiffersLater(a: string, b: string, k: nat)
    requires a != [] && b != []
    ensures Differs(a, b, k + 1) <==> a[0] == b[0] && Differs(a[1..], b[1..], k)
  {
    if k + 1 < |a| && k + 1 < |b| {
      assert a[..k + 1] == [a[0]] + a[1..][..k] && b[..k + 1] == [b[0]] + b[1..][..k];
    }
  }

  lemma DiffersFirst(a: string, b: string)
    requires a != [] && b != []
    ensures Differs(a, b, 0) <==> a[0] < b[0]
  {
    assert a[..0] == b[..0];
  }

  lemma PrefixLater(a: string, b: string)
    requires a != [] && b != []
    ensures a <= b <==> a[0] == b[0] && a[1..] <= b[1..]
  {
    if |a| <= |b| { assert b[..|a|] == [b[0]] + b[1..][..|a| - 1] && a == [a[0]] + a[1..]; }
  }

  /** Where two names first differ, or one of them ends, decides: a name comes before its extensions, and otherwise before
      those with a larger character there. */
  lemma {:induction false} CompareExactly(a: string, b: string)
    ensures Compare(a, b) < 0 <==> a < b || exists k :: Differs(a, b, k)
  {
    if a != [] && b != [] {
      PrefixLater(a, b);
      DiffersFirst(a, b);
      if a[0] == b[0] { CompareExactly(a[1..], b[1..]); }
      CompareLater(a, b);
      hide Differs, Compare;
      if k: nat :| Differs(a, b, k) {
        if k > 0 { DiffersLater(a, b, k - 1); }
      }
      if k: nat :| a[0] == b[0] && Differs(a[1..], b[1..], k) { DiffersLater(a, b, k); }
    }
  }

  lemma CompareLater(a: string, b: string)
    requires a != [] && b != []
    ensures Compare(a, b) == if a[0] < b[0] then -1 else if a[0] > b[0] then 1 else Compare(a[1..], b[1..])
  {
  }

  /** Strictly sorted by name. */
  ghost predicate Ordered(nodes: seq<Entry>) {
    forall i, j :: 0 <= i < j < |nodes| ==> Compare(nodes[i].name, nodes[j].name) < 0
  }

  /** A sorted directory is a map: a name has one entry. */
  lemma OrderedIsMap(nodes: seq<Entry>, e: Entry, f: Entry)
    requires Ordered(nodes) && e in nodes && f in nodes && e.name == f.name
    ensures e == f
  {
    CompareSame(e.name, f.name);
    var i :| 0 <= i < |nodes| && nodes[i] == e;
    var j :| 0 <= j < |nodes| && nodes[j] == f;
  }

  ghost function Entries(nodes: seq<Entry>): set<Entry> {
    set e | e in nodes
  }

  lemma InsertedOrdered(nodes: seq<Entry>, low: nat, e: Entry)
    requires Ordered(nodes) && low <= |nodes|
    requires forall i :: 0 <= i < low ==> Compare(nodes[i].name, e.name) < 0
    requires forall i :: low <= i < |nodes| ==> Compare(nodes[i].name, e.name) > 0
    ensures Ordered(nodes[..low] + [e] + nodes[low..])
    ensures Entries(nodes[..low] + [e] + nodes[low..]) == Entries(nodes) + {e}
  {
    hide Compare;
    var all := nodes[..low] + [e] + nodes[low..];
    forall i, j | 0 <= i < j < |all| ensures Compare(all[i].name, all[j].name) < 0 {
      var x, y := if i < low then i else i - 1, if j < low then j else j - 1;
      assert i != low ==> all[i] == nodes[x];
      assert j != low ==> all[j] == nodes[y];
      if i == low { CompareFlip(e.name, nodes[y].name); }
    }
    forall f ensures f in all <==> f in nodes || f == e {
      assert nodes == nodes[..low] + nodes[low..];
    }
  }

  lemma RemovedOrdered(nodes: seq<Entry>, k: nat)
    requires Ordered(nodes) && k < |nodes|
    ensures Ordered(nodes[..k] + nodes[k + 1..])
    ensures Entries(nodes[..k] + nodes[k + 1..]) == Entries(nodes) - {nodes[k]}
  {
    var rest := nodes[..k] + nodes[k + 1..];
    CompareSame(nodes[k].name, nodes[k].name);
    assert forall i :: 0 <= i < |rest| ==> rest[i] == nodes[if i < k then i else i + 1] != nodes[k];
    forall f ensures f in rest <==> f in nodes && f != nodes[k] {
      assert nodes == nodes[..k] + [nodes[k]] + nodes[k + 1..];
    }
  }

  class Directory {
    var nodes: seq<Entry>

    ghost predicate Valid()
      reads this
    {
      Ordered(nodes)
    }

    constructor ()
      ensures Valid() && nodes == []
    {
      nodes := [];
    }

    /** The binary search over names: the entry, or the place where one would stand. */
    method Search(name: string) returns (low: nat, found: bool)
      requires Valid()
      ensures low <= |nodes|
      ensures found ==> low < |nodes| && nodes[low].name == name
      ensures !found ==> forall i :: 0 <= i < low ==> Compare(nodes[i].name, name) < 0
      ensures !found ==> forall i :: low <= i < |nodes| ==> Compare(nodes[i].name, name) > 0
      ensures found <==> exists e :: e in Entries(nodes) && e.name == name
    {
      found := false;
      low := 0;
      var high := |nodes|;
      while low < high
        invariant low <= high <= |nodes|
        invariant forall i :: 0 <= i < low ==> Compare(nodes[i].name, name) < 0
        invariant forall i :: high <= i < |nodes| ==> Compare(nodes[i].name, name) > 0
      {
        var mid := (low + high) / 2;
        var r := Compare(nodes[mid].name, name);
        CompareSame(nodes[mid].name, name);
        if r == 0 {
          assert nodes[mid] in Entries(nodes);
          return mid, true;
        }
        if r < 0 { Below(name, mid); low := mid + 1; } else { Above(name, mid); high := mid; }
      }
      CompareSame(name, name);
    }

    lemma Below(name: string, mid: nat)
      requires Valid() && mid < |nodes| && Compare(nodes[mid].name, name) < 0
      ensures forall i :: 0 <= i <= mid ==> Compare(nodes[i].name, name) < 0
    {
      forall i | 0 <= i < mid ensures Compare(nodes[i].name, name) < 0 {
        CompareTransitive(nodes[i].name, nodes[mid].name, name);
      }
    }

    lemma Above(name: string, mid: nat)
      requires Valid() && mid < |nodes| && Compare(nodes[mid].name, name) > 0
      ensures forall i :: mid <= i < |nodes| ==> Compare(nodes[i].name, name) > 0
    {
      forall i | mid < i < |nodes| ensures Compare(nodes[i].name, name) > 0 {
        CompareFlip(nodes[mid].name, name);
        CompareTransitive(name, nodes[mid].name, nodes[i].name);
        CompareFlip(name, nodes[i].name);
      }
    }

    /** `dir_nodes_get_node` */
    method Get(name: string) returns (res: int, entry: Entry)
      requires Valid()
      ensures res == if |name| > NAME_MAX then -ENAMETOOLONG
                     else if exists e :: e in Entries(nodes) && e.name == name then 0 else -ENOENT
      ensures res == 0 ==> entry in Entries(nodes) && entry.name == name
    {
      entry := Entry(0, "");
      if |name| > NAME_MAX { return -ENAMETOOLONG, entry; }
      var low, found := Search(name);
      if !found { return -ENOENT, entry; }
      return 0, nodes[low];
    }

    /** `dir_nodes_get_node_by_fnode` */
    method GetByFnode(fnode: int) returns (res: int, entry: Entry)
      ensures res == if exists e :: e in Entries(nodes) && e.fnode == fnode then 0 else -ENOENT
      ensures res == 0 ==> entry in Entries(nodes) && entry.fnode == fnode
    {
      entry := Entry(0, "");
      for i := 0 to |nodes|
        invariant forall j :: 0 <= j < i ==> nodes[j].fnode != fnode
      {
        if nodes[i].fnode == fnode {
          assert nodes[i] in Entries(nodes);
          return 0, nodes[i];
        }
      }
      res := -ENOENT;
    }

    /** `dir_nodes_unlink_node` */
    method Unlink(name: string) returns (res: int, entry: Entry)
      requires Valid()
      modifies this
      ensures Valid()
      ensures res == if |name| > NAME_MAX then -ENAMETOOLONG
                     else if exists e :: e in old(Entries(nodes)) && e.name == name then 0 else -ENOENT
      ensures res == 0 ==> entry in old(Entries(nodes)) && entry.name == name
      ensures Entries(nodes) == old(Entries(nodes)) - if res == 0 then {entry} else {}
    {
      entry := Entry(0, "");
      if |name| > NAME_MAX { return -ENAMETOOLONG, entry; }
      var low, found := Search(name);
      if !found { return -ENOENT, entry; }
      entry := nodes[low];
      RemovedOrdered(nodes, low);
      nodes := nodes[..low] + nodes[low + 1..];
      res := 0;
    }

    /** `dir_nodes_unlink_node_by_fnode`: the first entry with this number, which is the only one where numbers do not
        repeat. */
    method UnlinkByFnode(fnode: int) returns (res: int, entry: Entry)
      requires Valid()
      modifies this
      ensures Valid()
      ensures res == if exists e :: e in old(Entries(nodes)) && e.fnode == fnode then 0 else -ENOENT
      ensures res == 0 ==> entry in old(Entries(nodes)) && entry.fnode == fnode
      ensures Entries(nodes) == old(Entries(nodes)) - if res == 0 then {entry} else {}
    {
      entry := Entry(0, "");
      for i := 0 to |nodes|
        invariant nodes == old(nodes) && Valid()
        invariant forall j :: 0 <= j < i ==> nodes[j].fnode != fnode
      {
        if nodes[i].fnode == fnode {
          entry := nodes[i];
          assert entry in Entries(nodes);
          RemovedOrdered(nodes, i);
          nodes := nodes[..i] + nodes[i + 1..];
          return 0, entry;
        }
      }
      res := -ENOENT;
    }

    /** The creating half of `dir_nodes_open_node`. */
    method Create(files: FileNodes, name: string, low: nat) returns (node: FileNode.FileNode?)
      requires Valid() && files.Valid() && this !in files.Repr && !files.locked && low <= |nodes|
      requires forall i :: 0 <= i < low ==> Compare(nodes[i].name, name) < 0
      requires forall i :: low <= i < |nodes| ==> Compare(nodes[i].name, name) > 0
      modifies this, files
      ensures Valid() && files.Valid() && this !in files.Repr && (files.locked <==> node == null)
      ensures node == null <==> files.nodeQuota > 0 && old(|files.nodes|) >= files.nodeQuota
      ensures node == null ==> nodes == old(nodes) && files.nodes == old(files.nodes) && files.serial == old(files.serial)
      ensures node != null ==> nodes == old(nodes)[..low] + [Entry(node.fnode, name)] + old(nodes)[low..]
      ensures node != null ==> Entries(nodes) == old(Entries(nodes)) + {Entry(node.fnode, name)}
      ensures node != null ==> node.fnode == old(files.serial) && files.serial == old(files.serial) + 1
      ensures node != null ==> files.nodes == old(files.nodes) + [node] && fresh(node)
      ensures node != null ==> node.nlink == 1 && node.refcnt == 0 && node.opencnt == 0
    {
      hide Compare, Healthy, Sum, Sizes, Sorted;
      node := files.CreateNode();
      if node != null {
        var entry := Entry(node.fnode, name);
        InsertedOrdered(nodes, low, entry);
        hide Ordered, Entries;
        nodes := nodes[..low] + [entry] + nodes[low..];
        files.NodeValid(node);
        files.Link(node);
      }
    }

    /** `dir_nodes_open_node`: an existing entry is found, or refused where it must not exist; a missing one is created
        if asked for, together with a file that has this one name and no counted pointer.  At the node quota nothing
        is created, and the write lock of the file table stays held. */
    method Open(files: FileNodes, name: string, create: bool, exclusive: bool)
        returns (res: int, entry: Entry, node: FileNode.FileNode?)
      requires Valid() && files.Valid() && this !in files.Repr && !files.locked
      modifies this, files
      ensures Valid() && files.Valid() && this !in files.Repr && (files.locked <==> res == -EMFILE)
      ensures |name| > NAME_MAX ==> res == -ENAMETOOLONG
      ensures |name| <= NAME_MAX ==>
        res == if exists e :: e in old(Entries(nodes)) && e.name == name then (if exclusive then -EEXIST else 0)
               else if !create then -ENOENT
               else if files.nodeQuota > 0 && old(|files.nodes|) >= files.nodeQuota then -EMFILE else 0
      ensures res == 0 ==> entry in Entries(nodes) && entry.name == name
      ensures node == null ==> nodes == old(nodes) && files.nodes == old(files.nodes) && files.serial == old(files.serial)
      ensures node != null ==> res == 0 && entry !in old(Entries(nodes)) && Entries(nodes) == old(Entries(nodes)) + {entry}
      ensures node != null ==> entry.fnode == node.fnode == old(files.serial) && files.serial == old(files.serial) + 1
      ensures node != null ==> files.nodes == old(files.nodes) + [node] && fresh(node)
      ensures node != null ==> node.nlink == 1 && node.refcnt == 0 && node.opencnt == 0
    {
      hide Compare, Healthy, Sum, Sizes, Sorted, Ordered;
      entry, node := Entry(0, ""), null;
      if |name| > NAME_MAX { return -ENAMETOOLONG, entry, null; }
      var low, found := Search(name);
      if found {
        if exclusive { return -EEXIST, entry, null; }
        return 0, nodes[low], null;
      }
      if !create { return -ENOENT, entry, null; }
      node := Create(files, name, low);
      if node == null { return -EMFILE, entry, null; }
      entry := Entry(node.fnode, name);
      res := 0;
    }
  }
}
