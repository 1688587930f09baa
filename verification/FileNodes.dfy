/** The table of files: sorted by serial number, with quotas on the number of files and on their total size. */
module FileNodes {
  import opened FileContents
  import opened FileNode

  const ENOENT := 2
  const EBADF := 9

  // ----- sums -----

  ghost function Sum(s: seq<int>): int {
    if s == [] then 0 else Sum(s[..|s| - 1]) + s[|s| - 1]
  }

  lemma {:induction false} SumConcat(s: seq<int>, t: seq<int>)
    ensures Sum(s + t) == Sum(s) + Sum(t)
    decreases |t|
  {
    if t == [] {
      assert s + t == s;
    } else {
      assert (s + t)[..|s + t| - 1] == s + t[..|t| - 1];
      SumConcat(s, t[..|t| - 1]);
    }
  }

  lemma SumSplit(s: seq<int>, k: nat)
    requires k < |s|
    ensures Sum(s) == Sum(s[..k]) + s[k] + Sum(s[k + 1..])
  {
    assert s == s[..k] + ([s[k]] + s[k + 1..]);
    SumConcat(s[..k], [s[k]] + s[k + 1..]);
    SumConcat([s[k]], s[k + 1..]);
  }

  lemma SumUpdate(s: seq<int>, k: nat, v: int)
    requires k < |s|
    ensures Sum(s[k := v]) == Sum(s) - s[k] + v
  {
    SumSplit(s, k);
    SumSplit(s[k := v], k);
    assert s[k := v][..k] == s[..k] && s[k := v][k + 1..] == s[k + 1..];
  }

  lemma SumRemove(s: seq<int>, k: nat)
    requires k < |s|
    ensures Sum(s[..k] + s[k + 1..]) == Sum(s) - s[k]
  {
    SumSplit(s, k);
    SumConcat(s[..k], s[k + 1..]);
  }

  lemma {:induction false} SumAtLeast(s: seq<int>, k: nat)
    requires k < |s| && forall i :: 0 <= i < |s| ==> s[i] >= 0
    ensures s[k] <= Sum(s)
  {
    SumSplit(s, k);
    SumNonNegative(s[..k]);
    SumNonNegative(s[k + 1..]);
  }

  lemma {:induction false} SumNonNegative(s: seq<int>)
    requires forall i :: 0 <= i < |s| ==> s[i] >= 0
    ensures Sum(s) >= 0
  {
    if s != [] { SumNonNegative(s[..|s| - 1]); }
  }

  // ----- the table -----

  ghost function Sizes(nodes: seq<FileNode>): (s: seq<int>)
    reads nodes
    ensures |s| == |nodes| && forall i :: 0 <= i < |s| ==> s[i] == nodes[i].size
  {
    seq(|nodes|, i requires 0 <= i < |nodes| reads nodes => nodes[i].size)
  }

  ghost predicate Sorted(nodes: seq<FileNode>) {
    forall i, j :: 0 <= i < j < |nodes| ==> nodes[i].fnode < nodes[j].fnode
  }

  /** Every file has its zero tail and a serial number below `serial`; `repr` holds all files and buffers, and no two
      files share a buffer: each has one owner. */
  ghost predicate Healthy(nodes: seq<FileNode>, serial: int, repr: set<object>, owner: map<object, FileNode>)
    reads repr
  {
    && owner.Keys <= repr
    && forall n :: n in nodes ==>
         n in repr && n.data in owner && owner[n.data] == n && n.Valid() && 1 <= n.fnode < serial
  }

  lemma HealthyMore(nodes: seq<FileNode>, serial: int, repr: set<object>, owner: map<object, FileNode>, n: FileNode)
    requires Healthy(nodes, serial, repr, owner) && n.Valid() && 1 <= n.fnode == serial && n !in repr && n.data !in repr
    ensures Healthy(nodes + [n], serial + 1, repr + {n, n.data}, owner[n.data := n]) && (Sorted(nodes) ==> Sorted(nodes + [n]))
  {
    var all := nodes + [n];
    forall m | m in all ensures m in nodes || m == n {}
  }

  lemma SizesMore(nodes: seq<FileNode>, n: FileNode)
    ensures Sum(Sizes(nodes + [n])) == Sum(Sizes(nodes)) + n.size
  {
    assert Sizes(nodes + [n])[..|nodes|] == Sizes(nodes);
  }

  /** Where one size changed, the sum changed by as much. */
  lemma SizesChangedAt(nodes: seq<FileNode>, n: FileNode, was: seq<int>, oldSize: int)
    requires Sorted(nodes) && n in nodes && |was| == |nodes|
    requires forall i :: 0 <= i < |nodes| ==> was[i] == if nodes[i] == n then oldSize else nodes[i].size
    ensures Sum(Sizes(nodes)) == Sum(was) - oldSize + n.size
  {
    var k :| 0 <= k < |nodes| && nodes[k] == n;
    SumUpdate(was, k, n.size);
    assert Sizes(nodes) == was[k := n.size];
  }

  /** What became of a file that was to be removed. */
  datatype Removal = Kept | Absent | Freed | Reclaimed

  function Without(nodes: seq<FileNode>, node: FileNode): seq<FileNode> {
    if nodes == [] then [] else if nodes[0] == node then Without(nodes[1..], node) else [nodes[0]] + Without(nodes[1..], node)
  }

  lemma {:induction false} WithoutAt(nodes: seq<FileNode>, k: nat)
    requires k < |nodes| && forall i, j :: 0 <= i < j < |nodes| ==> nodes[i] != nodes[j]
    ensures Without(nodes, nodes[k]) == nodes[..k] + nodes[k + 1..]
  {
    if k == 0 {
      WithoutNone(nodes[1..], nodes[0]);
    } else {
      var rest := nodes[1..];
      assert Without(nodes, nodes[k]) == [nodes[0]] + Without(rest, nodes[k]);
      hide Without;
      WithoutAt(rest, k - 1);
      assert nodes[..k] + nodes[k + 1..] == [nodes[0]] + (rest[..k - 1] + rest[k..]);
    }
  }

  lemma SortedWithout(nodes: seq<FileNode>, k: nat)
    requires Sorted(nodes) && k < |nodes|
    ensures Sorted(nodes[..k] + nodes[k + 1..]) && Without(nodes, nodes[k]) == nodes[..k] + nodes[k + 1..]
  {
    hide Without;
    WithoutAt(nodes, k);
    hide Sorted;
    SortedRest(nodes, k, nodes[..k] + nodes[k + 1..]);
  }

  lemma SortedRest(nodes: seq<FileNode>, k: nat, rest: seq<FileNode>)
    requires Sorted(nodes) && k < |nodes| && rest == nodes[..k] + nodes[k + 1..]
    ensures Sorted(rest)
  {
    forall i, j | 0 <= i < j < |rest| ensures rest[i].fnode < rest[j].fnode {
      var x, y := if i < k then i else i + 1, if j < k then j else j + 1;
      assert rest[i] == nodes[x] && rest[j] == nodes[y] && x < y;
    }
  }

  lemma {:induction false} WithoutNone(nodes: seq<FileNode>, node: FileNode)
    requires node !in nodes
    ensures Without(nodes, node) == nodes
  {
    if nodes != [] { WithoutNone(nodes[1..], node); }
  }

  lemma SizesFewer(nodes: seq<FileNode>, k: nat, rest: seq<FileNode>)
    requires k < |nodes| && rest == nodes[..k] + nodes[k + 1..]
    ensures Sum(Sizes(rest)) == Sum(Sizes(nodes)) - nodes[k].size
  {
    var was := Sizes(nodes);
    SumRemove(was, k);
    assert Sizes(rest) == was[..k] + was[k + 1..];
  }

  lemma HealthyFewer(nodes: seq<FileNode>, serial: int, repr: set<object>, owner: map<object, FileNode>, rest: seq<FileNode>)
    requires Healthy(nodes, serial, repr, owner) && forall n :: n in rest ==> n in nodes
    ensures Healthy(rest, serial, repr, owner)
  {
  }

  class FileNodes {
    const nodeQuota: int
    const sizeQuota: int
    var serial: int
    var nodes: seq<FileNode>
    var reclaim: seq<FileNode>
    var totalSize: int
    var locked: bool
    ghost var Repr: set<object>
    ghost var owner: map<object, FileNode>

    ghost predicate Valid()
      reads this, Repr
    {
      && this !in Repr && 0 < sizeQuota <= LARGEST && 1 <= serial
      && Sorted(nodes) && Healthy(nodes, serial, Repr, owner)
      && totalSize == Sum(Sizes(nodes)) <= sizeQuota
    }

    constructor (nodeQuota: int, sizeQuota: int)
      requires 0 < sizeQuota <= LARGEST
      ensures Valid() && nodes == [] && totalSize == 0 && !locked && Repr == {} && owner == map[]
      ensures this.nodeQuota == nodeQuota && this.sizeQuota == sizeQuota
    {
      this.nodeQuota, this.sizeQuota := nodeQuota, sizeQuota;
      serial, nodes, reclaim, totalSize, locked, Repr, owner := 1, [], [], 0, false, {}, map[];
    }

    lemma SizeWithinTotal(n: FileNode)
      requires Valid() && n in nodes
      ensures 0 <= n.size <= totalSize
    {
      var k :| 0 <= k < |nodes| && nodes[k] == n;
      SumAtLeast(Sizes(nodes), k);
    }

    /** New contents of the table itself; no file changes. */
    method SetNodes(nodes': seq<FileNode>, serial': int, totalSize': int, ghost repr: set<object>, ghost owner': map<object, FileNode>)
      requires this !in repr && 0 < sizeQuota <= LARGEST && 1 <= serial'
      requires Sorted(nodes') && Healthy(nodes', serial', repr, owner') && totalSize' == Sum(Sizes(nodes')) <= sizeQuota
      modifies this`serial, this`nodes, this`Repr, this`owner, this`totalSize
      ensures Valid() && nodes == nodes' && serial == serial' && totalSize == totalSize' && Repr == repr && owner == owner'
    {
      hide Healthy, Sum, Sorted;
      nodes, serial, totalSize, Repr, owner := nodes', serial', totalSize', repr, owner';
      assert Sizes(nodes) == old(Sizes(nodes'));
    }

    /** `file_nodes_create_node`: at the node quota there is no node, and the write lock stays held. */
    method CreateNode() returns (node: FileNode?)
      requires Valid() && !locked
      modifies this`serial, this`nodes, this`locked, this`Repr, this`owner, this`totalSize
      ensures Valid() && totalSize == old(totalSize)
      ensures node == null <==> nodeQuota > 0 && old(|nodes|) >= nodeQuota
      ensures locked <==> node == null
      ensures node == null ==> nodes == old(nodes) && serial == old(serial) && Repr == old(Repr)
      ensures node != null ==> fresh(node) && nodes == old(nodes) + [node] && fresh(Repr - old(Repr))
      ensures node != null ==> node.fnode == old(serial) && serial == old(serial) + 1
      ensures node != null ==> node.refcnt == 1 && node.nlink == node.opencnt == 0 && node.size == 0
    {
      hide Healthy, Sizes, Sum, Sorted;
      locked := true;
      if nodeQuota > 0 && |nodes| >= nodeQuota { return null; }
      node := AppendNode();
      locked := false;
    }

    /** A new file at the end of the table, with one counted pointer. */
    method AppendNode() returns (node: FileNode)
      requires Valid()
      modifies this`serial, this`nodes, this`Repr, this`owner, this`totalSize
      ensures Valid() && totalSize == old(totalSize)
      ensures fresh(node) && nodes == old(nodes) + [node] && fresh(Repr - old(Repr))
      ensures node.fnode == old(serial) && serial == old(serial) + 1
      ensures node.refcnt == 1 && node.nlink == node.opencnt == 0 && node.size == 0
    {
      node := NewNode();
      AddNode(node);
    }

    method NewNode() returns (node: FileNode)
      requires Valid()
      ensures fresh(node) && fresh(node.data) && node.Valid()
      ensures node.fnode == serial && node.refcnt == 1 && node.nlink == node.opencnt == 0 && node.size == 0
    {
      node := new FileNode(serial);
      node.refcnt := node.refcnt + 1;
    }

    method AddNode(node: FileNode)
      requires Valid() && node.Valid() && node.size == 0 && node !in Repr && node.data !in Repr && node.fnode == serial
      modifies this`serial, this`nodes, this`Repr, this`owner, this`totalSize
      ensures Valid() && totalSize == old(totalSize) && nodes == old(nodes) + [node]
      ensures serial == old(serial) + 1 && Repr == old(Repr) + {node, node.data} && owner == old(owner)[node.data := node]
    {
      HealthyMore(nodes, serial, Repr, owner, node);
      SizesMore(nodes, node);
      hide Healthy, Sum, Sorted, Sizes;
      SetNodes(nodes + [node], serial + 1, totalSize, Repr + {node, node.data}, owner[node.data := node]);
    }

    /** The binary search of `file_nodes_get_node` and `file_nodes_maybe_remove`. */
    method Search(fnode: int) returns (low: nat, found: bool)
      requires Sorted(nodes)
      ensures found ==> low < |nodes| && nodes[low].fnode == fnode
      ensures !found ==> forall n :: n in nodes ==> n.fnode != fnode
    {
      found := false;
      low := 0;
      var high := |nodes|;
      while low < high
        invariant low <= high <= |nodes|
        invariant forall i :: 0 <= i < low ==> nodes[i].fnode < fnode
        invariant forall i :: high <= i < |nodes| ==> nodes[i].fnode > fnode
      {
        var mid := (low + high) / 2;
        if nodes[mid].fnode == fnode { return mid, true; }
        if nodes[mid].fnode < fnode { low := mid + 1; } else { high := mid; }
      }
    }

    /** `file_nodes_get_node`: the file with this number, with one more counted pointer. */
    method GetNode(fnode: int) returns (node: FileNode?)
      requires Valid()
      modifies nodes`refcnt
      ensures Valid()
      ensures node == null <==> forall n :: n in nodes ==> n.fnode != fnode
      ensures node != null ==> node in nodes && node.fnode == fnode && node.refcnt == old(node.refcnt) + 1
      ensures forall n :: n in nodes && n != node ==> n.refcnt == old(n.refcnt)
    {
      node := null;
      if |nodes| > 0 && nodes[0].fnode <= fnode <= nodes[|nodes| - 1].fnode {
        var low, found := Search(fnode);
        if found {
          node := nodes[low];
          Count(node);
        }
      }
    }

    method Release(node: FileNode)
      requires Valid() && node.Valid()
      modifies node`refcnt
      ensures Valid() && node.Valid() && node.refcnt == old(node.refcnt) - 1
    {
      hide Sum, Sorted;
      node.refcnt := node.refcnt - 1;
      assert Sizes(nodes) == old(Sizes(nodes));
    }

    lemma NodeValid(n: FileNode)
      requires Valid() && n in nodes
      ensures n.Valid()
    {
    }

    /** The name of a file just created takes the place of the creator's count. */
    method Link(node: FileNode)
      requires Valid() && node.Valid()
      modifies node`refcnt, node`nlink
      ensures Valid() && node.refcnt == old(node.refcnt) - 1 && node.nlink == old(node.nlink) + 1
    {
      hide Sum, Sorted;
      node.nlink := node.nlink + 1;
      node.refcnt := node.refcnt - 1;
      assert Sizes(nodes) == old(Sizes(nodes));
    }

    /** The entry behind moves forward. */
    method RemoveAt(k: nat)
      requires Valid() && k < |nodes|
      modifies this`serial, this`nodes, this`totalSize, this`Repr, this`owner
      ensures Valid() && serial == old(serial) && nodes == Without(old(nodes), old(nodes)[k])
      ensures totalSize == old(totalSize) - old(nodes)[k].size
    {
      hide Sum, Sorted, Sizes, Without;
      var rest := nodes[..k] + nodes[k + 1..];
      SizeWithinTotal(nodes[k]);
      SortedWithout(nodes, k);
      SizesFewer(nodes, k, rest);
      HealthyFewer(nodes, serial, Repr, owner, rest);
      hide *;
      SetNodes(rest, serial, totalSize - nodes[k].size, Repr, owner);
    }

    method Count(node: FileNode)
      requires Valid() && node in nodes
      modifies node`refcnt
      ensures Valid() && node.refcnt == old(node.refcnt) + 1
    {
      hide Sum, Sorted;
      node.refcnt := node.refcnt + 1;
      assert Sizes(nodes) == old(Sizes(nodes));
    }

    /** The total after one file has changed. */
    method SetTotal(node: FileNode, total: int, ghost was: seq<int>, ghost oldSize: int)
      requires this !in Repr && 0 < sizeQuota <= LARGEST && 1 <= serial && Sorted(nodes) && node in nodes
      requires Healthy(nodes, serial, Repr + {node.data}, owner[node.data := node]) && |was| == |nodes|
      requires forall i :: 0 <= i < |nodes| ==> was[i] == if nodes[i] == node then oldSize else nodes[i].size
      requires total == Sum(was) - oldSize + node.size <= sizeQuota
      modifies this`serial, this`nodes, this`totalSize, this`Repr, this`owner
      ensures Valid() && Repr == old(Repr) + {node.data} && totalSize == total && nodes == old(nodes) && serial == old(serial)
    {
      SizesChangedAt(nodes, node, was, oldSize);
      hide Healthy, Sum, Sorted;
      SetNodes(nodes, serial, total, Repr + {node.data}, owner[node.data := node]);
    }

    /** `file_node_truncate_unlocked`: the size of one file and the total change by the same amount. */
    method Truncate(node: FileNode, offset: int) returns (res: int)
      requires Valid() && node in nodes
      modifies this`serial, this`nodes, this`totalSize, this`Repr, this`owner, node`size, node`reserved, node`data, node.data
      ensures Valid() && node.Valid() && nodes == old(nodes) && serial == old(serial)
      ensures node.data == old(node.data) || fresh(node.data)
      ensures Repr == old(Repr) + {node.data}
      ensures res ==
              if offset < 0 || offset > INT_MAX then -EINVAL
              else if offset > old(node.size) && old(totalSize) + offset - old(node.size) > sizeQuota then -EIO else 0
      ensures node.Contents() == if res == 0 then Resized(old(node.Contents()), offset) else old(node.Contents())
    {
      SizeWithinTotal(node);
      ghost var was, oldSize := Sizes(nodes), node.size;
      hide Sum, Sorted, IsCapacity, Resized;
      var total;
      res, total := node.Truncate(offset, totalSize, sizeQuota);
      ghost var now := node.Contents();
      assert node.Valid();
      assert Healthy(nodes, serial, Repr + {node.data}, owner[node.data := node]);
      hide Healthy;
      SetTotal(node, total, was, oldSize);
      assert node.Valid() && node.Contents() == now;
    }

    /** The bytes of a write; the table does not know the new size yet. */
    method WriteBytes(node: FileNode, buf: seq<Byte>, offset: nat, ghost was: seq<int>) returns (res: int, total: int)
      requires Valid() && node in nodes && 0 < |buf| <= INT_MAX && offset <= INT_MAX && was == Sizes(nodes)
      modifies node`size, node`reserved, node`data, node.data
      ensures node.Valid() && (node.data == old(node.data) || fresh(node.data))
      ensures res == if FileNode.Refused(old(node.size), totalSize, sizeQuota, offset + |buf|) then -EIO else |buf|
      ensures node.Contents() == if res > 0 then Overwritten(old(node.Contents()), offset, buf) else old(node.Contents())
      ensures Healthy(nodes, serial, Repr + {node.data}, owner[node.data := node])
      ensures forall i :: 0 <= i < |nodes| ==> was[i] == if nodes[i] == node then old(node.size) else nodes[i].size
      ensures total == totalSize - old(node.size) + node.size <= sizeQuota
    {
      SizeWithinTotal(node);
      hide Sum, Sorted, IsCapacity, Overwritten, FileNode.Refused, Max;
      res, total := node.Write(buf, offset, totalSize, sizeQuota);
    }

    /** The locked part of `ejf_write`. */
    method Write(node: FileNode, buf: seq<Byte>, offset: nat) returns (res: int)
      requires Valid() && node in nodes && 0 < |buf| <= INT_MAX && offset <= INT_MAX
      modifies this`serial, this`nodes, this`totalSize, this`Repr, this`owner, node`size, node`reserved, node`data, node.data
      ensures Valid() && node.Valid() && nodes == old(nodes) && serial == old(serial)
      ensures node.data == old(node.data) || fresh(node.data)
      ensures Repr == old(Repr) + {node.data}
      ensures res == if FileNode.Refused(old(node.size), old(totalSize), sizeQuota, offset + |buf|) then -EIO else |buf|
      ensures node.Contents() == if res > 0 then Overwritten(old(node.Contents()), offset, buf) else old(node.Contents())
    {
      hide Healthy, Sum, Sorted, Sizes, IsCapacity, Overwritten, FileNode.Refused, Max;
      ghost var was, oldSize := Sizes(nodes), node.size;
      var total;
      res, total := WriteBytes(node, buf, offset, was);
      SetTotal(node, total, was, oldSize);
    }

    /** `O_TRUNC` in `ejf_open` and `ejf_create`: the total stays, so that it is the sum of the sizes afterwards exactly
        where the file was empty. */
    method OpenTruncating(node: FileNode)
      requires Valid() && node in nodes
      modifies node`size
      ensures node.size == 0 && totalSize == old(totalSize) && nodes == old(nodes)
      ensures Sum(Sizes(nodes)) == totalSize - old(node.size)
      ensures totalSize == Sum(Sizes(nodes)) <==> old(node.size) == 0
    {
      ghost var was, oldSize := Sizes(nodes), node.size;
      node.OpenTruncating();
      SizesChangedAt(nodes, node, was, oldSize);
    }

    /** `file_nodes_maybe_remove`, with a counted pointer of the caller's.  While the file has a name or is open, the
        call returns at once and the count stays; otherwise the file leaves the table, its size leaves the total, and it
        is freed exactly where the caller's was the last count. */
    method MaybeRemove(node: FileNode) returns (outcome: Removal)
      requires Valid() && node.Valid()
      requires forall n :: n in nodes && n.fnode == node.fnode ==> n == node
      modifies this`serial, this`nodes, this`totalSize, this`Repr, this`owner, this`reclaim, node`refcnt
      ensures Valid() && serial == old(serial)
      ensures outcome == Kept <==> node.nlink > 0 || node.opencnt > 0
      ensures outcome == Absent ==> node !in old(nodes)
      ensures outcome == Freed ==> node in old(nodes) && old(node.refcnt) <= 1
      ensures outcome == Reclaimed ==> node in old(nodes) && old(node.refcnt) > 1
      ensures node.refcnt == old(node.refcnt) - if outcome == Kept then 0 else 1
      ensures outcome == Kept || outcome == Absent ==> nodes == old(nodes) && totalSize == old(totalSize)
      ensures outcome == Freed || outcome == Reclaimed ==> nodes == Without(old(nodes), node) && totalSize == old(totalSize) - node.size
      ensures reclaim == (if outcome == Reclaimed then [node] else []) + old(reclaim)
    {
      assert [] + reclaim == reclaim;
      hide *;
      if node.nlink > 0 || node.opencnt > 0 { return Kept; }
      var found := TakeOut(node);
      if !found { return Absent; }
      if node.refcnt + 1 <= 1 { return Freed; }
      Reclaim(node);
      return Reclaimed;
    }

    /** The part under the write lock. */
    method TakeOut(node: FileNode) returns (found: bool)
      requires Valid() && node.Valid()
      requires forall n :: n in nodes && n.fnode == node.fnode ==> n == node
      modifies this`serial, this`nodes, this`totalSize, this`Repr, this`owner, node`refcnt
      ensures Valid() && serial == old(serial) && found == (node in old(nodes))
      ensures node.refcnt == old(node.refcnt) - 1
      ensures nodes == if found then Without(old(nodes), node) else old(nodes)
      ensures totalSize == old(totalSize) - if found then node.size else 0
    {
      var low;
      low, found := Search(node.fnode);
      assert found ==> nodes[low] == node;
      hide *;
      Release(node);
      if found { RemoveAt(low); }
    }

    method Reclaim(node: FileNode)
      requires Valid()
      modifies this`reclaim
      ensures Valid() && reclaim == [node] + old(reclaim)
    {
      hide Healthy, Sum, Sorted;
      reclaim := [node] + reclaim;
      assert Sizes(nodes) == old(Sizes(nodes));
    }

    // ----- whole operations on an open file -----

    /** What is wrong with a request before any file is looked up. */
    static function BadRequest(allowed: bool, len: nat, offset: int): int {
      if !allowed then -EBADF else if offset < 0 || offset > INT_MAX || len > INT_MAX then -EINVAL else 0
    }

    /** `ejf_write` after its checks: the file with this number takes the bytes or stays as it is, no other file
        changes, and the counted pointer is given back. */
    method WriteOpen(fh: int, buf: seq<Byte>, offset: nat) returns (res: int, ghost target: FileNode?)
      requires Valid() && 0 < |buf| <= INT_MAX && offset <= INT_MAX
      modifies this`serial, this`nodes, this`totalSize, this`Repr, this`owner, Repr
      ensures Valid() && nodes == old(nodes)
      ensures target == null ==> res == -ENOENT && forall n :: n in nodes ==> n.fnode != fh
      ensures target != null ==> target in nodes && target.fnode == fh && target.Valid() && old(target.Valid())
      ensures target != null ==> target.refcnt == old(target.refcnt)
      ensures target != null ==>
        res == if FileNode.Refused(old(target.size), old(totalSize), sizeQuota, offset + |buf|) then -EIO else |buf|
      ensures target != null ==>
        target.Contents() == if res > 0 then Overwritten(old(target.Contents()), offset, buf) else old(target.Contents())
      ensures forall n :: n in nodes && n != target ==> n.data == old(n.data) && unchanged(n) && unchanged(n.data)
    {
      hide Sum, Sorted, IsCapacity, Overwritten, FileNode.Refused, Sizes;
      var node := GetNode(fh);
      if node == null { return -ENOENT, null; }
      target := node;
      res := Write(node, buf, offset);
      hide Healthy;
      Release(node);
    }

    /** `ejf_write`: a request that is malformed, empty or not allowed changes nothing. */
    method WriteFile(fh: int, writable: bool, buf: seq<Byte>, offset: int) returns (res: int, ghost target: FileNode?)
      requires Valid()
      modifies this`serial, this`nodes, this`totalSize, this`Repr, this`owner, Repr
      ensures Valid() && nodes == old(nodes)
      ensures !writable ==> res == -EBADF
      ensures writable && (offset < 0 || offset > INT_MAX || |buf| > INT_MAX) ==> res == -EINVAL
      ensures BadRequest(writable, |buf|, offset) != 0 || buf == [] ==>
        target == null && res == BadRequest(writable, |buf|, offset) && totalSize == old(totalSize)
      ensures BadRequest(writable, |buf|, offset) == 0 && buf != [] && target == null ==>
        res == -ENOENT && forall n :: n in nodes ==> n.fnode != fh
      ensures target != null ==> offset >= 0 && target in nodes && target.fnode == fh && target.Valid() && old(target.Valid())
      ensures target != null ==>
        target.Contents() == if res > 0 then Overwritten(old(target.Contents()), offset, buf) else old(target.Contents())
      ensures target != null ==>
        res == if FileNode.Refused(old(target.size), old(totalSize), sizeQuota, offset + |buf|) then -EIO else |buf|
      ensures forall n :: n in nodes && n != target ==> n.data == old(n.data) && unchanged(n) && unchanged(n.data)
    {
      hide Sum, Sorted, IsCapacity, Overwritten, FileNode.Refused, Sizes, Healthy;
      target := null;
      if !writable { return -EBADF, null; }
      if offset < 0 || offset > INT_MAX { return -EINVAL, null; }
      if |buf| > INT_MAX { return -EINVAL, null; }
      if |buf| == 0 { return 0, null; }
      res, target := WriteOpen(fh, buf, offset);
    }

    /** `ejf_read` after its checks: the requested slice, clipped to the size; nothing changes but a count that is
        given back. */
    method ReadOpen(fh: int, size: nat, offset: nat) returns (res: int, buf: seq<Byte>, ghost target: FileNode?)
      requires Valid() && size > 0
      modifies nodes`refcnt
      ensures Valid()
      ensures target == null ==> res == -ENOENT && buf == [] && forall n :: n in nodes ==> n.fnode != fh
      ensures target != null ==> target in nodes && target.fnode == fh && target.Valid() && target.refcnt == old(target.refcnt)
      ensures target != null ==> buf == Slice(target.Contents(), offset, size) && res == |buf|
      ensures forall n :: n in nodes && n != target ==> unchanged(n)
    {
      hide Sum, Sorted, IsCapacity, Slice, Sizes;
      var node := GetNode(fh);
      if node == null { return -ENOENT, [], null; }
      target := node;
      buf := node.Read(size, offset);
      res := |buf|;
      hide Healthy;
      Release(node);
    }

    /** `ejf_read`. */
    method ReadFile(fh: int, readable: bool, size: nat, offset: int) returns (res: int, buf: seq<Byte>, ghost target: FileNode?)
      requires Valid()
      modifies nodes`refcnt
      ensures Valid()
      ensures !readable ==> res == -EBADF
      ensures readable && (offset < 0 || offset > INT_MAX || size > INT_MAX) ==> res == -EINVAL
      ensures BadRequest(readable, size, offset) != 0 || size == 0 ==> target == null && res == BadRequest(readable, size, offset)
      ensures BadRequest(readable, size, offset) == 0 && size > 0 && target == null ==>
        res == -ENOENT && forall n :: n in nodes ==> n.fnode != fh
      ensures target != null ==> offset >= 0 && target in nodes && target.fnode == fh && target.Valid()
      ensures target != null ==> buf == Slice(target.Contents(), offset, size) && res == |buf|
      ensures target != null ==>
        |buf| == if offset >= target.size then 0 else if size < target.size - offset then size else target.size - offset
      ensures target != null ==> forall k :: 0 <= k < |buf| ==> buf[k] == target.Contents()[offset + k]
      ensures target == null ==> buf == []
      ensures forall n :: n in nodes ==> n.refcnt == old(n.refcnt)
    {
      hide Sum, Sorted, IsCapacity, Slice, Sizes, Healthy;
      if !readable { return -EBADF, [], null; }
      if offset < 0 || offset > INT_MAX { return -EINVAL, [], null; }
      if size > INT_MAX { return -EINVAL, [], null; }
      if size == 0 { return 0, [], null; }
      res, buf, target := ReadOpen(fh, size, offset);
      if target != null { SliceWhole(target.Contents(), offset, size); }
    }
  }
}
