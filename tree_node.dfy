/**
 * `FolderTree` of `internal/tree-node.lib.ts`: the nodes of a mirrored
 * directory, kept in a map from node id to node, with the id of the root.
 * A node names its parent by id and lists its children's ids.
 */
module FolderTrees {
  import opened Wrappers

  datatype NodeType = Directory | File

  /** A node as the tree stores it. `extension`, `size` and `parentId` are
      `undefined` when absent. */
  datatype TreeNode = TreeNode(
    id: string,
    name: string,
    absolutePath: string,
    relativePath: string,
    nodeType: NodeType,
    extension: Option<string>,
    size: Option<int>,
    parentId: Option<string>,
    childrenIds: seq<string>)

  /** What `addNode` is given: a node without its id and children. */
  datatype NodeProps = NodeProps(
    name: string,
    absolutePath: string,
    relativePath: string,
    nodeType: NodeType,
    extension: Option<string>,
    size: Option<int>,
    parentId: Option<string>)

  /** The counts `getStats` reports; the total size is in bytes (its
      human-readable rendering is not modelled). */
  datatype Stats = Stats(totalNodes: nat, fileCount: nat, directoryCount: nat, totalSize: int)

  /** The structure `toJSON` writes and `fromJSON` reads back: the root id and
      the map's entries in insertion order. */
  datatype Snapshot = Snapshot(rootId: Option<string>, entries: seq<(string, TreeNode)>)

  /** JavaScript truthiness of an optional string: present and not empty. */
  predicate Truthy(s: Option<string>) {
    s.Some? && s.value != []
  }

  /** The node `addNode` creates, before it is linked to its parent. */
  function NewNode(id: string, props: NodeProps): (n: TreeNode)
    ensures n.id == id && n.childrenIds == []
  {
    TreeNode(id, props.name, props.absolutePath, props.relativePath, props.nodeType,
             props.extension, props.size, props.parentId, [])
  }

  /** The node map after `addNode`: the node is stored under its id, replacing
      any node stored there, and its id is appended to the parent's children
      when the parent is present and does not list it yet. */
  function Inserted(nodes: map<string, TreeNode>, id: string, props: NodeProps): map<string, TreeNode> {
    var m := nodes[id := NewNode(id, props)];
    if Truthy(props.parentId) && props.parentId.value in m && id !in m[props.parentId.value].childrenIds then
      var parent := m[props.parentId.value];
      m[props.parentId.value := parent.(childrenIds := parent.childrenIds + [id])]
    else m
  }

  /** `addNode` adds the new id to the keys and no other. */
  lemma InsertedKeys(nodes: map<string, TreeNode>, id: string, props: NodeProps)
    ensures Inserted(nodes, id, props).Keys == nodes.Keys + {id}
    ensures |Inserted(nodes, id, props)| == if id in nodes then |nodes| else |nodes| + 1
  {
    var m := nodes[id := NewNode(id, props)];
    assert m.Keys == nodes.Keys + {id};
  }

  /** `order` lists each key of `nodes` exactly once. */
  ghost predicate Indexes(order: seq<string>, nodes: map<string, TreeNode>) {
    && |order| == |nodes|
    && (forall k :: k in nodes <==> k in order)
    && Distinct(order)
  }

  /** Storing a node keeps the insertion order indexing the map: a new key goes
      last, an existing key keeps its place. */
  lemma IndexesInserted(order: seq<string>, nodes: map<string, TreeNode>, id: string, props: NodeProps)
    requires Indexes(order, nodes)
    ensures Indexes(if id in nodes then order else order + [id], Inserted(nodes, id, props))
  {
    InsertedKeys(nodes, id, props);
  }

  /** Every node's id is the key it is stored under. */
  predicate KeyedById(nodes: map<string, TreeNode>) {
    forall k :: k in nodes ==> nodes[k].id == k
  }

  /** No node lists a child twice. */
  predicate ChildrenDistinct(nodes: map<string, TreeNode>) {
    forall k :: k in nodes ==> Distinct(nodes[k].childrenIds)
  }

  /** The entries of a node map, in the order given by `order`. */
  function Entries(nodes: map<string, TreeNode>, order: seq<string>): (es: seq<(string, TreeNode)>)
    requires forall k :: k in order ==> k in nodes
    ensures |es| == |order|
    ensures forall i :: 0 <= i < |es| ==> es[i].0 == order[i] && es[i].1 == nodes[order[i]]
  {
    seq(|order|, i requires 0 <= i < |order| => (order[i], nodes[order[i]]))
  }

  /** The keys of a list of entries. */
  function EntryKeys(es: seq<(string, TreeNode)>): (ks: seq<string>)
    ensures |ks| == |es| && forall i :: 0 <= i < |es| ==> ks[i] == es[i].0
  {
    seq(|es|, i requires 0 <= i < |es| => es[i].0)
  }

  /** The map built from a list of entries (`new Map(Object.entries(...))`);
      a later entry for a key wins. */
  function EntryMap(es: seq<(string, TreeNode)>): (m: map<string, TreeNode>)
    ensures forall k :: k in m <==> k in EntryKeys(es)
    decreases |es|
  {
    if es == [] then map[]
    else
      var last := es[|es| - 1];
      assert EntryKeys(es) == EntryKeys(es[..|es| - 1]) + [last.0];
      EntryMap(es[..|es| - 1])[last.0 := last.1]
  }

  /** The nodes of `ids` that are present, in order (`getChildren`'s map and
      filter). */
  function Resolve(nodes: map<string, TreeNode>, ids: seq<string>): (r: seq<TreeNode>)
    ensures |r| <= |ids|
    ensures forall n :: n in r <==> exists i :: 0 <= i < |ids| && ids[i] in nodes && nodes[ids[i]] == n
    ensures (forall i :: 0 <= i < |ids| ==> ids[i] in nodes) ==>
      |r| == |ids| && forall i :: 0 <= i < |ids| ==> r[i] == nodes[ids[i]]
    decreases |ids|
  {
    if ids == [] then []
    else
      var rest := Resolve(nodes, ids[1..]);
      assert forall i :: 1 <= i < |ids| ==> ids[i] == ids[1..][i - 1];
      if ids[0] in nodes then [nodes[ids[0]]] + rest else rest
  }

  /** Resolving a single id gives its node, or nothing when it dangles. */
  lemma ResolveOne(nodes: map<string, TreeNode>, id: string)
    ensures Resolve(nodes, [id]) == if id in nodes then [nodes[id]] else []
  {
    assert [id][1..] == [];
  }

  /** Resolving is done id by id: the resolvable children come back in the
      order of `childrenIds`, dangling ids leaving no gap. */
  lemma {:induction false} ResolveAppend(nodes: map<string, TreeNode>, a: seq<string>, b: seq<string>)
    ensures Resolve(nodes, a + b) == Resolve(nodes, a) + Resolve(nodes, b)
    decreases |a|
  {
    if a == [] {
      assert a + b == b;
    } else {
      assert (a + b)[0] == a[0];
      assert (a + b)[1..] == a[1..] + b;
      ResolveAppend(nodes, a[1..], b);
    }
  }

  class FolderTree {
    /** `generateNodeId`: the md5 hex digest of an absolute path. */
    const idOf: string -> string
    var nodes: map<string, TreeNode>
    /** The keys of `nodes` in insertion order, the order a `Map` iterates in. */
    var order: seq<string>
    var rootId: Option<string>

    /** `order` lists each key of `nodes` exactly once. */
    ghost predicate Valid()
      reads this
    {
      Indexes(order, nodes)
    }

    constructor (idOf: string -> string)
      ensures this.idOf == idOf && nodes == map[] && order == [] && rootId == None
      ensures Valid()
    {
      this.idOf := idOf;
      nodes := map[];
      order := [];
      rootId := None;
    }

    /** `getNode`. */
    function GetNode(id: string): (r: Option<TreeNode>)
      reads this
      ensures r.Some? <==> id in nodes
      ensures r.Some? ==> r.value == nodes[id]
    {
      if id in nodes then Some(nodes[id]) else None
    }

    /** `getRootNode`: only a truthy root id is looked up. */
    function GetRootNode(): (r: Option<TreeNode>)
      reads this
      ensures r.Some? <==> Truthy(rootId) && rootId.value in nodes
      ensures r.Some? ==> r.value == nodes[rootId.value]
    {
      if Truthy(rootId) then GetNode(rootId.value) else None
    }

    /** `getAllNodes`: the nodes in insertion order. */
    function GetAllNodes(): (r: seq<TreeNode>)
      reads this
      requires Valid()
      ensures |r| == |nodes|
      ensures forall n :: n in r <==> n in nodes.Values
    {
      var o, m := order, nodes;
      var r := seq(|o|, i requires 0 <= i < |o| => m[o[i]]);
      assert forall n :: n in nodes.Values ==> n in r by {
        forall n | n in nodes.Values
          ensures n in r
        {
          var k :| k in nodes && nodes[k] == n;
          var i :| 0 <= i < |order| && order[i] == k;
          assert r[i] == n;
        }
      }
      r
    }

    /** `getParent`: a truthy parent id that is present. */
    function GetParent(node: TreeNode): (r: Option<TreeNode>)
      reads this
      ensures r.Some? <==> Truthy(node.parentId) && node.parentId.value in nodes
      ensures r.Some? ==> r.value == nodes[node.parentId.value]
    {
      if Truthy(node.parentId) then GetNode(node.parentId.value) else None
    }

    /** `getChildren`: the listed children that are present, in order; an id
        with no node is dropped. */
    function GetChildren(node: TreeNode): (r: seq<TreeNode>)
      reads this
      ensures |r| <= |node.childrenIds|
      ensures forall n :: n in r ==> n in nodes.Values
      ensures (forall i :: 0 <= i < |node.childrenIds| ==> node.childrenIds[i] in nodes) ==>
        |r| == |node.childrenIds| && forall i :: 0 <= i < |r| ==> r[i] == nodes[node.childrenIds[i]]
    {
      Resolve(nodes, node.childrenIds)
    }

    /** The `k`-th ancestor of `node` along `getParent`, if the walk gets that far. */
    ghost function Up(node: TreeNode, k: nat): Option<TreeNode>
      reads this
    {
      if k == 0 then Some(node)
      else
        match Up(node, k - 1)
        case None => None
        case Some(c) => GetParent(c)
    }

    /** The walk up from `node` ends: its ancestors do not form a cycle. */
    ghost predicate Rooted(node: TreeNode)
      reads this
    {
      exists d: nat :: Up(node, d).None?
    }

    /** `path` lists the ancestors of `node` from the topmost down to `node`. */
    ghost predicate IsPathOf(node: TreeNode, path: seq<TreeNode>)
      reads this
    {
      && path != []
      && Up(node, |path|).None?
      && forall i :: 0 <= i < |path| ==> Up(node, |path| - 1 - i) == Some(path[i])
    }

    /** `depth` is the number of steps `getDepth` takes: it climbs while the
        current node has a truthy parent id. */
    ghost predicate IsDepthOf(node: TreeNode, depth: nat)
      reads this
    {
      && (forall k: nat :: k < depth ==> Up(node, k).Some? && Truthy(Up(node, k).value.parentId))
      && !(Up(node, depth).Some? && Truthy(Up(node, depth).value.parentId))
    }

    /** `getPath`: from the node up to the top, each step prepended. */
    method GetPath(node: TreeNode) returns (path: seq<TreeNode>)
      requires Rooted(node)
      ensures IsPathOf(node, path)
    {
      ghost var d: nat :| Up(node, d).None?;
      path := [];
      var current := Some(node);
      ghost var k: nat := 0;
      while current.Some?
        invariant current == Up(node, k) && |path| == k && k <= d
        invariant forall i :: 0 <= i < k ==> Up(node, k - 1 - i) == Some(path[i])
        decreases d - k
      {
        path := [current.value] + path;
        current := GetParent(current.value);
        k := k + 1;
      }
    }

    /** `getDepth`: the steps up while the parent id is truthy. */
    method GetDepth(node: TreeNode) returns (depth: nat)
      requires Rooted(node)
      ensures IsDepthOf(node, depth)
    {
      ghost var d: nat :| Up(node, d).None?;
      depth := 0;
      var current := Some(node);
      while current.Some? && Truthy(current.value.parentId)
        invariant current == Up(node, depth) && depth <= d
        invariant forall k: nat :: k < depth ==> Up(node, k).Some? && Truthy(Up(node, k).value.parentId)
        decreases d - depth
      {
        depth := depth + 1;
        current := GetParent(current.value);
      }
    }

    /** `addNode`: store the node under the id of its absolute path; link it
        into its parent's children when it has a truthy parent id, otherwise
        make it the root. */
    method AddNode(props: NodeProps) returns (node: TreeNode)
      requires Valid()
      modifies this
      ensures Valid()
      ensures nodes == Inserted(old(nodes), idOf(props.absolutePath), props)
      ensures order == if idOf(props.absolutePath) in old(nodes) then old(order) else old(order) + [idOf(props.absolutePath)]
      ensures rootId == if Truthy(props.parentId) then old(rootId) else Some(idOf(props.absolutePath))
      ensures node == nodes[idOf(props.absolutePath)]
    {
      var id := idOf(props.absolutePath);
      IndexesInserted(order, nodes, id, props);
      if id !in nodes {
        order := order + [id];
      }
      nodes := nodes[id := NewNode(id, props)];
      if Truthy(props.parentId) {
        var parentId := props.parentId.value;
        if parentId in nodes && id !in nodes[parentId].childrenIds {
          var parent := nodes[parentId];
          nodes := nodes[parentId := parent.(childrenIds := parent.childrenIds + [id])];
        }
      } else {
        rootId := Some(id);
      }
      node := nodes[id];
    }

    /** `getStats`: one pass over the nodes counting files, directories and the
        files' sizes (`size || 0`). */
    method GetStats() returns (s: Stats)
      requires Valid()
      ensures s.totalNodes == |nodes| && s.fileCount + s.directoryCount == s.totalNodes
      ensures s.fileCount == FileCount(GetAllNodes()) && s.totalSize == TotalSize(GetAllNodes())
    {
      var all := GetAllNodes();
      var fileCount, directoryCount, totalSize := 0, 0, 0;
      for i := 0 to |all|
        invariant fileCount == FileCount(all[..i]) && fileCount + directoryCount == i
        invariant totalSize == TotalSize(all[..i])
      {
        assert all[..i + 1][..i] == all[..i];
        if all[i].nodeType == File {
          fileCount := fileCount + 1;
          totalSize := totalSize + all[i].size.GetOr(0);
        } else {
          directoryCount := directoryCount + 1;
        }
      }
      assert all[..|all|] == all;
      s := Stats(|nodes|, fileCount, directoryCount, totalSize);
    }

    /** `toJSON`, as the structure it serialises. */
    function ToJson(): (s: Snapshot)
      reads this
      requires Valid()
      ensures s.rootId == rootId && |s.entries| == |nodes|
    {
      Snapshot(rootId, Entries(nodes, order))
    }

    /** Every present child of `n` ranks below `n`. */
    ghost predicate Below(n: TreeNode, rank: TreeNode -> nat)
      reads this
    {
      forall c :: c in GetChildren(n) ==> rank(c) < rank(n)
    }

    /** `rank` decreases from every stored node to its children, so walking
        down the children ends. */
    ghost predicate Ranked(rank: TreeNode -> nat)
      reads this
    {
      forall n :: n in nodes.Values ==> Below(n, rank)
    }

    /** `traverseNodes`: the nodes the callback is called on, in order: the
        node itself, then the traversal of each of its children in turn. */
    function Traverse(node: TreeNode, rank: TreeNode -> nat): (r: seq<TreeNode>)
      reads this
      requires Ranked(rank) && Below(node, rank)
      ensures r != [] && r[0] == node
      decreases rank(node), 1, 0
    {
      [node] + TraverseAll(GetChildren(node), rank, rank(node))
    }

    /** The traversals of sibling nodes, one after the other. */
    function TraverseAll(cs: seq<TreeNode>, rank: TreeNode -> nat, bound: nat): (r: seq<TreeNode>)
      reads this
      requires Ranked(rank) && forall c :: c in cs ==> c in nodes.Values && rank(c) < bound
      decreases bound, 0, |cs|
    {
      if cs == [] then [] else Traverse(cs[0], rank) + TraverseAll(cs[1..], rank, bound)
    }

    /** `forEachNode`: the traversal from the given node, or else from the
        root; it throws when there is neither. */
    function ForEachNode(startNode: Option<TreeNode>, rank: TreeNode -> nat): (r: Result<seq<TreeNode>>)
      reads this
      requires Ranked(rank) && (startNode.Some? ==> Below(startNode.value, rank))
      ensures r.Err? <==> startNode.None? && GetRootNode().None?
      ensures r.Ok? ==> r.value != [] && r.value[0] == if startNode.Some? then startNode.value else GetRootNode().value
    {
      var root := if startNode.Some? then startNode else GetRootNode();
      if root.None? then Err("No tree has been created or no start node provided")
      else Ok(Traverse(root.value, rank))
    }

    /** The node at index `i` of `t` is a child of a node before it. */
    ghost predicate AfterParent(t: seq<TreeNode>, i: int)
      reads this
      requires 0 <= i < |t|
    {
      exists j :: 0 <= j < i && t[i] in GetChildren(t[j])
    }

    /** Every node of `t` is one of `tops` or comes after its parent. */
    ghost predicate ParentsFirst(t: seq<TreeNode>, tops: seq<TreeNode>)
      reads this
    {
      forall i :: 0 <= i < |t| ==> t[i] in tops || AfterParent(t, i)
    }

    /** A node after its parent in `t` is still after it once `t` is prefixed. */
    lemma AfterParentShift(pre: seq<TreeNode>, t: seq<TreeNode>, i: int)
      requires 0 <= i < |t| && AfterParent(t, i)
      ensures AfterParent(pre + t, |pre| + i)
    {
      var j :| 0 <= j < i && t[i] in GetChildren(t[j]);
      assert (pre + t)[|pre| + j] == t[j];
    }

    /** Every node a traversal visits after the first is a child of a node it
        visited earlier: parents come before their children. */
    lemma {:induction false} ParentVisitedFirst(node: TreeNode, rank: TreeNode -> nat)
      requires Ranked(rank) && Below(node, rank)
      ensures ParentsFirst(Traverse(node, rank), [node])
      decreases rank(node), 1, 0
    {
      var cs := GetChildren(node);
      ParentVisitedFirstAll(cs, rank, rank(node));
      var rest := TraverseAll(cs, rank, rank(node));
      var t := Traverse(node, rank);
      assert t == [node] + rest;
      forall i | 0 < i < |t|
        ensures AfterParent(t, i)
      {
        assert t[i] == rest[i - 1];
        if rest[i - 1] in cs {
          assert t[i] in GetChildren(t[0]);
        } else {
          AfterParentShift([node], rest, i - 1);
        }
      }
    }

    /** In the traversals of siblings, every node is one of the siblings or a
        child of a node visited earlier. */
    lemma {:induction false} ParentVisitedFirstAll(cs: seq<TreeNode>, rank: TreeNode -> nat, bound: nat)
      requires Ranked(rank) && forall c :: c in cs ==> c in nodes.Values && rank(c) < bound
      ensures ParentsFirst(TraverseAll(cs, rank, bound), cs)
      decreases bound, 0, |cs|
    {
      if cs != [] {
        ParentVisitedFirst(cs[0], rank);
        ParentVisitedFirstAll(cs[1..], rank, bound);
        assert cs == [cs[0]] + cs[1..];
        ParentsFirstAppend(Traverse(cs[0], rank), TraverseAll(cs[1..], rank, bound), [cs[0]], cs[1..]);
      }
    }

    /** Two runs in which parents come first still have it when joined. */
    lemma ParentsFirstAppend(a: seq<TreeNode>, b: seq<TreeNode>, ta: seq<TreeNode>, tb: seq<TreeNode>)
      requires ParentsFirst(a, ta) && ParentsFirst(b, tb)
      ensures ParentsFirst(a + b, ta + tb)
    {
      var t := a + b;
      forall i | 0 <= i < |t|
        ensures t[i] in ta + tb || AfterParent(t, i)
      {
        if i < |a| {
          assert t[i] == a[i];
          if a[i] !in ta {
            var j :| 0 <= j < i && a[i] in GetChildren(a[j]);
            assert t[j] == a[j];
          }
        } else {
          assert t[i] == b[i - |a|];
          if b[i - |a|] !in tb {
            AfterParentShift(a, b, i - |a|);
          }
        }
      }
    }

    /** `getFilesByExtension`: the traversal from the root, keeping the file
        nodes whose extension is `extension`; it throws when there is no root. */
    method GetFilesByExtension(extension: string, rank: TreeNode -> nat) returns (r: Result<seq<TreeNode>>)
      requires Ranked(rank)
      ensures r.Err? <==> GetRootNode().None?
      ensures r.Ok? ==> r.value == FilesWith(ForEachNode(None, rank).value, extension)
      ensures r.Ok? ==> forall n :: n in r.value <==>
        n in ForEachNode(None, rank).value && n.nodeType == File && n.extension == Some(extension)
    {
      var visits := ForEachNode(None, rank);
      if visits.Err? {
        return Err(visits.error);
      }
      var files: seq<TreeNode> := [];
      for i := 0 to |visits.value|
        invariant files == FilesWith(visits.value[..i], extension)
      {
        assert visits.value[..i + 1][..i] == visits.value[..i];
        if visits.value[i].nodeType == File && visits.value[i].extension == Some(extension) {
          files := files + [visits.value[i]];
        }
      }
      assert visits.value[..|visits.value|] == visits.value;
      FilesWithSpec(visits.value, extension);
      return Ok(files);
    }

    /** Once the walk up reaches the `m`-th ancestor, it passed every earlier one. */
    lemma {:induction false} UpPresent(node: TreeNode, m: nat)
      requires Up(node, m).Some?
      ensures forall j: nat :: j <= m ==> Up(node, j).Some?
      decreases m
    {
      if m > 0 {
        UpPresent(node, m - 1);
      }
    }

    /** A path runs from a node without a present parent down to `node`, each
        node the parent of the next. */
    lemma PathChain(node: TreeNode, path: seq<TreeNode>)
      requires IsPathOf(node, path)
      ensures path[|path| - 1] == node && GetParent(path[0]).None?
      ensures forall i :: 0 < i < |path| ==> GetParent(path[i]) == Some(path[i - 1])
    {
      var n := |path|;
      assert Up(node, n - 1 - 0) == Some(path[0]);
      assert Up(node, n - 1 - (n - 1)) == Some(path[n - 1]);
      forall i | 0 < i < n
        ensures GetParent(path[i]) == Some(path[i - 1])
      {
        assert Up(node, n - 1 - i) == Some(path[i]);
        assert Up(node, n - 1 - (i - 1)) == Some(path[i - 1]);
      }
    }

    /** Every truthy parent id met on the walk up from `node` is present. */
    ghost predicate ParentsResolve(node: TreeNode)
      reads this
    {
      forall k: nat :: Up(node, k).Some? && Truthy(Up(node, k).value.parentId) ==> Up(node, k).value.parentId.value in nodes
    }

    /** When every parent id resolves, the path is one node longer than the
        depth. */
    lemma PathLengthIsDepthPlusOne(node: TreeNode, path: seq<TreeNode>, depth: nat)
      requires IsPathOf(node, path) && IsDepthOf(node, depth) && ParentsResolve(node)
      ensures |path| == depth + 1
    {
      var n := |path|;
      forall i: nat | i < n
        ensures Up(node, i).Some?
      {
        assert Up(node, n - 1 - (n - 1 - i)) == Some(path[n - 1 - i]);
      }
      assert Up(node, depth).Some? by {
        if depth > 0 {
          assert Up(node, depth - 1).Some? && Truthy(Up(node, depth - 1).value.parentId);
        }
      }
      UpPresent(node, depth);
      assert Up(node, depth + 1).None?;
    }

    /** `getDepth` has one answer. */
    lemma DepthUnique(node: TreeNode, d1: nat, d2: nat)
      requires IsDepthOf(node, d1) && IsDepthOf(node, d2)
      ensures d1 == d2
    {
    }

    /** A node without a truthy parent id has depth 0; otherwise its depth is
        one more than its parent's. */
    lemma DepthStep(node: TreeNode, depth: nat, parentDepth: nat)
      requires IsDepthOf(node, depth)
      ensures depth == 0 <==> !Truthy(node.parentId)
      ensures GetParent(node).Some? && IsDepthOf(GetParent(node).value, parentDepth) ==> depth == parentDepth + 1
    {
      assert Up(node, 0) == Some(node);
      if GetParent(node).Some? && IsDepthOf(GetParent(node).value, parentDepth) {
        var p := GetParent(node).value;
        forall k: nat
          ensures Up(node, k + 1) == Up(p, k)
        {
          UpShift(node, p, k);
        }
        assert IsDepthOf(node, parentDepth + 1) by {
          forall k: nat | k < parentDepth + 1
            ensures Up(node, k).Some? && Truthy(Up(node, k).value.parentId)
          {
            if k > 0 {
              assert Up(node, k) == Up(p, k - 1);
            }
          }
          assert Up(node, parentDepth + 1) == Up(p, parentDepth);
        }
        DepthUnique(node, depth, parentDepth + 1);
      }
    }

    /** Walking up from a node's parent is walking up from the node one step
        later. */
    lemma {:induction false} UpShift(node: TreeNode, p: TreeNode, k: nat)
      requires GetParent(node) == Some(p)
      ensures Up(node, k + 1) == Up(p, k)
      decreases k
    {
      if k > 0 {
        UpShift(node, p, k - 1);
      }
    }

    /** `fromJSON`: a new tree holding the snapshot's root id and entries. The
        entries of a parsed object have distinct keys. */
    static method FromJson(idOf: string -> string, s: Snapshot) returns (tree: FolderTree)
      requires Distinct(EntryKeys(s.entries))
      ensures fresh(tree) && tree.idOf == idOf && tree.Valid()
      ensures tree.rootId == s.rootId && tree.nodes == EntryMap(s.entries) && tree.order == EntryKeys(s.entries)
    {
      tree := new FolderTree(idOf);
      tree.rootId := s.rootId;
      tree.nodes := EntryMap(s.entries);
      tree.order := EntryKeys(s.entries);
      EntryMapSize(s.entries);
    }
  }

  /** The number of file nodes, counted from the front. */
  function FileCount(ns: seq<TreeNode>): (c: nat)
    ensures c <= |ns|
  {
    if ns == [] then 0
    else FileCount(ns[..|ns| - 1]) + (if ns[|ns| - 1].nodeType == File then 1 else 0)
  }

  /** The summed sizes of the file nodes, a missing size counting 0. */
  function TotalSize(ns: seq<TreeNode>): int {
    if ns == [] then 0
    else TotalSize(ns[..|ns| - 1]) + (if ns[|ns| - 1].nodeType == File then ns[|ns| - 1].size.GetOr(0) else 0)
  }

  /** A map built from entries with distinct keys has one key per entry. */
  lemma {:induction false} EntryMapSize(es: seq<(string, TreeNode)>)
    requires Distinct(EntryKeys(es))
    ensures |EntryMap(es)| == |es|
    decreases |es|
  {
    if es != [] {
      var init := es[..|es| - 1];
      assert EntryKeys(es) == EntryKeys(init) + [es[|es| - 1].0];
      assert Distinct(EntryKeys(init)) by {
        assert forall i :: 0 <= i < |init| ==> EntryKeys(init)[i] == EntryKeys(es)[i];
      }
      EntryMapSize(init);
      assert es[|es| - 1].0 !in EntryKeys(init);
    }
  }

  /** The file nodes with the given extension, in order. */
  function FilesWith(ns: seq<TreeNode>, extension: string): (r: seq<TreeNode>)
    ensures |r| <= |ns|
  {
    if ns == [] then []
    else
      var init := FilesWith(ns[..|ns| - 1], extension);
      var n := ns[|ns| - 1];
      if n.nodeType == File && n.extension == Some(extension) then init + [n] else init
  }

  /** `FilesWith` keeps exactly the file nodes with the extension. */
  lemma {:induction false} FilesWithSpec(ns: seq<TreeNode>, extension: string)
    ensures forall n :: n in FilesWith(ns, extension) <==> n in ns && n.nodeType == File && n.extension == Some(extension)
    decreases |ns|
  {
    if ns != [] {
      var init := ns[..|ns| - 1];
      FilesWithSpec(init, extension);
      assert ns == init + [ns[|ns| - 1]];
    }
  }

  /** The entries of a list that agree with a map give a map that agrees with it. */
  lemma {:induction false} EntryMapAgrees(es: seq<(string, TreeNode)>, nodes: map<string, TreeNode>)
    requires forall i :: 0 <= i < |es| ==> es[i].0 in nodes && es[i].1 == nodes[es[i].0]
    ensures forall k :: k in EntryMap(es) ==> k in nodes && EntryMap(es)[k] == nodes[k]
    decreases |es|
  {
    if es != [] {
      EntryMapAgrees(es[..|es| - 1], nodes);
    }
  }

  /** `fromJSON(toJSON())` gives back the same root id, node map and insertion
      order. */
  lemma JsonRoundTrip(rootId: Option<string>, order: seq<string>, nodes: map<string, TreeNode>)
    requires Indexes(order, nodes)
    ensures var s := Snapshot(rootId, Entries(nodes, order));
      && Distinct(EntryKeys(s.entries))
      && s.rootId == rootId
      && EntryKeys(s.entries) == order
      && EntryMap(s.entries) == nodes
  {
    var es := Entries(nodes, order);
    assert EntryKeys(es) == order;
    EntryMapAgrees(es, nodes);
    assert forall k :: k in EntryMap(es) <==> k in nodes;
  }

  /** The node `addNode` stores is the one built from its properties; it lists
      itself as its only child when its parent id is its own id. */
  lemma InsertedNode(nodes: map<string, TreeNode>, id: string, props: NodeProps)
    ensures id in Inserted(nodes, id, props)
    ensures Inserted(nodes, id, props)[id]
      == NewNode(id, props).(childrenIds := if Truthy(props.parentId) && props.parentId.value == id then [id] else [])
  {
  }

  /** `addNode` with a present parent leaves the node listed among the parent's
      children exactly once when no node listed a child twice before, and
      changes no other node. */
  lemma InsertedLinks(nodes: map<string, TreeNode>, id: string, props: NodeProps)
    requires ChildrenDistinct(nodes)
    ensures ChildrenDistinct(Inserted(nodes, id, props))
    ensures Truthy(props.parentId) && (props.parentId.value in nodes || props.parentId.value == id) ==>
      id in Inserted(nodes, id, props)[props.parentId.value].childrenIds
    ensures forall k :: k in nodes && k != id && !(Truthy(props.parentId) && k == props.parentId.value) ==>
      Inserted(nodes, id, props)[k] == nodes[k]
  {
    var m := nodes[id := NewNode(id, props)];
    assert ChildrenDistinct(m);
    if Truthy(props.parentId) && props.parentId.value in m && id !in m[props.parentId.value].childrenIds {
      var p := m[props.parentId.value];
      assert Distinct(p.childrenIds + [id]);
    }
  }
}
