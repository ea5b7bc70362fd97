/**
 * `FolderTreeFactory` of `internal/tree-node.lib.ts`: builds a `FolderTree`
 * mirroring a directory. Hidden entries are skipped, and each directory lists
 * its sub-directories before its files, each group ordered by name.
 */
module FolderTreeFactory {
  import opened Wrappers
  import opened FolderTrees
  import Paths

  /** What `fs.stat` and `fs.readdir` report for a path: a directory with its
      listing, a regular file with its size,
      something that is neither (a socket, a device), or nothing, when
      `fs.stat` throws because the path does not exist. */
  datatype FsEntry =
    | Dir(listing: Listing)
    | RegularFile(size: nat)
    | Special
    | Missing

  /** What `fs.readdir` gives for a directory: its names, or nothing when it
      throws. */
  datatype Listing = Unreadable | Listed(entries: seq<Entry>)

  /** One name of a directory listing and what it names. */
  datatype Entry = Entry(name: string, entry: FsEntry)

  /** `entry.startsWith('.')`. */
  predicate Hidden(name: string) {
    name != [] && name[0] == '.'
  }

  /** The names `readdir` returns are not empty and hold no slash. */
  predicate WellNamed(entry: FsEntry)
    decreases entry
  {
    match entry
    case Dir(Listed(es)) => forall i :: 0 <= i < |es| ==> es[i].name != [] && '/' !in es[i].name && WellNamed(es[i].entry)
    case _ => true
  }

  /** `getFileExtension`: the extension without its dot, `undefined` when the
      name has none. */
  function GetFileExtension(filename: string): (ext: Option<string>)
    ensures ext.None? <==> Paths.Extname(filename) == []
    ensures ext.Some? ==> Paths.Extname(filename) == "." + ext.value && '.' !in ext.value
  {
    var e := Paths.Extname(filename);
    if e == [] then None else Some(e[1..])
  }

  /** The node `buildTreeRecursively` adds for a path: its base name, the
      relative path or `'.'` for the base itself, the type, and extension and
      size for regular files only. */
  function PropsOf(entry: FsEntry, currentPath: string, relativePath: string, parentId: Option<string>): (p: NodeProps)
    ensures p.relativePath != []
    ensures p.nodeType == Directory <==> entry.Dir?
    ensures p.extension.Some? ==> entry.RegularFile?
  {
    var name := Paths.Basename(currentPath);
    NodeProps(
      name, currentPath,
      if relativePath == [] then "." else relativePath,
      if entry.Dir? then Directory else File,
      if entry.RegularFile? then GetFileExtension(name) else None,
      if entry.RegularFile? then Some(entry.size) else None,
      parentId)
  }

  /** A visible entry whose `fs.stat` throws: the child call throws, and the
      parent's `catch` ends its loop. */
  predicate Fails(e: Entry) {
    !Hidden(e.name) && e.entry.Missing?
  }

  /** How many entries of a listing the loop gets through: all of them, or
      those before the first that fails. */
  function Reached(es: seq<Entry>): (n: nat)
    ensures n <= |es|
    ensures forall i :: 0 <= i < n ==> !Fails(es[i])
    ensures n < |es| ==> Fails(es[n])
  {
    if es == [] || Fails(es[0]) then 0
    else
      var n := 1 + Reached(es[1..]);
      assert forall i :: 1 <= i < |es| ==> es[i] == es[1..][i - 1];
      n
  }

  /** Nothing in the tree fails `fs.stat`: every loop runs to its end. */
  predicate Intact(entry: FsEntry)
    decreases entry
  {
    match entry
    case Missing => false
    case Dir(Listed(es)) => forall i :: 0 <= i < |es| ==> Hidden(es[i].name) || Intact(es[i].entry)
    case _ => true
  }

  /** The ids of the nodes the build adds for `entry` at `path`, in the order
      it adds them: the node itself, then each visible entry's subtree; none
      when `fs.stat` throws. */
  function SubtreeIds(idOf: string -> string, entry: FsEntry, path: string): (ids: seq<string>)
    ensures entry.Missing? <==> ids == []
    ensures ids != [] ==> ids[0] == idOf(path) && ids[1..] == Below(idOf, entry, path)
    decreases entry, 1
  {
    if entry.Missing? then [] else [idOf(path)] + Below(idOf, entry, path)
  }

  /** The ids the build adds below the node of `entry`. */
  function Below(idOf: string -> string, entry: FsEntry, path: string): seq<string>
    decreases entry, 0
  {
    match entry
    case Dir(Listed(es)) => ListingIds(idOf, es, Reached(es), path)
    case _ => []
  }

  /** The ids added for the first `n` entries of a listing. */
  function ListingIds(idOf: string -> string, es: seq<Entry>, n: nat, path: string): seq<string>
    requires n <= |es|
    decreases es, n
  {
    if n == 0 then []
    else ListingIds(idOf, es, n - 1, path) + EntryIds(idOf, es, n - 1, path)
  }

  /** The ids added for entry `i` of a listing: none when it is hidden. */
  function EntryIds(idOf: string -> string, es: seq<Entry>, i: nat, path: string): seq<string>
    requires i < |es|
    decreases es, 0
  {
    if Hidden(es[i].name) then [] else SubtreeIds(idOf, es[i].entry, Paths.Join(path, es[i].name))
  }

  /** The ids of the visible entries among the first `n` of a listing: the
      children the build links, in listing order. */
  function ChildIds(idOf: string -> string, es: seq<Entry>, n: nat, path: string): seq<string>
    requires n <= |es|
  {
    if n == 0 then []
    else ChildIds(idOf, es, n - 1, path) + (if Hidden(es[n - 1].name) then [] else [idOf(Paths.Join(path, es[n - 1].name))])
  }

  /** The children the build links to the node of `entry`, in listing order. */
  function ChildrenOf(idOf: string -> string, entry: FsEntry, path: string): seq<string> {
    match entry
    case Dir(Listed(es)) => ChildIds(idOf, es, Reached(es), path)
    case _ => []
  }

  /** The comparator of the children sort: directories before files, nodes of
      one type by `localeCompare` of their names (`cmp`). */
  function Compare(cmp: (string, string) -> int, a: TreeNode, b: TreeNode): int {
    if a.nodeType == b.nodeType then cmp(a.name, b.name)
    else if a.nodeType == Directory then -1
    else 1
  }

  /** `a` may come before `b`. */
  predicate Leq(cmp: (string, string) -> int, a: TreeNode, b: TreeNode) {
    Compare(cmp, a, b) <= 0
  }

  /** `localeCompare` orders names totally: any two compare one way or the
      other, and the order is transitive. */
  ghost predicate TotalPreorder(cmp: (string, string) -> int) {
    && (forall x, y :: cmp(x, y) <= 0 || cmp(y, x) <= 0)
    && (forall x, y, z {:trigger cmp(x, y), cmp(y, z), cmp(x, z)} :: cmp(x, y) <= 0 && cmp(y, z) <= 0 ==> cmp(x, z) <= 0)
  }

  /** Every node may come before every later one. */
  ghost predicate Sorted(cmp: (string, string) -> int, s: seq<TreeNode>) {
    forall i, j :: 0 <= i < j < |s| ==> Leq(cmp, s[i], s[j])
  }

  /** `x` placed before the first node it may precede. */
  function Insert(cmp: (string, string) -> int, x: TreeNode, s: seq<TreeNode>): (r: seq<TreeNode>)
    ensures multiset(r) == multiset(s) + multiset{x}
  {
    if s == [] || Leq(cmp, x, s[0]) then [x] + s
    else
      assert s == [s[0]] + s[1..];
      [s[0]] + Insert(cmp, x, s[1..])
  }

  /** The stable sort `children.sort` performs, as an insertion sort: a
      permutation of its input. */
  function SortNodes(cmp: (string, string) -> int, s: seq<TreeNode>): (r: seq<TreeNode>)
    ensures multiset(r) == multiset(s)
  {
    if s == [] then []
    else
      assert s == [s[0]] + s[1..];
      Insert(cmp, s[0], SortNodes(cmp, s[1..]))
  }

  /** Inserting into a sorted sequence keeps it sorted. */
  lemma {:induction false} InsertSorted(cmp: (string, string) -> int, x: TreeNode, s: seq<TreeNode>)
    requires TotalPreorder(cmp) && Sorted(cmp, s)
    ensures Sorted(cmp, Insert(cmp, x, s))
    decreases |s|
  {
    LeqTotalPreorder(cmp);
    if s != [] && !Leq(cmp, x, s[0]) {
      InsertSorted(cmp, x, s[1..]);
      var r := Insert(cmp, x, s[1..]);
      forall n | n in r
        ensures Leq(cmp, s[0], n)
      {
        assert n in multiset(r);
        if n != x {
          assert n in s[1..];
        }
      }
    }
  }

  /** The children sort yields a sorted sequence. */
  lemma {:induction false} SortNodesSorted(cmp: (string, string) -> int, s: seq<TreeNode>)
    requires TotalPreorder(cmp)
    ensures Sorted(cmp, SortNodes(cmp, s))
    decreases |s|
  {
    if s != [] {
      SortNodesSorted(cmp, s[1..]);
      InsertSorted(cmp, s[0], SortNodes(cmp, s[1..]));
    }
  }

  /** The order of the children sort is total and transitive when names are
      ordered so. */
  lemma LeqTotalPreorder(cmp: (string, string) -> int)
    requires TotalPreorder(cmp)
    ensures forall a, b :: Leq(cmp, a, b) || Leq(cmp, b, a)
    ensures forall a, b, c :: Leq(cmp, a, b) && Leq(cmp, b, c) ==> Leq(cmp, a, c)
  {
  }

  /** In a sorted run of nodes no file precedes a directory, and nodes of one
      type are in name order. */
  lemma SortedMeansDirectoriesFirst(cmp: (string, string) -> int, s: seq<TreeNode>, i: int, j: int)
    requires Sorted(cmp, s) && 0 <= i < j < |s|
    ensures !(s[i].nodeType == File && s[j].nodeType == Directory)
    ensures s[i].nodeType == s[j].nodeType ==> cmp(s[i].name, s[j].name) <= 0
  {
    assert Leq(cmp, s[i], s[j]);
  }

  /** The ids of a run of nodes (`children.map((child) => child.id)`). */
  function IdsOf(s: seq<TreeNode>): (ids: seq<string>)
    ensures |ids| == |s| && forall i :: 0 <= i < |s| ==> ids[i] == s[i].id
  {
    if s == [] then [] else [s[0].id] + IdsOf(s[1..])
  }

  /** The ids of joined runs are the joined ids. */
  lemma {:induction false} IdsOfAppend(a: seq<TreeNode>, b: seq<TreeNode>)
    ensures IdsOf(a + b) == IdsOf(a) + IdsOf(b)
    decreases |a|
  {
    if a != [] {
      assert (a + b)[1..] == a[1..] + b;
      IdsOfAppend(a[1..], b);
    }
  }

  /** Taking the first node of `s` out of a permutation `t` of it leaves a
      permutation of the rest. */
  lemma TakeOut(s: seq<TreeNode>, t: seq<TreeNode>, k: nat)
    requires s != [] && multiset(s) == multiset(t) && k < |t| && t[k] == s[0]
    ensures multiset(s[1..]) == multiset(t[..k] + t[k + 1..])
  {
    assert s == [s[0]] + s[1..];
    assert t == t[..k] + [s[0]] + t[k + 1..];
    forall y
      ensures multiset(s[1..])[y] == multiset(t[..k] + t[k + 1..])[y]
    {
      assert multiset(s)[y] == multiset(t)[y];
    }
    assert multiset(s[1..]) == multiset(t[..k] + t[k + 1..]);
  }

  /** Putting `x` back in the middle of a permutation. */
  lemma MiddleOut(a: seq<string>, b: seq<string>, rest: seq<string>, x: string)
    requires multiset(rest) == multiset(a + b)
    ensures multiset([x] + rest) == multiset(a + ([x] + b))
  {
    calc {
      multiset([x] + rest);
      multiset{x} + multiset(a) + multiset(b);
      multiset(a + ([x] + b));
    }
  }

  /** Reordering nodes reorders their ids alike. */
  lemma {:induction false} IdsOfPermutation(s: seq<TreeNode>, t: seq<TreeNode>)
    requires multiset(s) == multiset(t)
    ensures multiset(IdsOf(s)) == multiset(IdsOf(t))
    decreases |s|
  {
    if s == [] {
      assert |t| == |multiset(t)| == 0;
    } else {
      var x := s[0];
      assert x in multiset(t);
      var k :| 0 <= k < |t| && t[k] == x;
      var front, back := t[..k], t[k + 1..];
      TakeOut(s, t, k);
      IdsOfPermutation(s[1..], front + back);
      assert t == front + ([x] + back);
      IdsOfAppend(front, [x] + back);
      IdsOfAppend(front, back);
      assert IdsOf([x] + back) == [x.id] + IdsOf(back) by {
        assert ([x] + back)[1..] == back;
      }
      MiddleOut(IdsOf(front), IdsOf(back), IdsOf(s[1..]), x.id);
    }
  }

  /** `md5` of a path is never empty, so every parent id is truthy. */
  ghost predicate IdsNonEmpty(idOf: string -> string) {
    forall p :: idOf(p) != []
  }

  /** The ids are pairwise different and none is a key yet. */
  ghost predicate Fresh(nodes: map<string, TreeNode>, ids: seq<string>) {
    Distinct(ids) && forall x :: x in ids ==> x !in nodes
  }

  /** Each id of `ids` keys the node carrying it. */
  ghost predicate Keyed(nodes: map<string, TreeNode>, ids: seq<string>) {
    forall k :: k in ids ==> k in nodes && nodes[k].id == k
  }

  /** No node of `ids` has a hidden name. */
  ghost predicate NotHidden(nodes: map<string, TreeNode>, ids: seq<string>)
    requires Keyed(nodes, ids)
  {
    forall k :: k in ids ==> !Hidden(nodes[k].name)
  }

  /** The children of `k` are present and `getChildren` yields them in the
      order of the children sort. */
  ghost predicate SortedChildren(cmp: (string, string) -> int, nodes: map<string, TreeNode>, k: string)
    requires k in nodes
  {
    var ids := nodes[k].childrenIds;
    && (forall c :: c in ids ==> c in nodes)
    && forall i, j :: 0 <= i < j < |ids| ==> Leq(cmp, nodes[ids[i]], nodes[ids[j]])
  }

  /** Every directory node of `ids` has sorted children. */
  ghost predicate SortedDirs(cmp: (string, string) -> int, nodes: map<string, TreeNode>, ids: seq<string>)
    requires Keyed(nodes, ids)
  {
    forall k :: k in ids && nodes[k].nodeType == Directory ==> SortedChildren(cmp, nodes, k)
  }

  /** `b` keeps every key of `a` with its id, name and type: what the sort
      looks at. */
  ghost predicate SameLabels(a: map<string, TreeNode>, b: map<string, TreeNode>) {
    forall k :: k in a ==> k in b && b[k].id == a[k].id && b[k].name == a[k].name && b[k].nodeType == a[k].nodeType
  }

  /** `addNode` changes no name or type of a node already there. */
  lemma InsertedLabels(nodes: map<string, TreeNode>, id: string, props: NodeProps)
    requires id !in nodes
    ensures SameLabels(nodes, Inserted(nodes, id, props))
  {
    var m := nodes[id := NewNode(id, props)];
    assert SameLabels(nodes, m);
    if Truthy(props.parentId) && props.parentId.value in m && id !in m[props.parentId.value].childrenIds {
      var parent := m[props.parentId.value];
      assert SameLabels(m, m[props.parentId.value := parent.(childrenIds := parent.childrenIds + [id])]);
    }
  }

  /** Sortedness of a node's children survives changes that keep names and types. */
  lemma SortedDirsKept(cmp: (string, string) -> int, a: map<string, TreeNode>, b: map<string, TreeNode>, ids: seq<string>)
    requires Keyed(a, ids) && SortedDirs(cmp, a, ids) && SameLabels(a, b)
    requires forall k :: k in ids ==> b[k].childrenIds == a[k].childrenIds
    ensures Keyed(b, ids) && SortedDirs(cmp, b, ids)
  {
    forall k | k in ids && b[k].nodeType == Directory
      ensures SortedChildren(cmp, b, k)
    {
      assert SortedChildren(cmp, a, k);
    }
  }

  /** Every directory of the subtree of `entry` at `path` whose listing the
      build read to its end has its children sorted. A directory whose loop
      stopped at a child that failed is left unsorted, but the directories
      below it are not. */
  ghost predicate SortedWhereRead(idOf: string -> string, cmp: (string, string) -> int, entry: FsEntry, path: string,
                                  nodes: map<string, TreeNode>)
    decreases entry, 1
  {
    match entry
    case Dir(Listed(es)) =>
      && (Reached(es) == |es| ==> idOf(path) in nodes && SortedChildren(cmp, nodes, idOf(path)))
      && ListingSorted(idOf, cmp, es, Reached(es), path, nodes)
    case _ => true
  }

  /** `SortedWhereRead` for the subtrees of the first `n` entries of a listing. */
  ghost predicate ListingSorted(idOf: string -> string, cmp: (string, string) -> int, es: seq<Entry>, n: nat,
                                path: string, nodes: map<string, TreeNode>)
    requires n <= |es|
    decreases es, n
  {
    n == 0 || (ListingSorted(idOf, cmp, es, n - 1, path, nodes) && EntrySorted(idOf, cmp, es, n - 1, path, nodes))
  }

  /** `SortedWhereRead` for the subtree of entry `i` of a listing, if visible. */
  ghost predicate EntrySorted(idOf: string -> string, cmp: (string, string) -> int, es: seq<Entry>, i: nat,
                              path: string, nodes: map<string, TreeNode>)
    requires i < |es|
    decreases es, 0
  {
    Hidden(es[i].name) || SortedWhereRead(idOf, cmp, es[i].entry, Paths.Join(path, es[i].name), nodes)
  }

  /** Sorted children stay sorted when names and types are kept and the
      node's children do not change. */
  lemma SortedChildrenKept(cmp: (string, string) -> int, a: map<string, TreeNode>, b: map<string, TreeNode>, k: string)
    requires k in a && SortedChildren(cmp, a, k) && SameLabels(a, b) && b[k].childrenIds == a[k].childrenIds
    ensures k in b && SortedChildren(cmp, b, k)
  {
    var ids := a[k].childrenIds;
    forall i, j | 0 <= i < j < |ids|
      ensures Leq(cmp, b[ids[i]], b[ids[j]])
    {
      assert Leq(cmp, a[ids[i]], a[ids[j]]);
    }
  }

  /** `SortedWhereRead` survives changes that keep names and types and leave
      the children of the subtree's nodes alone. */
  lemma {:induction false} SortedWhereReadKept(idOf: string -> string, cmp: (string, string) -> int, entry: FsEntry,
                                               path: string, a: map<string, TreeNode>, b: map<string, TreeNode>)
    requires SameLabels(a, b)
    requires forall k :: k in SubtreeIds(idOf, entry, path) && k in a ==> b[k].childrenIds == a[k].childrenIds
    requires SortedWhereRead(idOf, cmp, entry, path, a)
    ensures SortedWhereRead(idOf, cmp, entry, path, b)
    decreases entry, 1
  {
    if entry.Dir? && entry.listing.Listed? {
      var es := entry.listing.entries;
      SubtreeShape(idOf, entry, path);
      if Reached(es) == |es| {
        SortedChildrenKept(cmp, a, b, idOf(path));
      }
      ListingSortedKept(idOf, cmp, es, Reached(es), path, a, b);
    }
  }

  /** `ListingSorted` survives the same changes. */
  lemma {:induction false} ListingSortedKept(idOf: string -> string, cmp: (string, string) -> int, es: seq<Entry>,
                                             n: nat, path: string, a: map<string, TreeNode>, b: map<string, TreeNode>)
    requires n <= |es| && SameLabels(a, b)
    requires forall k :: k in ListingIds(idOf, es, n, path) && k in a ==> b[k].childrenIds == a[k].childrenIds
    requires ListingSorted(idOf, cmp, es, n, path, a)
    ensures ListingSorted(idOf, cmp, es, n, path, b)
    decreases es, n
  {
    if n > 0 {
      ListingSortedKept(idOf, cmp, es, n - 1, path, a, b);
      if !Hidden(es[n - 1].name) {
        assert ListingIds(idOf, es, n, path)
            == ListingIds(idOf, es, n - 1, path) + SubtreeIds(idOf, es[n - 1].entry, Paths.Join(path, es[n - 1].name));
        SortedWhereReadKept(idOf, cmp, es[n - 1].entry, Paths.Join(path, es[n - 1].name), a, b);
      }
    }
  }

  /** The nodes of the subtree of `entry`, built at `path` with `relativePath`
      below the parent `parentId`, are in `nodes` as the build makes them:
      each carries the properties of its entry and the id of its parent, and
      links exactly the visible entries its loop reached, each of which is
      built the same way below it. */
  ghost predicate Mirrors(idOf: string -> string, entry: FsEntry, path: string, relativePath: string,
                          parentId: Option<string>, nodes: map<string, TreeNode>)
    decreases entry, 1
  {
    && OwnMirrored(idOf, entry, path, relativePath, parentId, nodes)
    && match entry
       case Dir(Listed(es)) => ListingMirrors(idOf, es, Reached(es), path, relativePath, idOf(path), nodes)
       case _ => true
  }

  /** The node of `entry` itself: the properties `addNode` was given, and its
      visible children in some order. */
  ghost predicate OwnMirrored(idOf: string -> string, entry: FsEntry, path: string, relativePath: string,
                              parentId: Option<string>, nodes: map<string, TreeNode>)
  {
    var own := idOf(path);
    && !entry.Missing?
    && own in nodes
    && nodes[own] == NewNode(own, PropsOf(entry, path, relativePath, parentId)).(childrenIds := nodes[own].childrenIds)
    && multiset(nodes[own].childrenIds) == multiset(ChildrenOf(idOf, entry, path))
  }

  /** `Mirrors` for the subtrees of the first `n` entries of the listing of
      the directory `own`. */
  ghost predicate ListingMirrors(idOf: string -> string, es: seq<Entry>, n: nat, path: string, relativePath: string,
                                 own: string, nodes: map<string, TreeNode>)
    requires n <= |es|
    decreases es, n
  {
    n == 0 || (ListingMirrors(idOf, es, n - 1, path, relativePath, own, nodes)
               && EntryMirrors(idOf, es, n - 1, path, relativePath, own, nodes))
  }

  /** `Mirrors` for the subtree of entry `i` of a listing, if visible, under
      the directory `own`. */
  ghost predicate EntryMirrors(idOf: string -> string, es: seq<Entry>, i: nat, path: string, relativePath: string,
                               own: string, nodes: map<string, TreeNode>)
    requires i < |es|
    decreases es, 0
  {
    Hidden(es[i].name)
    || Mirrors(idOf, es[i].entry, Paths.Join(path, es[i].name), Paths.Join(relativePath, es[i].name), Some(own), nodes)
  }

  /** `Mirrors` survives changes that leave the subtree's nodes alone. */
  lemma {:induction false} MirrorsKept(idOf: string -> string, entry: FsEntry, path: string, relativePath: string,
                                       parentId: Option<string>, a: map<string, TreeNode>, b: map<string, TreeNode>)
    requires forall k :: k in SubtreeIds(idOf, entry, path) && k in a ==> k in b && b[k] == a[k]
    requires Mirrors(idOf, entry, path, relativePath, parentId, a)
    ensures Mirrors(idOf, entry, path, relativePath, parentId, b)
    decreases entry, 1
  {
    SubtreeShape(idOf, entry, path);
    if entry.Dir? && entry.listing.Listed? {
      var es := entry.listing.entries;
      ListingMirrorsKept(idOf, es, Reached(es), path, relativePath, idOf(path), a, b);
    }
  }

  /** `ListingMirrors` survives the same changes. */
  lemma {:induction false} ListingMirrorsKept(idOf: string -> string, es: seq<Entry>, n: nat, path: string,
                                              relativePath: string, own: string,
                                              a: map<string, TreeNode>, b: map<string, TreeNode>)
    requires n <= |es|
    requires forall k :: k in ListingIds(idOf, es, n, path) && k in a ==> k in b && b[k] == a[k]
    requires ListingMirrors(idOf, es, n, path, relativePath, own, a)
    ensures ListingMirrors(idOf, es, n, path, relativePath, own, b)
    decreases es, n
  {
    if n > 0 {
      ListingMirrorsKept(idOf, es, n - 1, path, relativePath, own, a, b);
      if !Hidden(es[n - 1].name) {
        assert ListingIds(idOf, es, n, path)
            == ListingIds(idOf, es, n - 1, path) + SubtreeIds(idOf, es[n - 1].entry, Paths.Join(path, es[n - 1].name));
        MirrorsKept(idOf, es[n - 1].entry, Paths.Join(path, es[n - 1].name), Paths.Join(relativePath, es[n - 1].name),
                    Some(own), a, b);
      }
    }
  }

  /** Every child id of node `k` names a stored node whose parent is `k`. */
  ghost predicate LinksBack(nodes: map<string, TreeNode>, k: string) {
    k in nodes && forall c :: c in nodes[k].childrenIds ==> c in nodes && nodes[c].parentId == Some(k)
  }

  /** In a subtree that mirrors its entry, parent and child links agree: each
      child a node lists points back to it, and every node below the top one
      has a parent. */
  lemma {:induction false} MirrorsLinkBack(idOf: string -> string, entry: FsEntry, path: string, relativePath: string,
                                           parentId: Option<string>, nodes: map<string, TreeNode>)
    requires Mirrors(idOf, entry, path, relativePath, parentId, nodes)
    ensures forall k :: k in SubtreeIds(idOf, entry, path) ==> LinksBack(nodes, k)
    ensures forall k :: k in Below(idOf, entry, path) ==> k in nodes && nodes[k].parentId.Some?
    decreases entry, 1
  {
    var own := idOf(path);
    SubtreeShape(idOf, entry, path);
    if entry.Dir? && entry.listing.Listed? {
      var es := entry.listing.entries;
      ListingLinksBack(idOf, es, Reached(es), path, relativePath, own, nodes);
      ChildrenPointBack(nodes, own, ChildrenOf(idOf, entry, path));
    } else {
      assert |nodes[own].childrenIds| == |multiset(nodes[own].childrenIds)| == 0;
    }
  }

  /** A node whose children are, up to order, ids that all point back to it. */
  lemma ChildrenPointBack(nodes: map<string, TreeNode>, own: string, kids: seq<string>)
    requires own in nodes && multiset(nodes[own].childrenIds) == multiset(kids)
    requires forall c :: c in kids ==> c in nodes && nodes[c].parentId == Some(own)
    ensures LinksBack(nodes, own)
  {
    forall c | c in nodes[own].childrenIds
      ensures c in nodes && nodes[c].parentId == Some(own)
    {
      assert c in multiset(nodes[own].childrenIds);
      assert c in multiset(kids);
    }
  }

  /** The same for the subtrees of the first `n` entries of the listing of
      the directory `own`, whose roots point back to `own`. */
  lemma {:induction false} ListingLinksBack(idOf: string -> string, es: seq<Entry>, n: nat, path: string,
                                            relativePath: string, own: string, nodes: map<string, TreeNode>)
    requires n <= |es|
    requires ListingMirrors(idOf, es, n, path, relativePath, own, nodes)
    ensures forall k :: k in ListingIds(idOf, es, n, path) ==> LinksBack(nodes, k)
    ensures forall k :: k in ListingIds(idOf, es, n, path) ==> k in nodes && nodes[k].parentId.Some?
    ensures forall c :: c in ChildIds(idOf, es, n, path) ==> c in nodes && nodes[c].parentId == Some(own)
    decreases es, n
  {
    if n > 0 {
      ListingLinksBack(idOf, es, n - 1, path, relativePath, own, nodes);
      ListingStep(idOf, es, n - 1, path);
      if !Hidden(es[n - 1].name) {
        var childPath := Paths.Join(path, es[n - 1].name);
        assert Mirrors(idOf, es[n - 1].entry, childPath, Paths.Join(relativePath, es[n - 1].name), Some(own), nodes);
        MirrorsLinkBack(idOf, es[n - 1].entry, childPath, Paths.Join(relativePath, es[n - 1].name), Some(own), nodes);
        SubtreeShape(idOf, es[n - 1].entry, childPath);
      }
    }
  }

  /** The tree `create` builds is linked both ways: every node's children
      point back to it, the folder's node is the only one without a parent. */
  lemma CreatedTreeLinked(idOf: string -> string, cmp: (string, string) -> int, root: FsEntry, absolutePath: string,
                          nodes: map<string, TreeNode>)
    requires Built(idOf, cmp, root, absolutePath, [], None, map[], nodes)
    ensures forall k :: k in nodes ==> LinksBack(nodes, k)
    ensures idOf(absolutePath) in nodes && nodes[idOf(absolutePath)].parentId == None
    ensures forall k :: k in nodes && k != idOf(absolutePath) ==> nodes[k].parentId.Some?
  {
    MirrorsLinkBack(idOf, root, absolutePath, [], None, nodes);
    SubtreeShape(idOf, root, absolutePath);
  }

  /** A folder holding one visible file: the file's node records its size,
      its extension, its path below the folder and the folder as its parent,
      and it is the folder's only child. */
  lemma OneFileBuilt(idOf: string -> string, cmp: (string, string) -> int, dir: string, name: string, size: nat,
                     nodes: map<string, TreeNode>)
    requires name != [] && '/' !in name && !Hidden(name)
    requires Built(idOf, cmp, Dir(Listed([Entry(name, RegularFile(size))])), dir, [], None, map[], nodes)
    ensures idOf(Paths.Join(dir, name)) in nodes
    ensures var file := nodes[idOf(Paths.Join(dir, name))];
      && file.size == Some(size) && file.parentId == Some(idOf(dir))
      && file.relativePath == name && file.extension == GetFileExtension(name)
    ensures nodes[idOf(dir)].childrenIds == [idOf(Paths.Join(dir, name))]
  {
    OneFileMirrored(idOf, dir, name, size, nodes);
  }

  /** `OneFileBuilt` from the mirroring part of the build's contract alone. */
  lemma OneFileMirrored(idOf: string -> string, dir: string, name: string, size: nat, nodes: map<string, TreeNode>)
    requires name != [] && '/' !in name && !Hidden(name)
    requires Mirrors(idOf, Dir(Listed([Entry(name, RegularFile(size))])), dir, [], None, nodes)
    ensures idOf(Paths.Join(dir, name)) in nodes
    ensures var file := nodes[idOf(Paths.Join(dir, name))];
      && file.size == Some(size) && file.parentId == Some(idOf(dir))
      && file.relativePath == name && file.extension == GetFileExtension(name)
    ensures nodes[idOf(dir)].childrenIds == [idOf(Paths.Join(dir, name))]
  {
    var es := [Entry(name, RegularFile(size))];
    var path := Paths.Join(dir, name);
    assert Reached(es) == 1 by {
      assert !Fails(es[0]);
      assert es[1..] == [];
    }
    assert Paths.Join([], name) == name;
    assert Mirrors(idOf, RegularFile(size), path, name, Some(idOf(dir)), nodes) by {
      assert EntryMirrors(idOf, es, 0, dir, [], idOf(dir), nodes);
    }
    assert OwnMirrored(idOf, RegularFile(size), path, name, Some(idOf(dir)), nodes);
    Paths.BasenameOfJoin(dir, name);
    assert multiset(nodes[idOf(dir)].childrenIds) == multiset([idOf(path)]) by {
      assert ChildIds(idOf, es, 1, dir) == [idOf(path)];
    }
    OnlyElement(nodes[idOf(dir)].childrenIds, idOf(path));
  }

  /** A sequence with the multiset of one element is that element alone. */
  lemma OnlyElement(s: seq<string>, x: string)
    requires multiset(s) == multiset([x])
    ensures s == [x]
  {
    assert |s| == |multiset(s)| == 1;
    assert s[0] in multiset(s);
  }

  /** The ids added for the first `i` entries come first among those added for
      the first `n`. */
  lemma {:induction false} ListingPrefix(idOf: string -> string, es: seq<Entry>, i: nat, n: nat, path: string)
    requires i <= n <= |es|
    ensures ListingIds(idOf, es, i, path) <= ListingIds(idOf, es, n, path)
    decreases n
  {
    if i < n {
      ListingPrefix(idOf, es, i, n - 1, path);
    }
  }

  /** Pieces of a run of distinct ids are distinct and apart. */
  lemma DistinctPieces(a: seq<string>, b: seq<string>, w: seq<string>)
    requires Distinct(w) && a + b <= w
    ensures Distinct(b) && forall x :: x in b ==> x !in a
  {
    forall x | x in b
      ensures x !in a
    {
      var j :| 0 <= j < |b| && b[j] == x;
      forall i | 0 <= i < |a|
        ensures a[i] != x
      {
        assert w[i] == a[i] && w[|a| + j] == x;
      }
    }
    forall i, j | 0 <= i < j < |b|
      ensures b[i] != b[j]
    {
      assert w[|a| + i] == b[i] && w[|a| + j] == b[j];
    }
  }

  /** The children linked so far are among the nodes added so far. */
  lemma {:induction false} ChildIdsListed(idOf: string -> string, es: seq<Entry>, n: nat, path: string)
    requires n <= Reached(es)
    ensures forall x :: x in ChildIds(idOf, es, n, path) ==> x in ListingIds(idOf, es, n, path)
    decreases n
  {
    if n > 0 {
      ChildIdsListed(idOf, es, n - 1, path);
      ListingStep(idOf, es, n - 1, path);
      if !Hidden(es[n - 1].name) {
        var childPath := Paths.Join(path, es[n - 1].name);
        assert !Fails(es[n - 1]);
        assert SubtreeIds(idOf, es[n - 1].entry, childPath)[0] == idOf(childPath);
        assert idOf(childPath) in EntryIds(idOf, es, n - 1, path);
      }
    }
  }

  /** One more entry of the listing: its subtree's ids follow, and its id
      joins the children unless it is hidden. */
  lemma ListingStep(idOf: string -> string, es: seq<Entry>, i: nat, path: string)
    requires i < |es|
    ensures ListingIds(idOf, es, i + 1, path) == ListingIds(idOf, es, i, path) + EntryIds(idOf, es, i, path)
    ensures ChildIds(idOf, es, i + 1, path) ==
      ChildIds(idOf, es, i, path) + (if Hidden(es[i].name) then [] else [idOf(Paths.Join(path, es[i].name))])
    ensures !Hidden(es[i].name) ==> EntryIds(idOf, es, i, path) == SubtreeIds(idOf, es[i].entry, Paths.Join(path, es[i].name))
  {
  }

  /** An id missing from the ids added for a listing is missing from those
      added for any part of it. */
  lemma NotInPrefix(idOf: string -> string, es: seq<Entry>, i: nat, n: nat, path: string, x: string)
    requires i <= n <= |es| && x !in ListingIds(idOf, es, n, path)
    ensures x !in ListingIds(idOf, es, i, path)
  {
    var l, w := ListingIds(idOf, es, i, path), ListingIds(idOf, es, n, path);
    ListingPrefix(idOf, es, i, n, path);
    forall j | 0 <= j < |l|
      ensures l[j] != x
    {
      assert l[j] == w[j] && w[j] in w;
    }
  }

  /** Where the loop stands against `Reached`: an entry that does not fail
      lets it go on, one that fails is where it stops. */
  lemma ReachedPast(es: seq<Entry>, i: nat)
    requires i <= Reached(es) && i < |es|
    ensures !Fails(es[i]) ==> i < Reached(es)
    ensures Fails(es[i]) ==> i == Reached(es)
  {
  }

  /** The ids of a directory's subtree whose listing was read: its own, then
      those of its listing; of any other entry that exists, its own alone. */
  lemma SubtreeShape(idOf: string -> string, entry: FsEntry, path: string)
    requires !entry.Missing?
    ensures entry.Dir? && entry.listing.Listed? ==>
      var es := entry.listing.entries;
      && SubtreeIds(idOf, entry, path) == [idOf(path)] + ListingIds(idOf, es, Reached(es), path)
      && Below(idOf, entry, path) == ListingIds(idOf, es, Reached(es), path)
      && ChildrenOf(idOf, entry, path) == ChildIds(idOf, es, Reached(es), path)
    ensures !(entry.Dir? && entry.listing.Listed?) ==>
      SubtreeIds(idOf, entry, path) == [idOf(path)] && Below(idOf, entry, path) == [] && ChildrenOf(idOf, entry, path) == []
  {
  }

  /** Once the node `own` is added, the ids below it are still fresh. */
  lemma FreshBelow(n0: map<string, TreeNode>, n1: map<string, TreeNode>, own: string, below: seq<string>)
    requires Fresh(n0, [own] + below)
    requires forall k :: k in n1 <==> k in n0 || k == own
    ensures Fresh(n1, below) && own !in below
  {
    DistinctPieces([own], below, [own] + below);
    forall j | 0 <= j < |below|
      ensures below[j] !in n0
    {
      assert ([own] + below)[j + 1] == below[j];
    }
  }

  /** The subtree of an entry the loop reaches is fresh when all the ids
      below the directory were and the nodes added so far are the earlier
      entries'. */
  lemma ChildFresh(idOf: string -> string, es: seq<Entry>, i: nat, path: string,
                   n0: map<string, TreeNode>, nodes: map<string, TreeNode>)
    requires i < |es| && i <= Reached(es)
    requires Fresh(n0, ListingIds(idOf, es, Reached(es), path))
    requires forall k :: k in nodes <==> k in n0 || k in ListingIds(idOf, es, i, path)
    ensures Fresh(nodes, EntryIds(idOf, es, i, path))
  {
    if i < Reached(es) {
      var whole := ListingIds(idOf, es, Reached(es), path);
      var done, e := ListingIds(idOf, es, i, path), EntryIds(idOf, es, i, path);
      ListingPrefix(idOf, es, i + 1, Reached(es), path);
      assert done + e <= whole;
      DistinctPieces(done, e, whole);
      forall j | 0 <= j < |e|
        ensures e[j] !in n0
      {
        assert whole[|done| + j] == e[j];
      }
    } else {
      assert Fails(es[i]);
    }
  }

  /** Looking up ids that key nodes carrying them and taking the ids back
      gives the same ids. */
  lemma {:induction false} ResolveIds(nodes: map<string, TreeNode>, ids: seq<string>)
    requires forall c :: c in ids ==> c in nodes && nodes[c].id == c
    ensures IdsOf(Resolve(nodes, ids)) == ids
  {
    var r := Resolve(nodes, ids);
    assert |r| == |ids|;
    assert forall j :: 0 <= j < |ids| ==> IdsOf(r)[j] == r[j].id == ids[j];
  }

  /** Every node of a reordering of looked-up nodes is stored under its id. */
  lemma ReorderedStored(nodes: map<string, TreeNode>, ids: seq<string>, sorted: seq<TreeNode>)
    requires forall c :: c in ids ==> c in nodes && nodes[c].id == c
    requires multiset(sorted) == multiset(Resolve(nodes, ids))
    ensures forall j :: 0 <= j < |sorted| ==> sorted[j].id in ids && nodes[sorted[j].id] == sorted[j]
  {
    var children := Resolve(nodes, ids);
    forall j | 0 <= j < |sorted|
      ensures sorted[j].id in ids && nodes[sorted[j].id] == sorted[j]
    {
      assert sorted[j] in multiset(children);
      var jj :| 0 <= jj < |children| && children[jj] == sorted[j];
      assert children[jj] == nodes[ids[jj]];
    }
  }

  /** `addNode` of a new id: the new node under its id, the parent, when
      truthy and present, linking the id, every other node as it was. */
  lemma InsertedAt(nodes: map<string, TreeNode>, id: string, props: NodeProps)
    requires id !in nodes && (props.parentId.Some? ==> props.parentId.value in nodes)
    ensures var m := Inserted(nodes, id, props);
      && (forall k :: k in m <==> k in nodes || k == id)
      && m[id] == NewNode(id, props)
      && (forall k :: k in nodes && !(Truthy(props.parentId) && k == props.parentId.value) ==> m[k] == nodes[k])
      && (Truthy(props.parentId) ==>
            var parent := nodes[props.parentId.value];
            m[props.parentId.value] ==
              if id in parent.childrenIds then parent else parent.(childrenIds := parent.childrenIds + [id]))
  {
    InsertedKeys(nodes, id, props);
  }

  /** Appending in two steps appends the two pieces together. */
  lemma AppendAssoc(a: seq<string>, b: seq<string>, c: seq<string>)
    ensures (a + b) + c == a + (b + c)
  {
  }

  /** Where the loop over the listing `es` stands after its first `i`
      entries: `nodes` is `n0` with the subtrees of the visible ones among
      them added, `own` links their roots in listing order, every added
      node carries its id and a visible name, with sorted children throughout
      when the listing is `intact`, every directory among them whose listing
      was read to its end has sorted children, and each subtree mirrors its
      entry below `own`. */
  ghost predicate Progress(idOf: string -> string, cmp: (string, string) -> int, es: seq<Entry>, path: string,
                           relativePath: string, own: string, intact: bool, n0: map<string, TreeNode>, nodes: map<string, TreeNode>, i: nat)
  {
    && i <= Reached(es)
    && own in n0
    && var done := ListingIds(idOf, es, i, path);
    && (forall k :: k in nodes <==> k in n0 || k in done)
    && (forall k :: k in n0 && k != own ==> nodes[k] == n0[k])
    && nodes[own] == n0[own].(childrenIds := ChildIds(idOf, es, i, path))
    && Settled(idOf, cmp, es, path, intact, nodes, i)
    && ListingSorted(idOf, cmp, es, i, path, nodes)
    && ListingMirrors(idOf, es, i, path, relativePath, own, nodes)
  }

  /** The nodes of `ids` are in place: each is keyed by its id and has a
      visible name, and, when `intact`, each directory among them has sorted
      children. */
  ghost predicate Placed(cmp: (string, string) -> int, intact: bool, nodes: map<string, TreeNode>, ids: seq<string>) {
    Keyed(nodes, ids) && NotHidden(nodes, ids) && (intact ==> SortedDirs(cmp, nodes, ids))
  }

  /** The subtrees of the first `i` entries of a listing are in place, entry
      by entry. */
  ghost predicate Settled(idOf: string -> string, cmp: (string, string) -> int, es: seq<Entry>, path: string,
                          intact: bool, nodes: map<string, TreeNode>, i: nat)
    requires i <= |es|
  {
    i == 0 || (Settled(idOf, cmp, es, path, intact, nodes, i - 1) && Placed(cmp, intact, nodes, EntryIds(idOf, es, i - 1, path)))
  }

  /** Nodes are in place for two runs of ids exactly when they are for the
      runs one after the other. */
  lemma PlacedAppend(cmp: (string, string) -> int, intact: bool, nodes: map<string, TreeNode>, a: seq<string>, b: seq<string>)
    ensures Placed(cmp, intact, nodes, a + b) <==> Placed(cmp, intact, nodes, a) && Placed(cmp, intact, nodes, b)
  {
  }

  /** Entry by entry or all at once: the subtrees of the first `i` entries
      are in place exactly when the nodes of all their ids are. */
  lemma {:induction false} SettledPlaced(idOf: string -> string, cmp: (string, string) -> int, es: seq<Entry>,
                                         path: string, intact: bool, nodes: map<string, TreeNode>, i: nat)
    requires i <= |es|
    ensures Settled(idOf, cmp, es, path, intact, nodes, i) <==> Placed(cmp, intact, nodes, ListingIds(idOf, es, i, path))
    decreases i
  {
    if i > 0 {
      SettledPlaced(idOf, cmp, es, path, intact, nodes, i - 1);
      PlacedAppend(cmp, intact, nodes, ListingIds(idOf, es, i - 1, path), EntryIds(idOf, es, i - 1, path));
    }
  }

  /** Room for the loop over the listing `es` of the directory `own`: the ids
      it will add are pairwise different, none is a key of `n0` yet, and none
      is the directory's own. */
  ghost predicate Room(idOf: string -> string, es: seq<Entry>, path: string, own: string, n0: map<string, TreeNode>) {
    var all := ListingIds(idOf, es, Reached(es), path);
    own != [] && own !in all && Fresh(n0, all)
  }

  /** What building `entry`, found at `path`, does to the node map `before`
      when `fs.stat` of the path succeeds, giving `after`: the subtree's ids
      become keys and no others; the nodes already there change only as
      `addNode` of the entry's own node changes them; that node carries the
      entry's properties and links its visible children; every node below it
      carries its id and a visible name; every directory of the subtree whose
      listing was read to its end has sorted children, and when no `fs.stat`
      below throws, that is every directory of the subtree; and every node of
      the subtree mirrors its entry: its properties, its parent and its
      children. */
  ghost predicate Built(idOf: string -> string, cmp: (string, string) -> int, entry: FsEntry, path: string,
                        relativePath: string, parentId: Option<string>,
                        before: map<string, TreeNode>, after: map<string, TreeNode>)
  {
    var ids, below := SubtreeIds(idOf, entry, path), Below(idOf, entry, path);
    var own, props := idOf(path), PropsOf(entry, path, relativePath, parentId);
    && (forall k :: k in after <==> k in before || k in ids)
    && (forall k :: k in before ==> after[k] == Inserted(before, own, props)[k])
    && own in after
    && after[own] == NewNode(own, props).(childrenIds := after[own].childrenIds)
    && multiset(after[own].childrenIds) == multiset(ChildrenOf(idOf, entry, path))
    && Keyed(after, ids) && Keyed(after, below) && NotHidden(after, below)
    && (Intact(entry) ==> SortedDirs(cmp, after, ids))
    && SortedWhereRead(idOf, cmp, entry, path, after)
    && Mirrors(idOf, entry, path, relativePath, parentId, after)
  }

  /** The children sort of node `own`, from `before` to `after`: the same
      children stay linked, now sorted, and no other node changes. */
  ghost predicate Resorted(cmp: (string, string) -> int, own: string,
                           before: map<string, TreeNode>, after: map<string, TreeNode>)
  {
    && own in before
    && after.Keys == before.Keys
    && (forall k :: k in before && k != own ==> after[k] == before[k])
    && after[own] == before[own].(childrenIds := after[own].childrenIds)
    && multiset(after[own].childrenIds) == multiset(before[own].childrenIds)
    && SortedChildren(cmp, after, own)
  }

  /** A hidden entry is skipped: the loop moves on with nothing added. */
  lemma HiddenStep(idOf: string -> string, cmp: (string, string) -> int, es: seq<Entry>, path: string, relativePath: string,
                   own: string, intact: bool, n0: map<string, TreeNode>, nodes: map<string, TreeNode>, i: nat)
    requires i < |es| && Hidden(es[i].name)
    requires Progress(idOf, cmp, es, path, relativePath, own, intact, n0, nodes, i)
    ensures Progress(idOf, cmp, es, path, relativePath, own, intact, n0, nodes, i + 1)
  {
    ListingStep(idOf, es, i, path);
    ReachedPast(es, i);
    assert EntryIds(idOf, es, i, path) == [];
    assert ListingIds(idOf, es, i + 1, path) == ListingIds(idOf, es, i, path);
    assert ChildIds(idOf, es, i + 1, path) == ChildIds(idOf, es, i, path);
    assert Settled(idOf, cmp, es, path, intact, nodes, i + 1) by {
      assert Placed(cmp, intact, nodes, []);
    }
    assert ListingSorted(idOf, cmp, es, i + 1, path, nodes) by {
      assert EntrySorted(idOf, cmp, es, i, path, nodes);
    }
    assert ListingMirrors(idOf, es, i + 1, path, relativePath, own, nodes) by {
      assert EntryMirrors(idOf, es, i, path, relativePath, own, nodes);
    }
  }

  /** A visible entry: building its subtree from `before` to `after` moves the
      loop on by one entry. */
  lemma LoopStep(idOf: string -> string, cmp: (string, string) -> int, es: seq<Entry>, i: nat, path: string,
                 relativePath: string, own: string, intact: bool,
                 n0: map<string, TreeNode>, before: map<string, TreeNode>, after: map<string, TreeNode>)
    requires i < Reached(es) && !Hidden(es[i].name) && es[i].name != [] && '/' !in es[i].name
    requires intact ==> Intact(es[i].entry)
    requires own != [] && own !in ListingIds(idOf, es, Reached(es), path)
    requires Progress(idOf, cmp, es, path, relativePath, own, intact, n0, before, i)
    requires Fresh(before, EntryIds(idOf, es, i, path))
    requires Built(idOf, cmp, es[i].entry, Paths.Join(path, es[i].name), Paths.Join(relativePath, es[i].name),
                   Some(own), before, after)
    ensures Progress(idOf, cmp, es, path, relativePath, own, intact, n0, after, i + 1)
  {
    LoopShape(idOf, cmp, es, i, path, relativePath, own, intact, n0, before, after);
    LoopPlaced(idOf, cmp, es, i, path, relativePath, own, intact, before, after);
  }

  /** The keys and links after a visible entry: its subtree's ids are added,
      its root is linked to `own`, the nodes placed before are untouched and
      the subtree's own nodes are in place. */
  lemma LoopShape(idOf: string -> string, cmp: (string, string) -> int, es: seq<Entry>, i: nat, path: string,
                  relativePath: string, own: string, intact: bool,
                  n0: map<string, TreeNode>, before: map<string, TreeNode>, after: map<string, TreeNode>)
    requires i < Reached(es) && !Hidden(es[i].name) && es[i].name != [] && '/' !in es[i].name
    requires intact ==> Intact(es[i].entry)
    requires own != [] && own !in ListingIds(idOf, es, Reached(es), path)
    requires Progress(idOf, cmp, es, path, relativePath, own, intact, n0, before, i)
    requires Fresh(before, EntryIds(idOf, es, i, path))
    requires Built(idOf, cmp, es[i].entry, Paths.Join(path, es[i].name), Paths.Join(relativePath, es[i].name),
                   Some(own), before, after)
    ensures forall k :: k in after <==> k in n0 || k in ListingIds(idOf, es, i + 1, path)
    ensures forall k :: k in n0 && k != own ==> after[k] == n0[k]
    ensures after[own] == n0[own].(childrenIds := ChildIds(idOf, es, i + 1, path))
    ensures SameLabels(before, after)
    ensures forall k :: k in ListingIds(idOf, es, i, path) ==> k in before && after[k] == before[k]
    ensures Placed(cmp, intact, after, EntryIds(idOf, es, i, path))
  {
    var childPath := Paths.Join(path, es[i].name);
    var c := idOf(childPath);
    var childProps := PropsOf(es[i].entry, childPath, Paths.Join(relativePath, es[i].name), Some(own));
    var L, E := ListingIds(idOf, es, i, path), EntryIds(idOf, es, i, path);
    var B := Below(idOf, es[i].entry, childPath);
    ListingStep(idOf, es, i, path);
    assert own !in L + E by {
      NotInPrefix(idOf, es, i + 1, Reached(es), path, own);
    }
    assert E == [c] + B by {
      assert !Fails(es[i]);
      SubtreeShape(idOf, es[i].entry, childPath);
    }
    assert c in E;
    assert c !in before[own].childrenIds by {
      ChildIdsListed(idOf, es, i, path);
    }
    var m := Inserted(before, c, childProps);
    assert && m[own] == before[own].(childrenIds := before[own].childrenIds + [c])
           && m[c] == NewNode(c, childProps)
           && (forall k :: k in before && k != own ==> m[k] == before[k]) by {
      InsertedAt(before, c, childProps);
    }
    assert after[c].name == es[i].name by {
      Paths.BasenameOfJoin(path, es[i].name);
    }
    forall k | k in L
      ensures k in before && after[k] == before[k]
    {
      SettledPlaced(idOf, cmp, es, path, intact, before, i);
    }
    assert SameLabels(before, after) by {
      InsertedLabels(before, c, childProps);
    }
    assert Placed(cmp, intact, after, E);
  }

  /** The nodes the loop placed before entry `i` stay in place while the
      subtree of entry `i` is built, which puts its own in place. */
  lemma LoopPlaced(idOf: string -> string, cmp: (string, string) -> int, es: seq<Entry>, i: nat, path: string,
                   relativePath: string, own: string, intact: bool,
                   before: map<string, TreeNode>, after: map<string, TreeNode>)
    requires i < |es| && !Hidden(es[i].name)
    requires Settled(idOf, cmp, es, path, intact, before, i) && ListingSorted(idOf, cmp, es, i, path, before)
    requires ListingMirrors(idOf, es, i, path, relativePath, own, before)
    requires SameLabels(before, after)
    requires forall k :: k in ListingIds(idOf, es, i, path) ==> k in before && after[k] == before[k]
    requires Placed(cmp, intact, after, EntryIds(idOf, es, i, path))
    requires SortedWhereRead(idOf, cmp, es[i].entry, Paths.Join(path, es[i].name), after)
    requires Mirrors(idOf, es[i].entry, Paths.Join(path, es[i].name), Paths.Join(relativePath, es[i].name), Some(own), after)
    ensures Settled(idOf, cmp, es, path, intact, after, i + 1)
    ensures ListingSorted(idOf, cmp, es, i + 1, path, after)
    ensures ListingMirrors(idOf, es, i + 1, path, relativePath, own, after)
  {
    var L := ListingIds(idOf, es, i, path);
    SettledPlaced(idOf, cmp, es, path, intact, before, i);
    if intact {
      SortedDirsKept(cmp, before, after, L);
    }
    assert Placed(cmp, intact, after, L);
    SettledPlaced(idOf, cmp, es, path, intact, after, i);
    ListingSortedKept(idOf, cmp, es, i, path, before, after);
    assert EntrySorted(idOf, cmp, es, i, path, after);
    ListingMirrorsKept(idOf, es, i, path, relativePath, own, before, after);
    assert EntryMirrors(idOf, es, i, path, relativePath, own, after);
  }

  /** Once the loop is over, the children of `own` are nodes below it,
      stored under their ids: ready for the sort. */
  lemma SortReady(idOf: string -> string, cmp: (string, string) -> int, es: seq<Entry>, path: string, relativePath: string,
                  own: string, intact: bool, n0: map<string, TreeNode>, nodes: map<string, TreeNode>)
    requires Progress(idOf, cmp, es, path, relativePath, own, intact, n0, nodes, Reached(es))
    requires own !in ListingIds(idOf, es, Reached(es), path)
    ensures own in nodes
    ensures forall c :: c in nodes[own].childrenIds ==> c in nodes && nodes[c].id == c && c != own
  {
    ChildIdsListed(idOf, es, Reached(es), path);
    SettledPlaced(idOf, cmp, es, path, intact, nodes, Reached(es));
  }

  /** Nothing below an intact directory throws, so its loop runs to the end. */
  lemma IntactReached(es: seq<Entry>)
    requires forall i :: 0 <= i < |es| ==> Hidden(es[i].name) || Intact(es[i].entry)
    ensures Reached(es) == |es|
  {
  }

  /** An entry that exists but has no listing to read: its node alone. */
  lemma LeafBuilt(idOf: string -> string, cmp: (string, string) -> int, entry: FsEntry, path: string,
                  relativePath: string, parentId: Option<string>,
                  before: map<string, TreeNode>, after: map<string, TreeNode>)
    requires !entry.Missing? && !(entry.Dir? && entry.listing.Listed?)
    requires idOf(path) !in before && (parentId.Some? ==> parentId.value in before)
    requires after == Inserted(before, idOf(path), PropsOf(entry, path, relativePath, parentId))
    ensures Built(idOf, cmp, entry, path, relativePath, parentId, before, after)
  {
    var own := idOf(path);
    SubtreeShape(idOf, entry, path);
    InsertedAt(before, own, PropsOf(entry, path, relativePath, parentId));
  }

  /** A directory whose listing was read: its node, then the loop from `n1`
      to `n2`, then, when the loop ran to its end, the sort from `n2` to
      `after`. */
  lemma DirBuilt(idOf: string -> string, cmp: (string, string) -> int, entry: FsEntry, path: string,
                 relativePath: string, parentId: Option<string>, before: map<string, TreeNode>,
                 n1: map<string, TreeNode>, n2: map<string, TreeNode>, after: map<string, TreeNode>, complete: bool)
    requires entry.Dir? && entry.listing.Listed?
    requires Fresh(before, SubtreeIds(idOf, entry, path)) && (parentId.Some? ==> parentId.value in before)
    requires n1 == Inserted(before, idOf(path), PropsOf(entry, path, relativePath, parentId))
    requires Progress(idOf, cmp, entry.listing.entries, path, relativePath, idOf(path), Intact(entry), n1, n2,
                      Reached(entry.listing.entries))
    requires complete <==> Reached(entry.listing.entries) == |entry.listing.entries|
    requires !complete ==> after == n2
    requires complete ==> Resorted(cmp, idOf(path), n2, after)
    ensures Built(idOf, cmp, entry, path, relativePath, parentId, before, after)
  {
    var es := entry.listing.entries;
    var own, props := idOf(path), PropsOf(entry, path, relativePath, parentId);
    var L := ListingIds(idOf, es, Reached(es), path);
    SettledPlaced(idOf, cmp, es, path, Intact(entry), n2, Reached(es));
    assert && SubtreeIds(idOf, entry, path) == [own] + L
           && Below(idOf, entry, path) == L
           && ChildrenOf(idOf, entry, path) == ChildIds(idOf, es, Reached(es), path) by {
      SubtreeShape(idOf, entry, path);
    }
    assert own !in before && own !in L by {
      assert own in [own] + L;
      DistinctPieces([own], L, [own] + L);
    }
    assert (forall k :: k in n1 <==> k in before || k == own) && n1[own] == NewNode(own, props) by {
      InsertedAt(before, own, props);
    }
    if Intact(entry) {
      IntactReached(es);
    }
    AfterSort(cmp, own, L, Intact(entry), n2, after, complete);
    ReadDirSorted(idOf, cmp, entry, path, n2, after, complete);
    Assembled(cmp, Intact(entry), own, props, L, ChildIds(idOf, es, Reached(es), path), before, n1, n2, after);
    DirMirrored(idOf, entry, path, relativePath, parentId, n2, after);
  }

  /** After the sort, if any, the directory's node still carries its
      properties and its children, and the subtrees below are as the loop
      built them. */
  lemma DirMirrored(idOf: string -> string, entry: FsEntry, path: string, relativePath: string,
                    parentId: Option<string>, n2: map<string, TreeNode>, after: map<string, TreeNode>)
    requires entry.Dir? && entry.listing.Listed?
    requires idOf(path) !in ListingIds(idOf, entry.listing.entries, Reached(entry.listing.entries), path)
    requires ListingMirrors(idOf, entry.listing.entries, Reached(entry.listing.entries), path, relativePath, idOf(path), n2)
    requires forall k :: k in n2 && k != idOf(path) ==> k in after && after[k] == n2[k]
    requires idOf(path) in after
    requires after[idOf(path)] == NewNode(idOf(path), PropsOf(entry, path, relativePath, parentId))
                                   .(childrenIds := after[idOf(path)].childrenIds)
    requires multiset(after[idOf(path)].childrenIds) == multiset(ChildrenOf(idOf, entry, path))
    ensures Mirrors(idOf, entry, path, relativePath, parentId, after)
  {
    var es := entry.listing.entries;
    ListingMirrorsKept(idOf, es, Reached(es), path, relativePath, idOf(path), n2, after);
  }

  /** The pieces of a directory's build put together: its node added to
      `before` gives `n1`, the loop takes `n1` to `n2`, adding the nodes of
      `below` and linking `kids`, and the sort, if any, takes `n2` to
      `after`. */
  lemma Assembled(cmp: (string, string) -> int, intact: bool, own: string, props: NodeProps,
                  below: seq<string>, kids: seq<string>, before: map<string, TreeNode>,
                  n1: map<string, TreeNode>, n2: map<string, TreeNode>, after: map<string, TreeNode>)
    requires own !in before && own !in below
    requires (forall k :: k in n1 <==> k in before || k == own) && n1[own] == NewNode(own, props)
    requires forall k :: k in n2 <==> k in n1 || k in below
    requires forall k :: k in n1 && k != own ==> n2[k] == n1[k]
    requires n2[own] == n1[own].(childrenIds := kids)
    requires forall k :: k in after <==> k in n2
    requires forall k :: k in n2 && k != own ==> after[k] == n2[k]
    requires after[own] == n2[own].(childrenIds := after[own].childrenIds)
    requires multiset(after[own].childrenIds) == multiset(n2[own].childrenIds)
    requires Placed(cmp, intact, after, below)
    requires intact ==> SortedChildren(cmp, after, own)
    ensures forall k :: k in after <==> k in before || k in [own] + below
    ensures forall k :: k in before ==> after[k] == n1[k]
    ensures own in after && after[own] == NewNode(own, props).(childrenIds := after[own].childrenIds)
    ensures multiset(after[own].childrenIds) == multiset(kids)
    ensures Keyed(after, [own] + below) && Keyed(after, below) && NotHidden(after, below)
    ensures intact ==> SortedDirs(cmp, after, [own] + below)
  {
  }

  /** The end of the build of a read directory: `after` is the loop's result
      `n2`, with the children of `own` sorted when the loop ran to its end.
      Either way the keys are those of `n2`, only the children of `own` may
      move, and the nodes below stay in place. */
  lemma AfterSort(cmp: (string, string) -> int, own: string, below: seq<string>, intact: bool,
                  n2: map<string, TreeNode>, after: map<string, TreeNode>, complete: bool)
    requires own in n2 && own !in below && Placed(cmp, intact, n2, below)
    requires intact ==> complete
    requires !complete ==> after == n2
    requires complete ==> Resorted(cmp, own, n2, after)
    ensures forall k :: k in after <==> k in n2
    ensures forall k :: k in n2 && k != own ==> after[k] == n2[k]
    ensures after[own] == n2[own].(childrenIds := after[own].childrenIds)
    ensures multiset(after[own].childrenIds) == multiset(n2[own].childrenIds)
    ensures Placed(cmp, intact, after, below)
    ensures intact ==> SortedChildren(cmp, after, own)
  {
    if complete {
      assert after.Keys == n2.Keys;
      forall k | k in below
        ensures after[k] == n2[k]
      {
      }
      if intact {
        DirSorted(cmp, own, below, n2, after);
      }
    }
  }

  /** The sort, when the loop ran to its end, sorts the directory's own
      children and leaves the directories below as the loop left them. */
  lemma ReadDirSorted(idOf: string -> string, cmp: (string, string) -> int, entry: FsEntry, path: string,
                      n2: map<string, TreeNode>, after: map<string, TreeNode>, complete: bool)
    requires entry.Dir? && entry.listing.Listed?
    requires idOf(path) !in ListingIds(idOf, entry.listing.entries, Reached(entry.listing.entries), path)
    requires ListingSorted(idOf, cmp, entry.listing.entries, Reached(entry.listing.entries), path, n2)
    requires complete <==> Reached(entry.listing.entries) == |entry.listing.entries|
    requires !complete ==> after == n2
    requires complete ==> Resorted(cmp, idOf(path), n2, after)
    ensures SortedWhereRead(idOf, cmp, entry, path, after)
  {
    var es := entry.listing.entries;
    if complete {
      assert SameLabels(n2, after);
      ListingSortedKept(idOf, cmp, es, Reached(es), path, n2, after);
    }
  }

  /** After the sort, the directory's children are sorted and the nodes below
      it keep theirs. */
  lemma DirSorted(cmp: (string, string) -> int, own: string, below: seq<string>,
                  before: map<string, TreeNode>, after: map<string, TreeNode>)
    requires Resorted(cmp, own, before, after)
    requires own !in below && Keyed(before, below) && SortedDirs(cmp, before, below)
    ensures own in after && SortedChildren(cmp, after, own)
    ensures Keyed(after, below) && SortedDirs(cmp, after, below)
  {
    assert SameLabels(before, after);
    SortedDirsKept(cmp, before, after, below);
  }

  /** Sorting the children of `own` and storing their ids back: the same
      children stay linked, now sorted, and no id, name or type changes. */
  lemma SortStep(cmp: (string, string) -> int, nodes: map<string, TreeNode>, own: string)
    requires TotalPreorder(cmp) && own in nodes
    requires forall c :: c in nodes[own].childrenIds ==> c in nodes && nodes[c].id == c && c != own
    ensures var sorted := SortNodes(cmp, Resolve(nodes, nodes[own].childrenIds));
      var m := nodes[own := nodes[own].(childrenIds := IdsOf(sorted))];
      && SortedChildren(cmp, m, own)
      && multiset(m[own].childrenIds) == multiset(nodes[own].childrenIds)
      && SameLabels(nodes, m)
  {
    var ids := nodes[own].childrenIds;
    var children := Resolve(nodes, ids);
    var sorted := SortNodes(cmp, children);
    var sortedIds := IdsOf(sorted);
    var m := nodes[own := nodes[own].(childrenIds := sortedIds)];
    assert multiset(sortedIds) == multiset(ids) by {
      ResolveIds(nodes, ids);
      IdsOfPermutation(sorted, children);
    }
    assert forall j :: 0 <= j < |sortedIds| ==> sortedIds[j] in m && m[sortedIds[j]] == sorted[j] by {
      ReorderedStored(nodes, ids, sorted);
    }
    assert SortedChildren(cmp, m, own) by {
      SortNodesSorted(cmp, children);
    }
    assert SameLabels(nodes, m);
  }

  /** `buildTreeRecursively` on `entry` found at `currentPath`: add its node
      (`relativePath` is its path below the base, empty for the base itself),
      then, for a directory whose listing can be read, its children, sorted
      unless a child's `fs.stat` threw. `threw` is whether the call rejects,
      which it does exactly when `fs.stat` of the path throws; a rejection of a
      child is swallowed by the `catch`. */
  method BuildTree(tree: FolderTree, cmp: (string, string) -> int, entry: FsEntry, currentPath: string,
                   relativePath: string, parentId: Option<string>) returns (threw: bool)
    requires tree.Valid() && TotalPreorder(cmp) && IdsNonEmpty(tree.idOf) && WellNamed(entry)
    requires parentId.Some? ==> parentId.value in tree.nodes
    requires Fresh(tree.nodes, SubtreeIds(tree.idOf, entry, currentPath))
    modifies tree
    decreases entry, 1
    ensures threw <==> entry.Missing?
    ensures tree.Valid()
    ensures tree.order == old(tree.order) + SubtreeIds(tree.idOf, entry, currentPath)
    ensures threw ==> tree.nodes == old(tree.nodes) && tree.rootId == old(tree.rootId)
    ensures !threw ==>
      && tree.rootId == (if Truthy(parentId) then old(tree.rootId) else Some(tree.idOf(currentPath)))
      && Built(tree.idOf, cmp, entry, currentPath, relativePath, parentId, old(tree.nodes), tree.nodes)
  {
    if entry.Missing? {
      return true;
    }
    threw := false;
    ghost var before := tree.nodes;
    var props := PropsOf(entry, currentPath, relativePath, parentId);
    var node := tree.AddNode(props);
    SubtreeShape(tree.idOf, entry, currentPath);
    assert node.id !in before;
    if entry.Dir? && entry.listing.Listed? {
      var es := entry.listing.entries;
      ghost var n1, L := tree.nodes, ListingIds(tree.idOf, es, Reached(es), currentPath);
      InsertedKeys(before, node.id, props);
      FreshBelow(before, n1, node.id, L);
      var complete := BuildEntries(tree, cmp, es, currentPath, relativePath, node.id, Intact(entry));
      ghost var n2 := tree.nodes;
      if complete {
        SortReady(tree.idOf, cmp, es, currentPath, relativePath, node.id, Intact(entry), n1, tree.nodes);
        SortChildren(tree, cmp, node.id);
      }
      DirBuilt(tree.idOf, cmp, entry, currentPath, relativePath, parentId, before, n1, n2, tree.nodes, complete);
      AppendAssoc(old(tree.order), [node.id], L);
    } else {
      LeafBuilt(tree.idOf, cmp, entry, currentPath, relativePath, parentId, before, tree.nodes);
    }
  }

  /** The loop of `buildTreeRecursively` over a directory's listing `es`, its
      node `own` just added: build each visible entry in listing order. A
      child whose `fs.stat` throws ends the loop; `complete` is whether the
      loop ran to its end. */
  method BuildEntries(tree: FolderTree, cmp: (string, string) -> int, es: seq<Entry>, currentPath: string,
                      relativePath: string, own: string, ghost intact: bool) returns (complete: bool)
    requires tree.Valid() && TotalPreorder(cmp) && IdsNonEmpty(tree.idOf)
    requires WellNamed(Dir(Listed(es))) && (intact ==> Intact(Dir(Listed(es))))
    requires own in tree.nodes && tree.nodes[own].childrenIds == []
    requires Room(tree.idOf, es, currentPath, own, tree.nodes)
    modifies tree
    decreases es, 1
    ensures complete <==> Reached(es) == |es|
    ensures tree.Valid() && tree.rootId == old(tree.rootId)
    ensures tree.order == old(tree.order) + ListingIds(tree.idOf, es, Reached(es), currentPath)
    ensures Progress(tree.idOf, cmp, es, currentPath, relativePath, own, intact, old(tree.nodes), tree.nodes, Reached(es))
  {
    ghost var n0, o0 := tree.nodes, tree.order;
    assert n0[own].(childrenIds := []) == n0[own];
    var i := 0;
    // `Progress(..) == true` keeps the loop state one fact, matched whole
    // against the contract of `BuildEntry` rather than piece by piece.
    while i < |es|
      invariant i <= |es| && tree.Valid() && tree.rootId == old(tree.rootId)
      invariant tree.order == o0 + ListingIds(tree.idOf, es, i, currentPath)
      invariant Progress(tree.idOf, cmp, es, currentPath, relativePath, own, intact, n0, tree.nodes, i) == true
    {
      var threw := BuildEntry(tree, cmp, es, i, currentPath, relativePath, own, intact, n0, o0);
      if threw {
        return false;
      }
      i := i + 1;
    }
    return true;
  }

  /** One pass of the loop: entry `i` of the listing is skipped when hidden
      and built otherwise; `threw` is whether its `fs.stat` threw, which
      leaves everything as it was and ends the loop. */
  method BuildEntry(tree: FolderTree, cmp: (string, string) -> int, es: seq<Entry>, i: nat, currentPath: string,
                    relativePath: string, own: string, ghost intact: bool,
                    ghost n0: map<string, TreeNode>, ghost o0: seq<string>) returns (threw: bool)
    requires tree.Valid() && TotalPreorder(cmp) && IdsNonEmpty(tree.idOf) && i < |es|
    requires WellNamed(Dir(Listed(es))) && (intact ==> Intact(Dir(Listed(es))))
    requires Room(tree.idOf, es, currentPath, own, n0)
    requires tree.order == o0 + ListingIds(tree.idOf, es, i, currentPath)
    requires Progress(tree.idOf, cmp, es, currentPath, relativePath, own, intact, n0, tree.nodes, i) == true
    modifies tree
    decreases es, 0
    ensures tree.Valid() && tree.rootId == old(tree.rootId)
    ensures threw <==> Fails(es[i])
    ensures threw ==> i == Reached(es) && tree.nodes == old(tree.nodes) && tree.order == old(tree.order)
    ensures !threw ==> tree.order == o0 + ListingIds(tree.idOf, es, i + 1, currentPath)
    ensures !threw ==> (Progress(tree.idOf, cmp, es, currentPath, relativePath, own, intact, n0, tree.nodes, i + 1) == true)
  {
    ListingStep(tree.idOf, es, i, currentPath);
    ReachedPast(es, i);
    if Hidden(es[i].name) {
      HiddenStep(tree.idOf, cmp, es, currentPath, relativePath, own, intact, n0, tree.nodes, i);
      return false;
    }
    var entryPath := Paths.Join(currentPath, es[i].name);
    var entryRelative := Paths.Join(relativePath, es[i].name);
    ChildFresh(tree.idOf, es, i, currentPath, n0, tree.nodes);
    ghost var before, L := tree.nodes, ListingIds(tree.idOf, es, i, currentPath);
    threw := BuildTree(tree, cmp, es[i].entry, entryPath, entryRelative, Some(own));
    if threw {
      return;
    }
    LoopStep(tree.idOf, cmp, es, i, currentPath, relativePath, own, intact, n0, before, tree.nodes);
    AppendAssoc(o0, L, EntryIds(tree.idOf, es, i, currentPath));
  }

  /** The end of the `try` block once the loop ran to its end: the children
      of `own`, looked up, sorted and stored back as ids. */
  method SortChildren(tree: FolderTree, cmp: (string, string) -> int, own: string)
    requires tree.Valid() && TotalPreorder(cmp) && own in tree.nodes
    requires forall c :: c in tree.nodes[own].childrenIds ==> c in tree.nodes && tree.nodes[c].id == c && c != own
    modifies tree
    ensures tree.Valid() && tree.order == old(tree.order) && tree.rootId == old(tree.rootId)
    ensures Resorted(cmp, own, old(tree.nodes), tree.nodes)
  {
    SortStep(cmp, tree.nodes, own);
    var children := tree.GetChildren(tree.nodes[own]);
    var sorted := SortNodes(cmp, children);
    tree.nodes := tree.nodes[own := tree.nodes[own].(childrenIds := IdsOf(sorted))];
  }

  /** The message of the error `fs.stat` throws for a path that does not exist. */
  function StatError(path: string): string {
    "ENOENT: no such file or directory, stat '" + path + "'"
  }

  /** `create`: `absolutePath` is `path.resolve(folderPath)` and `root` what
      the filesystem holds there. A missing path rejects with the error of
      `fs.stat`, one that is not a directory with the not-a-directory error;
      a directory gives a new tree holding the directory's subtree, rooted at
      the directory's node. */
  method Create(idOf: string -> string, cmp: (string, string) -> int, folderPath: string, absolutePath: string,
                root: FsEntry) returns (r: Result<FolderTree>)
    requires TotalPreorder(cmp) && IdsNonEmpty(idOf) && WellNamed(root)
    requires Distinct(SubtreeIds(idOf, root, absolutePath))
    ensures r.Ok? <==> root.Dir?
    ensures root.Missing? ==> r == Err(StatError(absolutePath))
    ensures !root.Missing? && !root.Dir? ==> r == Err("Path " + folderPath + " is not a directory")
    ensures r.Ok? ==>
      && fresh(r.value) && r.value.Valid() && r.value.idOf == idOf
      && r.value.rootId == Some(idOf(absolutePath))
      && r.value.order == SubtreeIds(idOf, root, absolutePath)
      && Built(idOf, cmp, root, absolutePath, [], None, map[], r.value.nodes)
  {
    if root.Missing? {
      return Err(StatError(absolutePath));
    }
    if !root.Dir? {
      return Err("Path " + folderPath + " is not a directory");
    }
    var tree := new FolderTree(idOf);
    var threw := BuildTree(tree, cmp, root, absolutePath, [], None);
    return Ok(tree);
  }
}
