/** The hierarchical view of a Drive state, built top-down from the root over
    an index of children. It terminates and is exact even when some items lie
    on cycles of parents. */
module DriveTree {
  import opened Wrappers
  import opened SortedKeys
  import opened ParentGraph
  import opened DriveModel

  datatype TreeNode = TreeNode(
    id: Id, name: string, kind: Kind, owner: Id, revision: nat, fullPath: string,
    properties: Properties, children: seq<TreeNode>)

  /** An index from parent id to the ids of its children. */
  type ChildIndex = map<Id, seq<Id>>

  function Lookup(index: ChildIndex, p: Id): seq<Id> {
    if p in index then index[p] else []
  }

  ghost predicate Indexes(index: ChildIndex, items: Items) {
    forall p :: Lookup(index, p) == Kids(items, p)
  }

  ghost predicate Rooted(items: Items) {
    KeysMatch(items) && ROOT in items && items[ROOT].parent == None
  }

  /** x lies k links below the root. */
  ghost predicate AtDepth(items: Items, x: Id, k: nat) {
    Anc(Up(items), x, k) == Some(ROOT)
  }

  lemma DepthBound(items: Items, x: Id, k: nat)
    requires Rooted(items) && AtDepth(items, x, k)
    ensures k < |items| && x in items
  {
    var up := Up(items);
    AncAdd(up, x, k, 1);
    assert Anc(up, x, k + 1) == None;
    EndsIffNoCycleAbove(up, x);
    ChainBound(up, x, k);
    SubsetCardinality(up.Keys, items.Keys - {ROOT});
  }

  lemma DepthUnique(items: Items, x: Id, j: nat, k: nat)
    requires Rooted(items) && AtDepth(items, x, j) && AtDepth(items, x, k)
    ensures j == k
  {
    var up := Up(items);
    if j < k {
      AncAdd(up, x, j, k - j);
    } else if k < j {
      AncAdd(up, x, k, j - k);
    }
  }

  lemma KidDepth(items: Items, p: Id, depth: nat)
    requires Rooted(items) && AtDepth(items, p, depth)
    ensures forall j :: 0 <= j < |Kids(items, p)| ==>
              Kids(items, p)[j] in items && AtDepth(items, Kids(items, p)[j], depth + 1)
  {
    KidsMeaning(items, p);
    forall j | 0 <= j < |Kids(items, p)|
      ensures Kids(items, p)[j] in items && AtDepth(items, Kids(items, p)[j], depth + 1)
    {
      assert Kids(items, p)[j] in Kids(items, p);
    }
  }

  ghost predicate Ready(items: Items, index: ChildIndex) {
    Rooted(items) && Indexes(index, items)
  }

  function BuildTreeNode(items: Items, index: ChildIndex, id: Id, path: string, ghost depth: nat): (t: TreeNode)
    requires Ready(items, index) && AtDepth(items, id, depth)
    ensures t.id == id && t.fullPath == path
    decreases |items| - depth
  {
    DepthBound(items, id, depth);
    KidDepth(items, id, depth);
    var item := items[id];
    var kids := Lookup(index, item.id);
    TreeNode(item.id, item.name, item.kind, item.owner, item.revision, path, item.properties,
             seq(|kids|, j requires 0 <= j < |kids| =>
               BuildTreeNode(items, index, kids[j], path + "/" + items[kids[j]].name, depth + 1)))
  }

  // ---------------------------------------------------------------------
  // What the tree contains
  // ---------------------------------------------------------------------

  /** The ids of a tree with their paths, in preorder. */
  function Nodes(t: TreeNode): seq<(Id, string)>
    decreases t
  {
    [(t.id, t.fullPath)] + AllNodes(t.children)
  }

  function AllNodes(ts: seq<TreeNode>): seq<(Id, string)>
    decreases ts
  {
    if ts == [] then [] else Nodes(ts[0]) + AllNodes(ts[1..])
  }

  /** The path of an item at depth k, going up from the item. */
  ghost function PathOf(items: Items, x: Id, k: nat): string
    requires Rooted(items) && AtDepth(items, x, k)
    decreases k
  {
    if k == 0 then items[ROOT].name
    else PathOf(items, Up(items)[x], k - 1) + "/" + items[x].name
  }

  predicate Lists(ns: seq<(Id, string)>, x: Id) {
    exists j :: 0 <= j < |ns| && ns[j].0 == x
  }

  predicate DistinctIds(ns: seq<(Id, string)>) {
    forall i, j :: 0 <= i < j < |ns| ==> ns[i].0 != ns[j].0
  }

  ghost predicate PathsRight(items: Items, ns: seq<(Id, string)>)
    requires Rooted(items)
  {
    forall j, k: nat :: 0 <= j < |ns| && AtDepth(items, ns[j].0, k) ==> ns[j].1 == PathOf(items, ns[j].0, k)
  }

  /** The tree holds every item whose chain of parents reaches the root, each
      exactly once and under the names along that chain, and nests as the items do. */
  ghost predicate IsTreeOf(items: Items, t: TreeNode)
    requires Rooted(items)
  {
    t.id == ROOT && Covers(items, Nodes(t), ROOT) && Mirrors(items, t)
  }

  /** Every node shows its item, and its children are that item's, in id order. */
  ghost predicate Mirrors(items: Items, t: TreeNode)
    decreases t
  {
    && t.id in items
    && var item := items[t.id];
    && t.name == item.name && t.kind == item.kind && t.owner == item.owner
    && t.revision == item.revision && t.properties == item.properties
    && |t.children| == |Kids(items, t.id)|
    && forall j :: 0 <= j < |t.children| ==>
         t.children[j].id == Kids(items, t.id)[j] && Mirrors(items, t.children[j])
  }

  /** The list holds exactly the subtree of `top`, each item once, with its path. */
  ghost predicate Covers(items: Items, ns: seq<(Id, string)>, top: Id)
    requires Rooted(items)
  {
    && (forall x :: Lists(ns, x) <==> Below(Up(items), x, top))
    && DistinctIds(ns)
    && PathsRight(items, ns)
  }

  /** The same for the subtrees of several items. */
  ghost predicate CoversAll(items: Items, ns: seq<(Id, string)>, tops: seq<Id>)
    requires Rooted(items)
  {
    && (forall x :: Lists(ns, x) <==> exists c :: c in tops && Below(Up(items), x, c))
    && DistinctIds(ns)
    && PathsRight(items, ns)
  }

  /** A proper descendant is a descendant of a child. */
  lemma BelowThroughKid(items: Items, x: Id, t: Id)
    ensures Below(Up(items), x, t) <==> x == t || exists c :: c in Kids(items, t) && Below(Up(items), x, c)
  {
    var up := Up(items);
    KidsMeaning(items, t);
    BelowParent(up, x);
    if Below(up, x, t) && x != t {
      var k: nat :| Anc(up, x, k) == Some(t);
      AncLast(up, x, k);
      var c := Anc(up, x, k - 1).value;
      assert c in Kids(items, t) && Below(up, x, c);
    }
    forall c | c in Kids(items, t) && Below(up, x, c) ensures Below(up, x, t) {
      BelowParent(up, c);
      BelowTrans(up, x, c, t);
    }
  }

  /** Subtrees of items at the same depth do not meet. */
  lemma SameDepthDisjoint(items: Items, x: Id, a: Id, b: Id, depth: nat)
    requires Rooted(items) && AtDepth(items, a, depth) && AtDepth(items, b, depth)
    requires Below(Up(items), x, a) && Below(Up(items), x, b)
    ensures a == b
  {
    var up := Up(items);
    var i: nat :| Anc(up, x, i) == Some(a);
    var j: nat :| Anc(up, x, j) == Some(b);
    AncAdd(up, x, i, depth);
    AncAdd(up, x, j, depth);
    DepthUnique(items, x, i + depth, j + depth);
  }

  lemma NotBelowDeeper(items: Items, x: Id, c: Id, depth: nat)
    requires Rooted(items) && AtDepth(items, x, depth) && AtDepth(items, c, depth + 1)
    ensures !Below(Up(items), x, c)
  {
    if Below(Up(items), x, c) {
      var i: nat :| Anc(Up(items), x, i) == Some(c);
      AncAdd(Up(items), x, i, depth + 1);
      DepthUnique(items, x, depth, i + depth + 1);
    }
  }

  lemma ListsAppend(a: seq<(Id, string)>, b: seq<(Id, string)>, x: Id)
    ensures Lists(a + b, x) <==> Lists(a, x) || Lists(b, x)
  {
    if Lists(a, x) {
      var j :| 0 <= j < |a| && a[j].0 == x;
      assert (a + b)[j].0 == x;
    }
    if Lists(b, x) {
      var j :| 0 <= j < |b| && b[j].0 == x;
      assert (a + b)[|a| + j].0 == x;
    }
  }

  lemma DistinctIdsAppend(a: seq<(Id, string)>, b: seq<(Id, string)>)
    requires DistinctIds(a) && DistinctIds(b)
    requires forall x :: Lists(a, x) ==> !Lists(b, x)
    ensures DistinctIds(a + b)
  {
    forall i, j | 0 <= i < j < |a + b| ensures (a + b)[i].0 != (a + b)[j].0 {
      if i < |a| <= j {
        assert Lists(a, a[i].0);
        assert b[j - |a|].0 == (a + b)[j].0;
      }
    }
  }

  lemma AddTop(items: Items, id: Id, path: string, depth: nat, rest: seq<(Id, string)>)
    requires Rooted(items) && AtDepth(items, id, depth) && path == PathOf(items, id, depth)
    requires CoversAll(items, rest, Kids(items, id))
    ensures Covers(items, [(id, path)] + rest, id)
  {
    hide Kids, Up, Below, PathOf;
    var top := [(id, path)];
    KidDepth(items, id, depth);
    assert forall c :: c in Kids(items, id) ==> AtDepth(items, c, depth + 1);
    forall x ensures Lists(top, x) <==> x == id {
      assert top[0].0 == id;
    }
    forall x ensures Lists(top + rest, x) <==> Below(Up(items), x, id) {
      BelowThroughKid(items, x, id);
      ListsAppend(top, rest, x);
    }
    forall c | c in Kids(items, id) ensures !Below(Up(items), id, c) {
      NotBelowDeeper(items, id, c, depth);
    }
    DistinctIdsAppend(top, rest);
    forall k: nat | AtDepth(items, id, k) ensures path == PathOf(items, id, k) {
      DepthUnique(items, id, depth, k);
    }
  }

  ghost predicate KidsAt(items: Items, kids: seq<Id>, depth: nat) {
    Distinct(kids) && forall c :: c in kids ==> AtDepth(items, c, depth)
  }

  lemma AddSibling(items: Items, kids: seq<Id>, depth: nat, first: seq<(Id, string)>, rest: seq<(Id, string)>)
    requires Rooted(items) && KidsAt(items, kids, depth) && kids != []
    requires Covers(items, first, kids[0]) && CoversAll(items, rest, kids[1..])
    ensures CoversAll(items, first + rest, kids)
  {
    hide Up, Below, PathOf;
    var child, others := kids[0], kids[1..];
    assert kids == [child] + others && child in kids && child !in others;
    forall x ensures Lists(first + rest, x) <==> exists c :: c in kids && Below(Up(items), x, c) {
      ListsAppend(first, rest, x);
    }
    forall x, c | c in others && Below(Up(items), x, child) ensures !Below(Up(items), x, c) {
      assert c in kids;
      if Below(Up(items), x, c) {
        SameDepthDisjoint(items, x, child, c, depth);
      }
    }
    DistinctIdsAppend(first, rest);
  }

  lemma {:induction false} GatherKids(items: Items, kids: seq<Id>, depth: nat, ts: seq<TreeNode>)
    requires Rooted(items) && KidsAt(items, kids, depth)
    requires |ts| == |kids| && forall j :: 0 <= j < |ts| ==> Covers(items, Nodes(ts[j]), kids[j])
    ensures CoversAll(items, AllNodes(ts), kids)
  {
    if kids != [] {
      hide Covers, CoversAll, Rooted, AtDepth, Nodes;
      assert forall c :: c in kids[1..] ==> c in kids;
      GatherKids(items, kids[1..], depth, ts[1..]);
      AddSibling(items, kids, depth, Nodes(ts[0]), AllNodes(ts[1..]));
    }
  }

  lemma PathOfChild(items: Items, p: Id, c: Id, depth: nat)
    requires Rooted(items) && AtDepth(items, p, depth) && AtDepth(items, c, depth + 1)
    requires c in Up(items) && Up(items)[c] == p
    ensures c in items && PathOf(items, c, depth + 1) == PathOf(items, p, depth) + "/" + items[c].name
  {
  }

  /** The tree built at a node lists exactly the subtree of that node, once. */
  lemma {:induction false} NodesOfTree(items: Items, index: ChildIndex, id: Id, path: string, depth: nat)
    requires Ready(items, index) && AtDepth(items, id, depth)
    requires path == PathOf(items, id, depth)
    ensures Covers(items, Nodes(BuildTreeNode(items, index, id, path, depth)), id)
    decreases |items| - depth
  {
    hide Covers, CoversAll, PathOf, Up, Kids, Below;
    DepthBound(items, id, depth);
    KidDepth(items, id, depth);
    KidsMeaning(items, id);
    var kids := Kids(items, id);
    var t := BuildTreeNode(items, index, id, path, depth);
    forall j | 0 <= j < |kids| ensures Covers(items, Nodes(t.children[j]), kids[j]) {
      assert kids[j] in kids;
      PathOfChild(items, id, kids[j], depth);
      NodesOfTree(items, index, kids[j], path + "/" + items[kids[j]].name, depth + 1);
    }
    GatherKids(items, kids, depth + 1, t.children);
    AddTop(items, id, path, depth, AllNodes(t.children));
  }

  lemma {:induction false} TreeMirrors(items: Items, index: ChildIndex, id: Id, path: string, depth: nat)
    requires Ready(items, index) && AtDepth(items, id, depth)
    ensures Mirrors(items, BuildTreeNode(items, index, id, path, depth))
    decreases |items| - depth
  {
    hide Up, Kids;
    DepthBound(items, id, depth);
    KidDepth(items, id, depth);
    var kids := Kids(items, id);
    var t := BuildTreeNode(items, index, id, path, depth);
    forall j | 0 <= j < |kids| ensures Mirrors(items, t.children[j]) {
      TreeMirrors(items, index, kids[j], path + "/" + items[kids[j]].name, depth + 1);
    }
  }

  /** The tree built from the root is the tree of the items. */
  lemma TreeExact(items: Items, index: ChildIndex)
    requires Ready(items, index)
    ensures AtDepth(items, ROOT, 0)
    ensures IsTreeOf(items, BuildTreeNode(items, index, ROOT, items[ROOT].name, 0))
  {
    assert AtDepth(items, ROOT, 0);
    NodesOfTree(items, index, ROOT, items[ROOT].name, 0);
    TreeMirrors(items, index, ROOT, items[ROOT].name, 0);
  }
}
