/** The assertion library's view of folder paths: a bottom-up walk over a
    snapshot's folder list, and its agreement with the top-down tree. */
module FolderPaths {
  import opened Wrappers
  import opened SortedKeys
  import opened ParentGraph
  import opened DriveModel
  import opened DriveTree

  datatype FolderEntry = FolderEntry(id: Id, name: string, parent: Option<Id>)

  type Folders = map<Id, FolderEntry>

  /** The folders by id; a later entry replaces an earlier one with its id. */
  function ById(folders: seq<FolderEntry>): Folders {
    if folders == [] then map[]
    else
      var last := folders[|folders| - 1];
      ById(folders[..|folders| - 1])[last.id := last]
  }

  /** The steps the walk takes: it stops at an empty id and at an unknown one. */
  function WalkLinks(byId: Folders): Links {
    map x | x in byId && x != "" && byId[x].parent.Some? && byId[x].parent.value != "" && byId[x].parent.value in byId
      :: byId[x].parent.value
  }

  function Kept(name: string): seq<string> {
    if name == "" || name == "root" then [] else [name]
  }

  /** The names the walk keeps, topmost first; n bounds the length of the walk. */
  ghost function Names(byId: Folders, x: Id, n: nat): seq<string>
    requires x in byId && Anc(WalkLinks(byId), x, n) == None
    decreases n
  {
    if x == "" then []
    else if x in WalkLinks(byId) then Names(byId, WalkLinks(byId)[x], n - 1) + Kept(byId[x].name)
    else Kept(byId[x].name)
  }

  /** A name is skipped exactly if it is empty or "root". */
  lemma KeptMeaning(name: string)
    ensures Kept(name) == if name in ["", "root"] then [] else [name]
  {
  }

  function Join(parts: seq<string>): string {
    if |parts| <= 1 then (if parts == [] then "" else parts[0])
    else Join(parts[..|parts| - 1]) + "/" + parts[|parts| - 1]
  }

  function Reversed(s: seq<string>): seq<string> {
    if s == [] then [] else [s[|s| - 1]] + Reversed(s[..|s| - 1])
  }

  /** The walk from every folder. It ends for a folder exactly when the walk
      links above it do not run into a cycle; see ParentGraph.EndsIffNoCycleAbove. */
  method FolderPathById(folders: seq<FolderEntry>) returns (paths: map<Id, string>)
    requires forall x :: x in ById(folders) ==> Ends(WalkLinks(ById(folders)), x)
    ensures paths.Keys == ById(folders).Keys
    ensures forall x, n: nat :: x in paths && Anc(WalkLinks(ById(folders)), x, n) == None ==>
              paths[x] == Join(Names(ById(folders), x, n))
  {
    var byId: Folders := map[];
    for i := 0 to |folders|
      invariant byId == ById(folders[..i])
    {
      assert folders[..i + 1][..i] == folders[..i];
      byId := byId[folders[i].id := folders[i]];
    }
    assert folders[..|folders|] == folders;
    paths := map[];
    var todo := byId.Keys;
    while todo != {}
      invariant todo <= byId.Keys && paths.Keys == byId.Keys - todo
      invariant forall x, n: nat :: x in paths && Anc(WalkLinks(byId), x, n) == None ==>
                  paths[x] == Join(Names(byId, x, n))
      decreases todo
    {
      var id :| id in todo;
      todo := todo - {id};
      var path := PathOfFolder(byId, id);
      paths := paths[id := path];
    }
  }

  /** The guard of the walk. */
  predicate Walking(byId: Folders, cursor: Option<Id>) {
    cursor.Some? && cursor.value != "" && cursor.value in byId
  }

  /** The names still to be collected from the cursor on. */
  ghost function Left(byId: Folders, cursor: Option<Id>, n: nat): seq<string>
    requires Walking(byId, cursor) ==> Anc(WalkLinks(byId), cursor.value, n) == None
  {
    if Walking(byId, cursor) then Names(byId, cursor.value, n) else []
  }

  method PathOfFolder(byId: Folders, id: Id) returns (path: string)
    requires id in byId && Ends(WalkLinks(byId), id)
    ensures forall n: nat :: Anc(WalkLinks(byId), id, n) == None ==> path == Join(Names(byId, id, n))
  {
    hide Names, Left, Reversed, Join, Anc, Kept;
    ghost var n0: nat :| Anc(WalkLinks(byId), id, n0) == None;
    ghost var n := n0;
    var parts: seq<string> := [];
    var cursor := Some(id);
    WalkStart(byId, id, n);
    while cursor.Some? && cursor.value != "" && cursor.value in byId
      invariant Walking(byId, cursor) ==> Anc(WalkLinks(byId), cursor.value, n) == None
      invariant Names(byId, id, n0) == Left(byId, cursor, n) + Reversed(parts)
      decreases Walking(byId, cursor), n
    {
      var folder := byId[cursor.value];
      WalkStep(byId, cursor.value, n);
      ReversedKept(parts, folder.name);
      ghost var n' := if cursor.value in WalkLinks(byId) then n - 1 else n;
      assert Names(byId, id, n0)
          == Left(byId, folder.parent, n') + (Kept(folder.name) + Reversed(parts));
      if folder.name != "" && folder.name != "root" {
        parts := parts + [folder.name];
      }
      n := n';
      cursor := folder.parent;
    }
    path := Join(Reversed(parts));
    WalkDone(byId, cursor, n, Reversed(parts));
    forall m: nat | Anc(WalkLinks(byId), id, m) == None ensures Names(byId, id, m) == Names(byId, id, n0) {
      NamesSame(byId, id, m, n0);
    }
  }

  lemma WalkStart(byId: Folders, id: Id, n: nat)
    requires id in byId && Anc(WalkLinks(byId), id, n) == None
    ensures Names(byId, id, n) == Left(byId, Some(id), n) + Reversed([])
  {
    assert Left(byId, Some(id), n) + [] == Left(byId, Some(id), n);
  }

  lemma WalkDone(byId: Folders, cursor: Option<Id>, n: nat, found: seq<string>)
    requires !Walking(byId, cursor)
    ensures Left(byId, cursor, n) + found == found
  {
    assert [] + found == found;
  }

  lemma WalkStep(byId: Folders, x: Id, n: nat)
    requires x in byId && x != "" && Anc(WalkLinks(byId), x, n) == None
    ensures var n' := if x in WalkLinks(byId) then n - 1 else n; var next := byId[x].parent;
      && n' >= 0
      && (Walking(byId, next) ==> x in WalkLinks(byId) && Anc(WalkLinks(byId), next.value, n') == None)
      && Left(byId, Some(x), n) == Left(byId, next, n') + Kept(byId[x].name)
  {
    assert [] + Kept(byId[x].name) == Kept(byId[x].name);
  }

  lemma ReversedKept(parts: seq<string>, name: string)
    ensures Reversed(if name == "" || name == "root" then parts else parts + [name]) == Kept(name) + Reversed(parts)
  {
    if Kept(name) != [] {
      assert (parts + [name])[..|parts|] == parts;
    }
  }

  lemma {:induction false} NamesSame(byId: Folders, x: Id, m: nat, n: nat)
    requires x in byId && Anc(WalkLinks(byId), x, m) == None && Anc(WalkLinks(byId), x, n) == None
    ensures Names(byId, x, m) == Names(byId, x, n)
    decreases m
  {
    if x != "" && x in WalkLinks(byId) {
      NamesSame(byId, WalkLinks(byId)[x], m - 1, n - 1);
    }
  }

  // ---------------------------------------------------------------------
  // Agreement with the tree
  // ---------------------------------------------------------------------

  predicate IsFolder(items: Items, x: Id) {
    x in items && items[x].kind == Folder
  }

  /** The folder list of a snapshot, in item order. */
  function Snapshot(items: Items, keys: seq<Id>): seq<FolderEntry> {
    if keys == [] then []
    else
      var last := keys[|keys| - 1];
      Snapshot(items, keys[..|keys| - 1])
      + if IsFolder(items, last) then [FolderEntry(last, items[last].name, items[last].parent)] else []
  }

  lemma {:induction false} SnapshotById(items: Items, keys: seq<Id>)
    ensures ById(Snapshot(items, keys))
         == map x | x in keys && IsFolder(items, x) :: FolderEntry(x, items[x].name, items[x].parent)
  {
    if keys != [] {
      var init, last := keys[..|keys| - 1], keys[|keys| - 1];
      SnapshotById(items, init);
      assert keys == init + [last];
      var s := Snapshot(items, init);
      if IsFolder(items, last) {
        var f := FolderEntry(last, items[last].name, items[last].parent);
        assert (s + [f])[..|s|] == s;
      } else {
        assert s + [] == s;
      }
    }
  }

  /** The folders of a state as the assertion library indexes them. */
  function SnapshotFolders(items: Items): Folders {
    map x | x in items && IsFolder(items, x) :: FolderEntry(x, items[x].name, items[x].parent)
  }

  lemma SnapshotOfState(items: Items)
    ensures ById(Snapshot(items, Sorted(items.Keys))) == SnapshotFolders(items)
  {
    SnapshotById(items, Sorted(items.Keys));
  }

  /** Going up from a folder, the walk follows the parent links until it meets
      an empty id. */
  lemma {:induction false} WalkAnc(items: Items, x: Id, k: nat)
    requires Structured(items) && IsFolder(items, x)
    requires forall j: nat :: j <= k ==> Anc(Up(items), x, j) != Some("")
    ensures Anc(WalkLinks(SnapshotFolders(items)), x, k) == Anc(Up(items), x, k)
    decreases k
  {
    assert Anc(Up(items), x, 0) == Some(x);
    if k > 0 && x in Up(items) {
      var p := Up(items)[x];
      assert Anc(Up(items), x, 1) == Anc(Up(items), p, 0);
      forall j: nat | j <= k - 1 ensures Anc(Up(items), p, j) != Some("") {
        assert Anc(Up(items), x, j + 1) == Anc(Up(items), p, j);
      }
      WalkAnc(items, p, k - 1);
    }
  }

  /** The walk from a folder ends exactly when its chain of parents ends or
      passes through a folder whose id is empty. */
  lemma WalkEnds(items: Items, x: Id)
    requires Structured(items) && IsFolder(items, x)
    ensures Ends(WalkLinks(SnapshotFolders(items)), x) <==> Ends(Up(items), x) || Below(Up(items), x, "")
  {
    hide Structured;
    var up, walk := Up(items), WalkLinks(SnapshotFolders(items));
    if Below(up, x, "") {
      var j := FirstVisit(up, x, "");
      if j == 0 {
        assert Anc(walk, "", 1) == None;
      } else {
        AncLast(up, x, j);
        WalkAnc(items, x, j - 1);
        AncAdd(walk, x, j - 1, 1);
        assert Anc(walk, Anc(walk, x, j - 1).value, 1) == None;
        assert Anc(walk, x, j) == None;
      }
    } else {
      forall k: nat ensures Anc(walk, x, k) == Anc(up, x, k) {
        WalkAnc(items, x, k);
      }
      if Ends(up, x) {
        var k: nat :| Anc(up, x, k) == None;
        assert Anc(walk, x, k) == None;
      }
      if Ends(walk, x) {
        var k: nat :| Anc(walk, x, k) == None;
        assert Anc(up, x, k) == None;
      }
    }
  }

  /** No folder on the chain from x to the root is skipped by the walk. */
  ghost predicate AllKept(items: Items, x: Id, k: nat)
    requires Rooted(items) && AtDepth(items, x, k)
    decreases k
  {
    DepthBound(items, x, k);
    && x != "" && Kept(items[x].name) != []
    && (k > 0 ==> AllKept(items, Up(items)[x], k - 1))
  }

  lemma JoinSnoc(parts: seq<string>, name: string)
    ensures Join(parts + [name]) == if parts == [] then name else Join(parts) + "/" + name
  {
    assert (parts + [name])[..|parts|] == parts;
  }

  lemma AppendSame(a: string, b: string, c: string)
    ensures a + c == b + c ==> a == b
  {
    if a + c == b + c {
      assert |a| == |b|;
      assert a == (a + c)[..|a|] == (b + c)[..|b|] == b;
    }
  }

  /** One level of the comparison, on the strings alone. */
  lemma CompareLevel(above: seq<string>, path: string, name: string, keptAbove: bool)
    requires |Join(above)| <= |path|
    requires above != [] && Join(above) == path <==> keptAbove
    ensures var here := above + Kept(name); var full := path + "/" + name;
      && |Join(here)| <= |full|
      && (Join(here) == full <==> keptAbove && Kept(name) != [])
      && (Join(here) == full ==> here != [])
  {
    hide Join;
    JoinSnoc(above, name);
    if above != [] {
      AppendSame(Join(above), path, "/" + name);
      assert Join(above) + "/" + name == Join(above) + ("/" + name);
      assert path + "/" + name == path + ("/" + name);
    }
    assert above + [] == above;
  }

  lemma {:induction false} CompareChain(items: Items, x: Id, k: nat, n: nat)
    requires Structured(items) && IsFolder(items, x) && AtDepth(items, x, k)
    requires Anc(WalkLinks(SnapshotFolders(items)), x, n) == None
    ensures var names := Names(SnapshotFolders(items), x, n); var path := PathOf(items, x, k);
      && |Join(names)| <= |path|
      && (names != [] && Join(names) == path <==> AllKept(items, x, k))
      && (k > 0 ==> (Join(names) == path <==> AllKept(items, x, k)))
    decreases k
  {
    var byId := SnapshotFolders(items);
    var walk := WalkLinks(byId);
    if k > 0 && x != "" {
      var p := Up(items)[x];
      assert FolderAt(items, p);
      if p == "" {
        assert x !in walk;
        CompareLevel([], PathOf(items, p, k - 1), items[x].name, false);
        assert [] + Kept(items[x].name) == Kept(items[x].name);
      } else {
        assert x in walk && walk[x] == p;
        CompareChain(items, p, k - 1, n - 1);
        CompareLevel(Names(byId, p, n - 1), PathOf(items, p, k - 1), items[x].name, AllKept(items, p, k - 1));
      }
    }
  }

  /** The bottom-up path of a folder is its path in the tree exactly when no
      folder on its chain has the empty id, the empty name or the name "root",
      or the folder is the root itself and has the empty name. */
  lemma PathsAgree(items: Items, x: Id, k: nat, n: nat)
    requires Structured(items) && IsFolder(items, x) && AtDepth(items, x, k)
    requires Anc(WalkLinks(SnapshotFolders(items)), x, n) == None
    ensures Join(Names(SnapshotFolders(items), x, n)) == PathOf(items, x, k)
       <==> AllKept(items, x, k) || (x == ROOT && items[ROOT].name == "")
  {
    CompareChain(items, x, k, n);
    if x == ROOT {
      assert AtDepth(items, x, 0);
      DepthUnique(items, x, 0, k);
    }
  }

  /** One accepted request, for a folder named "root", leads to a state in which
      the two paths of that folder differ. */
  lemma FolderNamedRoot()
    ensures var o := Apply(DefaultState(), CreateFolder("system", ROOT, "root"));
            var items, x := o.state.items, NewId(1);
      && o.result.Ok? && Structured(items) && IsFolder(items, x) && AtDepth(items, x, 1)
      && exists n: nat :: Anc(WalkLinks(SnapshotFolders(items)), x, n) == None
           && Join(Names(SnapshotFolders(items), x, n)) != PathOf(items, x, 1)
  {
    var o := Apply(DefaultState(), CreateFolder("system", ROOT, "root"));
    var items, x := o.state.items, NewId(1);
    assert x[0] == 'i' && ROOT[0] == 'r';
    assert Up(items)[x] == ROOT && ROOT !in Up(items);
    assert Anc(Up(items), x, 1) == Anc(Up(items), ROOT, 0);
    assert Anc(Up(items), x, 2) == Anc(Up(items), ROOT, 1) == None;
    WalkEnds(items, x);
    var n: nat :| Anc(WalkLinks(SnapshotFolders(items)), x, n) == None;
    PathsAgree(items, x, 1, n);
  }
}
