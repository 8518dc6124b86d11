/** The Drive twin service: mutable maps and the methods that handle requests,
    each held to the value-level specification in DriveModel. */
module DriveTwin {
  import opened Wrappers
  import opened SortedKeys
  import opened ParentGraph
  import opened DriveModel
  import opened DriveInvariants
  import opened DriveDelete
  import opened DriveTree
  import opened DriveSeeding

  ghost function Ids(queue: seq<Id>): set<Id> {
    set x | x in queue
  }

  class DriveTwinService {
    var items: Items
    var content: map<Id, Bytes>
    var nextId: nat

    ghost function Abs(): State
      reads this
    {
      State(items, content, nextId)
    }

    constructor ()
      ensures Abs() == DefaultState()
    {
      items := map[ROOT := DefaultRoot()];
      content := map[];
      nextId := 1;
    }

    method NewItemId() returns (id: Id)
      modifies this`nextId
      ensures id == NewId(old(nextId)) && nextId == Bump(old(nextId))
    {
      id := NewId(nextId);
      nextId := Bump(nextId);
    }

    method CreateFolder(actor: Id, parent: Id, name: string) returns (r: Result<Response>)
      modifies this
      ensures Outcome(Abs(), r) == Apply(old(Abs()), Request.CreateFolder(actor, parent, name))
    {
      if parent !in items {
        return Err("parent not found");
      }
      if items[parent].kind != Folder {
        return Err("parent must be a folder");
      }
      if !HasRole(items[parent], actor, Editor) {
        return Err("permission denied");
      }
      var id := NewItemId();
      var item := Item(id, name, Folder, Some(parent), actor, [Permission(actor, Owner)], 1,
                       Some(FOLDER_MIME), None, map[]);
      items := items[id := item];
      return Ok(Created(item));
    }

    method CreateFile(actor: Id, parent: Id, name: string) returns (r: Result<Response>)
      modifies this
      ensures Outcome(Abs(), r) == Apply(old(Abs()), Request.CreateFile(actor, parent, name))
    {
      if parent !in items {
        return Err("parent not found");
      }
      if items[parent].kind != Folder {
        return Err("parent must be a folder");
      }
      if !HasRole(items[parent], actor, Editor) {
        return Err("permission denied");
      }
      var id := NewItemId();
      var item := Item(id, name, File, Some(parent), actor, [Permission(actor, Owner)], 1,
                       None, None, map[]);
      items := items[id := item];
      return Ok(Created(item));
    }

    method ListChildren(actor: Id, parent: Id) returns (r: Result<Response>)
      ensures Outcome(Abs(), r) == Apply(Abs(), Request.ListChildren(actor, parent))
    {
      hide HasRole, Kids, Pick;
      if parent !in items {
        return Err("parent not found");
      }
      if !HasRole(items[parent], actor, Viewer) {
        return Err("permission denied");
      }
      var listed := ChildrenOf(parent);
      return Ok(Listed(listed));
    }

    /** The items with a parent, in id order. */
    method ChildrenOf(parent: Id) returns (listed: seq<Item>)
      ensures forall x :: x in Kids(items, parent) ==> x in items
      ensures listed == Pick(items, Kids(items, parent))
    {
      var keys := Sorted(items.Keys);
      listed := [];
      ghost var kids: seq<Id> := [];
      for i := 0 to |keys|
        invariant kids == KidsAmong(keys[..i], items, parent)
        invariant forall x :: x in kids ==> x in items
        invariant listed == Pick(items, kids)
      {
        hide Sorted, KidsAmong, Pick;
        KidsAmongStep(keys, i, items, parent);
        if items[keys[i]].parent == Some(parent) {
          PickStep(items, kids, keys[i]);
          listed := listed + [items[keys[i]]];
          kids := kids + [keys[i]];
        }
      }
      assert keys[..|keys|] == keys;
    }

    static method GrantRole(was: seq<Permission>, target: Id, role: Role) returns (ps: seq<Permission>)
      ensures ps == Grant(was, target, role)
    {
      hide Grant;
      ps := was;
      var i := 0;
      assert was[..0] == [] && was[0..] == was;
      while i < |ps| && ps[i].actor != target
        invariant i <= |ps|
        invariant Grant(was, target, role) == ps[..i] + Grant(ps[i..], target, role)
      {
        GrantStep(ps, i, target, role);
        i := i + 1;
      }
      GrantStep(ps, i, target, role);
      if i < |ps| {
        ps := ps[i := Permission(target, role)];
      } else {
        ps := ps + [Permission(target, role)];
      }
    }

    method SetPermission(actor: Id, id: Id, target: Id, role: Role) returns (r: Result<Response>)
      modifies this
      ensures Outcome(Abs(), r) == Apply(old(Abs()), Request.SetPermission(actor, id, target, role))
    {
      if id !in items {
        return Err("item not found");
      }
      var item := items[id];
      if !HasRole(item, actor, Owner) {
        return Err("only owners can set permissions");
      }
      var ps := GrantRole(item.permissions, target, role);
      item := item.(permissions := ps, revision := item.revision + 1);
      items := items[id := item];
      return Ok(Updated(item));
    }

    method MoveItem(actor: Id, id: Id, newParent: Id) returns (r: Result<Response>)
      modifies this
      ensures Outcome(Abs(), r) == Apply(old(Abs()), Request.MoveItem(actor, id, newParent))
    {
      if newParent !in items {
        return Err("destination parent not found");
      }
      if items[newParent].kind != Folder {
        return Err("destination parent must be a folder");
      }
      if !HasRole(items[newParent], actor, Editor) {
        return Err("permission denied on destination parent");
      }
      if id !in items {
        return Err("item not found");
      }
      var item := items[id];
      if item.id == ROOT {
        return Err("cannot move root");
      }
      if !HasRole(item, actor, Editor) {
        return Err("permission denied");
      }
      item := item.(parent := Some(newParent), revision := item.revision + 1);
      items := items[id := item];
      return Ok(Updated(item));
    }

    method GetItem(actor: Id, id: Id) returns (r: Result<Response>)
      ensures Outcome(Abs(), r) == Apply(Abs(), Request.GetItem(actor, id))
    {
      if id !in items {
        return Err("item not found");
      }
      if !HasRole(items[id], actor, Viewer) {
        return Err("permission denied");
      }
      return Ok(Got(items[id]));
    }

    method UpdateItem(actor: Id, id: Id, newName: Option<string>, moveTo: Option<Id>)
      returns (r: Result<Response>)
      modifies this
      ensures Outcome(Abs(), r) == Apply(old(Abs()), Request.UpdateItem(actor, id, newName, moveTo))
    {
      if moveTo.Some? {
        if moveTo.value !in items {
          return Err("destination parent not found");
        }
        if items[moveTo.value].kind != Folder {
          return Err("destination parent must be a folder");
        }
        if !HasRole(items[moveTo.value], actor, Editor) {
          return Err("permission denied on destination parent");
        }
      }
      if id !in items {
        return Err("item not found");
      }
      var item := items[id];
      if item.id == ROOT && moveTo.Some? {
        return Err("cannot move root");
      }
      if !HasRole(item, actor, Editor) {
        return Err("permission denied");
      }
      var changed := false;
      if newName.Some? {
        item := item.(name := newName.value);
        changed := true;
      }
      if moveTo.Some? {
        item := item.(parent := moveTo);
        changed := true;
      }
      if changed {
        item := item.(revision := item.revision + 1);
      }
      items := items[id := item];
      return Ok(Updated(item));
    }

    method UploadContent(actor: Id, parent: Id, name: string, mimeType: Option<string>,
                         data: Bytes, properties: Properties)
      returns (r: Result<Response>)
      modifies this
      ensures Outcome(Abs(), r)
           == Apply(old(Abs()), Request.UploadContent(actor, parent, name, mimeType, data, properties))
    {
      if parent !in items {
        return Err("parent not found");
      }
      if items[parent].kind != Folder {
        return Err("parent must be a folder");
      }
      if !HasRole(items[parent], actor, Editor) {
        return Err("permission denied");
      }
      var size := |data|;
      var id := NewItemId();
      var mime := match mimeType case Some(m) => m case None => BINARY_MIME;
      var item := Item(id, name, File, Some(parent), actor, [Permission(actor, Owner)], 1,
                       Some(mime), Some(size), properties);
      items := items[id := item];
      content := content[id := data];
      return Ok(ContentCreated(item, size));
    }

    method DownloadContent(actor: Id, id: Id) returns (r: Result<Response>)
      ensures Outcome(Abs(), r) == Apply(Abs(), Request.DownloadContent(actor, id))
    {
      if id !in items {
        return Err("item not found");
      }
      if !HasRole(items[id], actor, Viewer) {
        return Err("permission denied");
      }
      if id !in content {
        return Err("file has no content");
      }
      return Ok(Content(items[id], content[id]));
    }

    /** The child index that deletion and the tree view are built on. */
    method BuildChildIndex() returns (index: ChildIndex)
      requires KeysMatch(items)
      ensures Indexes(index, items)
    {
      hide Sorted;
      var keys := Sorted(items.Keys);
      index := map[];
      assert forall p :: KidsAmong(keys[..0], items, p) == [];
      hide KidsAmong;
      for i := 0 to |keys|
        invariant forall p :: Lookup(index, p) == KidsAmong(keys[..i], items, p)
      {
        var item := items[keys[i]];
        IndexStep(index, items, keys, i);
        if item.parent.Some? {
          var p := item.parent.value;
          index := index[p := Lookup(index, p) + [item.id]];
        }
      }
      assert keys[..|keys|] == keys;
    }

    /** Removes a subtree. The caller must know that the loop ends: see
        DriveDelete.DrainsIffOffCycle. */
    method DeleteItem(actor: Id, id: Id) returns (r: Result<Response>)
      requires KeysMatch(items)
      requires Returns(Abs(), Request.DeleteItem(actor, id))
      modifies this
      ensures Outcome(Abs(), r) == Apply(old(Abs()), Request.DeleteItem(actor, id))
    {
      if id !in items {
        return Err("item not found");
      }
      if items[id].id == ROOT {
        return Err("cannot delete root");
      }
      if !HasRole(items[id], actor, Editor) {
        return Err("permission denied");
      }
      var queue := CollectSubtree(id);
      var i := 0;
      while i < |queue|
        invariant i <= |queue|
        invariant items == old(items) - Ids(queue[..i])
        invariant content == old(content) - Ids(queue[..i])
        invariant nextId == old(nextId)
      {
        assert Ids(queue[..i + 1]) == Ids(queue[..i]) + {queue[i]};
        items := items - {queue[i]};
        content := content - {queue[i]};
        i := i + 1;
      }
      assert queue[..i] == queue;
      return Ok(Deleted(id));
    }

    method CollectSubtree(top: Id) returns (queue: seq<Id>)
      requires KeysMatch(items) && top in items && !OnCycle(Up(items), top)
      ensures Distinct(queue)
      ensures forall x :: x in queue <==> x in Subtree(items, top)
    {
      hide Expanded, Kids, Below, OnCycle, Distinct;
      var index := BuildChildIndex();
      queue := [top];
      var i := 0;
      ExpandedInitially(Up(items), top);
      while i < |queue|
        invariant i <= |queue| && Expanded(Up(items), top, queue, i)
        decreases |Up(items)| + 1 - i
      {
        KidsMeaning(items, queue[i]);
        ExpandOne(Up(items), top, queue, i, Lookup(index, queue[i]));
        QueueBound(Up(items), top, queue, i);
        queue := queue + Lookup(index, queue[i]);
        i := i + 1;
      }
      DrainedIsSubtree(Up(items), top, queue);
    }

    /** The hierarchical view from the root, if there is a root. */
    method StateTree() returns (tree: Option<TreeNode>)
      requires KeysMatch(items)
      requires ROOT in items ==> items[ROOT].parent == None
      ensures tree.Some? <==> ROOT in items
      ensures tree.Some? ==> IsTreeOf(items, tree.value)
    {
      var index := BuildChildIndex();
      if ROOT !in items {
        return None;
      }
      TreeExact(items, index);
      return Some(BuildTreeNode(items, index, ROOT, items[ROOT].name, 0));
    }

    // -------------------------------------------------------------------
    // Seeding
    // -------------------------------------------------------------------

    method SeedRoot(owner: Id, name: Option<string>) returns (r: Result<()>)
      modifies this`items
      ensures r.Ok? <==> ROOT in old(items)
      ensures items == if ROOT in old(items) then old(items)[ROOT := SeededRoot(old(items)[ROOT], owner, name)]
                       else old(items)
    {
      if ROOT !in items {
        return Err("root missing");
      }
      var root := items[ROOT];
      if name.Some? {
        root := root.(name := name.value);
      }
      var kept: seq<Permission> := [];
      for i := 0 to |root.permissions|
        invariant kept == Revoke(root.permissions[..i], owner)
      {
        assert root.permissions[..i + 1][..i] == root.permissions[..i];
        if root.permissions[i].actor != owner {
          kept := kept + [root.permissions[i]];
        }
      }
      assert root.permissions[..|root.permissions|] == root.permissions;
      root := root.(owner := owner, permissions := kept + [Permission(owner, Owner)],
                    revision := root.revision + 1);
      items := items[ROOT := root];
      return Ok(());
    }

    method BumpNextId(id: Id)
      modifies this`nextId
      ensures nextId == BumpFor(old(nextId), id)
    {
      var n := Number(id);
      if n.Some? && n.value >= nextId {
        nextId := Bump(n.value);
      }
    }

    method SeedItem(id: Id, name: string, parent: Option<Id>, owner: Id, kind: Kind) returns (r: Result<()>)
      modifies this
      ensures content == old(content)
      ensures id == ROOT ==>
        && r.Ok? == (ROOT in old(items)) && nextId == old(nextId)
        && (r.Ok? ==> items == old(items)[ROOT := SeededRoot(old(items)[ROOT], owner, Some(name))])
      ensures id != ROOT ==>
        if SeedError(old(items), id, parent).Some?
        then r == Err(SeedError(old(items), id, parent).value) && Abs() == old(Abs())
        else r.Ok? && items == old(items)[id := BareItem(id, name, parent, owner, kind)]
             && nextId == BumpFor(old(nextId), id)
    {
      if id == ROOT {
        r := SeedRoot(owner, Some(name));
        return;
      }
      if id in items {
        return Err("duplicate seed id");
      }
      if parent.Some? {
        if parent.value !in items {
          return Err("seed parent not found");
        }
        if items[parent.value].kind != Folder {
          return Err("seed parent must be folder");
        }
      }
      var mime := match kind case Folder => Some(FOLDER_MIME) case File => None;
      var item := Item(id, name, kind, parent, owner, [Permission(owner, Owner)], 1, mime, None, map[]);
      BumpNextId(id);
      items := items[id := item];
      return Ok(());
    }

    /** Adds one seed file: the item, then its mime type, properties and bytes. */
    method SeedFileItem(f: SeedFile, decode: Decoder) returns (added: bool, failed: bool)
      requires f.id != ROOT
      modifies this
      ensures added <==> SeedError(old(items), f.id, f.parent).None?
      ensures failed <==> added && !Decodes(f, decode)
      ensures !added ==> Abs() == old(Abs())
      ensures added && !failed ==> Abs() == SeedOne(old(Abs()), f, decode)
      ensures failed ==> Abs() == SeedOne(old(Abs()), WithoutContent(f), decode)
    {
      hide SeedError, BumpFor;
      added, failed := false, false;
      var result := SeedItem(f.id, f.name, f.parent, f.owner, f.kind);
      if result.Ok? {
        added := true;
        var item := items[f.id];
        if f.mimeType.Some? {
          item := item.(mimeType := f.mimeType);
        }
        if f.properties.Some? {
          item := item.(properties := f.properties.value);
        }
        if f.content.Some? {
          var bytes := decode(f.content.value);
          if bytes.None? {
            items := items[f.id := item];
            failed := true;
            return;
          }
          item := item.(size := Some(|bytes.value|));
          content := content[f.id := bytes.value];
        }
        assert item == SeededItem(f, decode);
        items := items[f.id := item];
      }
    }

    /** Seeds the state from files in any order, by repeated passes over the
        entries whose parents are still missing. */
    method SeedFromScenario(files: seq<SeedFile>, decode: Decoder) returns (r: Result<()>)
      modifies this
      ensures Attempt(Abs(), r.Ok?) == TrySeed(old(Abs()), files, decode)
      ensures Intact(old(Abs())) ==> Intact(Abs())
      ensures Inv(old(Abs())) && NoLastNumber(multiset(NonRoot(files))) ==> Inv(Abs())
      ensures var base := WithRoot(old(Abs()), files);
              var m := multiset(NonRoot(files));
        && (r.Ok? <==> (FirstRoot(files).Some? ==> ROOT in old(items)) && Acceptable(base.items, m, decode))
        && (r.Ok? ==> Seeded(base, m, decode, Abs()))
        && (r.Ok? && NoLastNumber(m) ==> CounterFor(base.nextId, m, nextId))
    {
      hide Acceptable, Seeded, CounterFor, NoLastNumber, NonRoot, FirstRoot, SeededRoot, Pass, SeedAll;
      SeedMeaning(old(Abs()), files, decode);
      if Intact(Abs()) {
        SeedingKeepsInv(Abs(), files, decode);
      }
      hide Structured, ContentAgrees, Fresh;
      var root := FindRoot(files);
      if root.Some? {
        var rooted := SeedRoot(root.value.owner, Some(root.value.name));
        if rooted.Err? {
          return Err("root missing");
        }
      }
      var pending := CollectNonRoot(files);
      r := SeedPending(pending, decode);
    }

    method SeedPending(files: seq<SeedFile>, decode: Decoder) returns (r: Result<()>)
      requires forall f :: f in files ==> f.id != ROOT
      modifies this
      ensures Attempt(Abs(), r.Ok?) == SeedAll(old(Abs()), files, decode)
    {
      hide SeedError, Decodes, SeedOne, Pass, SeedAll, Behind;
      var pending := files;
      var stalled := 0;
      while pending != []
        invariant stalled <= 1
        invariant forall f :: f in pending ==> f.id != ROOT
        invariant SeedAll(Abs(), pending, decode) == SeedAll(old(Abs()), files, decode)
        decreases |pending|, 2 - stalled
      {
        var before := |pending|;
        ghost var start, waiting := Abs(), pending;
        var i := 0;
        assert pending[..0] == [] && pending[0..] == pending;
        BehindNothing(Pass(start, waiting, decode));
        SeedAllStep(start, waiting, decode);
        while i < |pending|
          invariant i <= |pending| <= before
          invariant forall f :: f in pending ==> f.id != ROOT
          invariant Pass(start, waiting, decode) == Behind(pending[..i], Pass(Abs(), pending[i..], decode))
          decreases |pending| - i
        {
          PassStep(Abs(), pending, i, decode);
          var added, failed := SeedFileItem(pending[i], decode);
          if failed {
            return Err("failed to decode base64 content");
          }
          if added {
            pending := pending[..i] + pending[i + 1..];
          } else {
            i := i + 1;
          }
        }
        PassEnd(Abs(), pending, decode);
        if |pending| == before {
          stalled := stalled + 1;
          if stalled > 1 {
            return Err("invalid initial_state dependency graph");
          }
        } else {
          stalled := 0;
        }
      }
      NothingToSeed(Abs(), decode);
      return Ok(());
    }

    static method FindRoot(files: seq<SeedFile>) returns (f: Option<SeedFile>)
      ensures f == FirstRoot(files)
    {
      var i := 0;
      while i < |files| && files[i].id != ROOT
        invariant i <= |files| && FirstRoot(files) == FirstRoot(files[i..])
      {
        i := i + 1;
      }
      return if i < |files| then Some(files[i]) else None;
    }

    static method CollectNonRoot(files: seq<SeedFile>) returns (pending: seq<SeedFile>)
      ensures pending == NonRoot(files)
      ensures forall f :: f in pending ==> f.id != ROOT
    {
      pending := [];
      for i := 0 to |files|
        invariant pending == NonRoot(files[..i])
        invariant forall f :: f in pending ==> f.id != ROOT
      {
        assert files[..i + 1][..i] == files[..i];
        if files[i].id != ROOT {
          pending := pending + [files[i]];
        }
      }
      assert files[..|files|] == files;
    }

    method Handle(req: Request) returns (r: Result<Response>)
      requires KeysMatch(items)
      requires Returns(Abs(), req)
      modifies this
      ensures Outcome(Abs(), r) == Apply(old(Abs()), req)
      ensures KeysMatch(items)
    {
      StepKeysMatch(Abs(), req);
      match req
      case Health => r := Ok(Alive);
      case CreateFolder(actor, parent, name) => r := CreateFolder(actor, parent, name);
      case CreateFile(actor, parent, name) => r := CreateFile(actor, parent, name);
      case ListChildren(actor, parent) => r := ListChildren(actor, parent);
      case SetPermission(actor, id, target, role) => r := SetPermission(actor, id, target, role);
      case MoveItem(actor, id, newParent) => r := MoveItem(actor, id, newParent);
      case GetItem(actor, id) => r := GetItem(actor, id);
      case DeleteItem(actor, id) => r := DeleteItem(actor, id);
      case UpdateItem(actor, id, newName, moveTo) => r := UpdateItem(actor, id, newName, moveTo);
      case UploadContent(actor, parent, name, mimeType, data, properties) =>
        r := UploadContent(actor, parent, name, mimeType, data, properties);
      case DownloadContent(actor, id) => r := DownloadContent(actor, id);
    }
  }

  // One pass of the seeding loop, one entry at a time.

  /** The outcome of a pass with entries before it that were kept waiting. */
  function Behind(before: seq<SeedFile>, r: Passed): Passed {
    r.(left := before + r.left)
  }

  lemma BehindNothing(r: Passed)
    ensures Behind([], r) == r
  {
    assert [] + r.left == r.left;
  }

  lemma PassStep(s: State, pending: seq<SeedFile>, i: nat, decode: Decoder)
    requires i < |pending|
    ensures var f := pending[i]; var others := pending[..i] + pending[i + 1..];
            var r := Behind(pending[..i], Pass(s, pending[i..], decode));
      if SeedError(s.items, f.id, f.parent).Some? then
        r == Behind(pending[..i + 1], Pass(s, pending[i + 1..], decode))
      else if !Decodes(f, decode) then !r.ok && r.state == SeedOne(s, WithoutContent(f), decode)
      else r == Behind(others[..i], Pass(SeedOne(s, f, decode), others[i..], decode))
  {
    hide SeedError, Decodes, SeedOne;
    var f, rest := pending[i], pending[i + 1..];
    assert pending[i..][0] == f && pending[i..][1..] == rest;
    var others := pending[..i] + rest;
    assert others[..i] == pending[..i] && others[i..] == rest;
    var r := Pass(s, rest, decode);
    assert pending[..i] + ([f] + r.left) == pending[..i + 1] + r.left;
  }

  lemma PassEnd(s: State, pending: seq<SeedFile>, decode: Decoder)
    ensures Behind(pending[..|pending|], Pass(s, pending[|pending|..], decode)) == Passed(s, pending, true)
  {
    assert pending[|pending|..] == [] && pending[..|pending|] + [] == pending;
  }

  lemma NothingToSeed(s: State, decode: Decoder)
    ensures SeedAll(s, [], decode) == Attempt(s, true)
  {
  }

  lemma SeedAllStep(s: State, pending: seq<SeedFile>, decode: Decoder)
    requires pending != []
    ensures var r := Pass(s, pending, decode);
      && (!r.ok || |r.left| == |pending| ==> SeedAll(s, pending, decode) == Attempt(r.state, false))
      && (r.ok && |r.left| == |pending| ==> r.state == s && r.left == pending)
      && (r.ok && |r.left| < |pending| ==> SeedAll(s, pending, decode) == SeedAll(r.state, r.left, decode))
  {
    PassStalled(s, pending, decode);
    hide Pass;
  }

  lemma {:induction false} PassStalled(s: State, pending: seq<SeedFile>, decode: Decoder)
    ensures var r := Pass(s, pending, decode);
      r.ok && |r.left| == |pending| ==> r.state == s && r.left == pending
    decreases |pending|
  {
    hide SeedError, Decodes, SeedOne;
    if pending != [] {
      PassStalled(s, pending[1..], decode);
      assert pending == [pending[0]] + pending[1..];
    }
  }

  /** One step of the search for the entry to overwrite. */
  lemma GrantStep(ps: seq<Permission>, i: nat, target: Id, role: Role)
    requires i <= |ps|
    ensures ps[..i] + Grant(ps[i..], target, role)
         == if i == |ps| then ps + [Permission(target, role)]
            else if ps[i].actor == target then ps[i := Permission(target, role)]
            else ps[..i + 1] + Grant(ps[i + 1..], target, role)
  {
    if i < |ps| {
      assert ps[i..][0] == ps[i] && ps[i..][1..] == ps[i + 1..];
    } else {
      assert ps[i..] == [];
    }
  }

  /** One more item in the child index. */
  lemma IndexStep(index: ChildIndex, items: Items, keys: seq<Id>, i: nat)
    requires i < |keys| && keys[i] in items && KeysMatch(items)
    requires forall p :: Lookup(index, p) == KidsAmong(keys[..i], items, p)
    ensures var item := items[keys[i]];
            var next := if item.parent.Some?
                        then index[item.parent.value := Lookup(index, item.parent.value) + [item.id]] else index;
      forall p :: Lookup(next, p) == KidsAmong(keys[..i + 1], items, p)
  {
    hide KidsAmong;
    var item := items[keys[i]];
    var next := if item.parent.Some?
                then index[item.parent.value := Lookup(index, item.parent.value) + [item.id]] else index;
    forall p ensures Lookup(next, p) == KidsAmong(keys[..i + 1], items, p) {
      KidsAmongStep(keys, i, items, p);
      assert Lookup(index, p) == KidsAmong(keys[..i], items, p);
    }
  }
}
