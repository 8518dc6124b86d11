/** What each Drive request is for, said in terms of the request and the items
    alone: who may do it, what the new or changed item looks like, and how a
    refusal is answered. */
module DriveLaws {
  import opened Wrappers
  import opened Decimal
  import opened SortedKeys
  import opened ParentGraph
  import opened DriveModel

  // ---------------------------------------------------------------------
  // Who may do what
  // ---------------------------------------------------------------------

  /** Position i holds the first entry for the actor. */
  predicate FirstEntry(ps: seq<Permission>, actor: Id, i: nat) {
    i < |ps| && ps[i].actor == actor && forall j :: 0 <= j < i ==> ps[j].actor != actor
  }

  ghost predicate CanView(item: Item, actor: Id) {
    exists i: nat :: FirstEntry(item.permissions, actor, i)
  }

  ghost predicate CanEdit(item: Item, actor: Id) {
    exists i: nat :: FirstEntry(item.permissions, actor, i)
                  && (item.permissions[i].role == Editor || item.permissions[i].role == Owner)
  }

  ghost predicate IsOwner(item: Item, actor: Id) {
    exists i: nat :: FirstEntry(item.permissions, actor, i) && item.permissions[i].role == Owner
  }

  lemma {:induction false} RoleIsFirst(ps: seq<Permission>, actor: Id)
    ensures RoleOf(ps, actor).None? ==> forall i :: 0 <= i < |ps| ==> ps[i].actor != actor
    ensures RoleOf(ps, actor).Some? ==>
              exists i: nat :: FirstEntry(ps, actor, i) && ps[i].role == RoleOf(ps, actor).value
    decreases |ps|
  {
    if ps != [] {
      if ps[0].actor == actor {
        assert FirstEntry(ps, actor, 0);
      } else {
        RoleIsFirst(ps[1..], actor);
        if RoleOf(ps, actor).Some? {
          var i: nat :| FirstEntry(ps[1..], actor, i) && ps[1..][i].role == RoleOf(ps, actor).value;
          assert FirstEntry(ps, actor, i + 1);
        }
      }
    }
  }

  lemma FirstEntryUnique(ps: seq<Permission>, actor: Id, i: nat, j: nat)
    requires FirstEntry(ps, actor, i) && FirstEntry(ps, actor, j)
    ensures i == j
  {
  }

  /** The three levels of access, from the first entry for the actor: any entry
      lets him view, Editor and Owner let him edit, and Owner alone share. */
  lemma AccessLevels(item: Item, actor: Id)
    ensures HasRole(item, actor, Viewer) <==> CanView(item, actor)
    ensures HasRole(item, actor, Editor) <==> CanEdit(item, actor)
    ensures HasRole(item, actor, Owner) <==> IsOwner(item, actor)
  {
    var ps := item.permissions;
    RoleIsFirst(ps, actor);
    if RoleOf(ps, actor).Some? {
      var i: nat :| FirstEntry(ps, actor, i) && ps[i].role == RoleOf(ps, actor).value;
      forall j: nat | FirstEntry(ps, actor, j) ensures j == i {
        FirstEntryUnique(ps, actor, i, j);
      }
    }
  }

  // ---------------------------------------------------------------------
  // New items
  // ---------------------------------------------------------------------

  predicate Creates(req: Request) {
    req.CreateFolder? || req.CreateFile? || req.UploadContent?
  }

  /** The item a creating request asks for, given the number allocated to it. */
  ghost predicate AsRequested(item: Item, req: Request, n: nat)
    requires Creates(req)
  {
    && item.id == "item_" + Print(n)
    && item.name == req.name && item.parent == Some(req.parent) && item.owner == req.actor
    && item.permissions == [Permission(req.actor, Owner)] && item.revision == 1
    && (req.CreateFolder? ==>
          && item.kind == Folder && item.mimeType == Some("application/vnd.google-apps.folder")
          && item.size == None && item.properties == map[])
    && (req.CreateFile? ==>
          item.kind == File && item.mimeType == None && item.size == None && item.properties == map[])
    && (req.UploadContent? ==>
          && item.kind == File && item.size == Some(|req.data|) && item.properties == req.properties
          && item.mimeType == (if req.mimeType.Some? then req.mimeType else Some("application/octet-stream")))
  }

  ghost predicate IsAnswer(response: Response, item: Item, req: Request)
    requires Creates(req)
  {
    if req.UploadContent? then response == ContentCreated(item, |req.data|) else response == Created(item)
  }

  /** Creating and uploading need a folder that the actor may edit. */
  lemma CreationLaw(s: State, req: Request)
    requires Creates(req)
    ensures var o := Apply(s, req); var p := req.parent;
      if p in s.items && s.items[p].kind == Folder && CanEdit(s.items[p], req.actor) then
        exists item ::
          && AsRequested(item, req, s.nextId)
          && o.result.Ok? && IsAnswer(o.result.value, item, req)
          && o.state.items == s.items[item.id := item]
          && o.state.content == (if req.UploadContent? then s.content[item.id := req.data] else s.content)
          && o.state.nextId == (s.nextId + 1) % 0x1_0000_0000_0000_0000
      else
        && o.state == s
        && o.result == Err(if p !in s.items then "parent not found"
                           else if s.items[p].kind != Folder then "parent must be a folder"
                           else "permission denied")
  {
    hide HasRole, CanEdit;
    var p, o := req.parent, Apply(s, req);
    if p in s.items {
      AccessLevels(s.items[p], req.actor);
    }
    if o.result.Ok? {
      assert AsRequested(o.result.value.item, req, s.nextId);
    }
  }

  // ---------------------------------------------------------------------
  // Changed items
  // ---------------------------------------------------------------------

  ghost predicate DestinationOk(items: Items, p: Id, actor: Id) {
    p in items && items[p].kind == Folder && CanEdit(items[p], actor)
  }

  function DestinationRefusal(items: Items, p: Id): string {
    if p !in items then "destination parent not found"
    else if items[p].kind != Folder then "destination parent must be a folder"
    else "permission denied on destination parent"
  }

  /** Moving needs a destination folder and an item that the actor may edit, and
      changes the parent and the revision. */
  lemma MoveLaw(s: State, actor: Id, id: Id, to: Id)
    requires KeysMatch(s.items)
    ensures var o := Apply(s, MoveItem(actor, id, to));
      if !DestinationOk(s.items, to, actor) then o == Outcome(s, Err(DestinationRefusal(s.items, to)))
      else if id !in s.items then o == Outcome(s, Err("item not found"))
      else if id == "root" then o == Outcome(s, Err("cannot move root"))
      else if !CanEdit(s.items[id], actor) then o == Outcome(s, Err("permission denied"))
      else
        var item := s.items[id].(parent := Some(to), revision := s.items[id].revision + 1);
        o == Outcome(s.(items := s.items[id := item]), Ok(Updated(item)))
  {
    hide HasRole, CanEdit;
    Levels(s.items, to, actor);
    Levels(s.items, id, actor);
  }

  lemma Levels(items: Items, x: Id, actor: Id)
    ensures x in items ==>
      && (HasRole(items[x], actor, Viewer) <==> CanView(items[x], actor))
      && (HasRole(items[x], actor, Editor) <==> CanEdit(items[x], actor))
      && (HasRole(items[x], actor, Owner) <==> IsOwner(items[x], actor))
  {
    hide HasRole, CanView, CanEdit, IsOwner;
    if x in items {
      AccessLevels(items[x], actor);
    }
  }

  /** An update sets the name and the parent that are given, and counts as one
      revision if there is anything to set. The root can be renamed, not moved. */
  lemma UpdateLaw(s: State, actor: Id, id: Id, name: Option<string>, to: Option<Id>)
    requires KeysMatch(s.items)
    ensures var o := Apply(s, UpdateItem(actor, id, name, to));
      if to.Some? && !DestinationOk(s.items, to.value, actor) then
        o == Outcome(s, Err(DestinationRefusal(s.items, to.value)))
      else if id !in s.items then o == Outcome(s, Err("item not found"))
      else if id == "root" && to.Some? then o == Outcome(s, Err("cannot move root"))
      else if !CanEdit(s.items[id], actor) then o == Outcome(s, Err("permission denied"))
      else
        && o.result.Ok? && o.result.value.Updated?
        && var was, item := s.items[id], o.result.value.item;
        && o.state == s.(items := s.items[id := item])
        && item == was.(name := item.name, parent := item.parent, revision := item.revision)
        && item.name == (if name.Some? then name.value else was.name)
        && item.parent == (if to.Some? then to else was.parent)
        && item.revision == (if name.None? && to.None? then was.revision else was.revision + 1)
  {
    hide HasRole, CanEdit;
    if to.Some? {
      Levels(s.items, to.value, actor);
    }
    Levels(s.items, id, actor);
  }

  /** Deleting needs an item other than the root that the actor may edit, and
      removes it with everything below it, whoever may edit that. */
  lemma DeletionLaw(s: State, actor: Id, id: Id)
    requires KeysMatch(s.items)
    ensures var o := Apply(s, DeleteItem(actor, id));
      if id !in s.items then o == Outcome(s, Err("item not found"))
      else if id == "root" then o == Outcome(s, Err("cannot delete root"))
      else if !CanEdit(s.items[id], actor) then o == Outcome(s, Err("permission denied"))
      else
        && o.result == Ok(Deleted(id)) && o.state.nextId == s.nextId
        && (forall x :: x in o.state.items <==> x in s.items && !Below(Up(s.items), x, id))
        && (forall x :: x in o.state.items ==> o.state.items[x] == s.items[x])
        && (forall x :: x in o.state.content <==> x in s.content && !(x in s.items && Below(Up(s.items), x, id)))
        && (forall x :: x in o.state.content ==> o.state.content[x] == s.content[x])
  {
    hide HasRole, CanEdit, Up, Below;
    Levels(s.items, id, actor);
  }

  lemma {:induction false} GrantAt(ps: seq<Permission>, target: Id, role: Role, i: nat)
    requires FirstEntry(ps, target, i)
    ensures Grant(ps, target, role) == ps[i := Permission(target, role)]
    decreases |ps|
  {
    if i > 0 {
      GrantAt(ps[1..], target, role, i - 1);
      assert ps == [ps[0]] + ps[1..];
    } else {
      assert ps[0 := Permission(target, role)] == [Permission(target, role)] + ps[1..];
    }
  }

  lemma {:induction false} GrantNew(ps: seq<Permission>, target: Id, role: Role)
    requires forall i :: 0 <= i < |ps| ==> ps[i].actor != target
    ensures Grant(ps, target, role) == ps + [Permission(target, role)]
    decreases |ps|
  {
    if ps != [] {
      GrantNew(ps[1..], target, role);
      assert ps == [ps[0]] + ps[1..];
    }
  }

  /** Sharing needs an item that the actor owns. It overwrites the first entry
      for the target or adds one, and changes nothing else but the revision. */
  lemma SharingLaw(s: State, actor: Id, id: Id, target: Id, role: Role)
    ensures var o := Apply(s, SetPermission(actor, id, target, role));
      if id !in s.items then o == Outcome(s, Err("item not found"))
      else if !IsOwner(s.items[id], actor) then o == Outcome(s, Err("only owners can set permissions"))
      else
        && o.result.Ok? && o.result.value.Updated?
        && var was, item := s.items[id], o.result.value.item;
        && o.state == s.(items := s.items[id := item])
        && item == was.(permissions := item.permissions, revision := was.revision + 1)
        && (forall i: nat :: FirstEntry(was.permissions, target, i) ==>
              item.permissions == was.permissions[i := Permission(target, role)])
        && (!CanView(was, target) ==> item.permissions == was.permissions + [Permission(target, role)])
  {
    hide HasRole, IsOwner, Grant;
    Levels(s.items, id, actor);
    if id in s.items {
      var ps := s.items[id].permissions;
      forall i: nat | FirstEntry(ps, target, i) ensures Grant(ps, target, role) == ps[i := Permission(target, role)] {
        GrantAt(ps, target, role, i);
      }
      if !CanView(s.items[id], target) {
        NoEntry(s.items[id], target);
        GrantNew(ps, target, role);
      }
    }
  }

  lemma NoEntry(item: Item, actor: Id)
    requires !CanView(item, actor)
    ensures forall i :: 0 <= i < |item.permissions| ==> item.permissions[i].actor != actor
  {
    RoleIsFirst(item.permissions, actor);
  }

  // ---------------------------------------------------------------------
  // Reading
  // ---------------------------------------------------------------------

  /** The items with the given ids, in the order of the ids. */
  predicate ListsItems(items: Items, ids: seq<Id>, listed: seq<Item>) {
    |listed| == |ids| && forall i :: 0 <= i < |ids| ==> ids[i] in items && listed[i] == items[ids[i]]
  }

  lemma {:induction false} PickLists(items: Items, ids: seq<Id>)
    requires forall x :: x in ids ==> x in items
    ensures ListsItems(items, ids, Pick(items, ids))
    decreases |ids|
  {
    if ids != [] {
      PickLists(items, ids[..|ids| - 1]);
    }
  }

  lemma {:induction false} KidsAmongAscend(keys: seq<Id>, items: Items, p: Id)
    requires Ascending(keys)
    ensures Ascending(KidsAmong(keys, items, p)) && forall k :: k in KidsAmong(keys, items, p) ==> k in keys
    decreases |keys|
  {
    hide Leq;
    if keys != [] {
      var init, last := keys[..|keys| - 1], keys[|keys| - 1];
      KidsAmongAscend(init, items, p);
      assert keys == init + [last];
      var kids := KidsAmong(init, items, p);
      assert forall i :: 0 <= i < |kids| ==> kids[i] in init;
    }
  }

  /** Listing, getting and downloading need any entry for the actor. A listing
      shows the children in id order, and a download the stored bytes. */
  lemma ListingLaw(s: State, actor: Id, p: Id)
    ensures var o := Apply(s, ListChildren(actor, p));
      && o.state == s
      && if p !in s.items then o.result == Err("parent not found")
         else if !CanView(s.items[p], actor) then o.result == Err("permission denied")
         else exists ids, listed ::
           && o.result == Ok(Listed(listed)) && ListsItems(s.items, ids, listed) && Ascending(ids)
           && forall x :: x in ids <==> x in s.items && s.items[x].parent == Some(p)
  {
    hide HasRole, CanView, Pick, Kids, Up, Sorted, Leq;
    Levels(s.items, p, actor);
    ListingOrder(s.items, p);
    PickLists(s.items, Kids(s.items, p));
  }

  lemma ListingOrder(items: Items, p: Id)
    ensures Ascending(Kids(items, p))
    ensures forall x :: x in Kids(items, p) <==> x in items && items[x].parent == Some(p)
  {
    KidsMeaning(items, p);
    KidsAmongAscend(Sorted(items.Keys), items, p);
  }

  lemma ReadingLaw(s: State, actor: Id, id: Id)
    ensures var refused := if id !in s.items then Some("item not found")
                           else if !CanView(s.items[id], actor) then Some("permission denied") else None;
      && Apply(s, GetItem(actor, id))
         == Outcome(s, if refused.Some? then Err(refused.value) else Ok(Got(s.items[id])))
      && Apply(s, DownloadContent(actor, id))
         == Outcome(s, if refused.Some? then Err(refused.value)
                       else if id !in s.content then Err("file has no content")
                       else Ok(Content(s.items[id], s.content[id])))
  {
    hide HasRole, CanView;
    Levels(s.items, id, actor);
  }
}
