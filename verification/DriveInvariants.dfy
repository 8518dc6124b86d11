/** What every request keeps, and what holds over whole runs of requests. */
module DriveInvariants {
  import opened Wrappers
  import opened Decimal
  import opened ParentGraph
  import opened DriveModel

  // ---------------------------------------------------------------------
  // Allocated ids
  // ---------------------------------------------------------------------

  lemma NewIdInjective(m: nat, n: nat)
    ensures NewId(m) == NewId(n) ==> m == n
  {
    if NewId(m) == NewId(n) {
      assert NewId(m)[5..] == Print(m) && NewId(n)[5..] == Print(n);
      PrintInjective(m, n);
    }
  }

  predicate Creates(o: Outcome) {
    o.result.Ok? && (o.result.value.Created? || o.result.value.ContentCreated?)
  }

  // ---------------------------------------------------------------------
  // The three kinds of change a request makes to the items
  // ---------------------------------------------------------------------

  /** s' is s with a new item under an existing folder, and with the bytes that
      the item's size announces. */
  ghost predicate Inserted(s: State, item: Item, s': State) {
    && item.id == NewId(s.nextId) && item.parent.Some? && FolderAt(s.items, item.parent.value)
    && s'.items == s.items[item.id := item]
    && s'.nextId == Bump(s.nextId)
    && match item.size {
         case None => s'.content == s.content
         case Some(n) =>
           && item.id in s'.content && |s'.content[item.id]| == n
           && s'.content == s.content[item.id := s'.content[item.id]]
       }
  }

  lemma InsertKeeps(s: State, item: Item, s': State)
    requires Inv(s) && Inserted(s, item, s')
    ensures Structured(s'.items) && ContentAgrees(s')
    ensures Fresh(s') <==> s.nextId + 1 < U64
  {
    InsertFresh(s, item, s');
  }

  lemma InsertAcyclic(s: State, item: Item, s': State)
    requires Inv(s) && Inserted(s, item, s') && Acyclic(Up(s.items))
    ensures Acyclic(Up(s'.items))
  {
    hide Acyclic;
    var p := item.parent.value;
    if Below(Up(s.items), p, item.id) {
      OnlyItemsAbove(s.items, p, item.id);
    }
    RelinkAcyclic(Up(s.items), item.id, p);
    assert Up(s'.items) == Up(s.items)[item.id := p];
  }

  lemma InsertFresh(s: State, item: Item, s': State)
    requires Fresh(s)
    requires item.id == NewId(s.nextId)
    requires s'.items == s.items[item.id := item] && s'.nextId == Bump(s.nextId)
    ensures Fresh(s') <==> s.nextId + 1 < U64
  {
    if s.nextId + 1 < U64 {
      forall n: nat | s'.nextId <= n < U64 ensures NewId(n) !in s'.items {
        NewIdInjective(n, s.nextId);
      }
    } else {
      assert NewId(s.nextId) in s'.items;
    }
  }

  /** Going up from an item of a structured state only meets items. */
  lemma OnlyItemsAbove(items: Items, x: Id, t: Id)
    requires Structured(items) && x in items && Below(Up(items), x, t)
    ensures t in items
  {
    var k: nat :| Anc(Up(items), x, k) == Some(t);
    if k > 0 {
      AncLast(Up(items), x, k);
    }
  }

  /** Replacing an item by one with the same id and kind, and the same parent
      or a folder as parent. */
  lemma ReplaceKeeps(s: State, id: Id, item: Item)
    requires Inv(s) && id in s.items
    requires var was := s.items[id]; item.id == was.id && item.kind == was.kind && item.size == was.size
    requires item.parent == s.items[id].parent
          || (id != ROOT && item.parent.Some? && FolderAt(s.items, item.parent.value))
    ensures var s' := s.(items := s.items[id := item]);
      && Inv(s')
      && Up(s'.items) == if item.parent.Some? then Up(s.items)[id := item.parent.value] else Up(s.items)
  {
    hide Structured, ContentAgrees, Fresh, Up;
    ReplaceStructured(s.items, id, item);
    ReplaceContent(s, id, item);
    ReplaceFresh(s, id, item);
  }

  lemma ReplaceStructured(items: Items, id: Id, item: Item)
    requires Structured(items) && id in items
    requires item.id == items[id].id && item.kind == items[id].kind
    requires item.parent == items[id].parent || (id != ROOT && item.parent.Some? && FolderAt(items, item.parent.value))
    ensures var items' := items[id := item];
      && Structured(items')
      && Up(items') == if item.parent.Some? then Up(items)[id := item.parent.value] else Up(items)
  {
  }

  lemma ReplaceContent(s: State, id: Id, item: Item)
    requires ContentAgrees(s) && id in s.items && item.size == s.items[id].size
    ensures ContentAgrees(s.(items := s.items[id := item]))
  {
  }

  lemma ReplaceFresh(s: State, id: Id, item: Item)
    requires Fresh(s) && id in s.items
    ensures Fresh(s.(items := s.items[id := item]))
  {
    hide NewId;
  }

  ghost function Without(s: State, top: Id): State {
    var gone := Subtree(s.items, top);
    State(s.items - gone, s.content - gone, s.nextId)
  }

  /** Removing a whole subtree other than the root's. */
  lemma RemoveKeeps(s: State, top: Id)
    requires Inv(s) && top in s.items && top != ROOT
    ensures var s' := Without(s, top);
      && Inv(s')
      && ROOT in s'.items
      && (Acyclic(Up(s.items)) ==> Acyclic(Up(s'.items)))
  {
    var gone := Subtree(s.items, top);
    var items' := s.items - gone;
    BelowStep(Up(s.items), ROOT, top);
    forall x | x in items' && items'[x].parent.Some? ensures FolderAt(items', items'[x].parent.value) {
      BelowStep(Up(s.items), x, top);
    }
    if Acyclic(Up(s.items)) {
      SublinksAcyclic(Up(s.items), Up(items'));
    }
  }

  // ---------------------------------------------------------------------
  // One request
  // ---------------------------------------------------------------------

  /** The new parent a request would give an existing item, if it succeeds. */
  function Relink(req: Request): Option<(Id, Id)> {
    match req
    case MoveItem(_, id, p) => Some((id, p))
    case UpdateItem(_, id, _, Some(p)) => Some((id, p))
    case _ => None
  }

  predicate IsCreate(req: Request) {
    req.CreateFolder? || req.CreateFile? || req.UploadContent?
  }

  predicate IsEdit(req: Request) {
    req.SetPermission? || req.MoveItem? || req.UpdateItem?
  }

  lemma CreateInserts(s: State, req: Request)
    requires IsCreate(req)
    ensures var o := Apply(s, req);
      if o.result.Ok? then Creates(o) && Inserted(s, o.result.value.item, o.state) else o.state == s
  {
    hide HasRole, NewId;
  }

  lemma OtherKeepsState(s: State, req: Request)
    requires !IsCreate(req) && !IsEdit(req) && !req.DeleteItem?
    ensures Apply(s, req).state == s && !Creates(Apply(s, req))
  {
    hide HasRole, Kids, Pick;
  }

  /** s' is s with one item edited as the request asks. */
  ghost predicate Replaced(s: State, req: Request, item: Item, s': State) {
    && item.id in s.items && s' == s.(items := s.items[item.id := item])
    && var was := s.items[item.id];
    && item.kind == was.kind && item.size == was.size
    && match Relink(req) {
         case None => item.parent == was.parent
         case Some((id, p)) =>
           item.id == id && id != ROOT && item.parent == Some(p) && FolderAt(s.items, p)
       }
  }

  lemma EditReplaces(s: State, req: Request)
    requires IsEdit(req) && KeysMatch(s.items)
    ensures var o := Apply(s, req);
      && !Creates(o)
      && if o.result.Ok? then o.result.value.Updated? && Replaced(s, req, o.result.value.item, o.state)
         else o.state == s
  {
    hide HasRole, Grant;
  }

  /** Every request keeps the parent structure and the agreement of the size
      and content indexes. It keeps allocated ids fresh unless it consumes the
      last id of the 64-bit counter. */
  lemma StepKeepsInv(s: State, req: Request)
    requires Inv(s)
    ensures var o := Apply(s, req);
      && Structured(o.state.items) && ContentAgrees(o.state)
      && (Fresh(o.state) <==> !(Creates(o) && s.nextId + 1 == U64))
  {
    var o := Apply(s, req);
    hide Apply, Inserted;
    if IsCreate(req) {
      CreateInserts(s, req);
      if o.result.Ok? {
        InsertKeeps(s, o.result.value.item, o.state);
      }
    } else if IsEdit(req) {
      EditReplaces(s, req);
      if o.result.Ok? {
        ReplaceKeeps(s, o.result.value.item.id, o.result.value.item);
      }
    } else if req.DeleteItem? {
      DeleteRemoves(s, req);
      if o.result.Ok? {
        RemoveKeeps(s, req.item);
      }
    } else {
      OtherKeepsState(s, req);
    }
  }

  /** Items stay under their own ids, even where the counter wraps. */
  lemma StepKeysMatch(s: State, req: Request)
    requires KeysMatch(s.items)
    ensures KeysMatch(Apply(s, req).state.items)
  {
    hide HasRole, Grant, NewId, Subtree;
  }

  lemma DeleteRemoves(s: State, req: Request)
    requires req.DeleteItem? && KeysMatch(s.items)
    ensures var o := Apply(s, req);
      && !Creates(o)
      && if o.result.Ok? then req.item in s.items && req.item != ROOT && o.state == Without(s, req.item)
         else o.state == s
  {
    hide HasRole;
  }

  /** From acyclic parent links, a successful move or re-parenting update stays
      acyclic exactly when the new parent is outside the moved item's subtree;
      every other request stays acyclic. */
  lemma StepAcyclic(s: State, req: Request)
    requires Inv(s) && Acyclic(Up(s.items))
    ensures var o := Apply(s, req);
      Acyclic(Up(o.state.items)) <==>
        (o.result.Ok? && Relink(req).Some? ==>
           Relink(req).value.1 !in Subtree(s.items, Relink(req).value.0))
  {
    var o := Apply(s, req);
    hide Apply, Inserted, Acyclic;
    if IsCreate(req) {
      CreateInserts(s, req);
      if o.result.Ok? {
        InsertAcyclic(s, o.result.value.item, o.state);
      }
    } else if IsEdit(req) {
      EditReplaces(s, req);
      if o.result.Ok? {
        var item := o.result.value.item;
        ReplaceKeeps(s, item.id, item);
        if Relink(req).Some? {
          RelinkAcyclic(Up(s.items), item.id, Relink(req).value.1);
        } else {
          RelinkSame(s.items, item.id);
        }
      }
    } else if req.DeleteItem? {
      DeleteRemoves(s, req);
      if o.result.Ok? {
        RemoveKeeps(s, req.item);
      }
    } else {
      OtherKeepsState(s, req);
    }
  }

  lemma RelinkSame(items: Items, id: Id)
    requires id in items
    ensures items[id].parent.Some? ==> Up(items)[id := items[id].parent.value] == Up(items)
  {
  }
}
