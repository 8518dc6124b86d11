/** The Drive twin as a value: its state, its requests, and what each request
    does. `Apply` is the specification that the service class is held to. */
module DriveModel {
  import opened Wrappers
  import opened Decimal
  import opened SortedKeys
  import opened ParentGraph

  datatype Kind = File | Folder

  datatype Role = Owner | Editor | Viewer

  datatype Permission = Permission(actor: Id, role: Role)

  type Bytes = seq<bv8>
  type Properties = map<string, string>

  datatype Item = Item(
    id: Id, name: string, kind: Kind, parent: Option<Id>, owner: Id,
    permissions: seq<Permission>, revision: nat, mimeType: Option<string>,
    size: Option<nat>, properties: Properties)

  type Items = map<Id, Item>

  datatype State = State(items: Items, content: map<Id, Bytes>, nextId: nat)

  datatype Request =
    | Health
    | CreateFolder(actor: Id, parent: Id, name: string)
    | CreateFile(actor: Id, parent: Id, name: string)
    | ListChildren(actor: Id, parent: Id)
    | SetPermission(actor: Id, item: Id, target: Id, role: Role)
    | MoveItem(actor: Id, item: Id, newParent: Id)
    | GetItem(actor: Id, item: Id)
    | DeleteItem(actor: Id, item: Id)
    | UpdateItem(actor: Id, item: Id, newName: Option<string>, moveTo: Option<Id>)
    | UploadContent(actor: Id, parent: Id, name: string, mimeType: Option<string>,
                    data: Bytes, properties: Properties)
    | DownloadContent(actor: Id, item: Id)

  datatype Response =
    | Alive
    | Created(item: Item)
    | Listed(items: seq<Item>)
    | Updated(item: Item)
    | Got(item: Item)
    | Deleted(id: Id)
    | ContentCreated(item: Item, size: nat)
    | Content(item: Item, data: Bytes)

  datatype Outcome = Outcome(state: State, result: Result<Response>)

  const ROOT: Id := "root"
  const FOLDER_MIME := "application/vnd.google-apps.folder"
  const BINARY_MIME := "application/octet-stream"

  function DefaultRoot(): Item {
    Item(ROOT, "My Drive", Folder, None, "system", [Permission("system", Owner)], 0,
         Some(FOLDER_MIME), None, map[])
  }

  function DefaultState(): State {
    State(map[ROOT := DefaultRoot()], map[], 1)
  }

  // ---------------------------------------------------------------------
  // Permissions
  // ---------------------------------------------------------------------

  function Rank(r: Role): nat {
    match r
    case Viewer => 1
    case Editor => 2
    case Owner => 3
  }

  /** The role of the first entry for the actor. */
  function RoleOf(ps: seq<Permission>, actor: Id): Option<Role> {
    if ps == [] then None
    else if ps[0].actor == actor then Some(ps[0].role)
    else RoleOf(ps[1..], actor)
  }

  predicate HasRole(item: Item, actor: Id, min: Role) {
    var r := RoleOf(item.permissions, actor);
    r.Some? && Rank(r.value) >= Rank(min)
  }

  /** Overwrites the first entry for the actor, or appends one. */
  function Grant(ps: seq<Permission>, actor: Id, role: Role): seq<Permission> {
    if ps == [] then [Permission(actor, role)]
    else if ps[0].actor == actor then [Permission(actor, role)] + ps[1..]
    else [ps[0]] + Grant(ps[1..], actor, role)
  }

  lemma {:induction false} GrantMeaning(ps: seq<Permission>, target: Id, role: Role, actor: Id)
    ensures RoleOf(Grant(ps, target, role), actor)
         == if actor == target then Some(role) else RoleOf(ps, actor)
  {
    if ps != [] && ps[0].actor != target {
      GrantMeaning(ps[1..], target, role, actor);
    }
  }

  // ---------------------------------------------------------------------
  // The parent links of a set of items
  // ---------------------------------------------------------------------

  function Up(items: Items): Links {
    map x | x in items && items[x].parent.Some? :: items[x].parent.value
  }

  /** Those of the listed items whose parent is p, in list order. */
  function KidsAmong(keys: seq<Id>, items: Items, p: Id): seq<Id> {
    if keys == [] then []
    else
      var last := keys[|keys| - 1];
      KidsAmong(keys[..|keys| - 1], items, p)
      + if last in items && items[last].parent == Some(p) then [last] else []
  }

  /** The children of p, in the order in which the item map is iterated. */
  function Kids(items: Items, p: Id): seq<Id> {
    KidsAmong(Sorted(items.Keys), items, p)
  }

  lemma {:induction false} KidsAmongMeaning(keys: seq<Id>, items: Items, p: Id)
    requires Distinct(keys)
    ensures var r := KidsAmong(keys, items, p);
      && Distinct(r)
      && forall c :: c in r <==> c in keys && c in items && items[c].parent == Some(p)
  {
    if keys != [] {
      var init, last := keys[..|keys| - 1], keys[|keys| - 1];
      KidsAmongMeaning(init, items, p);
      assert keys == init + [last];
      assert last !in init;
    }
  }

  lemma KidsAmongStep(keys: seq<Id>, i: nat, items: Items, p: Id)
    requires i < |keys|
    ensures KidsAmong(keys[..i + 1], items, p)
         == KidsAmong(keys[..i], items, p)
            + if keys[i] in items && items[keys[i]].parent == Some(p) then [keys[i]] else []
  {
    assert keys[..i + 1][..i] == keys[..i];
  }

  lemma KidsMeaning(items: Items, p: Id)
    ensures Distinct(Kids(items, p))
    ensures forall c :: c in Kids(items, p) <==> c in Up(items) && Up(items)[c] == p
  {
    KidsAmongMeaning(Sorted(items.Keys), items, p);
  }

  /** The items with the given ids. */
  function Pick(items: Items, ids: seq<Id>): seq<Item>
    requires forall x :: x in ids ==> x in items
  {
    if ids == [] then []
    else Pick(items, ids[..|ids| - 1]) + [items[ids[|ids| - 1]]]
  }

  lemma PickStep(items: Items, ids: seq<Id>, x: Id)
    requires x in items && forall y :: y in ids ==> y in items
    ensures Pick(items, ids + [x]) == Pick(items, ids) + [items[x]]
  {
    assert (ids + [x])[..|ids|] == ids;
  }

  // ---------------------------------------------------------------------
  // Requests
  // ---------------------------------------------------------------------

  function NewId(n: nat): Id {
    "item_" + Print(n)
  }

  /** The id counter is a 64-bit word. */
  function Bump(n: nat): nat {
    (n + 1) % U64
  }

  /** Why a new item cannot be put under `parent`, if it cannot. */
  function CreateError(items: Items, parent: Id, actor: Id): Option<string> {
    if parent !in items then Some("parent not found")
    else if items[parent].kind != Folder then Some("parent must be a folder")
    else if !HasRole(items[parent], actor, Editor) then Some("permission denied")
    else None
  }

  function DestinationError(items: Items, parent: Id, actor: Id): Option<string> {
    if parent !in items then Some("destination parent not found")
    else if items[parent].kind != Folder then Some("destination parent must be a folder")
    else if !HasRole(items[parent], actor, Editor) then Some("permission denied on destination parent")
    else None
  }

  function AccessError(items: Items, id: Id, actor: Id, min: Role, denied: string): Option<string> {
    if id !in items then Some("item not found")
    else if !HasRole(items[id], actor, min) then Some(denied)
    else None
  }

  function EditError(items: Items, id: Id, actor: Id, moving: bool, rootMessage: string): Option<string> {
    if id !in items then Some("item not found")
    else if items[id].id == ROOT && moving then Some(rootMessage)
    else if !HasRole(items[id], actor, Editor) then Some("permission denied")
    else None
  }

  function NewItem(n: nat, actor: Id, parent: Id, name: string, kind: Kind, mime: Option<string>,
                   size: Option<nat>, properties: Properties): Item
  {
    Item(NewId(n), name, kind, Some(parent), actor, [Permission(actor, Owner)], 1, mime, size, properties)
  }

  function WithItem(s: State, item: Item): State {
    State(s.items[item.id := item], s.content, Bump(s.nextId))
  }

  function Edited(item: Item, name: Option<string>, parent: Option<Id>): Item {
    var named := if name.Some? then item.(name := name.value) else item;
    var moved := if parent.Some? then named.(parent := parent) else named;
    if name.Some? || parent.Some? then moved.(revision := item.revision + 1) else moved
  }

  /** The items of a subtree: `top` and all its descendants. */
  ghost function Subtree(items: Items, top: Id): set<Id> {
    set x | x in items && Below(Up(items), x, top)
  }

  /** What a request does. Deletion is described by the subtree it removes,
      not by the worklist that finds it. */
  ghost function Apply(s: State, req: Request): Outcome {
    match req
    case Health => Outcome(s, Ok(Alive))
    case CreateFolder(actor, parent, name) =>
      var e := CreateError(s.items, parent, actor);
      if e.Some? then Outcome(s, Err(e.value))
      else
        var item := NewItem(s.nextId, actor, parent, name, Folder, Some(FOLDER_MIME), None, map[]);
        Outcome(WithItem(s, item), Ok(Created(item)))
    case CreateFile(actor, parent, name) =>
      var e := CreateError(s.items, parent, actor);
      if e.Some? then Outcome(s, Err(e.value))
      else
        var item := NewItem(s.nextId, actor, parent, name, File, None, None, map[]);
        Outcome(WithItem(s, item), Ok(Created(item)))
    case ListChildren(actor, parent) =>
      if parent !in s.items then Outcome(s, Err("parent not found"))
      else if !HasRole(s.items[parent], actor, Viewer) then Outcome(s, Err("permission denied"))
      else
        KidsMeaning(s.items, parent);
        Outcome(s, Ok(Listed(Pick(s.items, Kids(s.items, parent)))))
    case SetPermission(actor, id, target, role) =>
      var e := AccessError(s.items, id, actor, Owner, "only owners can set permissions");
      if e.Some? then Outcome(s, Err(e.value))
      else
        var item := s.items[id];
        var item' := item.(permissions := Grant(item.permissions, target, role), revision := item.revision + 1);
        Outcome(s.(items := s.items[id := item']), Ok(Updated(item')))
    case MoveItem(actor, id, newParent) =>
      var d := DestinationError(s.items, newParent, actor);
      if d.Some? then Outcome(s, Err(d.value))
      else
        var e := EditError(s.items, id, actor, true, "cannot move root");
        if e.Some? then Outcome(s, Err(e.value))
        else
          var item' := Edited(s.items[id], None, Some(newParent));
          Outcome(s.(items := s.items[id := item']), Ok(Updated(item')))
    case GetItem(actor, id) =>
      var e := AccessError(s.items, id, actor, Viewer, "permission denied");
      if e.Some? then Outcome(s, Err(e.value)) else Outcome(s, Ok(Got(s.items[id])))
    case DeleteItem(actor, id) =>
      var e := EditError(s.items, id, actor, true, "cannot delete root");
      if e.Some? then Outcome(s, Err(e.value))
      else
        var gone := Subtree(s.items, id);
        Outcome(State(s.items - gone, s.content - gone, s.nextId), Ok(Deleted(id)))
    case UpdateItem(actor, id, newName, moveTo) =>
      var d := if moveTo.Some? then DestinationError(s.items, moveTo.value, actor) else None;
      if d.Some? then Outcome(s, Err(d.value))
      else
        var e := EditError(s.items, id, actor, moveTo.Some?, "cannot move root");
        if e.Some? then Outcome(s, Err(e.value))
        else
          var item' := Edited(s.items[id], newName, moveTo);
          Outcome(s.(items := s.items[id := item']), Ok(Updated(item')))
    case UploadContent(actor, parent, name, mime, data, properties) =>
      var e := CreateError(s.items, parent, actor);
      if e.Some? then Outcome(s, Err(e.value))
      else
        var item := NewItem(s.nextId, actor, parent, name, File,
                            Some(if mime.Some? then mime.value else BINARY_MIME), Some(|data|), properties);
        var s' := WithItem(s, item);
        Outcome(s'.(content := s.content[item.id := data]), Ok(ContentCreated(item, |data|)))
    case DownloadContent(actor, id) =>
      var e := AccessError(s.items, id, actor, Viewer, "permission denied");
      if e.Some? then Outcome(s, Err(e.value))
      else if id !in s.content then Outcome(s, Err("file has no content"))
      else Outcome(s, Ok(Content(s.items[id], s.content[id])))
  }

  /** A deletion that passes its checks loops for ever when its target lies on
      a cycle of parents (see DriveDelete.DrainsIffOffCycle); every other request returns. */
  ghost predicate Returns(s: State, req: Request) {
    req.DeleteItem? && EditError(s.items, req.item, req.actor, true, "").None? ==>
      !OnCycle(Up(s.items), req.item)
  }

  /** A finite run of requests, each of which returns. */
  ghost predicate Run(s: State, reqs: seq<Request>, s': State)
    decreases |reqs|
  {
    if reqs == [] then s' == s
    else Returns(s, reqs[0]) && Run(Apply(s, reqs[0]).state, reqs[1..], s')
  }

  // ---------------------------------------------------------------------
  // Invariants
  // ---------------------------------------------------------------------

  ghost predicate KeysMatch(items: Items) {
    forall x :: x in items ==> items[x].id == x
  }

  ghost predicate FolderAt(items: Items, p: Id) {
    p in items && items[p].kind == Folder
  }

  /** Every parent exists and is a folder; the root is a folder without parent. */
  ghost predicate Structured(items: Items) {
    && KeysMatch(items)
    && FolderAt(items, ROOT) && items[ROOT].parent == None
    && forall x :: x in items && items[x].parent.Some? ==> FolderAt(items, items[x].parent.value)
  }

  /** An item has size n exactly when n bytes are stored for it. */
  ghost predicate ContentAgrees(s: State) {
    && s.content.Keys <= s.items.Keys
    && forall x :: x in s.items ==>
         s.items[x].size == if x in s.content then Some(|s.content[x]|) else None
  }

  /** No id the allocator has yet to hand out is in use. */
  ghost predicate Fresh(s: State) {
    s.nextId < U64 && forall n: nat :: s.nextId <= n < U64 ==> NewId(n) !in s.items
  }

  ghost predicate Inv(s: State) {
    Structured(s.items) && ContentAgrees(s) && Fresh(s)
  }
}
