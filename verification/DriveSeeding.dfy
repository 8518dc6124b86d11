/** Seeding a Drive state from a list of files in any order: which lists are
    accepted, what state they lead to, and what every list keeps. */
module DriveSeeding {
  import opened Wrappers
  import opened Decimal
  import opened ParentGraph
  import opened DriveModel
  import opened DriveInvariants

  datatype SeedFile = SeedFile(
    id: Id, name: string, parent: Option<Id>, owner: Id, kind: Kind,
    mimeType: Option<string>, content: Option<string>, properties: Option<Properties>)

  /** Decoding of base64 text: a partial function this model knows nothing about. */
  type Decoder = string -> Option<Bytes>

  function NonRoot(files: seq<SeedFile>): seq<SeedFile> {
    if files == [] then []
    else
      var last := files[|files| - 1];
      NonRoot(files[..|files| - 1]) + if last.id == ROOT then [] else [last]
  }

  function FirstRoot(files: seq<SeedFile>): Option<SeedFile> {
    if files == [] then None
    else if files[0].id == ROOT then Some(files[0])
    else FirstRoot(files[1..])
  }

  lemma {:induction false} NonRootMeaning(files: seq<SeedFile>)
    ensures forall f :: f in NonRoot(files) <==> f in files && f.id != ROOT
    decreases |files|
  {
    if files != [] {
      NonRootMeaning(files[..|files| - 1]);
      assert files == files[..|files| - 1] + [files[|files| - 1]];
    }
  }

  lemma {:induction false} NoFirstRoot(o: seq<SeedFile>)
    requires forall f :: f in o ==> f.id != ROOT
    ensures FirstRoot(o) == None
    decreases |o|
  {
    if o != [] {
      NoFirstRoot(o[1..]);
    }
  }

  function Revoke(ps: seq<Permission>, actor: Id): seq<Permission> {
    if ps == [] then []
    else
      Revoke(ps[..|ps| - 1], actor)
      + if ps[|ps| - 1].actor == actor then [] else [ps[|ps| - 1]]
  }

  function SeededRoot(root: Item, owner: Id, name: Option<string>): Item {
    var named := if name.Some? then root.(name := name.value) else root;
    named.(owner := owner,
           permissions := Revoke(root.permissions, owner) + [Permission(owner, Owner)],
           revision := root.revision + 1)
  }

  /** The state after the first root entry, if any, has been applied. */
  function WithRoot(s: State, files: seq<SeedFile>): State {
    match FirstRoot(files)
    case None => s
    case Some(f) =>
      if ROOT in s.items then s.(items := s.items[ROOT := SeededRoot(s.items[ROOT], f.owner, Some(f.name))])
      else s
  }

  /** The number in an id of the form the allocator uses. */
  function Number(id: Id): Option<nat> {
    if |id| >= 5 && id[..5] == "item_" then ParseU64(id[5..]) else None
  }

  /** An id has a number exactly if it is "item_" and a 64-bit number written out. */
  lemma NumberMeaning(id: Id, n: nat)
    ensures Number(id) == Some(n) <==> n < U64 && exists s :: id == "item_" + s && Writes(s, n)
  {
    hide Writes;
    if Number(id) == Some(n) {
      assert id == "item_" + id[5..];
      ParseMeaning(id[5..], U64, n);
    }
    if s :| n < U64 && id == "item_" + s && Writes(s, n) {
      assert id[..5] == "item_" && id[5..] == s;
      ParseMeaning(s, U64, n);
    }
  }

  function BumpFor(next: nat, id: Id): nat {
    match Number(id)
    case Some(n) => if n >= next then Bump(n) else next
    case None => next
  }

  /** Why a seed file cannot be added now, if it cannot. */
  function SeedError(items: Items, id: Id, parent: Option<Id>): Option<string> {
    if id in items then Some("duplicate seed id")
    else if parent.Some? && parent.value !in items then Some("seed parent not found")
    else if parent.Some? && items[parent.value].kind != Folder then Some("seed parent must be folder")
    else None
  }

  function BareItem(id: Id, name: string, parent: Option<Id>, owner: Id, kind: Kind): Item {
    Item(id, name, kind, parent, owner, [Permission(owner, Owner)], 1,
         if kind == Folder then Some(FOLDER_MIME) else None, None, map[])
  }

  predicate Decodes(f: SeedFile, decode: Decoder) {
    f.content.Some? ==> decode(f.content.value).Some?
  }

  /** The item a seed file becomes. */
  function SeededItem(f: SeedFile, decode: Decoder): Item
    requires Decodes(f, decode)
  {
    var mime := if f.mimeType.Some? then f.mimeType else if f.kind == Folder then Some(FOLDER_MIME) else None;
    var size := if f.content.Some? then Some(|decode(f.content.value).value|) else None;
    var properties := if f.properties.Some? then f.properties.value else map[];
    Item(f.id, f.name, f.kind, f.parent, f.owner, [Permission(f.owner, Owner)], 1, mime, size, properties)
  }

  // ---------------------------------------------------------------------
  // Which lists are accepted
  // ---------------------------------------------------------------------

  type Files = multiset<SeedFile>

  /** No two entries share an id. */
  ghost predicate OneEach(m: Files) {
    (forall f :: f in m ==> m[f] == 1) && forall f, g :: f in m && g in m && f.id == g.id ==> f == g
  }

  /** The chain of parents of f goes through at most k seeded folders before it
      reaches a folder that was there already, or ends. */
  ghost predicate Grounded(base: Items, m: Files, f: SeedFile, k: nat)
    decreases k
  {
    || f.parent == None
    || FolderAt(base, f.parent.value)
    || (k > 0 && exists g :: g in m && g.id == f.parent.value && g.kind == Folder && Grounded(base, m, g, k - 1))
  }

  ghost predicate AllGrounded(base: Items, m: Files) {
    forall f :: f in m ==> exists k: nat :: Grounded(base, m, f, k)
  }

  /** Ids are distinct and new, every chain of parents is well-founded through
      folders, and all content decodes. */
  ghost predicate Acceptable(base: Items, m: Files, decode: Decoder) {
    && OneEach(m)
    && (forall f :: f in m ==> f.id !in base)
    && (forall f :: f in m ==> Decodes(f, decode))
    && AllGrounded(base, m)
  }

  // ---------------------------------------------------------------------
  // The state they lead to
  // ---------------------------------------------------------------------

  ghost predicate SuppliesContent(m: Files, x: Id) {
    exists f :: f in m && f.id == x && f.content.Some?
  }

  ghost predicate HasId(m: Files, x: Id) {
    exists f :: f in m && f.id == x
  }

  ghost predicate AllDecode(m: Files, decode: Decoder) {
    forall f :: f in m ==> Decodes(f, decode)
  }

  /** `items` is `base` with one item for every entry of m. */
  ghost predicate SeededItems(base: Items, m: Files, decode: Decoder, items: Items)
    requires AllDecode(m, decode)
  {
    && (forall x :: x in base ==> x in items && (HasId(m, x) || items[x] == base[x]))
    && (forall x :: x in items ==> x in base || HasId(m, x))
    && (forall f :: f in m ==> f.id in items && items[f.id] == SeededItem(f, decode))
  }

  /** `content` is `base` with the decoded bytes of every entry of m that has any. */
  ghost predicate SeededContent(base: map<Id, Bytes>, m: Files, decode: Decoder, content: map<Id, Bytes>)
    requires AllDecode(m, decode)
  {
    && (forall x :: x in base ==> x in content && (SuppliesContent(m, x) || content[x] == base[x]))
    && (forall x :: x in content ==> x in base || SuppliesContent(m, x))
    && (forall f :: f in m && f.content.Some? ==>
          f.id in content && content[f.id] == decode(f.content.value).value)
  }

  ghost predicate Seeded(base: State, m: Files, decode: Decoder, s: State)
    requires AllDecode(m, decode)
  {
    SeededItems(base.items, m, decode, s.items) && SeededContent(base.content, m, decode, s.content)
  }

  /** n is the least counter value above `start` and above every number in m. */
  ghost predicate CounterFor(start: nat, m: Files, n: nat) {
    && n >= start
    && (forall f :: f in m && Number(f.id).Some? ==> Number(f.id).value < n)
    && (n == start || exists f :: f in m && Number(f.id) == Some(n - 1))
  }

  /** No entry carries the largest 64-bit number. */
  ghost predicate NoLastNumber(m: Files) {
    forall f :: f in m ==> Number(f.id) != Some(U64 - 1)
  }

  /** The items and contents are determined by the entries, not by their order. */
  lemma SeededUnique(base: State, m: Files, decode: Decoder, a: State, b: State)
    requires AllDecode(m, decode) && Seeded(base, m, decode, a) && Seeded(base, m, decode, b)
    ensures a.items == b.items && a.content == b.content
  {
    hide SeededItems, SeededContent;
    ItemsUnique(base.items, m, decode, a.items, b.items);
    ContentUnique(base.content, m, decode, a.content, b.content);
  }

  lemma ItemsUnique(base: Items, m: Files, decode: Decoder, a: Items, b: Items)
    requires AllDecode(m, decode)
    requires SeededItems(base, m, decode, a) && SeededItems(base, m, decode, b)
    ensures a == b
  {
    hide SeededItem, Decodes;
    forall x | x in a && x in b ensures a[x] == b[x] {
      if HasId(m, x) {
        var f :| f in m && f.id == x;
      }
    }
    assert a.Keys == b.Keys;
  }

  lemma ContentUnique(base: map<Id, Bytes>, m: Files, decode: Decoder, a: map<Id, Bytes>, b: map<Id, Bytes>)
    requires AllDecode(m, decode)
    requires SeededContent(base, m, decode, a) && SeededContent(base, m, decode, b)
    ensures a == b
  {
    forall x | x in a && x in b ensures a[x] == b[x] {
      if SuppliesContent(m, x) {
        var f :| f in m && f.id == x && f.content.Some?;
      }
    }
    assert a.Keys == b.Keys;
  }

  lemma CounterUnique(start: nat, m: Files, i: nat, j: nat)
    requires CounterFor(start, m, i) && CounterFor(start, m, j)
    ensures i == j
  {
    hide Number;
  }

  // ---------------------------------------------------------------------
  // One seed file
  // ---------------------------------------------------------------------

  /** The state after one accepted seed file. */
  function SeedOne(s: State, f: SeedFile, decode: Decoder): State
    requires Decodes(f, decode)
  {
    State(s.items[f.id := SeededItem(f, decode)],
          if f.content.Some? then s.content[f.id := decode(f.content.value).value] else s.content,
          BumpFor(s.nextId, f.id))
  }

  lemma SeedOneMore(base: State, m: Files, decode: Decoder, s: State, f: SeedFile)
    requires AllDecode(m, decode) && Decodes(f, decode)
    requires Seeded(base, m, decode, s) && !HasId(m, f.id)
    ensures AllDecode(m + multiset{f}, decode)
    ensures Seeded(base, m + multiset{f}, decode, SeedOne(s, f, decode))
  {
    hide SeededItem, Decodes;
    AllDecodeAdd(m, decode, f);
    ItemsOneMore(base.items, m, decode, s.items, f);
    ContentOneMore(base.content, m, decode, s.content, f);
  }

  lemma AllDecodeAdd(m: Files, decode: Decoder, f: SeedFile)
    ensures AllDecode(m + multiset{f}, decode) <==> AllDecode(m, decode) && Decodes(f, decode)
  {
    assert forall g :: g in m + multiset{f} <==> g in m || g == f;
  }

  lemma ItemsOneMore(base: Items, m: Files, decode: Decoder, items: Items, f: SeedFile)
    requires AllDecode(m, decode) && Decodes(f, decode) && AllDecode(m + multiset{f}, decode)
    requires SeededItems(base, m, decode, items) && !HasId(m, f.id)
    ensures SeededItems(base, m + multiset{f}, decode, items[f.id := SeededItem(f, decode)])
  {
    hide SeededItem, Decodes, AllDecode, HasId;
    assert forall g :: g in m + multiset{f} <==> g in m || g == f;
    forall x {
      HasIdAdd(m, f, x);
    }
    EntriesHaveIds(m);
  }

  lemma EntriesHaveIds(m: Files)
    ensures forall g :: g in m ==> HasId(m, g.id)
  {
  }

  lemma ContentOneMore(base: map<Id, Bytes>, m: Files, decode: Decoder, content: map<Id, Bytes>, f: SeedFile)
    requires AllDecode(m, decode) && Decodes(f, decode) && AllDecode(m + multiset{f}, decode)
    requires SeededContent(base, m, decode, content) && !HasId(m, f.id)
    ensures SeededContent(base, m + multiset{f}, decode,
              if f.content.Some? then content[f.id := decode(f.content.value).value] else content)
  {
    assert forall g :: g in m + multiset{f} <==> g in m || g == f;
    forall x ensures SuppliesContent(m + multiset{f}, x)
                 <==> SuppliesContent(m, x) || (x == f.id && f.content.Some?)
    {
      SuppliesAdd(m, f, x);
    }
    assert forall g :: g in m ==> g.id != f.id;
    hide SuppliesContent, HasId;
  }

  lemma HasIdAdd(m: Files, f: SeedFile, x: Id)
    ensures HasId(m + multiset{f}, x) <==> HasId(m, x) || x == f.id
  {
    assert f in m + multiset{f};
    if HasId(m, x) {
      var g :| g in m && g.id == x;
      assert g in m + multiset{f};
    }
  }

  lemma SuppliesAdd(m: Files, f: SeedFile, x: Id)
    ensures SuppliesContent(m + multiset{f}, x) <==> SuppliesContent(m, x) || (x == f.id && f.content.Some?)
  {
    assert f in m + multiset{f};
    if SuppliesContent(m, x) {
      var g :| g in m && g.id == x && g.content.Some?;
      assert g in m + multiset{f};
    }
  }

  lemma NumberBound(id: Id)
    ensures Number(id).Some? ==> Number(id).value < U64
  {
  }

  lemma CounterOneMore(start: nat, m: Files, n: nat, f: SeedFile)
    requires CounterFor(start, m, n) && Number(f.id) != Some(U64 - 1)
    ensures CounterFor(start, m + multiset{f}, BumpFor(n, f.id))
  {
    NumberBound(f.id);
    hide Number;
    var m' := m + multiset{f};
    assert f in m';
    assert forall g :: g in m ==> g in m';
    assert forall g :: g in m' ==> g in m || g == f;
  }

  // ---------------------------------------------------------------------
  // Why a stalled list is not acceptable
  // ---------------------------------------------------------------------

  lemma PendingIsNew(m: Files, done: Files, pending: Files, f: SeedFile)
    requires m == done + pending && OneEach(m) && f in pending
    ensures !HasId(done, f.id)
  {
    assert m[f] == done[f] + pending[f];
    assert f !in done;
    assert forall g :: g in done ==> g in m;
  }

  /** In an acceptable list, an entry that is grounded has been added already
      when none of the pending ones can be added. */
  lemma {:induction false} GroundedIsPlaced(base: State, m: Files, done: Files, pending: Files, decode: Decoder,
                                            s: State, f: SeedFile, k: nat)
    requires m == done + pending && Acceptable(base.items, m, decode)
    requires AllDecode(done, decode) && Seeded(base, done, decode, s)
    requires forall g :: g in pending ==> SeedError(s.items, g.id, g.parent).Some?
    requires f in m && Grounded(base.items, m, f, k)
    ensures f in done
    decreases k
  {
    if f in pending {
      assert m[f] == 1;
      assert f.id !in s.items by { PendingIsNew(m, done, pending, f); }
      assert FolderAt(s.items, f.parent.value) by {
        if FolderAt(base.items, f.parent.value) {
          assert forall g :: g in done ==> g in m;
          assert !HasId(done, f.parent.value);
        } else {
          var g :| g in m && g.id == f.parent.value && g.kind == Folder && Grounded(base.items, m, g, k - 1);
          GroundedIsPlaced(base, m, done, pending, decode, s, g, k - 1);
        }
      }
    }
  }

  // ---------------------------------------------------------------------
  // Progress of the seeding
  // ---------------------------------------------------------------------

  /** What is known of the entries added so far. */
  ghost predicate Placed(base: Items, m: Files, done: Files, decode: Decoder) {
    && OneEach(done) && AllDecode(done, decode)
    && (forall f :: f in done ==> f.id !in base)
    && (forall f :: f in done ==> exists k: nat :: Grounded(base, m, f, k))
  }

  ghost predicate CounterRight(start: nat, m: Files, n: nat) {
    NoLastNumber(m) ==> CounterFor(start, m, n)
  }

  /** `done` has been added, `pending` has not. */
  ghost predicate Progress(base: State, m: Files, done: Files, pending: seq<SeedFile>, decode: Decoder, s: State) {
    && m == done + multiset(pending)
    && Placed(base.items, m, done, decode)
    && Seeded(base, done, decode, s)
    && CounterRight(base.nextId, done, s.nextId)
  }

  lemma ProgressInitially(base: State, pending: seq<SeedFile>, decode: Decoder)
    ensures Progress(base, multiset(pending), multiset{}, pending, decode, base)
  {
  }

  lemma RemovedMultiset(pending: seq<SeedFile>, i: nat)
    requires i < |pending|
    ensures multiset(pending) == multiset{pending[i]} + multiset(pending[..i] + pending[i + 1..])
  {
    assert pending == pending[..i] + [pending[i]] + pending[i + 1..];
  }

  lemma ProgressStep(base: State, m: Files, done: Files, pending: seq<SeedFile>, decode: Decoder, s: State, i: nat)
    requires Progress(base, m, done, pending, decode, s) && i < |pending|
    requires SeedError(s.items, pending[i].id, pending[i].parent).None? && Decodes(pending[i], decode)
    ensures Progress(base, m, done + multiset{pending[i]}, pending[..i] + pending[i + 1..], decode,
                     SeedOne(s, pending[i], decode))
  {
    hide OneEach, Grounded, SeedError, Decodes, SeededItems, SeededContent, CounterRight;
    var f := pending[i];
    RemovedMultiset(pending, i);
    NewToDone(base, done, decode, s, f);
    SeedOneMore(base, done, decode, s, f);
    CounterRightAdd(base.nextId, done, s.nextId, f);
    ParentGrounds(base, m, done, decode, s, f);
    PlacedAdd(base.items, m, done, decode, f);
  }

  lemma NewToDone(base: State, done: Files, decode: Decoder, s: State, f: SeedFile)
    requires AllDecode(done, decode) && Seeded(base, done, decode, s)
    requires SeedError(s.items, f.id, f.parent).None?
    ensures f.id !in base.items && !HasId(done, f.id)
  {
  }

  lemma CounterRightAdd(start: nat, m: Files, n: nat, f: SeedFile)
    requires CounterRight(start, m, n)
    ensures CounterRight(start, m + multiset{f}, BumpFor(n, f.id))
  {
    if NoLastNumber(m + multiset{f}) {
      assert forall g :: g in m ==> g in m + multiset{f};
      assert f in m + multiset{f};
      CounterOneMore(start, m, n, f);
    }
  }

  lemma PlacedAdd(base: Items, m: Files, done: Files, decode: Decoder, f: SeedFile)
    requires Placed(base, m, done, decode)
    requires Decodes(f, decode) && f.id !in base && !HasId(done, f.id)
    requires exists k: nat :: Grounded(base, m, f, k)
    ensures Placed(base, m, done + multiset{f}, decode)
  {
    OneEachAdd(done, f);
    AllDecodeAdd(done, decode, f);
    hide OneEach, AllDecode, Grounded, HasId;
    assert forall g :: g in done + multiset{f} <==> g in done || g == f;
  }

  lemma OneEachAdd(m: Files, f: SeedFile)
    requires OneEach(m) && !HasId(m, f.id)
    ensures OneEach(m + multiset{f})
  {
    assert f !in m;
  }

  lemma ParentGrounds(base: State, m: Files, done: Files, decode: Decoder, s: State, f: SeedFile)
    requires done <= m && Placed(base.items, m, done, decode) && Seeded(base, done, decode, s)
    requires SeedError(s.items, f.id, f.parent).None?
    ensures exists k: nat :: Grounded(base.items, m, f, k)
  {
    if f.parent.Some? && !FolderAt(base.items, f.parent.value) {
      var p := f.parent.value;
      assert HasId(done, p);
      var g :| g in done && g.id == p;
      var k: nat :| Grounded(base.items, m, g, k);
      assert Grounded(base.items, m, f, k + 1);
    } else {
      assert Grounded(base.items, m, f, 0);
    }
  }

  lemma ProgressDone(base: State, m: Files, done: Files, decode: Decoder, s: State)
    requires Progress(base, m, done, [], decode, s)
    ensures Acceptable(base.items, m, decode)
    ensures Seeded(base, m, decode, s)
    ensures NoLastNumber(m) ==> CounterFor(base.nextId, m, s.nextId)
  {
    assert m == done;
  }

  lemma UndecodableIsBad(base: State, m: Files, done: Files, pending: seq<SeedFile>, decode: Decoder, s: State, i: nat)
    requires Progress(base, m, done, pending, decode, s) && i < |pending| && !Decodes(pending[i], decode)
    ensures !Acceptable(base.items, m, decode)
  {
    assert pending[i] in multiset(pending);
  }

  lemma StalledIsBad(base: State, m: Files, done: Files, pending: seq<SeedFile>, decode: Decoder, s: State)
    requires Progress(base, m, done, pending, decode, s) && pending != []
    requires forall j :: 0 <= j < |pending| ==> SeedError(s.items, pending[j].id, pending[j].parent).Some?
    ensures !Acceptable(base.items, m, decode)
  {
    hide Seeded, SeedError, Grounded;
    var f := pending[0];
    if Acceptable(base.items, m, decode) {
      assert f in multiset(pending) && f in m;
      var k: nat :| Grounded(base.items, m, f, k);
      PendingIsNew(m, done, multiset(pending), f);
      GroundedIsPlaced(base, m, done, multiset(pending), decode, s, f, k);
    }
  }

  // ---------------------------------------------------------------------
  // Seeding as a function
  // ---------------------------------------------------------------------

  /** The outcome of a pass: the state, the entries that still wait, and whether
      all content decoded. */
  datatype Passed = Passed(state: State, left: seq<SeedFile>, ok: bool)

  function WithoutContent(f: SeedFile): SeedFile {
    f.(content := None)
  }

  /** One pass over the entries that wait. It ends where content does not decode,
      and leaves the item of that entry without any. */
  function Pass(s: State, pending: seq<SeedFile>, decode: Decoder): (r: Passed)
    ensures |r.left| <= |pending|
    decreases |pending|
  {
    if pending == [] then Passed(s, [], true)
    else
      var f := pending[0];
      if SeedError(s.items, f.id, f.parent).Some? then
        var r := Pass(s, pending[1..], decode);
        Passed(r.state, [f] + r.left, r.ok)
      else if !Decodes(f, decode) then Passed(SeedOne(s, WithoutContent(f), decode), pending[1..], false)
      else Pass(SeedOne(s, f, decode), pending[1..], decode)
  }

  /** The state that seeding leaves, and whether it succeeded. */
  datatype Attempt = Attempt(state: State, ok: bool)

  /** Passes until nothing waits, or until a pass fails or adds nothing. */
  function SeedAll(s: State, pending: seq<SeedFile>, decode: Decoder): Attempt
    decreases |pending|
  {
    if pending == [] then Attempt(s, true)
    else
      var r := Pass(s, pending, decode);
      if !r.ok || |r.left| == |pending| then Attempt(r.state, false) else SeedAll(r.state, r.left, decode)
  }

  /** What a list of seed files leads to, accepted or not. */
  function TrySeed(s: State, files: seq<SeedFile>, decode: Decoder): Attempt {
    if FirstRoot(files).Some? && ROOT !in s.items then Attempt(s, false)
    else SeedAll(WithRoot(s, files), NonRoot(files), decode)
  }

  /** The state that an accepted list of seed files leads to. */
  function Seed(s: State, files: seq<SeedFile>, decode: Decoder): Option<State> {
    var a := TrySeed(s, files, decode);
    if a.ok then Some(a.state) else None
  }

  lemma {:induction false} PassProgress(base: State, m: Files, done: Files, kept: seq<SeedFile>, pending: seq<SeedFile>,
                                        decode: Decoder, s: State) returns (done': Files)
    requires Progress(base, m, done, kept + pending, decode, s)
    ensures var r := Pass(s, pending, decode);
      if !r.ok then !Acceptable(base.items, m, decode)
      else
        && Progress(base, m, done', kept + r.left, decode, r.state)
        && (|r.left| == |pending| ==>
              && r.state == s && r.left == pending
              && forall f :: f in pending ==> SeedError(s.items, f.id, f.parent).Some?)
    decreases |pending|
  {
    hide Progress, Acceptable, SeedError, Decodes, SeedOne;
    done' := done;
    if pending != [] {
      var f, rest, i := pending[0], pending[1..], |kept|;
      assert (kept + pending)[i] == f && kept + pending == (kept + [f]) + rest;
      if SeedError(s.items, f.id, f.parent).Some? {
        done' := PassProgress(base, m, done, kept + [f], rest, decode, s);
        var r := Pass(s, rest, decode);
        assert pending == [f] + rest;
        assert (kept + [f]) + r.left == kept + ([f] + r.left);
      } else if !Decodes(f, decode) {
        UndecodableIsBad(base, m, done, kept + pending, decode, s, i);
      } else {
        ProgressStep(base, m, done, kept + pending, decode, s, i);
        assert (kept + pending)[..i] + (kept + pending)[i + 1..] == kept + rest;
        done' := PassProgress(base, m, done + multiset{f}, kept, rest, decode, SeedOne(s, f, decode));
      }
    }
  }

  lemma {:induction false} SeedAllProgress(base: State, m: Files, done: Files, pending: seq<SeedFile>, decode: Decoder,
                                           s: State)
    requires Progress(base, m, done, pending, decode, s)
    ensures var r := SeedAll(s, pending, decode);
      && (r.ok <==> Acceptable(base.items, m, decode))
      && (r.ok ==> Seeded(base, m, decode, r.state))
      && (r.ok && NoLastNumber(m) ==> CounterFor(base.nextId, m, r.state.nextId))
    decreases |pending|
  {
    hide Progress, Acceptable, Seeded, NoLastNumber, CounterFor, SeedError, Pass;
    if pending == [] {
      ProgressDone(base, m, done, decode, s);
    } else {
      assert [] + pending == pending;
      var done' := PassProgress(base, m, done, [], pending, decode, s);
      var r := Pass(s, pending, decode);
      if r.ok {
        assert [] + r.left == r.left;
        if |r.left| == |pending| {
          StalledIsBad(base, m, done, pending, decode, s);
        } else {
          SeedAllProgress(base, m, done', r.left, decode, r.state);
        }
      }
    }
  }

  /** Seeding succeeds exactly on acceptable lists, and leads to the seeded state. */
  lemma SeedMeaning(s: State, files: seq<SeedFile>, decode: Decoder)
    ensures var base := WithRoot(s, files); var m := multiset(NonRoot(files)); var r := Seed(s, files, decode);
      && (r.Some? <==> (FirstRoot(files).Some? ==> ROOT in s.items) && Acceptable(base.items, m, decode))
      && (r.Some? ==> Seeded(base, m, decode, r.value))
      && (r.Some? && NoLastNumber(m) ==> CounterFor(base.nextId, m, r.value.nextId))
  {
    hide Progress, Acceptable, Seeded, NoLastNumber, CounterFor, SeedAll, WithRoot, NonRoot, FirstRoot;
    var base, pending := WithRoot(s, files), NonRoot(files);
    ProgressInitially(base, pending, decode);
    SeedAllProgress(base, multiset(pending), multiset{}, pending, decode, base);
  }

  // ---------------------------------------------------------------------
  // Seeding keeps the invariants of the service
  // ---------------------------------------------------------------------

  lemma NumberOfNewId(n: nat)
    requires n < U64
    ensures Number(NewId(n)) == Some(n)
  {
    assert NewId(n)[..5] == "item_" && NewId(n)[5..] == Print(n);
    ParsePrint(n, U64);
  }

  /** What seeding keeps whether or not it succeeds. */
  ghost predicate Intact(s: State) {
    Structured(s.items) && ContentAgrees(s) && s.nextId < U64
  }

  /** Applying a root entry changes the name, owner and permissions of the root. */
  lemma WithRootKeeps(s: State, files: seq<SeedFile>)
    requires Intact(s)
    ensures var s' := WithRoot(s, files);
      Intact(s') && Up(s'.items) == Up(s.items) && (Fresh(s) ==> Fresh(s'))
  {
    hide Revoke, FirstRoot, NewId;
  }

  /** One more item under an existing folder keeps the structure, adds no cycle,
      and leaves ids fresh unless its number is the last one. */
  lemma SeedOneKeeps(s: State, f: SeedFile, decode: Decoder)
    requires Intact(s) && SeedError(s.items, f.id, f.parent).None? && Decodes(f, decode)
    ensures var s' := SeedOne(s, f, decode);
      && Intact(s')
      && (Acyclic(Up(s.items)) ==> Acyclic(Up(s'.items)))
      && (Fresh(s) && Number(f.id) != Some(U64 - 1) ==> Fresh(s'))
  {
    hide SeedError, Structured, ContentAgrees, Fresh, Acyclic, Up, Decodes, Number;
    SeedOneStructured(s, f, decode);
    SeedOneContent(s, f, decode);
    NumberBound(f.id);
    if Acyclic(Up(s.items)) {
      SeedOneAcyclic(s, f, decode);
    }
    if Fresh(s) && Number(f.id) != Some(U64 - 1) {
      SeedOneFresh(s, f, decode);
    }
  }

  lemma SeedOneStructured(s: State, f: SeedFile, decode: Decoder)
    requires Structured(s.items) && SeedError(s.items, f.id, f.parent).None? && Decodes(f, decode)
    ensures Structured(SeedOne(s, f, decode).items)
  {
    hide Decodes, BumpFor;
  }

  lemma SeedOneContent(s: State, f: SeedFile, decode: Decoder)
    requires ContentAgrees(s) && SeedError(s.items, f.id, f.parent).None? && Decodes(f, decode)
    ensures ContentAgrees(SeedOne(s, f, decode))
  {
    hide BumpFor;
  }

  lemma SeedOneAcyclic(s: State, f: SeedFile, decode: Decoder)
    requires Structured(s.items) && Acyclic(Up(s.items))
    requires SeedError(s.items, f.id, f.parent).None? && Decodes(f, decode)
    ensures Acyclic(Up(SeedOne(s, f, decode).items))
  {
    hide Decodes, BumpFor, Acyclic;
    var up, up' := Up(s.items), Up(SeedOne(s, f, decode).items);
    if f.parent.Some? {
      var p := f.parent.value;
      assert up' == up[f.id := p];
      NothingAbove(s.items, p, f.id);
      RelinkAcyclic(up, f.id, p);
    } else {
      assert up' == up;
    }
  }

  /** An id that is not in use is above no item. */
  lemma NothingAbove(items: Items, x: Id, t: Id)
    requires Structured(items) && x in items && t !in items
    ensures !Below(Up(items), x, t)
  {
    if Below(Up(items), x, t) {
      OnlyItemsAbove(items, x, t);
    }
  }

  lemma SeedOneFresh(s: State, f: SeedFile, decode: Decoder)
    requires Fresh(s) && Decodes(f, decode) && Number(f.id) != Some(U64 - 1)
    ensures Fresh(SeedOne(s, f, decode))
  {
    hide SeededItem, Number, NewId;
    NumberBound(f.id);
    var s' := SeedOne(s, f, decode);
    forall n: nat | s'.nextId <= n < U64 ensures NewId(n) !in s'.items {
      NumberOfNewId(n);
    }
  }

  /** Whatever a pass or all of seeding keeps, from one state to a later one. */
  ghost predicate Kept(s: State, pending: seq<SeedFile>, s': State) {
    && Intact(s')
    && (Acyclic(Up(s.items)) ==> Acyclic(Up(s'.items)))
    && (Fresh(s) && (forall f :: f in pending ==> Number(f.id) != Some(U64 - 1)) ==> Fresh(s'))
  }

  lemma {:induction false} PassKeeps(s: State, pending: seq<SeedFile>, decode: Decoder)
    requires Intact(s)
    ensures var r := Pass(s, pending, decode);
      Kept(s, pending, r.state) && forall f :: f in r.left ==> f in pending
    decreases |pending|
  {
    hide Intact, Acyclic, Up, Fresh, SeedError, Decodes, SeedOne, Number;
    if pending != [] {
      var f, rest := pending[0], pending[1..];
      assert f in pending && forall g :: g in rest ==> g in pending;
      if SeedError(s.items, f.id, f.parent).Some? {
        PassKeeps(s, rest, decode);
      } else if !Decodes(f, decode) {
        NothingToDecode(f, decode);
        SeedOneKeeps(s, WithoutContent(f), decode);
      } else {
        SeedOneKeeps(s, f, decode);
        PassKeeps(SeedOne(s, f, decode), rest, decode);
      }
    }
  }

  lemma NothingToDecode(f: SeedFile, decode: Decoder)
    ensures Decodes(WithoutContent(f), decode)
  {
  }

  lemma {:induction false} SeedAllKeeps(s: State, pending: seq<SeedFile>, decode: Decoder)
    requires Intact(s)
    ensures Kept(s, pending, SeedAll(s, pending, decode).state)
    decreases |pending|
  {
    hide Intact, Acyclic, Up, Fresh, Pass, Number;
    if pending != [] {
      PassKeeps(s, pending, decode);
      var r := Pass(s, pending, decode);
      if r.ok && |r.left| < |pending| {
        SeedAllKeeps(r.state, r.left, decode);
      }
    }
  }

  /** Seeding, accepted or refused, keeps every parent a folder, sizes equal to
      contents and the links acyclic. Ids stay fresh where no entry has the last
      number; where the allocator's own id with that number went in, they do not. */
  lemma SeedingKeepsInv(s: State, files: seq<SeedFile>, decode: Decoder)
    requires Intact(s)
    ensures var s' := TrySeed(s, files, decode).state;
      && Intact(s')
      && (Acyclic(Up(s.items)) ==> Acyclic(Up(s'.items)))
      && (Fresh(s) && NoLastNumber(multiset(NonRoot(files))) ==> Fresh(s'))
      && (NewId(U64 - 1) in s'.items ==> !Fresh(s'))
  {
    hide WithRoot, NonRoot, Structured, ContentAgrees, Acyclic, Up, SeedAll, NewId, Number;
    WithRootKeeps(s, files);
    SeedAllKeeps(WithRoot(s, files), NonRoot(files), decode);
    assert forall f :: f in NonRoot(files) ==> f in multiset(NonRoot(files));
  }
}
