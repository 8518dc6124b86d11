/** What seeded items look like, said in terms of the seed list alone. */
module DriveSeedLaws {
  import opened Wrappers
  import opened ParentGraph
  import opened DriveModel
  import opened DriveLaws
  import opened DriveSeeding

  // ---------------------------------------------------------------------
  // Entries
  // ---------------------------------------------------------------------

  /** The fields of an item that come from its seed entry as they are. */
  ghost predicate Described(f: SeedFile, item: Item) {
    && item.id == f.id && item.name == f.name && item.kind == f.kind
    && item.parent == f.parent && item.owner == f.owner && item.revision == 1
    && (forall p :: p in item.permissions <==> p == Permission(f.owner, Owner)) && |item.permissions| == 1
    && (f.mimeType.Some? ==> item.mimeType == f.mimeType)
    && (f.mimeType.None? && f.kind == Folder ==> item.mimeType == Some("application/vnd.google-apps.folder"))
    && (f.mimeType.None? && f.kind == File ==> item.mimeType == None)
    && item.properties == (if f.properties.Some? then f.properties.value else map[])
  }

  /** The item of the entry is there, with the bytes of the entry if it has any. */
  ghost predicate StoredWhole(f: SeedFile, decode: Decoder, s: State) {
    && f.id in s.items && Described(f, s.items[f.id])
    && if f.content.Some? then
         && decode(f.content.value).Some?
         && var bytes := decode(f.content.value).value;
         && f.id in s.content && s.content[f.id] == bytes && s.items[f.id].size == Some(|bytes|)
       else s.items[f.id].size == None
  }

  /** The item of an entry that did not decode: without size and bytes. */
  ghost predicate StoredBare(f: SeedFile, decode: Decoder, s: State) {
    && f.id in s.items && Described(f, s.items[f.id])
    && f.content.Some? && decode(f.content.value).None? && s.items[f.id].size == None
  }

  lemma SeededDescribes(f: SeedFile, decode: Decoder)
    requires Decodes(f, decode)
    ensures Described(f, SeededItem(f, decode))
    ensures f.content.Some? ==>
              decode(f.content.value).Some? && SeededItem(f, decode).size == Some(|decode(f.content.value).value|)
    ensures f.content.None? ==> SeededItem(f, decode).size == None
  {
  }

  /** After an accepted list, every entry but the root's is there as listed. */
  lemma AcceptedEntries(s: State, files: seq<SeedFile>, decode: Decoder, f: SeedFile)
    requires TrySeed(s, files, decode).ok && f in files && f.id != "root"
    ensures StoredWhole(f, decode, TrySeed(s, files, decode).state)
  {
    hide TrySeed, WithRoot, NonRoot, FirstRoot, OneEach, AllGrounded, SeededItem, NoLastNumber, CounterFor, Described;
    var m := multiset(NonRoot(files));
    SeedMeaning(s, files, decode);
    NonRootMeaning(files);
    assert f in m;
    SeededDescribes(f, decode);
  }

  // ---------------------------------------------------------------------
  // Any list, accepted or refused
  // ---------------------------------------------------------------------

  /** What was there stays, and every other item is that of a listed entry. */
  ghost predicate Explained(s: State, pending: seq<SeedFile>, decode: Decoder, s': State) {
    && (forall x :: x in s.items ==> x in s'.items && s'.items[x] == s.items[x])
    && (forall x :: x in s'.items && x !in s.items ==>
          exists f :: f in pending && f.id == x && (StoredWhole(f, decode, s') || StoredBare(f, decode, s')))
  }

  lemma ExplainedOne(s: State, f: SeedFile, decode: Decoder, bare: bool)
    requires f.id !in s.items && (bare <==> !Decodes(f, decode))
    ensures Decodes(if bare then WithoutContent(f) else f, decode)
    ensures Explained(s, [f], decode, SeedOne(s, if bare then WithoutContent(f) else f, decode))
  {
    hide BumpFor, SeededItem, Described;
    var g := if bare then WithoutContent(f) else f;
    SeededDescribes(g, decode);
    SameDescription(f, g, SeededItem(g, decode));
    assert f in [f];
  }

  lemma SameDescription(f: SeedFile, g: SeedFile, item: Item)
    requires g == f || g == WithoutContent(f)
    ensures Described(g, item) ==> Described(f, item)
  {
  }

  /** Later entries leave the items and bytes of earlier ones alone. */
  lemma ExplainedThen(s: State, f: SeedFile, s1: State, rest: seq<SeedFile>, decode: Decoder, s': State)
    requires Explained(s, [f], decode, s1) && Explained(s1, rest, decode, s') && KeepsContent(s1, s')
    ensures Explained(s, [f] + rest, decode, s')
  {
    hide Described;
    forall x | x in s'.items && x !in s.items
      ensures exists g :: g in [f] + rest && g.id == x && (StoredWhole(g, decode, s') || StoredBare(g, decode, s'))
    {
      if x in s1.items {
        assert f.id == x && f in [f] + rest;
      } else {
        var g :| g in rest && g.id == x && (StoredWhole(g, decode, s') || StoredBare(g, decode, s'));
        assert g in [f] + rest;
      }
    }
  }

  ghost predicate KeepsContent(s: State, s': State) {
    forall x :: x in s.items && x in s.content ==> x in s'.content && s'.content[x] == s.content[x]
  }

  lemma ExplainedMore(s: State, f: SeedFile, rest: seq<SeedFile>, decode: Decoder, s': State)
    requires Explained(s, rest, decode, s')
    ensures Explained(s, [f] + rest, decode, s')
  {
    hide StoredWhole, StoredBare;
    assert forall g :: g in rest ==> g in [f] + rest;
  }

  lemma {:induction false} PassExplains(s: State, pending: seq<SeedFile>, decode: Decoder)
    ensures var r := Pass(s, pending, decode);
      && Explained(s, pending, decode, r.state) && KeepsContent(s, r.state)
      && forall f :: f in r.left ==> f in pending
    decreases |pending|
  {
    hide Explained, KeepsContent, SeedError, Decodes, SeedOne;
    if pending == [] {
      NothingNew(s, decode);
    } else {
      var f, rest := pending[0], pending[1..];
      assert pending == [f] + rest;
      if SeedError(s.items, f.id, f.parent).Some? {
        PassExplains(s, rest, decode);
        ExplainedMore(s, f, rest, decode, Pass(s, rest, decode).state);
      } else {
        NotInUse(s.items, f);
        var bare := !Decodes(f, decode);
        ExplainedOne(s, f, decode, bare);
        OneKeepsContent(s, if bare then WithoutContent(f) else f, decode);
        if bare {
          ExplainedPrefix(s, f, rest, decode, SeedOne(s, WithoutContent(f), decode));
        } else {
          var s1 := SeedOne(s, f, decode);
          PassExplains(s1, rest, decode);
          ExplainedThen(s, f, s1, rest, decode, Pass(s1, rest, decode).state);
          ContentKept(s, s1, Pass(s1, rest, decode).state, f, decode);
        }
      }
    }
  }

  lemma NothingNew(s: State, decode: Decoder)
    ensures Explained(s, [], decode, s) && KeepsContent(s, s)
  {
  }

  lemma NotInUse(items: Items, f: SeedFile)
    requires SeedError(items, f.id, f.parent).None?
    ensures f.id !in items
  {
  }

  lemma OneKeepsContent(s: State, f: SeedFile, decode: Decoder)
    requires Decodes(f, decode) && f.id !in s.items
    ensures KeepsContent(s, SeedOne(s, f, decode))
  {
    hide Decodes, SeededItem, BumpFor;
  }

  lemma ExplainedPrefix(s: State, f: SeedFile, rest: seq<SeedFile>, decode: Decoder, s': State)
    requires Explained(s, [f], decode, s')
    ensures Explained(s, [f] + rest, decode, s')
  {
    hide StoredWhole, StoredBare;
    assert forall g :: g in [f] ==> g in [f] + rest;
  }

  lemma ContentKept(s: State, s1: State, s': State, f: SeedFile, decode: Decoder)
    requires Explained(s, [f], decode, s1) && KeepsContent(s, s1) && KeepsContent(s1, s')
    ensures KeepsContent(s, s')
  {
  }

  /** Two rounds of seeding, one after the other. */
  lemma ExplainedTwice(s: State, pending: seq<SeedFile>, s1: State, left: seq<SeedFile>, decode: Decoder, s': State)
    requires Explained(s, pending, decode, s1) && KeepsContent(s, s1)
    requires Explained(s1, left, decode, s') && KeepsContent(s1, s')
    requires forall f :: f in left ==> f in pending
    ensures Explained(s, pending, decode, s') && KeepsContent(s, s')
  {
    hide Described;
    forall x | x in s'.items && x !in s.items
      ensures exists g :: g in pending && g.id == x && (StoredWhole(g, decode, s') || StoredBare(g, decode, s'))
    {
      if x in s1.items {
        var g :| g in pending && g.id == x && (StoredWhole(g, decode, s1) || StoredBare(g, decode, s1));
        assert StoredWhole(g, decode, s') || StoredBare(g, decode, s');
      } else {
        var g :| g in left && g.id == x && (StoredWhole(g, decode, s') || StoredBare(g, decode, s'));
      }
    }
  }

  lemma {:induction false} SeedAllExplains(s: State, pending: seq<SeedFile>, decode: Decoder)
    ensures var s' := SeedAll(s, pending, decode).state;
      Explained(s, pending, decode, s') && KeepsContent(s, s')
    decreases |pending|
  {
    hide Explained, KeepsContent, Pass;
    if pending == [] {
      NothingNew(s, decode);
    } else {
      PassExplains(s, pending, decode);
      var r := Pass(s, pending, decode);
      if r.ok && |r.left| < |pending| {
        SeedAllExplains(r.state, r.left, decode);
        ExplainedTwice(s, pending, r.state, r.left, decode, SeedAll(r.state, r.left, decode).state);
      }
    }
  }

  /** Accepted or refused, a list leaves every other item than the root as it
      was, and adds only items of its own entries: whole, or without bytes where
      they do not decode. */
  lemma LeftItems(s: State, files: seq<SeedFile>, decode: Decoder, x: Id)
    requires x in TrySeed(s, files, decode).state.items
    ensures var s' := TrySeed(s, files, decode).state;
      if x in s.items then x != "root" ==> s'.items[x] == s.items[x]
      else exists f :: f in files && f.id == x && (StoredWhole(f, decode, s') || StoredBare(f, decode, s'))
  {
    hide StoredWhole, StoredBare, SeedAll, NonRoot, FirstRoot, SeededRoot;
    var base := WithRoot(s, files);
    SeedAllExplains(base, NonRoot(files), decode);
    NonRootMeaning(files);
  }

  // ---------------------------------------------------------------------
  // The root
  // ---------------------------------------------------------------------

  /** f is the first entry of the list for the root. */
  ghost predicate FirstForRoot(files: seq<SeedFile>, f: SeedFile) {
    exists i :: 0 <= i < |files| && files[i] == f && f.id == "root"
             && forall j :: 0 <= j < i ==> files[j].id != "root"
  }

  lemma {:induction false} FirstRootMeaning(files: seq<SeedFile>, f: SeedFile)
    requires FirstForRoot(files, f)
    ensures FirstRoot(files) == Some(f)
    decreases |files|
  {
    var i :| 0 <= i < |files| && files[i] == f && f.id == "root" && forall j :: 0 <= j < i ==> files[j].id != "root";
    if i > 0 {
      assert files[0].id != "root" && files[1..][i - 1] == f;
      FirstRootMeaning(files[1..], f);
    }
  }

  /** The old entries of all other actors, in their order, and one for the owner. */
  lemma {:induction false} RevokeMeaning(ps: seq<Permission>, owner: Id)
    ensures var r := Revoke(ps, owner);
      && (forall p :: p in r <==> p in ps && p.actor != owner)
      && forall a :: a != owner ==> RoleOf(r, a) == RoleOf(ps, a)
    decreases |ps|
  {
    if ps != [] {
      var init, last := ps[..|ps| - 1], ps[|ps| - 1];
      assert ps == init + [last];
      RevokeMeaning(init, owner);
      forall a | a != owner ensures RoleOf(Revoke(ps, owner), a) == RoleOf(ps, a) {
        RoleOfAppend(init, [last], a);
        RoleOfAppend(Revoke(init, owner), [last], a);
        assert Revoke(init, owner) + [] == Revoke(init, owner);
      }
    }
  }

  lemma {:induction false} RoleOfAppend(a: seq<Permission>, b: seq<Permission>, actor: Id)
    ensures RoleOf(a + b, actor) == if RoleOf(a, actor).Some? then RoleOf(a, actor) else RoleOf(b, actor)
    decreases |a|
  {
    if a == [] {
      assert a + b == b;
    } else {
      assert (a + b)[1..] == a[1..] + b;
      RoleOfAppend(a[1..], b, actor);
    }
  }

  /** What a root entry makes of the root: its name and owner, the owner as the
      last and only entry of his, and every other actor's role as it was. */
  ghost predicate RootOf(was: Item, f: SeedFile, root: Item) {
    && root == was.(name := f.name, owner := f.owner, permissions := root.permissions, revision := was.revision + 1)
    && root.permissions != [] && root.permissions[|root.permissions| - 1] == Permission(f.owner, Owner)
    && (forall p :: p in root.permissions <==>
          (p in was.permissions && p.actor != f.owner) || p == Permission(f.owner, Owner))
    && IsOwner(root, f.owner)
    && (forall a :: a != f.owner ==> RoleOf(root.permissions, a) == RoleOf(was.permissions, a))
  }

  lemma RootRewritten(was: Item, f: SeedFile)
    ensures RootOf(was, f, SeededRoot(was, f.owner, Some(f.name)))
  {
    var root := SeededRoot(was, f.owner, Some(f.name));
    var kept, own := Revoke(was.permissions, f.owner), [Permission(f.owner, Owner)];
    RevokeMeaning(was.permissions, f.owner);
    assert own[1..] == [];
    forall a | a != f.owner ensures RoleOf(kept + own, a) == RoleOf(was.permissions, a) {
      RoleOfAppend(kept, own, a);
      assert RoleOf(own, a) == RoleOf(own[1..], a) == None;
    }
    assert FirstEntry(root.permissions, f.owner, |kept|);
  }

  /** A list's first root entry is applied whenever there is a root, and a list
      without one leaves the root alone; accepted or not. */
  lemma SeededRootLaw(s: State, files: seq<SeedFile>, decode: Decoder)
    requires "root" in s.items
    ensures var s' := TrySeed(s, files, decode).state;
      && "root" in s'.items
      && (forall f :: FirstForRoot(files, f) ==> RootOf(s.items["root"], f, s'.items["root"]))
      && ((forall f :: f in files ==> f.id != "root") ==> s'.items["root"] == s.items["root"])
  {
    hide SeedAll, NonRoot, RootOf, FirstForRoot, StoredWhole, StoredBare, SeededRoot, FirstRoot;
    var base := WithRoot(s, files);
    SeedAllExplains(base, NonRoot(files), decode);
    forall f | FirstForRoot(files, f)
      ensures RootOf(s.items["root"], f, TrySeed(s, files, decode).state.items["root"])
    {
      FirstRootMeaning(files, f);
      RootRewritten(s.items["root"], f);
    }
    if forall f :: f in files ==> f.id != "root" {
      NoFirstRoot(files);
    }
  }
}
