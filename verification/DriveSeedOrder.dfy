/** What the order of a seed list can change: never the items or the contents,
    and the id counter only through entries with the last 64-bit number. */
module DriveSeedOrder {
  import opened Decimal
  import opened ParentGraph
  import opened DriveModel
  import opened DriveSeeding

  /** The same entries and the same first root entry, in another order. */
  ghost predicate Reordered(a: seq<SeedFile>, b: seq<SeedFile>) {
    FirstRoot(a) == FirstRoot(b) && multiset(NonRoot(a)) == multiset(NonRoot(b))
  }

  /** Reordered lists are accepted alike and lead to the same items and contents. */
  lemma SeedingOrderFree(s: State, a: seq<SeedFile>, b: seq<SeedFile>, decode: Decoder)
    requires Reordered(a, b)
    ensures var r, r' := Seed(s, a, decode), Seed(s, b, decode);
      && (r.Some? <==> r'.Some?)
      && (r.Some? ==> r.value.items == r'.value.items && r.value.content == r'.value.content)
  {
    hide Seed, Acceptable, Seeded, NonRoot, FirstRoot, NoLastNumber, CounterFor;
    SeedMeaning(s, a, decode);
    SeedMeaning(s, b, decode);
    var r, r' := Seed(s, a, decode), Seed(s, b, decode);
    var base, m := WithRoot(s, a), multiset(NonRoot(a));
    if r.Some? && r'.Some? {
      AcceptableDecodes(base.items, m, decode);
      SeededUnique(base, m, decode, r.value, r'.value);
    }
  }

  lemma AcceptableDecodes(base: Items, m: Files, decode: Decoder)
    requires Acceptable(base, m, decode)
    ensures AllDecode(m, decode)
  {
  }

  // ---------------------------------------------------------------------
  // The orders in which entries can be added
  // ---------------------------------------------------------------------

  predicate Names(o: seq<SeedFile>, x: Id) {
    exists i :: 0 <= i < |o| && o[i].id == x
  }

  /** Every entry comes after its parent. */
  ghost predicate ParentsFirst(base: Items, o: seq<SeedFile>) {
    forall j :: 0 <= j < |o| && o[j].parent.Some? ==> o[j].parent.value in base || Names(o[..j], o[j].parent.value)
  }

  /** The counter after adding entries in this order. */
  function CountAlong(start: nat, o: seq<SeedFile>): nat {
    if o == [] then start else BumpFor(CountAlong(start, o[..|o| - 1]), o[|o| - 1].id)
  }

  lemma {:induction false} CountInRange(start: nat, o: seq<SeedFile>)
    requires start < U64
    ensures CountAlong(start, o) < U64
    decreases |o|
  {
    hide Number;
    if o != [] {
      CountInRange(start, o[..|o| - 1]);
    }
  }

  /** The state s is the one after adding the entries of o to base, as far as
      ids and the counter go. */
  ghost predicate Follows(base: Items, start: nat, o: seq<SeedFile>, s: State) {
    && ParentsFirst(base, o)
    && s.nextId == CountAlong(start, o)
    && forall x :: x in s.items ==> x in base || Names(o, x)
  }

  lemma NamesMore(o: seq<SeedFile>, f: SeedFile, x: Id)
    ensures Names(o + [f], x) <==> Names(o, x) || x == f.id
  {
    assert (o + [f])[|o|] == f;
    if Names(o, x) {
      var i :| 0 <= i < |o| && o[i].id == x;
      assert (o + [f])[i].id == x;
    }
  }

  lemma ParentsFirstMore(base: Items, o: seq<SeedFile>, f: SeedFile)
    ensures ParentsFirst(base, o + [f])
       <==> ParentsFirst(base, o) && (f.parent.Some? ==> f.parent.value in base || Names(o, f.parent.value))
  {
    hide Names;
    var o' := o + [f];
    assert o'[|o|] == f && o'[..|o|] == o;
    assert forall j :: 0 <= j < |o| ==> o'[j] == o[j] && o'[..j] == o[..j];
  }

  lemma NoParents(base: Items)
    ensures ParentsFirst(base, [])
  {
  }

  lemma CountMore(start: nat, o: seq<SeedFile>, f: SeedFile)
    ensures CountAlong(start, o + [f]) == BumpFor(CountAlong(start, o), f.id)
  {
    hide BumpFor;
    assert (o + [f])[..|o|] == o;
  }

  lemma FollowsOne(base: Items, start: nat, o: seq<SeedFile>, s: State, f: SeedFile, decode: Decoder)
    requires Follows(base, start, o, s) && SeedError(s.items, f.id, f.parent).None? && Decodes(f, decode)
    ensures Follows(base, start, o + [f], SeedOne(s, f, decode))
  {
    hide BumpFor, SeededItem, Names, Decodes, ParentsFirst, CountAlong;
    forall x ensures Names(o + [f], x) <==> Names(o, x) || x == f.id {
      NamesMore(o, f, x);
    }
    ParentsFirstMore(base, o, f);
    CountMore(start, o, f);
  }

  lemma MoveOne(a: Files, b: Files, c: Files, d: Files, f: SeedFile)
    requires a + b == c + d
    ensures a + (multiset{f} + b) == c + (multiset{f} + d)
  {
    assert a + (multiset{f} + b) == (a + b) + multiset{f};
    assert c + (multiset{f} + d) == (c + d) + multiset{f};
  }

  lemma {:induction false} PassFollows(base: Items, start: nat, o: seq<SeedFile>, s: State, pending: seq<SeedFile>,
                                       decode: Decoder) returns (o': seq<SeedFile>)
    requires Follows(base, start, o, s) && Pass(s, pending, decode).ok
    ensures var r := Pass(s, pending, decode);
      Follows(base, start, o', r.state) && multiset(o') + multiset(r.left) == multiset(o) + multiset(pending)
    decreases |pending|
  {
    hide Follows, SeedError, Decodes, SeedOne;
    o' := o;
    if pending != [] {
      var f, rest := pending[0], pending[1..];
      assert pending == [f] + rest && multiset(pending) == multiset{f} + multiset(rest);
      if SeedError(s.items, f.id, f.parent).Some? {
        o' := PassFollows(base, start, o, s, rest, decode);
        var left := Pass(s, rest, decode).left;
        assert multiset([f] + left) == multiset{f} + multiset(left);
        MoveOne(multiset(o'), multiset(left), multiset(o), multiset(rest), f);
      } else {
        FollowsOne(base, start, o, s, f, decode);
        assert multiset(o + [f]) == multiset(o) + multiset{f};
        o' := PassFollows(base, start, o + [f], SeedOne(s, f, decode), rest, decode);
      }
    }
  }

  /** Whatever the list, its entries are added in some order with parents first. */
  lemma {:induction false} SeedAllFollows(base: Items, start: nat, o: seq<SeedFile>, s: State, pending: seq<SeedFile>,
                                          decode: Decoder) returns (o': seq<SeedFile>)
    requires Follows(base, start, o, s) && SeedAll(s, pending, decode).ok
    ensures var s' := SeedAll(s, pending, decode).state;
      Follows(base, start, o', s') && multiset(o') == multiset(o) + multiset(pending)
    decreases |pending|
  {
    hide Follows, Pass;
    o' := o;
    if pending != [] {
      var r := Pass(s, pending, decode);
      var o1 := PassFollows(base, start, o, s, pending, decode);
      o' := SeedAllFollows(base, start, o1, r.state, r.left, decode);
    }
  }

  // A list with parents first is added in its own order.

  ghost predicate Added(base: State, o: seq<SeedFile>, s: State) {
    && s.nextId == CountAlong(base.nextId, o)
    && (forall x :: x in s.items <==> x in base.items || Names(o, x))
    && (forall x :: x in base.items && !Names(o, x) ==> s.items[x] == base.items[x])
    && (forall i :: 0 <= i < |o| ==> o[i].id in s.items && s.items[o[i].id].kind == o[i].kind)
  }

  lemma NextIsAddable(base: State, o: seq<SeedFile>, s: State, i: nat, decode: Decoder)
    requires Acceptable(base.items, multiset(o), decode) && ParentsFirst(base.items, o)
    requires i < |o| && Added(base, o[..i], s)
    ensures SeedError(s.items, o[i].id, o[i].parent).None? && Decodes(o[i], decode)
  {
    hide Decodes, SeededItem, Added, ParentsFirst, OneEach, AllGrounded;
    var m, f := multiset(o), o[i];
    assert f in m && f in o;
    DistinctEntries(o, base.items, decode);
    assert !Names(o[..i], f.id);
    NotThereYet(base, o[..i], s, f.id);
    if f.parent.Some? {
      ParentIsThere(base, o, s, i, decode);
    }
  }

  lemma NotThereYet(base: State, o: seq<SeedFile>, s: State, x: Id)
    requires Added(base, o, s) && x !in base.items && !Names(o, x)
    ensures x !in s.items
  {
  }

  lemma ParentIsThere(base: State, o: seq<SeedFile>, s: State, i: nat, decode: Decoder)
    requires Acceptable(base.items, multiset(o), decode) && ParentsFirst(base.items, o)
    requires i < |o| && Added(base, o[..i], s) && o[i].parent.Some?
    ensures FolderAt(s.items, o[i].parent.value)
  {
    hide Decodes;
    var m, f := multiset(o), o[i];
    var p := f.parent.value;
    assert f in m;
    var k: nat :| Grounded(base.items, m, f, k);
    if p in base.items {
      forall h | 0 <= h < i ensures o[..i][h].id != p {
        assert o[h] in m;
      }
      assert !Names(o[..i], p);
    } else {
      var h :| 0 <= h < i && o[..i][h].id == p;
      var g :| g in m && g.id == p && g.kind == Folder;
      assert o[h] in m && g == o[h];
    }
  }

  lemma DistinctEntries(o: seq<SeedFile>, base: Items, decode: Decoder)
    requires Acceptable(base, multiset(o), decode)
    ensures forall i, j :: 0 <= i < j < |o| ==> o[i].id != o[j].id
  {
    hide Grounded, Decodes;
    forall i, j | 0 <= i < j < |o| ensures o[i].id != o[j].id {
      assert o[i] in multiset(o) && o[j] in multiset(o);
      CountedTwice(o, i, j);
    }
  }

  lemma CountedTwice(o: seq<SeedFile>, i: nat, j: nat)
    requires i < j < |o|
    ensures o[i] == o[j] ==> multiset(o)[o[i]] >= 2
  {
    assert o == o[..j] + [o[j]] + o[j + 1..];
    assert o[i] in o[..j];
  }

  lemma AddedOne(base: State, o: seq<SeedFile>, s: State, f: SeedFile, decode: Decoder)
    requires Added(base, o, s) && Decodes(f, decode) && f.id !in s.items
    ensures Added(base, o + [f], SeedOne(s, f, decode))
  {
    hide Decodes, Names, BumpFor, CountAlong;
    forall x ensures Names(o + [f], x) <==> Names(o, x) || x == f.id {
      NamesMore(o, f, x);
    }
    CountMore(base.nextId, o, f);
    AddedKinds(o, s, f, decode);
  }

  lemma AddedKinds(o: seq<SeedFile>, s: State, f: SeedFile, decode: Decoder)
    requires Decodes(f, decode) && f.id !in s.items
    requires forall i :: 0 <= i < |o| ==> o[i].id in s.items && s.items[o[i].id].kind == o[i].kind
    ensures var o', s' := o + [f], SeedOne(s, f, decode);
      forall i :: 0 <= i < |o'| ==> o'[i].id in s'.items && s'.items[o'[i].id].kind == o'[i].kind
  {
    hide Decodes, BumpFor;
  }

  lemma {:induction false} PassInOrder(base: State, o: seq<SeedFile>, s: State, i: nat, decode: Decoder)
    requires Acceptable(base.items, multiset(o), decode) && ParentsFirst(base.items, o)
    requires i <= |o| && Added(base, o[..i], s)
    ensures var r := Pass(s, o[i..], decode); r.ok && r.left == [] && Added(base, o, r.state)
    decreases |o| - i
  {
    hide Acceptable, ParentsFirst, Added, SeedError, Decodes, SeedOne;
    if i == |o| {
      assert o[..i] == o && o[i..] == [];
    } else {
      var f := o[i];
      assert o[i..][0] == f && o[i..][1..] == o[i + 1..];
      NextIsAddable(base, o, s, i, decode);
      NotYetThere(s.items, f);
      AddedOne(base, o[..i], s, f, decode);
      assert o[..i] + [f] == o[..i + 1];
      PassInOrder(base, o, SeedOne(s, f, decode), i + 1, decode);
    }
  }

  lemma NotYetThere(items: Items, f: SeedFile)
    requires SeedError(items, f.id, f.parent).None?
    ensures f.id !in items
  {
  }

  lemma NothingAdded(base: State)
    ensures Added(base, [], base)
  {
  }

  lemma SeedInOrder(base: State, o: seq<SeedFile>, decode: Decoder)
    requires Acceptable(base.items, multiset(o), decode) && ParentsFirst(base.items, o)
    ensures var r := SeedAll(base, o, decode); r.ok && r.state.nextId == CountAlong(base.nextId, o)
  {
    hide Acceptable, ParentsFirst, Pass, Added;
    NothingAdded(base);
    assert o[..0] == [] && o[0..] == o;
    PassInOrder(base, o, base, 0, decode);
    if o != [] {
      var s := Pass(base, o, decode).state;
      AddedCounter(base, o, s);
    }
  }

  lemma AddedCounter(base: State, o: seq<SeedFile>, s: State)
    requires Added(base, o, s)
    ensures s.nextId == CountAlong(base.nextId, o)
  {
  }
}
