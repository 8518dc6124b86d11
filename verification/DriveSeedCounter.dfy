/** When the order of a seed list matters. The counter wraps at an entry with
    the last 64-bit number, and from then on counts only what is added later. */
module DriveSeedCounter {
  import opened Wrappers
  import opened Decimal
  import opened ParentGraph
  import opened DriveModel
  import opened DriveSeeding
  import opened DriveSeedOrder

  // ---------------------------------------------------------------------
  // Entries above and below each other
  // ---------------------------------------------------------------------

  ghost function EntryLinks(m: Files): Links
    requires OneEach(m)
  {
    map f | f in m && f.parent.Some? :: f.id := f.parent.value
  }

  /** g is f or one of its descendants in the list. */
  ghost predicate Under(m: Files, g: SeedFile, f: SeedFile)
    requires OneEach(m)
  {
    Below(EntryLinks(m), g.id, f.id)
  }

  predicate IsLast(f: SeedFile) {
    Number(f.id) == Some(U64 - 1)
  }

  /** l has the last number, and no other such entry is below it. */
  ghost predicate Lowest(m: Files, l: SeedFile)
    requires OneEach(m)
  {
    l in m && IsLast(l) && forall g :: g in m && IsLast(g) && Under(m, g, l) ==> g == l
  }

  /** f has a number, and no entry with the last number is at or below it. */
  ghost predicate Lasting(m: Files, f: SeedFile)
    requires OneEach(m)
  {
    f in m && Number(f.id).Some? && forall l :: l in m && IsLast(l) ==> !Under(m, l, f)
  }

  ghost predicate Exceeded(m: Files, l: SeedFile, n: nat)
    requires OneEach(m)
  {
    exists g :: g in m && g != l && Under(m, g, l) && Number(g.id).Some? && Number(g.id).value >= n
  }

  /** Below every entry l with the last number, unless another such entry is
      below l, there is a number as great as any that can be added after l. */
  ghost predicate CounterDecided(m: Files)
    requires OneEach(m)
  {
    forall l, f :: Lowest(m, l) && Lasting(m, f) ==> Exceeded(m, l, Number(f.id).value)
  }

  // ---------------------------------------------------------------------
  // Orders with parents first
  // ---------------------------------------------------------------------

  ghost predicate Order(base: Items, m: Files, o: seq<SeedFile>) {
    multiset(o) == m && ParentsFirst(base, o)
  }

  ghost predicate New(base: Items, m: Files) {
    OneEach(m) && forall f :: f in m ==> f.id !in base
  }

  lemma OrderDistinct(m: Files, o: seq<SeedFile>)
    requires OneEach(m) && multiset(o) == m
    ensures forall i :: 0 <= i < |o| ==> o[i] in m
    ensures forall i, j :: 0 <= i < j < |o| ==> o[i].id != o[j].id
  {
    forall i, j | 0 <= i < j < |o| ensures o[i].id != o[j].id {
      assert o[i] in multiset(o) && o[j] in multiset(o);
      CountedTwice(o, i, j);
    }
    forall i | 0 <= i < |o| ensures o[i] in m {
      assert o[i] in multiset(o);
    }
  }

  lemma LinkOfEntry(m: Files, f: SeedFile)
    requires OneEach(m) && f in m
    ensures f.id in EntryLinks(m) <==> f.parent.Some?
    ensures f.parent.Some? ==> EntryLinks(m)[f.id] == f.parent.value
  {
  }

  /** Descendants come after their ancestors. */
  lemma {:induction false} DescendantsLater(base: Items, m: Files, o: seq<SeedFile>, i: nat, j: nat, k: nat)
    requires New(base, m) && Order(base, m, o) && i < |o| && j < |o|
    requires Anc(EntryLinks(m), o[j].id, k) == Some(o[i].id)
    ensures i <= j
    decreases k
  {
    hide ParentsFirst, OneEach, EntryLinks;
    OrderDistinct(m, o);
    if k > 0 {
      LinkOfEntry(m, o[j]);
      var p := o[j].parent.value;
      assert Anc(EntryLinks(m), p, k - 1) == Some(o[i].id);
      ParentEarlier(base, o, j);
      if p in base {
        ChainEndsInBase(base, m, p, k - 1, o[i]);
      } else {
        var h :| 0 <= h < j && o[..j][h].id == p;
        DescendantsLater(base, m, o, i, h, k - 1);
      }
    }
  }

  lemma ParentEarlier(base: Items, o: seq<SeedFile>, j: nat)
    requires ParentsFirst(base, o) && j < |o| && o[j].parent.Some?
    ensures o[j].parent.value in base || Names(o[..j], o[j].parent.value)
  {
  }

  lemma ChainEndsInBase(base: Items, m: Files, p: Id, k: nat, f: SeedFile)
    requires New(base, m) && p in base && f in m
    ensures Anc(EntryLinks(m), p, k) != Some(f.id)
  {
  }

  lemma UnderLater(base: Items, m: Files, o: seq<SeedFile>, i: nat, j: nat)
    requires New(base, m) && Order(base, m, o) && i < |o| && j < |o| && Under(m, o[j], o[i])
    ensures i <= j
  {
    hide ParentsFirst, OneEach, EntryLinks, Anc;
    var k: nat :| Anc(EntryLinks(m), o[j].id, k) == Some(o[i].id);
    DescendantsLater(base, m, o, i, j, k);
  }

  // ---------------------------------------------------------------------
  // The counter after the last wrap
  // ---------------------------------------------------------------------

  /** c is the least counter above all numbers of o between the positions. */
  predicate CountsBetween(o: seq<SeedFile>, j: int, i: int, c: nat)
    requires -1 <= j <= i <= |o|
  {
    && (forall h :: j < h < i && Number(o[h].id).Some? ==> Number(o[h].id).value < c)
    && (c == 0 || exists h :: j < h < i && Number(o[h].id) == Some(c - 1))
  }

  predicate LastAt(o: seq<SeedFile>, j: nat) {
    j < |o| && IsLast(o[j]) && forall h :: j < h < |o| ==> !IsLast(o[h])
  }

  lemma {:induction false} CountAfterWrap(start: nat, o: seq<SeedFile>, j: nat, i: nat)
    requires start < U64 && LastAt(o, j) && j < i <= |o|
    ensures CountsBetween(o, j, i, CountAlong(start, o[..i]))
    decreases i
  {
    hide Number;
    assert o[..i][..i - 1] == o[..i - 1];
    if i == j + 1 {
      CountInRange(start, o[..j]);
    } else {
      CountAfterWrap(start, o, j, i - 1);
      NumberBound(o[i - 1].id);
    }
  }

  lemma {:induction false} FindLast(o: seq<SeedFile>) returns (j: nat)
    requires exists f :: f in o && IsLast(f)
    ensures LastAt(o, j)
    decreases |o|
  {
    hide IsLast;
    var n := |o| - 1;
    if IsLast(o[n]) {
      j := n;
    } else {
      assert o == o[..n] + [o[n]];
      j := FindLast(o[..n]);
      assert forall h :: j < h < n ==> o[h] == o[..n][h];
    }
  }

  lemma {:induction false} CountWithoutWrap(start: nat, o: seq<SeedFile>)
    requires NoLastNumber(multiset(o))
    ensures CounterFor(start, multiset(o), CountAlong(start, o))
    decreases |o|
  {
    hide Number, CounterFor;
    if o == [] {
      NothingCounted(start);
    } else {
      var init, f := o[..|o| - 1], o[|o| - 1];
      assert o == init + [f];
      assert multiset(o) == multiset(init) + multiset{f};
      assert f in multiset(o) && forall g :: g in multiset(init) ==> g in multiset(o);
      CountWithoutWrap(start, init);
      CounterOneMore(start, multiset(init), CountAlong(start, init), f);
    }
  }

  lemma NothingCounted(start: nat)
    ensures CounterFor(start, multiset{}, start)
  {
  }

  // ---------------------------------------------------------------------
  // Decided lists
  // ---------------------------------------------------------------------

  /** What comes after the last wrap can come after every wrap. */
  lemma AfterLastIsLasting(base: Items, m: Files, o: seq<SeedFile>, j: nat, h: nat)
    requires New(base, m) && Order(base, m, o) && LastAt(o, j) && j < h < |o| && Number(o[h].id).Some?
    ensures Lasting(m, o[h])
  {
    hide ParentsFirst, Under, IsLast, Number;
    OrderDistinct(m, o);
    forall l | l in m && IsLast(l) ensures !Under(m, l, o[h]) {
      assert l in multiset(o);
      var i :| 0 <= i < |o| && o[i] == l;
      if Under(m, l, o[h]) {
        UnderLater(base, m, o, h, i);
      }
    }
  }

  lemma LastIsLowest(base: Items, m: Files, o: seq<SeedFile>, j: nat)
    requires New(base, m) && Order(base, m, o) && LastAt(o, j)
    ensures Lowest(m, o[j])
  {
    hide ParentsFirst, Under, IsLast;
    OrderDistinct(m, o);
    forall g | g in m && IsLast(g) && Under(m, g, o[j]) ensures g == o[j] {
      assert g in multiset(o);
      var i :| 0 <= i < |o| && o[i] == g;
      UnderLater(base, m, o, j, i);
    }
  }

  lemma DecidedAtMost(base: Items, m: Files, start: nat, a: seq<SeedFile>, b: seq<SeedFile>, i: nat, j: nat)
    requires New(base, m) && Order(base, m, a) && Order(base, m, b) && start < U64
    requires LastAt(a, i) && LastAt(b, j) && CounterDecided(m)
    ensures CountAlong(start, a) <= CountAlong(start, b)
  {
    hide Order, OneEach, Lowest, Lasting, Under, IsLast, Number;
    CountsAfter(start, a, i);
    CountsAfter(start, b, j);
    var c := CountAlong(start, a);
    if c > 0 {
      var h :| i < h < |a| && Number(a[h].id) == Some(c - 1);
      AfterLastIsLasting(base, m, a, i, h);
      LastIsLowest(base, m, b, j);
      var g :| g in m && g != b[j] && Under(m, g, b[j]) && Number(g.id).Some? && Number(g.id).value >= c - 1;
      var k := IndexUnder(base, m, b, j, g);
      assert Number(b[k].id).value < CountAlong(start, b);
    }
  }

  lemma CountsAfter(start: nat, o: seq<SeedFile>, j: nat)
    requires start < U64 && LastAt(o, j)
    ensures CountsBetween(o, j, |o|, CountAlong(start, o))
  {
    CountAfterWrap(start, o, j, |o|);
    assert o[..|o|] == o;
  }

  lemma IndexUnder(base: Items, m: Files, o: seq<SeedFile>, j: nat, g: SeedFile) returns (k: nat)
    requires New(base, m) && Order(base, m, o) && j < |o|
    requires g in m && g != o[j] && Under(m, g, o[j])
    ensures j < k < |o| && o[k] == g
  {
    hide ParentsFirst, Under, OneEach;
    assert g in multiset(o);
    k :| 0 <= k < |o| && o[k] == g;
    UnderLater(base, m, o, j, k);
  }

  lemma DecidedAgree(base: Items, m: Files, start: nat, a: seq<SeedFile>, b: seq<SeedFile>)
    requires New(base, m) && Order(base, m, a) && Order(base, m, b) && start < U64 && CounterDecided(m)
    ensures CountAlong(start, a) == CountAlong(start, b)
  {
    hide CounterDecided, ParentsFirst, OneEach, CounterFor;
    if l :| l in m && IsLast(l) {
      assert l in multiset(a) && l in multiset(b);
      assert l in a && l in b;
      var i := FindLast(a);
      var j := FindLast(b);
      DecidedAtMost(base, m, start, a, b, i, j);
      DecidedAtMost(base, m, start, b, a, j, i);
    } else {
      assert NoLastNumber(m);
      CountWithoutWrap(start, a);
      CountWithoutWrap(start, b);
      CounterUnique(start, m, CountAlong(start, a), CountAlong(start, b));
    }
  }

  // ---------------------------------------------------------------------
  // Undecided lists
  // ---------------------------------------------------------------------

  /** The entries with an id in s, and the others, in order. */
  function Keep(o: seq<SeedFile>, s: set<Id>): seq<SeedFile> {
    if o == [] then []
    else Keep(o[..|o| - 1], s) + if o[|o| - 1].id in s then [o[|o| - 1]] else []
  }

  function Rest(o: seq<SeedFile>, s: set<Id>): seq<SeedFile> {
    if o == [] then []
    else Rest(o[..|o| - 1], s) + if o[|o| - 1].id in s then [] else [o[|o| - 1]]
  }

  lemma {:induction false} SplitMembers(o: seq<SeedFile>, s: set<Id>)
    ensures forall i :: 0 <= i < |Keep(o, s)| ==> Keep(o, s)[i].id in s
    ensures forall i :: 0 <= i < |Rest(o, s)| ==> Rest(o, s)[i].id !in s
    decreases |o|
  {
    if o != [] {
      SplitMembers(o[..|o| - 1], s);
    }
  }

  lemma {:induction false} SplitCounts(o: seq<SeedFile>, s: set<Id>)
    ensures multiset(Keep(o, s)) + multiset(Rest(o, s)) == multiset(o)
    decreases |o|
  {
    if o != [] {
      var init, f := o[..|o| - 1], o[|o| - 1];
      SplitCounts(init, s);
      assert o == init + [f];
      CountOneMore(init, Keep(init, s), Rest(init, s), f);
      assert Keep(init, s) + [] == Keep(init, s) && Rest(init, s) + [] == Rest(init, s);
      if f.id in s {
        assert Keep(o, s) == Keep(init, s) + [f] && Rest(o, s) == Rest(init, s);
      } else {
        assert Keep(o, s) == Keep(init, s) && Rest(o, s) == Rest(init, s) + [f];
      }
    }
  }

  lemma CountOneMore(o: seq<SeedFile>, a: seq<SeedFile>, b: seq<SeedFile>, f: SeedFile)
    requires multiset(a) + multiset(b) == multiset(o)
    ensures multiset(a + [f]) + multiset(b) == multiset(o + [f]) == multiset(a) + multiset(b + [f])
  {
    assert multiset(o + [f]) == multiset(o) + multiset{f};
    assert multiset(a + [f]) == multiset(a) + multiset{f};
    assert multiset(b + [f]) == multiset(b) + multiset{f};
  }

  lemma {:induction false} SplitNames(o: seq<SeedFile>, s: set<Id>, x: Id)
    requires Names(o, x)
    ensures if x in s then Names(Keep(o, s), x) else Names(Rest(o, s), x)
    decreases |o|
  {
    var init, f := o[..|o| - 1], o[|o| - 1];
    assert o == init + [f];
    NamesMore(init, f, x);
    NamesMore(Keep(init, s), f, x);
    NamesMore(Rest(init, s), f, x);
    hide Names;
    assert Keep(init, s) + [] == Keep(init, s) && Rest(init, s) + [] == Rest(init, s);
    if Names(init, x) {
      SplitNames(init, s, x);
    }
  }

  /** A set of ids that holds the parents of its members, among the entries of o. */
  ghost predicate UpClosed(o: seq<SeedFile>, s: set<Id>) {
    forall f :: f in o && f.id in s && f.parent.Some? && Names(o, f.parent.value) ==> f.parent.value in s
  }

  lemma NamesPrefix(o: seq<SeedFile>, f: SeedFile, x: Id)
    requires Names(o, x)
    ensures Names(o + [f], x)
  {
    NamesMore(o, f, x);
  }

  lemma UpClosedPrefix(o: seq<SeedFile>, f: SeedFile, s: set<Id>)
    requires UpClosed(o + [f], s)
    ensures UpClosed(o, s)
  {
    forall x | Names(o, x) ensures Names(o + [f], x) {
      NamesPrefix(o, f, x);
    }
    hide Names;
    assert forall g :: g in o ==> g in o + [f];
  }

  lemma {:induction false} KeepParentsFirst(base: Items, o: seq<SeedFile>, s: set<Id>)
    requires ParentsFirst(base, o) && UpClosed(o, s)
    ensures ParentsFirst(base, Keep(o, s))
    decreases |o|
  {
    hide ParentsFirst, Names;
    if o == [] {
      NoParents(base);
    } else {
      var init, f := o[..|o| - 1], o[|o| - 1];
      assert o == init + [f];
      ParentsFirstMore(base, init, f);
      UpClosedPrefix(init, f, s);
      KeepParentsFirst(base, init, s);
      if f.id in s {
        ParentsFirstMore(base, Keep(init, s), f);
        if f.parent.Some? && f.parent.value !in base {
          NamesPrefix(init, f, f.parent.value);
          SplitNames(init, s, f.parent.value);
        }
      } else {
        assert Keep(o, s) == Keep(init, s);
      }
    }
  }

  lemma NamesAppend(a: seq<SeedFile>, b: seq<SeedFile>, x: Id)
    requires Names(a, x) || Names(b, x)
    ensures Names(a + b, x)
  {
    if Names(a, x) {
      var i :| 0 <= i < |a| && a[i].id == x;
      assert (a + b)[i].id == x;
    } else {
      var i :| 0 <= i < |b| && b[i].id == x;
      assert (a + b)[|a| + i].id == x;
    }
  }

  lemma {:induction false} RestParentsFirst(base: Items, a: seq<SeedFile>, o: seq<SeedFile>, s: set<Id>)
    requires ParentsFirst(base, a) && ParentsFirst(base, o)
    requires forall x :: x in s && Names(o, x) ==> Names(a, x)
    ensures ParentsFirst(base, a + Rest(o, s))
    decreases |o|
  {
    hide ParentsFirst, Names;
    if o == [] {
      assert a + Rest(o, s) == a;
    } else {
      var init, f := o[..|o| - 1], o[|o| - 1];
      assert o == init + [f];
      ParentsFirstMore(base, init, f);
      forall x | Names(init, x) ensures Names(o, x) {
        NamesPrefix(init, f, x);
      }
      RestParentsFirst(base, a, init, s);
      if f.id in s {
        assert Rest(o, s) == Rest(init, s);
      } else {
        assert a + Rest(o, s) == (a + Rest(init, s)) + [f];
        ParentsFirstMore(base, a + Rest(init, s), f);
        if f.parent.Some? && f.parent.value !in base {
          SplitNames(init, s, f.parent.value);
          NamesAppend(a, Rest(init, s), f.parent.value);
        }
      }
    }
  }

  /** Moving an up-closed set of entries to the front keeps parents first. */
  lemma MoveToFront(base: Items, m: Files, o: seq<SeedFile>, s: set<Id>) returns (o': seq<SeedFile>, n: nat)
    requires Order(base, m, o) && UpClosed(o, s)
    ensures Order(base, m, o') && n <= |o'|
    ensures forall i :: 0 <= i < |o'| ==> (o'[i].id in s <==> i < n)
  {
    hide ParentsFirst, UpClosed;
    SplitMembers(o, s);
    SplitCounts(o, s);
    var a, b := Keep(o, s), Rest(o, s);
    o', n := a + b, |a|;
    KeepParentsFirst(base, o, s);
    forall x | x in s && Names(o, x) ensures Names(a, x) {
      SplitNames(o, s, x);
    }
    RestParentsFirst(base, a, o, s);
    assert multiset(a + b) == multiset(a) + multiset(b);
  }

  ghost predicate ParentClosed(m: Files, s: set<Id>) {
    forall f, p :: f in m && p in m && f.parent == Some(p.id) && f.id in s ==> p.id in s
  }

  lemma ParentClosedUp(m: Files, o: seq<SeedFile>, s: set<Id>)
    requires multiset(o) == m && ParentClosed(m, s)
    ensures UpClosed(o, s)
  {
    forall f | f in o && f.id in s && f.parent.Some? && Names(o, f.parent.value) ensures f.parent.value in s {
      var i :| 0 <= i < |o| && o[i].id == f.parent.value;
      assert f in multiset(o) && o[i] in multiset(o);
    }
  }

  lemma UnderParent(m: Files, g: SeedFile, f: SeedFile, p: SeedFile)
    requires OneEach(m) && f in m && f.parent == Some(p.id)
    ensures Under(m, f, p)
    ensures Under(m, g, f) ==> Under(m, g, p)
  {
    hide OneEach, EntryLinks;
    var up := EntryLinks(m);
    LinkOfEntry(m, f);
    BelowParent(up, f.id);
    if Under(m, g, f) {
      BelowTrans(up, g.id, f.id, p.id);
    }
  }

  /** If f can outlast every wrap, it does so in some order. */
  lemma WrapsFirst(base: Items, m: Files, start: nat, o: seq<SeedFile>, l: SeedFile, f: SeedFile)
    returns (o': seq<SeedFile>)
    requires New(base, m) && Order(base, m, o) && start < U64
    requires l in m && IsLast(l) && Lasting(m, f)
    ensures Order(base, m, o') && CountAlong(start, o') > Number(f.id).value
  {
    hide ParentsFirst, Under, IsLast, Number, CountAlong;
    var s := set g | g in m && exists k :: k in m && IsLast(k) && Under(m, k, g) :: g.id;
    assert ParentClosed(m, s) by {
      forall g, p | g in m && p in m && g.parent == Some(p.id) && g.id in s ensures p.id in s {
        var k :| k in m && IsLast(k) && Under(m, k, g);
        UnderParent(m, k, g, p);
      }
    }
    ParentClosedUp(m, o, s);
    var n;
    o', n := MoveToFront(base, m, o, s);
    assert f in multiset(o') && l in multiset(o');
    var i :| 0 <= i < |o'| && o'[i] == f;
    assert l in o';
    var j := FindLast(o');
    OrderDistinct(m, o');
    UnderItself(m, o'[j]);
    assert o'[j].id in s;
    assert f.id !in s;
    CountsAfter(start, o', j);
  }

  lemma UnderItself(m: Files, f: SeedFile)
    requires OneEach(m)
    ensures Under(m, f, f)
  {
    BelowParent(EntryLinks(m), f.id);
  }

  /** There is an order in which only descendants of l come after l. */
  lemma DescendantsLast(base: Items, m: Files, o: seq<SeedFile>, l: SeedFile) returns (o': seq<SeedFile>, j: nat)
    requires New(base, m) && Order(base, m, o) && Lowest(m, l)
    ensures Order(base, m, o') && LastAt(o', j) && o'[j] == l
    ensures forall h :: j < h < |o'| ==> o'[h] in m && o'[h] != l && Under(m, o'[h], l)
  {
    hide ParentsFirst, Under, IsLast;
    var s := set g | g in m && !Under(m, g, l) :: g.id;
    assert ParentClosed(m, s) by {
      forall g, p | g in m && p in m && g.parent == Some(p.id) && g.id in s ensures p.id in s {
        if Under(m, p, l) {
          UnderParent(m, g, g, p);
          UnderTrans(m, g, p, l);
        }
      }
    }
    ParentClosedUp(m, o, s);
    var n;
    o', n := MoveToFront(base, m, o, s);
    OrderDistinct(m, o');
    assert l in multiset(o');
    j :| 0 <= j < |o'| && o'[j] == l;
    UnderItself(m, l);
    assert l.id !in s;
    forall h | j < h < |o'| ensures o'[h] in m && o'[h] != l && Under(m, o'[h], l) && !IsLast(o'[h]) {
      assert o'[h].id !in s;
      assert o'[h].id != o'[j].id;
    }
  }

  lemma UnderTrans(m: Files, a: SeedFile, b: SeedFile, c: SeedFile)
    requires OneEach(m) && Under(m, a, b) && Under(m, b, c)
    ensures Under(m, a, c)
  {
    BelowTrans(EntryLinks(m), a.id, b.id, c.id);
  }

  ghost predicate AllAgree(base: Items, m: Files, start: nat) {
    forall a, b :: Order(base, m, a) && Order(base, m, b) ==> CountAlong(start, a) == CountAlong(start, b)
  }

  lemma AgreementDecides(base: Items, m: Files, start: nat, o: seq<SeedFile>)
    requires New(base, m) && Order(base, m, o) && start < U64 && AllAgree(base, m, start)
    ensures CounterDecided(m)
  {
    hide Order, Under, IsLast, Number, CountAlong;
    forall l, f | Lowest(m, l) && Lasting(m, f) ensures Exceeded(m, l, Number(f.id).value) {
      var a := WrapsFirst(base, m, start, o, l, f);
      var b, j := DescendantsLast(base, m, o, l);
      CountsAfter(start, b, j);
      var c := CountAlong(start, b);
      assert c == CountAlong(start, a);
      var h :| j < h < |b| && Number(b[h].id) == Some(c - 1);
      assert b[h] in m && b[h] != l && Under(m, b[h], l);
    }
  }

  /** All orders lead to the same counter exactly when the list decides it. */
  lemma OrdersAgree(base: Items, m: Files, start: nat, o: seq<SeedFile>)
    requires New(base, m) && Order(base, m, o) && start < U64
    ensures AllAgree(base, m, start) <==> CounterDecided(m)
  {
    hide Order, CounterDecided, CountAlong;
    if CounterDecided(m) {
      forall a, b | Order(base, m, a) && Order(base, m, b) ensures CountAlong(start, a) == CountAlong(start, b) {
        DecidedAgree(base, m, start, a, b);
      }
    } else if AllAgree(base, m, start) {
      AgreementDecides(base, m, start, o);
    }
  }

  // ---------------------------------------------------------------------
  // Seed lists
  // ---------------------------------------------------------------------

  lemma FollowsNothing(s: State)
    ensures Follows(s.items, s.nextId, [], s)
  {
  }

  /** The counter after seeding is the counter along some order of the entries. */
  lemma SeedHasOrder(s: State, files: seq<SeedFile>, decode: Decoder) returns (o: seq<SeedFile>)
    requires Seed(s, files, decode).Some?
    ensures var base := WithRoot(s, files);
      Order(base.items, multiset(NonRoot(files)), o)
      && Seed(s, files, decode).value.nextId == CountAlong(base.nextId, o)
  {
    hide ParentsFirst, SeedAll, WithRoot, NonRoot, FirstRoot, CountAlong;
    var base := WithRoot(s, files);
    FollowsNothing(base);
    o := SeedAllFollows(base.items, base.nextId, [], base, NonRoot(files), decode);
    assert multiset(o) == multiset(NonRoot(files));
  }

  lemma {:induction false} NonRootOf(prefix: seq<SeedFile>, o: seq<SeedFile>)
    requires forall f :: f in o ==> f.id != ROOT
    requires forall f :: f in prefix ==> f.id == ROOT
    ensures NonRoot(prefix + o) == o
    decreases |prefix| + |o|
  {
    if o != [] {
      var init := o[..|o| - 1];
      assert (prefix + o)[..|prefix + o| - 1] == prefix + init && o == init + [o[|o| - 1]];
      NonRootOf(prefix, init);
    } else if prefix != [] {
      var init := prefix[..|prefix| - 1];
      assert (prefix + o)[..|prefix + o| - 1] == init + o;
      NonRootOf(init, o);
    }
  }

  lemma {:induction false} FirstRootIsRoot(files: seq<SeedFile>)
    ensures FirstRoot(files).Some? ==> FirstRoot(files).value.id == ROOT
    decreases |files|
  {
    if files != [] {
      FirstRootIsRoot(files[1..]);
    }
  }

  /** A reordered list whose entries come in a given order. */
  function InOrder(files: seq<SeedFile>, o: seq<SeedFile>): seq<SeedFile> {
    var root := FirstRoot(files);
    (if root.Some? then [root.value] else []) + o
  }

  lemma InOrderMeaning(files: seq<SeedFile>, o: seq<SeedFile>)
    requires multiset(o) == multiset(NonRoot(files))
    ensures NonRoot(InOrder(files, o)) == o && FirstRoot(InOrder(files, o)) == FirstRoot(files)
  {
    hide NonRoot;
    FirstRootIsRoot(files);
    NonRootMeaning(files);
    forall f | f in o ensures f.id != ROOT {
      assert f in multiset(o) && f in multiset(NonRoot(files));
    }
    var root := FirstRoot(files);
    var prefix := if root.Some? then [root.value] else [];
    NonRootOf(prefix, o);
    NoFirstRoot(o);
    if root.Some? {
      assert (prefix + o)[0] == root.value;
    } else {
      assert prefix + o == o;
    }
  }

  lemma SameRoot(s: State, a: seq<SeedFile>, b: seq<SeedFile>)
    requires FirstRoot(a) == FirstRoot(b)
    ensures WithRoot(s, a) == WithRoot(s, b) && WithRoot(s, a).nextId == s.nextId
  {
    hide FirstRoot;
  }

  /** Every order of the entries is the order of some list. */
  lemma SeedOfOrder(s: State, files: seq<SeedFile>, o: seq<SeedFile>, decode: Decoder)
    requires Seed(s, files, decode).Some?
    requires Order(WithRoot(s, files).items, multiset(NonRoot(files)), o)
    ensures Reordered(files, InOrder(files, o))
    ensures var r := Seed(s, InOrder(files, o), decode);
      r.Some? && r.value.nextId == CountAlong(WithRoot(s, files).nextId, o)
  {
    hide ParentsFirst, Acceptable, SeedAll, WithRoot, NonRoot, FirstRoot, CountAlong, InOrder;
    InOrderMeaning(files, o);
    SameRoot(s, files, InOrder(files, o));
    SeedMeaning(s, files, decode);
    SeedInOrder(WithRoot(s, files), o, decode);
  }

  lemma AcceptableIsNew(base: Items, m: Files, decode: Decoder)
    requires Acceptable(base, m, decode)
    ensures New(base, m)
  {
  }

  lemma SeedIsNew(s: State, files: seq<SeedFile>, decode: Decoder)
    requires Seed(s, files, decode).Some?
    ensures New(WithRoot(s, files).items, multiset(NonRoot(files)))
  {
    hide Acceptable, Seed, WithRoot, NonRoot, FirstRoot, New;
    SeedMeaning(s, files, decode);
    AcceptableIsNew(WithRoot(s, files).items, multiset(NonRoot(files)), decode);
  }

  ghost predicate OrderMatters(s: State, files: seq<SeedFile>, decode: Decoder) {
    exists other :: Reordered(files, other) && Seed(s, other, decode) != Seed(s, files, decode)
  }

  /** The state that an accepted seed list leads to depends on the order of the
      list exactly when the list does not decide the counter. */
  lemma OrderMattersIffUndecided(s: State, files: seq<SeedFile>, decode: Decoder)
    requires Seed(s, files, decode).Some? && s.nextId < U64
    ensures OneEach(multiset(NonRoot(files)))
    ensures OrderMatters(s, files, decode) <==> !CounterDecided(multiset(NonRoot(files)))
  {
    hide Seed, Order, CounterDecided, CountAlong, WithRoot, Reordered, OneEach;
    var base, m := WithRoot(s, files), multiset(NonRoot(files));
    SeedIsNew(s, files, decode);
    SameRoot(s, files, files);
    var o := SeedHasOrder(s, files, decode);
    OrdersAgree(base.items, m, base.nextId, o);
    if AllAgree(base.items, m, base.nextId) {
      forall other | Reordered(files, other) ensures Seed(s, other, decode) == Seed(s, files, decode) {
        AgreeingSeeds(s, files, other, decode);
      }
    } else {
      var a, b :| Order(base.items, m, a) && Order(base.items, m, b)
               && CountAlong(base.nextId, a) != CountAlong(base.nextId, b);
      SeedOfOrder(s, files, a, decode);
      SeedOfOrder(s, files, b, decode);
      assert OrderMatters(s, files, decode);
    }
  }

  lemma AgreeingSeeds(s: State, files: seq<SeedFile>, other: seq<SeedFile>, decode: Decoder)
    requires Seed(s, files, decode).Some? && Reordered(files, other)
    requires var base := WithRoot(s, files); AllAgree(base.items, multiset(NonRoot(files)), base.nextId)
    ensures Seed(s, other, decode) == Seed(s, files, decode)
  {
    hide Seed, Order, CountAlong, WithRoot, NonRoot, FirstRoot;
    SeedingOrderFree(s, files, other, decode);
    SameRoot(s, files, other);
    var a := SeedHasOrder(s, files, decode);
    var b := SeedHasOrder(s, other, decode);
  }

  // ---------------------------------------------------------------------
  // A list whose order matters
  // ---------------------------------------------------------------------

  function Stray(id: Id): SeedFile {
    SeedFile(id, "", None, "", File, None, None, None)
  }

  lemma SeedTwo(a: Id, b: Id, decode: Decoder)
    requires a != ROOT && b != ROOT && a != b
    ensures var r := Seed(DefaultState(), [Stray(a), Stray(b)], decode);
      r.Some? && r.value.nextId == BumpFor(BumpFor(1, a), b)
  {
    hide BumpFor;
    var f, g, s := Stray(a), Stray(b), DefaultState();
    var files := [f, g];
    assert files == [] + files;
    NonRootOf([], files);
    NoFirstRoot(files);
    assert files[1..] == [g] && [g][1..] == [];
    assert SeedOne(s, f, decode).items.Keys == {ROOT, a};
    assert Pass(SeedOne(s, f, decode), [g], decode) == Passed(SeedOne(SeedOne(s, f, decode), g, decode), [], true);
    var s2 := SeedOne(SeedOne(s, f, decode), g, decode);
    assert Pass(s, files, decode) == Passed(s2, [], true);
    assert SeedAll(s2, [], decode) == Attempt(s2, true);
    assert SeedAll(s, files, decode) == Attempt(s2, true);
    assert NonRoot(files) == files && WithRoot(s, files) == s;
  }

  /** Two acceptable lists with the same two entries, and different counters. */
  lemma LastNumberOrderMatters(decode: Decoder)
    ensures var last, five := Stray(NewId(U64 - 1)), Stray(NewId(5));
            var r, r' := Seed(DefaultState(), [last, five], decode), Seed(DefaultState(), [five, last], decode);
      Reordered([last, five], [five, last])
      && r.Some? && r'.Some? && r.value.nextId == 6 && r'.value.nextId == 0
  {
    hide Seed, Reordered, Number, NewId, BumpFor;
    var last, five := NewId(U64 - 1), NewId(5);
    NumberOfNewId(U64 - 1);
    NumberOfNewId(5);
    NoRootId(U64 - 1);
    NoRootId(5);
    BumpedBoth(last, five);
    SeedTwo(last, five, decode);
    SeedTwo(five, last, decode);
    SwapReorders(Stray(last), Stray(five));
  }

  lemma NoRootId(n: nat)
    ensures NewId(n) != ROOT
  {
    assert NewId(n)[0] == 'i';
  }

  lemma BumpedBoth(last: Id, five: Id)
    requires Number(last) == Some(U64 - 1) && Number(five) == Some(5)
    ensures BumpFor(BumpFor(1, last), five) == 6 && BumpFor(BumpFor(1, five), last) == 0
  {
    hide Number;
  }

  lemma SwapReorders(f: SeedFile, g: SeedFile)
    requires f.id != ROOT && g.id != ROOT
    ensures Reordered([f, g], [g, f])
  {
    hide NonRoot, FirstRoot;
    var a, b := [f, g], [g, f];
    assert a == [] + a && b == [] + b;
    NonRootOf([], a);
    NonRootOf([], b);
    NoFirstRoot(a);
    NoFirstRoot(b);
  }
}
