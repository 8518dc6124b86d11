/** The worklist behind cascading deletion: it has no visited set, so it is the
    shape of the parent links that decides whether it drains. */
module DriveDelete {
  import opened Wrappers
  import opened SortedKeys
  import opened ParentGraph
  import opened DriveModel

  /** `kids` lists the children of p, each once. */
  ghost predicate ListsKids(up: Links, p: Id, kids: seq<Id>) {
    Distinct(kids) && forall c :: c in kids <==> c in up && up[c] == p
  }

  /** The queue after its first i entries have been expanded. */
  ghost predicate Expanded(up: Links, top: Id, queue: seq<Id>, i: nat) {
    && i <= |queue| && queue != [] && queue[0] == top
    && Distinct(queue)
    && (forall x :: x in queue ==> Below(up, x, top))
    && (forall j :: 0 < j < |queue| ==> queue[j] in up && up[queue[j]] in queue[..i])
    && (forall c :: c in up && up[c] in queue[..i] ==> c in queue)
  }

  lemma ExpandedInitially(up: Links, top: Id)
    ensures Expanded(up, top, [top], 0)
  {
    BelowParent(up, top);
  }

  /** Expanding one entry adds no entry twice: a child already queued would put
      the top of the subtree on a cycle. */
  lemma ExpandOne(up: Links, top: Id, queue: seq<Id>, i: nat, kids: seq<Id>)
    requires Expanded(up, top, queue, i) && i < |queue|
    requires ListsKids(up, queue[i], kids)
    requires !OnCycle(up, top)
    ensures i + 1 <= |queue + kids| && Expanded(up, top, queue + kids, i + 1)
  {
    hide Below, OnCycle, Distinct;
    KidsAreNew(up, top, queue, i, kids);
    var q' := queue + kids;
    assert q'[..i + 1] == queue[..i] + [queue[i]];
    forall j | 0 < j < |q'| ensures q'[j] in up && up[q'[j]] in q'[..i + 1] {
      if j >= |queue| {
        assert q'[j] in kids;
      }
    }
    forall c | c in up && up[c] in q'[..i + 1] ensures c in q' {
      if up[c] == queue[i] {
        assert c in kids;
      }
    }
    forall x | x in q' ensures Below(up, x, top) {
      if x in kids {
        BelowStep(up, x, top);
      }
    }
  }

  lemma KidsAreNew(up: Links, top: Id, queue: seq<Id>, i: nat, kids: seq<Id>)
    requires Expanded(up, top, queue, i) && i < |queue|
    requires ListsKids(up, queue[i], kids)
    requires !OnCycle(up, top)
    ensures Distinct(queue + kids)
  {
    TopIsNoKid(up, top, queue[i]);
    assert queue[i] !in queue[..i];
    assert forall j :: 0 < j < |queue| ==> up[queue[j]] != queue[i];
    assert forall j :: 0 <= j < |queue| ==> queue[j] !in kids;
    DistinctConcat(queue, kids);
  }

  lemma TopIsNoKid(up: Links, top: Id, p: Id)
    requires Below(up, p, top)
    ensures top in up && up[top] == p ==> OnCycle(up, top)
  {
    var k: nat :| Anc(up, p, k) == Some(top);
    if top in up && up[top] == p {
      assert Anc(up, top, k + 1) == Some(top);
    }
  }

  lemma DistinctConcat<T>(a: seq<T>, b: seq<T>)
    requires Distinct(a) && Distinct(b)
    requires forall x :: x in b ==> x !in a
    ensures Distinct(a + b)
  {
    forall i, j | 0 <= i < j < |a + b| ensures (a + b)[i] != (a + b)[j] {
      if i < |a| <= j {
        assert (a + b)[j] in b;
      }
    }
  }

  /** A drained queue is exactly the subtree. */
  lemma DrainedIsSubtree(up: Links, top: Id, queue: seq<Id>)
    requires Expanded(up, top, queue, |queue|)
    ensures Distinct(queue) && forall x :: x in queue <==> Below(up, x, top)
    ensures forall x :: x in queue ==> x == top || x in up
  {
    assert queue[..|queue|] == queue;
    forall x, k: nat | Anc(up, x, k) == Some(top) ensures x in queue {
      ReachedByQueue(up, top, queue, x, k);
    }
  }

  lemma {:induction false} ReachedByQueue(up: Links, top: Id, queue: seq<Id>, x: Id, k: nat)
    requires top in queue && forall c :: c in up && up[c] in queue ==> c in queue
    requires Anc(up, x, k) == Some(top)
    ensures x in queue
    decreases k
  {
    if k > 0 {
      ReachedByQueue(up, top, queue, up[x], k - 1);
    }
  }

  /** The queue never holds more than the linked items and the top. */
  lemma QueueBound(up: Links, top: Id, queue: seq<Id>, i: nat)
    requires Expanded(up, top, queue, i)
    ensures i <= |queue| <= |up| + 1
  {
    var s := set x | x in queue;
    DistinctCardinality(queue);
    SubsetCardinality(s, up.Keys + {top});
  }

  lemma {:induction false} DistinctCardinality<T>(s: seq<T>)
    requires Distinct(s)
    ensures |set x | x in s| == |s|
  {
    if s != [] {
      var init := s[..|s| - 1];
      DistinctCardinality(init);
      assert s == init + [s[|s| - 1]];
      assert (set x | x in s) == (set x | x in init) + {s[|s| - 1]};
    }
  }

  // ---------------------------------------------------------------------
  // The worklist as a machine, for any parent links
  // ---------------------------------------------------------------------

  /** Queue and index after at most n iterations of the deletion loop. */
  function Iterate(items: Items, queue: seq<Id>, i: nat, n: nat): (seq<Id>, nat)
    decreases n
  {
    if n == 0 || i >= |queue| then (queue, i)
    else Iterate(items, queue + Kids(items, queue[i]), i + 1, n - 1)
  }

  /** The loop leaves its guard after finitely many iterations. */
  ghost predicate Drains(items: Items, top: Id) {
    exists n: nat :: var r := Iterate(items, [top], 0, n); r.1 >= |r.0|
  }

  lemma {:induction false} IterateOffCycle(items: Items, top: Id, queue: seq<Id>, i: nat, n: nat)
    requires Expanded(Up(items), top, queue, i)
    requires !OnCycle(Up(items), top)
    requires n + i > |Up(items)|
    ensures var r := Iterate(items, queue, i, n);
      && r.1 == |r.0| && Expanded(Up(items), top, r.0, r.1)
    decreases n
  {
    hide Expanded, OnCycle, Sorted, KidsAmong, Distinct;
    QueueBound(Up(items), top, queue, i);
    if i < |queue| {
      KidsMeaning(items, queue[i]);
      ExpandOne(Up(items), top, queue, i, Kids(items, queue[i]));
      IterateOffCycle(items, top, queue + Kids(items, queue[i]), i + 1, n - 1);
    }
  }

  /** Some entry still to be expanded lies on a cycle. */
  lemma {:induction false} IterateOnCycle(items: Items, queue: seq<Id>, i: nat, n: nat, j: nat)
    requires i <= j < |queue| && OnCycle(Up(items), queue[j])
    ensures var r := Iterate(items, queue, i, n); r.1 < |r.0|
    decreases n
  {
    hide OnCycle, Sorted, KidsAmong, Distinct;
    if n > 0 {
      var queue' := queue + Kids(items, queue[i]);
      var j' := j;
      if i == j {
        var c := CycleHasChild(Up(items), queue[j]);
        KidsMeaning(items, queue[i]);
        assert c in Kids(items, queue[i]);
        var d :| 0 <= d < |Kids(items, queue[i])| && Kids(items, queue[i])[d] == c;
        j' := |queue| + d;
      }
      IterateOnCycle(items, queue', i + 1, n - 1, j');
    }
  }

  /** The deletion loop ends exactly when its target is off every cycle, and it
      then has queued the target's subtree, each item once. */
  lemma DrainsIffOffCycle(items: Items, top: Id)
    ensures Drains(items, top) <==> !OnCycle(Up(items), top)
    ensures !OnCycle(Up(items), top) ==>
      var queue := Iterate(items, [top], 0, |Up(items)| + 1).0;
      Distinct(queue) && forall x :: x in queue <==> Below(Up(items), x, top)
  {
    if OnCycle(Up(items), top) {
      forall n: nat ensures var r := Iterate(items, [top], 0, n); r.1 < |r.0| {
        IterateOnCycle(items, [top], 0, n, 0);
      }
    } else {
      var n := |Up(items)| + 1;
      ExpandedInitially(Up(items), top);
      IterateOffCycle(items, top, [top], 0, n);
      DrainedIsSubtree(Up(items), top, Iterate(items, [top], 0, n).0);
    }
  }
}
