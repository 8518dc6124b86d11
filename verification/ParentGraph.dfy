/** Parent links: `up` maps a child to its parent. Every node has at most one
    parent, and nothing forbids a cycle. */
module ParentGraph {
  import opened Wrappers
  import opened SortedKeys

  type Id = string
  type Links = map<Id, Id>

  /** The k-th ancestor of x, if the chain of parents is that long. */
  ghost function Anc(up: Links, x: Id, k: nat): Option<Id>
    decreases k
  {
    if k == 0 then Some(x)
    else if x in up then Anc(up, up[x], k - 1)
    else None
  }

  /** x is t or one of the descendants of t. */
  ghost predicate Below(up: Links, x: Id, t: Id) {
    exists k: nat :: Anc(up, x, k) == Some(t)
  }

  ghost predicate OnCycle(up: Links, x: Id) {
    exists k: nat :: k > 0 && Anc(up, x, k) == Some(x)
  }

  ghost predicate Acyclic(up: Links) {
    forall x :: x in up ==> !OnCycle(up, x)
  }

  /** The chain of parents of x is finite. */
  ghost predicate Ends(up: Links, x: Id) {
    exists k: nat :: Anc(up, x, k) == None
  }

  lemma {:induction false} AncAdd(up: Links, x: Id, i: nat, j: nat)
    requires Anc(up, x, i).Some?
    ensures Anc(up, x, i + j) == Anc(up, Anc(up, x, i).value, j)
    decreases i
  {
    if i > 0 {
      AncAdd(up, up[x], i - 1, j);
    }
  }

  lemma {:induction false} AncShorter(up: Links, x: Id, i: nat, j: nat)
    requires i <= j && Anc(up, x, j).Some?
    ensures Anc(up, x, i).Some?
    decreases i
  {
    if i > 0 {
      AncShorter(up, up[x], i - 1, j - 1);
    }
  }

  /** The last step of a chain goes through the link of its last but one node. */
  lemma AncLast(up: Links, x: Id, k: nat)
    requires k > 0 && Anc(up, x, k).Some?
    ensures Anc(up, x, k - 1).Some?
    ensures var y := Anc(up, x, k - 1).value; y in up && Anc(up, x, k) == Some(up[y])
  {
    AncShorter(up, x, k - 1, k);
    AncAdd(up, x, k - 1, 1);
    assert Anc(up, Anc(up, x, k - 1).value, 1).Some?;
  }

  lemma BelowTrans(up: Links, x: Id, y: Id, z: Id)
    requires Below(up, x, y) && Below(up, y, z)
    ensures Below(up, x, z)
  {
    var i: nat :| Anc(up, x, i) == Some(y);
    var j: nat :| Anc(up, y, j) == Some(z);
    AncAdd(up, x, i, j);
    assert Anc(up, x, i + j) == Some(z);
  }

  lemma BelowParent(up: Links, x: Id)
    ensures Below(up, x, x)
    ensures x in up ==> Below(up, x, up[x])
  {
    assert Anc(up, x, 0) == Some(x);
    if x in up {
      assert Anc(up, x, 1) == Anc(up, up[x], 0);
    }
  }

  /** Below, one link at a time. */
  lemma BelowStep(up: Links, x: Id, t: Id)
    ensures Below(up, x, t) <==> x == t || (x in up && Below(up, up[x], t))
  {
    BelowParent(up, x);
    if x in up && Below(up, up[x], t) {
      BelowTrans(up, x, up[x], t);
    }
    if Below(up, x, t) && x != t {
      var k: nat :| Anc(up, x, k) == Some(t);
      assert Anc(up, up[x], k - 1) == Some(t);
    }
  }

  // ---------------------------------------------------------------------
  // Cycles
  // ---------------------------------------------------------------------

  lemma {:induction false} CycleRepeats(up: Links, x: Id, period: nat, n: nat)
    requires Anc(up, x, period) == Some(x)
    ensures Anc(up, x, n * period) == Some(x)
    decreases n
  {
    if n > 0 {
      CycleRepeats(up, x, period, n - 1);
      AncAdd(up, x, (n - 1) * period, period);
      assert (n - 1) * period + period == n * period;
    }
  }

  lemma CycleNeverEnds(up: Links, x: Id, k: nat)
    requires OnCycle(up, x)
    ensures Anc(up, x, k).Some?
  {
    var p: nat :| p > 0 && Anc(up, x, p) == Some(x);
    CycleRepeats(up, x, p, k);
    assert k <= k * p;
    AncShorter(up, x, k, k * p);
  }

  /** Going up from a cycle stays on it. */
  lemma CycleClosedUpwards(up: Links, x: Id, t: Id)
    requires OnCycle(up, x) && Below(up, x, t)
    ensures OnCycle(up, t) && Below(up, t, x)
  {
    var p: nat :| p > 0 && Anc(up, x, p) == Some(x);
    var k: nat :| Anc(up, x, k) == Some(t);
    // n * p is at least k and strictly positive
    var n := k + 1;
    CycleRepeats(up, x, p, n);
    assert n * p >= k + 1;
    var back: nat := n * p - k;
    AncAdd(up, x, k, back);
    assert Anc(up, t, back) == Some(x);
    AncAdd(up, t, back, k);
    assert Anc(up, t, back + k) == Some(t);
  }

  /** A node on a cycle has a child on that cycle. */
  lemma CycleHasChild(up: Links, x: Id) returns (c: Id)
    requires OnCycle(up, x)
    ensures c in up && up[c] == x && OnCycle(up, c)
  {
    var p: nat :| p > 0 && Anc(up, x, p) == Some(x);
    AncLast(up, x, p);
    c := Anc(up, x, p - 1).value;
    assert Below(up, x, c);
    CycleClosedUpwards(up, x, c);
  }

  // ---------------------------------------------------------------------
  // Counting: a chain without repetition is no longer than the set of links
  // ---------------------------------------------------------------------

  /** The first n nodes of the chain of x. */
  ghost function Chain(up: Links, x: Id, n: nat): set<Id>
    requires Anc(up, x, n).Some?
    decreases n
  {
    if n == 0 then {}
    else
      AncLast(up, x, n);
      Chain(up, x, n - 1) + {Anc(up, x, n - 1).value}
  }

  lemma {:induction false} InChain(up: Links, x: Id, n: nat, y: Id) returns (i: nat)
    requires Anc(up, x, n).Some? && y in Chain(up, x, n)
    ensures i < n && Anc(up, x, i) == Some(y)
    decreases n
  {
    AncLast(up, x, n);
    if y == Anc(up, x, n - 1).value {
      i := n - 1;
    } else {
      i := InChain(up, x, n - 1, y);
    }
  }

  lemma {:induction false} ChainIsInLinks(up: Links, x: Id, n: nat)
    requires Anc(up, x, n).Some?
    ensures Chain(up, x, n) <= up.Keys
    decreases n
  {
    if n > 0 {
      AncLast(up, x, n);
      ChainIsInLinks(up, x, n - 1);
    }
  }

  /** Either the first n nodes are distinct, or one of them lies on a cycle. */
  lemma {:induction false} ChainSizeOrCycle(up: Links, x: Id, n: nat)
    requires Anc(up, x, n).Some?
    ensures |Chain(up, x, n)| == n || exists y :: Below(up, x, y) && OnCycle(up, y)
    decreases n
  {
    if n > 0 {
      AncLast(up, x, n);
      ChainSizeOrCycle(up, x, n - 1);
      var y := Anc(up, x, n - 1).value;
      if y in Chain(up, x, n - 1) {
        var i := InChain(up, x, n - 1, y);
        AncAdd(up, x, i, n - 1 - i);
        assert Anc(up, y, n - 1 - i) == Some(y);
        assert Below(up, x, y) && OnCycle(up, y);
      }
    }
  }

  lemma ChainBound(up: Links, x: Id, n: nat)
    requires Anc(up, x, n).Some?
    ensures n <= |up| || exists y :: Below(up, x, y) && OnCycle(up, y)
  {
    ChainIsInLinks(up, x, n);
    ChainSizeOrCycle(up, x, n);
    SubsetCardinality(Chain(up, x, n), up.Keys);
  }

  /** A chain of parents is finite exactly when it does not run into a cycle. */
  lemma EndsIffNoCycleAbove(up: Links, x: Id)
    ensures Ends(up, x) <==> !exists y :: Below(up, x, y) && OnCycle(up, y)
  {
    if Ends(up, x) {
      var k: nat :| Anc(up, x, k) == None;
      forall y | Below(up, x, y) && OnCycle(up, y) ensures false {
        var i: nat :| Anc(up, x, i) == Some(y);
        CycleNeverEnds(up, y, k);
        AncAdd(up, x, i, k);
        AncShorter(up, x, k, i + k);
      }
    } else if !exists y :: Below(up, x, y) && OnCycle(up, y) {
      var n := |up| + 1;
      assert Anc(up, x, n) != None;
      ChainBound(up, x, n);
    }
  }

  // ---------------------------------------------------------------------
  // Changing the links
  // ---------------------------------------------------------------------

  /** As long as a chain does not leave through x, the link of x is irrelevant. */
  lemma {:induction false} SameUntil(up: Links, up': Links, x: Id, y: Id, k: nat)
    requires forall z :: z != x ==> (z in up <==> z in up') && (z in up ==> up[z] == up'[z])
    requires forall j: nat :: j < k ==> Anc(up, y, j) != Some(x)
    ensures Anc(up', y, k) == Anc(up, y, k)
    decreases k
  {
    if k > 0 {
      assert Anc(up, y, 0) == Some(y);
      if y in up {
        forall j: nat | j < k - 1 ensures Anc(up, up[y], j) != Some(x) {
          assert Anc(up, y, j + 1) == Anc(up, up[y], j);
        }
        SameUntil(up, up', x, up[y], k - 1);
      }
    }
  }

  lemma FirstVisit(up: Links, y: Id, x: Id) returns (k: nat)
    requires Below(up, y, x)
    ensures Anc(up, y, k) == Some(x)
    ensures forall j: nat :: j < k ==> Anc(up, y, j) != Some(x)
  {
    k :| Anc(up, y, k) == Some(x);
    while exists j: nat :: j < k && Anc(up, y, j) == Some(x)
      invariant Anc(up, y, k) == Some(x)
      decreases k
    {
      var j: nat :| j < k && Anc(up, y, j) == Some(x);
      k := j;
    }
  }

  lemma SameBelow(up: Links, up': Links, x: Id, y: Id)
    requires forall z :: z != x ==> (z in up <==> z in up') && (z in up ==> up[z] == up'[z])
    requires Below(up, y, x)
    ensures Below(up', y, x)
  {
    var k := FirstVisit(up, y, x);
    SameUntil(up, up', x, y, k);
  }

  lemma CycleMeetsChange(up: Links, up': Links, x: Id, y: Id)
    requires forall z :: z != x ==> (z in up <==> z in up') && (z in up ==> up[z] == up'[z])
    requires OnCycle(up', y) && !OnCycle(up, y)
    ensures Below(up', y, x)
  {
    var p: nat :| p > 0 && Anc(up', y, p) == Some(y);
    if !Below(up', y, x) {
      assert forall j: nat :: j < p ==> Anc(up', y, j) != Some(x);
      SameUntil(up', up, x, y, p);
      assert Anc(up, y, p) == Some(y);
    }
  }

  /** Giving x the parent p keeps the links acyclic exactly when p is not in
      the subtree of x. */
  lemma RelinkAcyclic(up: Links, x: Id, p: Id)
    requires Acyclic(up)
    ensures Acyclic(up[x := p]) <==> !Below(up, p, x)
  {
    var up' := up[x := p];
    if Below(up, p, x) {
      SameBelow(up, up', x, p);
      var k: nat :| Anc(up', p, k) == Some(x);
      assert Anc(up', x, k + 1) == Some(x);
      assert OnCycle(up', x);
    }
    if !Acyclic(up') {
      var y :| y in up' && OnCycle(up', y);
      assert !OnCycle(up, y) by {
        if OnCycle(up, y) {
          CycleNeverEnds(up, y, 1);
        }
      }
      CycleMeetsChange(up, up', x, y);
      CycleClosedUpwards(up', y, x);
      var c: nat :| c > 0 && Anc(up', x, c) == Some(x);
      assert Anc(up', p, c - 1) == Some(x);
      SameBelow(up', up, x, p);
    }
  }

  /** Fewer links: chains only get shorter. */
  lemma {:induction false} SublinksAnc(up: Links, up': Links, x: Id, k: nat)
    requires forall z :: z in up' ==> z in up && up[z] == up'[z]
    requires Anc(up', x, k).Some?
    ensures Anc(up, x, k) == Anc(up', x, k)
    decreases k
  {
    if k > 0 {
      SublinksAnc(up, up', up[x], k - 1);
    }
  }

  lemma SublinksAcyclic(up: Links, up': Links)
    requires Acyclic(up)
    requires forall z :: z in up' ==> z in up && up[z] == up'[z]
    ensures Acyclic(up')
  {
    forall x | x in up' ensures !OnCycle(up', x) {
      if OnCycle(up', x) {
        var p: nat :| p > 0 && Anc(up', x, p) == Some(x);
        SublinksAnc(up, up', x, p);
      }
    }
  }
}
