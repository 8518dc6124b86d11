/** Properties of whole runs of Drive requests. */
module DriveRuns {
  import opened Wrappers
  import opened Decimal
  import opened ParentGraph
  import opened DriveModel
  import opened DriveInvariants

  lemma DefaultInv()
    ensures Inv(DefaultState()) && Acyclic(Up(DefaultState().items))
  {
    forall n: nat | 1 <= n < U64 ensures NewId(n) != ROOT {
      assert NewId(n)[0] == 'i';
    }
  }

  /** Which ids are in use after one request. */
  lemma StepIds(s: State, req: Request)
    requires Inv(s)
    ensures var o := Apply(s, req);
      && o.state.items.Keys <= s.items.Keys + (if Creates(o) then {NewId(s.nextId)} else {})
      && o.state.nextId == (if Creates(o) then Bump(s.nextId) else s.nextId)
      && forall x :: x in s.items ==>
           (x !in o.state.items <==> req.DeleteItem? && o.result.Ok? && Below(Up(s.items), x, req.item))
  {
    var o := Apply(s, req);
    hide Apply;
    if IsCreate(req) {
      CreateInserts(s, req);
    } else if IsEdit(req) {
      EditReplaces(s, req);
    } else if req.DeleteItem? {
      DeleteRemoves(s, req);
    } else {
      OtherKeepsState(s, req);
    }
  }

  /** A request leaves the stored bytes of every item alone that it leaves in place. */
  lemma StepContent(s: State, req: Request, id: Id)
    requires Inv(s) && id in s.items && id in Apply(s, req).state.items
    ensures var s' := Apply(s, req).state;
      && (id in s'.content <==> id in s.content)
      && (id in s.content ==> s'.content[id] == s.content[id])
  {
    var o := Apply(s, req);
    hide Apply;
    if IsCreate(req) {
      CreateInserts(s, req);
    } else if IsEdit(req) {
      EditReplaces(s, req);
    } else if req.DeleteItem? {
      DeleteRemoves(s, req);
    } else {
      OtherKeepsState(s, req);
    }
  }

  /** The invariant holds after every run too short to exhaust the id counter. */
  lemma {:induction false} RunKeepsInv(s: State, reqs: seq<Request>, s': State)
    requires Inv(s) && Run(s, reqs, s') && s.nextId + |reqs| < U64
    ensures Inv(s') && s.nextId <= s'.nextId <= s.nextId + |reqs|
    decreases |reqs|
  {
    hide Inv;
    if reqs != [] {
      var s1 := Apply(s, reqs[0]).state;
      StepInvShort(s, reqs[0]);
      RunKeepsInv(s1, reqs[1..], s');
    }
  }

  lemma StepInvShort(s: State, req: Request)
    requires Inv(s) && s.nextId + 1 < U64
    ensures var s' := Apply(s, req).state; Inv(s') && s.nextId <= s'.nextId <= s.nextId + 1
  {
    hide Apply, Structured, ContentAgrees, Fresh;
    StepKeepsInv(s, req);
    StepIds(s, req);
  }

  /** Some item's parent is missing. */
  predicate HasOrphans(items: Items) {
    exists x :: x in items && items[x].parent.Some? && items[x].parent.value !in items
  }

  /** No run produces an orphan. */
  lemma RunHasNoOrphans(s: State, reqs: seq<Request>, s': State)
    requires Inv(s) && Run(s, reqs, s') && s.nextId + |reqs| < U64
    ensures !HasOrphans(s'.items)
  {
    hide Run;
    RunKeepsInv(s, reqs, s');
  }

  // ---------------------------------------------------------------------
  // Ids
  // ---------------------------------------------------------------------

  /** Not in use, and not among the ids still to be allocated. */
  ghost predicate Retired(s: State, id: Id) {
    id !in s.items && forall n: nat :: s.nextId <= n < U64 ==> NewId(n) != id
  }

  lemma {:induction false} RetiredForGood(s: State, reqs: seq<Request>, s': State, id: Id)
    requires Inv(s) && Run(s, reqs, s') && s.nextId + |reqs| < U64
    requires Retired(s, id)
    ensures Retired(s', id)
    decreases |reqs|
  {
    hide Inv;
    if reqs != [] {
      var s1 := Apply(s, reqs[0]).state;
      StepInvShort(s, reqs[0]);
      StepIds(s, reqs[0]);
      hide Apply;
      RetiredForGood(s1, reqs[1..], s', id);
    }
  }

  /** Once an item is gone its id never comes back: neither the id of a seeded
      item nor an allocated one is handed out again. */
  lemma DeletedIdsStayAway(s: State, reqs1: seq<Request>, s1: State, reqs2: seq<Request>, s2: State, id: Id)
    requires Inv(s) && Run(s, reqs1, s1) && Run(s1, reqs2, s2)
    requires s.nextId + |reqs1| + |reqs2| < U64
    requires id in s.items && id !in s1.items
    ensures id !in s2.items
  {
    hide Run, Structured, ContentAgrees, NewId;
    assert forall n: nat :: s.nextId <= n < U64 ==> NewId(n) != id;
    RunKeepsInv(s, reqs1, s1);
    RetiredForGood(s1, reqs2, s2, id);
  }

  /** A create never overwrites: the id it hands out was not in use. */
  lemma CreatedIdIsNew(s: State, req: Request)
    requires Inv(s) && Creates(Apply(s, req))
    ensures var o := Apply(s, req);
      && o.result.value.item.id !in s.items
      && o.state.items.Keys == s.items.Keys + {o.result.value.item.id}
      && forall x :: x in s.items ==> o.state.items[x] == s.items[x]
  {
    var o := Apply(s, req);
    hide Apply;
    if IsCreate(req) {
      CreateInserts(s, req);
    } else if IsEdit(req) {
      EditReplaces(s, req);
    } else if req.DeleteItem? {
      DeleteRemoves(s, req);
    } else {
      OtherKeepsState(s, req);
    }
  }

  // ---------------------------------------------------------------------
  // Uploaded bytes
  // ---------------------------------------------------------------------

  /** No successful deletion of the run hits the item or an ancestor it has at that time. */
  ghost predicate Spares(s: State, reqs: seq<Request>, id: Id)
    decreases |reqs|
  {
    reqs == [] ||
    var o := Apply(s, reqs[0]);
    && !(reqs[0].DeleteItem? && o.result.Ok? && Below(Up(s.items), id, reqs[0].item))
    && Spares(o.state, reqs[1..], id)
  }

  lemma {:induction false} SparedContent(s: State, reqs: seq<Request>, s': State, id: Id)
    requires Inv(s) && Run(s, reqs, s') && s.nextId + |reqs| < U64
    requires id in s.content && Spares(s, reqs, id)
    ensures id in s'.items && id in s'.content && s'.content[id] == s.content[id]
    decreases |reqs|
  {
    if reqs != [] {
      var s1 := Apply(s, reqs[0]).state;
      StepInvShort(s, reqs[0]);
      StepIds(s, reqs[0]);
      StepContent(s, reqs[0], id);
      hide Apply, Inv;
      SparedContent(s1, reqs[1..], s', id);
    }
  }

  /** Bytes uploaded are the bytes downloaded, after any run that does not
      delete the item or an ancestor of it. */
  lemma UploadThenDownload(s: State, up: Request, reqs: seq<Request>, s': State, actor: Id)
    requires Inv(s) && up.UploadContent? && s.nextId + 1 + |reqs| < U64
    requires Apply(s, up).result.Ok?
    requires var o := Apply(s, up);
      && Run(o.state, reqs, s')
      && Spares(o.state, reqs, o.result.value.item.id)
    ensures var id := Apply(s, up).result.value.item.id;
      && id in s'.items
      && Apply(s', DownloadContent(actor, id)).result
         == if HasRole(s'.items[id], actor, Viewer) then Ok(Content(s'.items[id], up.data))
            else Err("permission denied")
  {
    hide Run, Spares;
    var o := Apply(s, up);
    StepInvShort(s, up);
    SparedContent(o.state, reqs, s', o.result.value.item.id);
  }

  // ---------------------------------------------------------------------
  // Cycles are reachable
  // ---------------------------------------------------------------------

  /** Two folders and one move suffice to leave a state whose deletion request
      does not return. */
  lemma CycleIsReachable()
    ensures exists reqs, s :: Run(DefaultState(), reqs, s) && Inv(s) && !Acyclic(Up(s.items))
                           && !Returns(s, DeleteItem("system", NewId(1)))
  {
    hide Returns, Inv, Acyclic, OnCycle, NewId;
    var s0, a, b := DefaultState(), NewId(1), NewId(2);
    var r1, r2, r3 := CreateFolder("system", ROOT, "a"), CreateFolder("system", a, "b"), MoveItem("system", a, b);
    var s1 := Apply(s0, r1).state;
    var s2 := Apply(s1, r2).state;
    var s3 := Apply(s2, r3).state;
    CycleAfter();
    CycleBlocks(s3, a);
    NoDeletionReturns(s0, r1);
    NoDeletionReturns(s1, r2);
    NoDeletionReturns(s2, r3);
    assert Run(s2, [r3], s3);
    assert Run(s1, [r2, r3], s3) by { assert [r2, r3][1..] == [r3]; }
    assert Run(s0, [r1, r2, r3], s3) by { assert [r1, r2, r3][1..] == [r2, r3]; }
    DefaultInv();
    RunKeepsInv(s0, [r1, r2, r3], s3);
  }

  lemma NoDeletionReturns(s: State, req: Request)
    requires !req.DeleteItem?
    ensures Returns(s, req)
  {
  }

  /** Two folders, the outer one moved into the inner one. */
  lemma CycleAfter()
    ensures var a, b := NewId(1), NewId(2);
            var s1 := Apply(DefaultState(), CreateFolder("system", ROOT, "a")).state;
            var s2 := Apply(s1, CreateFolder("system", a, "b")).state;
            var s := Apply(s2, MoveItem("system", a, b)).state;
      && a in s.items && s.items[a].id == a && HasRole(s.items[a], "system", Editor) && a != ROOT
      && Up(s.items) == map[a := b, b := a]
  {
    hide NewId;
    NewIdInjective(1, 2);
    DefaultInv();
  }

  lemma CycleBlocks(s: State, a: Id)
    requires a in s.items && s.items[a].id == a && HasRole(s.items[a], "system", Editor) && a != ROOT
    requires a in Up(s.items) && var b := Up(s.items)[a]; b in Up(s.items) && Up(s.items)[b] == a
    ensures !Acyclic(Up(s.items)) && !Returns(s, DeleteItem("system", a))
  {
    hide Up;
    var up := Up(s.items);
    assert Anc(up, a, 2) == Anc(up, up[a], 1) == Anc(up, a, 0);
    assert OnCycle(up, a);
    assert EditError(s.items, a, "system", true, "").None?;
  }
}
