/** The attachment store against the references of live messages. */
module GmailAttachments {
  import opened Wrappers
  import opened GmailModel
  import opened GmailInvariants
  import opened GmailRuns

  type Store = map<Id, Bytes>

  /** The i-th attachment of message k has id a. */
  ghost predicate RefAt(messages: Messages, k: Id, i: nat, a: Id) {
    k in messages && i < |messages[k].attachments| && messages[k].attachments[i].id == a
  }

  /** Every reference is to stored bytes of the announced size. */
  ghost predicate RefsStored(messages: Messages, store: Store) {
    forall k, i: nat, a :: RefAt(messages, k, i, a) ==>
      a in store && messages[k].attachments[i].size == |store[a]|
  }

  /** No attachment is referenced twice. */
  ghost predicate RefsUnique(messages: Messages) {
    forall k, i: nat, l, j: nat, a :: RefAt(messages, k, i, a) && RefAt(messages, l, j, a) ==> k == l && i == j
  }

  /** Nothing is stored without a reference. */
  ghost predicate StoreReferenced(messages: Messages, store: Store) {
    forall a :: a in store ==> exists k, i: nat :: RefAt(messages, k, i, a)
  }

  /** The store is exactly the disjoint union of what live messages reference. */
  ghost predicate Conserved(s: State) {
    RefsStored(s.messages, s.attachments) && RefsUnique(s.messages) && StoreReferenced(s.messages, s.attachments)
  }

  // ---------------------------------------------------------------------
  // Storing
  // ---------------------------------------------------------------------

  /** `store` is `base` with the bytes of the files under the ids of the references. */
  ghost predicate StoredExactly(base: Store, files: seq<Incoming>, refs: seq<AttachmentRef>, store: Store) {
    && |refs| == |files|
    && (forall a :: a in base ==> a in store && store[a] == base[a])
    && (forall a :: a in store ==> a in base || exists i :: 0 <= i < |refs| && refs[i].id == a)
    && (forall i :: 0 <= i < |refs| ==>
          && files[i].data.Some? && refs[i].id in store
          && store[refs[i].id] == files[i].data.value && refs[i].size == |files[i].data.value|)
  }

  lemma StoreOneExactly(base: Store, files: seq<Incoming>, before: Stored, f: Incoming)
    requires before.ok && StoredExactly(base, files, before.refs, before.attachments)
    requires var after := StoreOne(before, f);
      after.ok && DistinctIds(after.refs) && forall i :: 0 <= i < |after.refs| ==> after.refs[i].id !in base
    ensures var after := StoreOne(before, f); StoredExactly(base, files + [f], after.refs, after.attachments)
  {
    var after := StoreOne(before, f);
    var n := |before.refs|;
    assert after.refs[..n] == before.refs && |after.refs| == n + 1;
    var id := after.refs[n].id;
    assert forall i :: 0 <= i < n ==> after.refs[i] == before.refs[i] && before.refs[i].id != id;
    assert after.attachments == before.attachments[id := f.data.value];
    forall a | a in after.attachments ensures a in base || exists i :: 0 <= i < |after.refs| && after.refs[i].id == a {
      if a == id {
        assert after.refs[n].id == a;
      } else if a !in base {
        var i :| 0 <= i < n && before.refs[i].id == a;
        assert after.refs[i].id == a;
      }
    }
  }

  lemma {:induction false} StoreAllExactly(base: Store, nextId: nat, files: seq<Incoming>)
    requires var st := StoreAll(base, nextId, files);
      st.ok && DistinctIds(st.refs) && forall i :: 0 <= i < |st.refs| ==> st.refs[i].id !in base
    ensures var st := StoreAll(base, nextId, files); StoredExactly(base, files, st.refs, st.attachments)
    decreases |files|
  {
    hide StoreOne, StoredExactly, DistinctIds;
    if files == [] {
      NothingStored(base, nextId);
    } else {
      var init, f := files[..|files| - 1], files[|files| - 1];
      var before := StoreAll(base, nextId, init);
      RefsPrefix(before, f);
      StoreAllExactly(base, nextId, init);
      StoreOneExactly(base, init, before, f);
      assert files == init + [f];
    }
  }

  lemma NothingStored(base: Store, nextId: nat)
    ensures StoredExactly(base, [], StoreAll(base, nextId, []).refs, StoreAll(base, nextId, []).attachments)
  {
  }

  lemma RefsPrefix(before: Stored, f: Incoming)
    requires StoreOne(before, f).ok && DistinctIds(StoreOne(before, f).refs)
    ensures before.ok && before.refs <= StoreOne(before, f).refs && DistinctIds(before.refs)
    ensures forall i :: 0 <= i < |before.refs| ==> before.refs[i] == StoreOne(before, f).refs[i]
  {
    var after := StoreOne(before, f);
    assert after.refs[..|before.refs|] == before.refs;
    assert forall i :: 0 <= i < |before.refs| ==> before.refs[i] == after.refs[i];
  }

  // ---------------------------------------------------------------------
  // Requests
  // ---------------------------------------------------------------------

  lemma PlacedRefAt(messages: Messages, m: Message, k: Id, i: nat, a: Id)
    ensures RefAt(messages[m.id := m], k, i, a) <==>
      if k == m.id then i < |m.attachments| && m.attachments[i].id == a else RefAt(messages, k, i, a)
  {
  }

  lemma PlacedStored(messages: Messages, base: Store, m: Message, files: seq<Incoming>, store: Store)
    requires RefsStored(messages, base) && StoredExactly(base, files, m.attachments, store)
    ensures RefsStored(messages[m.id := m], store)
  {
    var messages' := messages[m.id := m];
    forall k, i: nat, a | RefAt(messages', k, i, a)
      ensures a in store && messages'[k].attachments[i].size == |store[a]|
    {
      PlacedRefAt(messages, m, k, i, a);
    }
  }

  lemma PlacedUnique(messages: Messages, base: Store, m: Message)
    requires RefsStored(messages, base) && RefsUnique(messages)
    requires DistinctIds(m.attachments) && forall i :: 0 <= i < |m.attachments| ==> m.attachments[i].id !in base
    ensures RefsUnique(messages[m.id := m])
  {
    var messages' := messages[m.id := m];
    forall k, i: nat, l, j: nat, a | RefAt(messages', k, i, a) && RefAt(messages', l, j, a) ensures k == l && i == j {
      PlacedRefAt(messages, m, k, i, a);
      PlacedRefAt(messages, m, l, j, a);
      if k == m.id && l == m.id {
        assert !(i < j) && !(j < i);
      }
    }
  }

  lemma PlacedReferenced(messages: Messages, base: Store, m: Message, files: seq<Incoming>, store: Store)
    requires StoreReferenced(messages, base) && m.id !in messages && StoredExactly(base, files, m.attachments, store)
    ensures StoreReferenced(messages[m.id := m], store)
  {
    var messages' := messages[m.id := m];
    forall a | a in store ensures exists k, i: nat :: RefAt(messages', k, i, a) {
      if a in base {
        var k, i: nat :| RefAt(messages, k, i, a);
        assert RefAt(messages', k, i, a);
      } else {
        var i :| 0 <= i < |m.attachments| && m.attachments[i].id == a;
        assert RefAt(messages', m.id, i, a);
      }
    }
  }

  /** Removing whole messages with what they reference. */
  lemma RemovedConserved(messages: Messages, store: Store, gone: set<Id>, refs: set<Id>)
    requires RefsStored(messages, store) && RefsUnique(messages) && StoreReferenced(messages, store)
    requires forall a :: a in refs <==> exists k, i: nat :: k in gone && RefAt(messages, k, i, a)
    ensures RefsStored(messages - gone, store - refs) && RefsUnique(messages - gone)
    ensures StoreReferenced(messages - gone, store - refs)
  {
    forall k, i: nat, a ensures RefAt(messages - gone, k, i, a) <==> k !in gone && RefAt(messages, k, i, a) {
    }
    forall k, i: nat, a | RefAt(messages - gone, k, i, a) ensures a !in refs {
      assert forall l, j: nat :: RefAt(messages, l, j, a) ==> l == k;
    }
    forall a | a in store - refs ensures exists k, i: nat :: RefAt(messages - gone, k, i, a) {
      var k, i: nat :| RefAt(messages, k, i, a);
      assert RefAt(messages - gone, k, i, a);
    }
  }

  lemma BodiesConserved(a: Messages, b: Messages, store: Store)
    requires SameBodies(a, b) && RefsStored(a, store) && RefsUnique(a) && StoreReferenced(a, store)
    ensures RefsStored(b, store) && RefsUnique(b) && StoreReferenced(b, store)
  {
    forall k, i: nat, x ensures RefAt(b, k, i, x) <==> RefAt(a, k, i, x) {
    }
  }

  lemma ArrivalConserved(s: State, r: Request)
    requires IsArrival(r) && Conserved(s)
    requires TargetId(s, r) !in s.messages && Apply(s, r).result.Ok? && FilesAreNew(s, r)
    ensures Conserved(Apply(s, r).state)
    ensures StoredExactly(s.attachments, Files(r), Apply(s, r).result.value.message.attachments,
                          Apply(s, r).state.attachments)
  {
    hide Apply, Joined, TargetId, Refreshed, FileCounter, StoreAll, RefsStored, RefsUnique, StoreReferenced,
         StoredExactly, DistinctIds;
    ArrivalShape(s, r);
    StoreAllExactly(s.attachments, FileCounter(s, r), Files(r));
    var o := Apply(s, r);
    var m := o.result.value.message;
    PlacedStored(s.messages, s.attachments, m, Files(r), o.state.attachments);
    PlacedUnique(s.messages, s.attachments, m);
    PlacedReferenced(s.messages, s.attachments, m, Files(r), o.state.attachments);
  }

  lemma RefIdsMeaning(messages: Messages, k: Id, a: Id)
    requires k in messages
    ensures a in RefIds(messages[k]) <==> exists i: nat :: RefAt(messages, k, i, a)
  {
    if a in RefIds(messages[k]) {
      var i :| 0 <= i < |messages[k].attachments| && messages[k].attachments[i].id == a;
      assert RefAt(messages, k, i, a);
    }
  }

  lemma DeleteMessageConserved(s: State, id: Id)
    requires Conserved(s)
    ensures Conserved(ApplyDeleteMessage(s, id).state)
  {
    hide Refreshed, RefIds, RefsStored, RefsUnique, StoreReferenced, RefAt;
    if id in s.messages {
      var refs := RefIds(s.messages[id]);
      forall a ensures a in refs <==> exists k, i: nat :: k in {id} && RefAt(s.messages, k, i, a) {
        RefIdsMeaning(s.messages, id, a);
        if a in refs {
          var i: nat :| RefAt(s.messages, id, i, a);
          assert id in {id} && RefAt(s.messages, id, i, a);
        }
      }
      RemovedConserved(s.messages, s.attachments, {id}, refs);
    }
  }

  lemma DeleteThreadConserved(s: State, id: Id)
    requires Conserved(s)
    ensures Conserved(ApplyDeleteThread(s, id).state)
  {
    hide RefIds, RefsStored, RefsUnique, StoreReferenced, RefAt;
    var gone, refs := ThreadKeys(s.messages, id), ThreadRefIds(s.messages, id);
    forall a ensures a in refs <==> exists k, i: nat :: k in gone && RefAt(s.messages, k, i, a) {
      if a in refs {
        var k :| k in s.messages && s.messages[k].threadId == id && a in RefIds(s.messages[k]);
        RefIdsMeaning(s.messages, k, a);
        var i: nat :| RefAt(s.messages, k, i, a);
        assert k in gone && RefAt(s.messages, k, i, a);
      }
      forall k, i: nat | k in gone && RefAt(s.messages, k, i, a) ensures a in refs {
        RefIdsMeaning(s.messages, k, a);
      }
    }
    RemovedConserved(s.messages, s.attachments, gone, refs);
  }

  /** A request of the run, without a clash of ids or an undecodable attachment. */
  ghost predicate Clean(s: State, r: Request) {
    IsArrival(r) ==> TargetId(s, r) !in s.messages && Apply(s, r).result.Ok? && FilesAreNew(s, r)
  }

  lemma StepConserved(s: State, r: Request)
    requires Conserved(s) && Clean(s, r)
    ensures Conserved(Apply(s, r).state)
  {
    hide Conserved, TargetId, FilesAreNew, OnlyLabels, ApplyDeleteMessage, ApplyDeleteThread;
    if IsArrival(r) {
      ArrivalConserved(s, r);
    } else if r.DeleteMessage? {
      DeleteMessageConserved(s, r.message);
    } else if r.DeleteThread? {
      DeleteThreadConserved(s, r.threadId);
    } else {
      LabelsOnly(s, r);
      LabelsConserved(s, Apply(s, r).state);
    }
  }

  lemma LabelsConserved(s: State, s': State)
    requires Conserved(s) && OnlyLabels(s, s')
    ensures Conserved(s')
  {
    hide RefsStored, RefsUnique, StoreReferenced;
    BodiesConserved(s.messages, s'.messages, s.attachments);
  }

  // ---------------------------------------------------------------------
  // Reading attachments
  // ---------------------------------------------------------------------

  function FindRef(refs: seq<AttachmentRef>, id: Id): Option<AttachmentRef> {
    if refs == [] then None else if refs[0].id == id then Some(refs[0]) else FindRef(refs[1..], id)
  }

  /** The bytes of an attachment and the size its reference announces. */
  function GetAttachment(s: State, message: Id, id: Id): Result<(Bytes, nat)> {
    if message !in s.messages then Err("message not found: " + message)
    else
      var ref := FindRef(s.messages[message].attachments, id);
      if ref.None? then Err("attachment not found: " + id)
      else if id !in s.attachments then Err("attachment data not found: " + id)
      else Ok((s.attachments[id], ref.value.size))
  }

  lemma {:induction false} FindRefFinds(refs: seq<AttachmentRef>, i: nat)
    requires i < |refs|
    ensures var f := FindRef(refs, refs[i].id); f.Some? && f.value in refs && f.value.id == refs[i].id
    decreases |refs|
  {
    if refs[0].id != refs[i].id {
      FindRefFinds(refs[1..], i - 1);
    }
  }

  /** In a conserved state every reference can be read, with the size of its bytes. */
  lemma ReferencedIsServed(s: State, k: Id, i: nat, a: Id)
    requires Conserved(s) && RefAt(s.messages, k, i, a)
    ensures a in s.attachments && GetAttachment(s, k, a) == Ok((s.attachments[a], |s.attachments[a]|))
  {
    var refs := s.messages[k].attachments;
    FindRefFinds(refs, i);
    var f := FindRef(refs, a).value;
    var j :| 0 <= j < |refs| && refs[j] == f;
    assert RefAt(s.messages, k, j, a);
  }

  /** A request that leaves a message in place leaves its attachments in place. */
  ghost predicate SameAttachments(s: State, s': State, k: Id)
    requires k in s.messages
  {
    && k in s'.messages && s'.messages[k].attachments == s.messages[k].attachments
    && forall i, a :: RefAt(s.messages, k, i, a) && a in s.attachments ==>
         a in s'.attachments && s'.attachments[a] == s.attachments[a]
  }

  lemma StepSameAttachments(s: State, r: Request, k: Id)
    requires Conserved(s) && Clean(s, r) && k in s.messages && k in Apply(s, r).state.messages
    ensures SameAttachments(s, Apply(s, r).state, k)
  {
    hide Conserved, TargetId, FilesAreNew, OnlyLabels, ApplyDeleteMessage, ApplyDeleteThread, SameAttachments;
    if IsArrival(r) {
      ArrivalSameAttachments(s, r, k);
    } else if r.DeleteMessage? {
      DeleteMessageSame(s, r.message, k);
    } else if r.DeleteThread? {
      DeleteThreadSame(s, r.threadId, k);
    } else {
      LabelsOnly(s, r);
      LabelsSame(s, Apply(s, r).state, k);
    }
  }

  lemma LabelsSame(s: State, s': State, k: Id)
    requires OnlyLabels(s, s') && k in s.messages
    ensures SameAttachments(s, s', k)
  {
  }

  lemma ArrivalSameAttachments(s: State, r: Request, k: Id)
    requires IsArrival(r) && Conserved(s) && Clean(s, r) && k in s.messages
    ensures SameAttachments(s, Apply(s, r).state, k)
  {
    hide Apply, Joined, TargetId, Refreshed, FilesAreNew, StoredFiles, Conserved;
    ArrivalShape(s, r);
    ArrivalConserved(s, r);
  }

  lemma DeleteMessageSame(s: State, id: Id, k: Id)
    requires Conserved(s) && k in s.messages && k in ApplyDeleteMessage(s, id).state.messages
    ensures SameAttachments(s, ApplyDeleteMessage(s, id).state, k)
  {
    hide Refreshed, RefIds, RefsStored, StoreReferenced, RefAt;
    if id in s.messages {
      forall i: nat, a | RefAt(s.messages, k, i, a) ensures a !in RefIds(s.messages[id]) {
        RefIdsMeaning(s.messages, id, a);
      }
    }
  }

  lemma DeleteThreadSame(s: State, id: Id, k: Id)
    requires Conserved(s) && k in s.messages && k in ApplyDeleteThread(s, id).state.messages
    ensures SameAttachments(s, ApplyDeleteThread(s, id).state, k)
  {
    hide RefIds, RefsStored, StoreReferenced, RefAt;
    if id in s.threads {
      forall i: nat, a | RefAt(s.messages, k, i, a) ensures a !in ThreadRefIds(s.messages, id) {
        forall l | l in s.messages && s.messages[l].threadId == id ensures a !in RefIds(s.messages[l]) {
          RefIdsMeaning(s.messages, l, a);
        }
      }
    }
  }

  // ---------------------------------------------------------------------
  // Runs
  // ---------------------------------------------------------------------

  predicate IsClean(scope: Scope) {
    scope.noOverwrite && scope.allStored && scope.newFiles
  }

  lemma AdmitsClean(scope: Scope, s: State, r: Request)
    requires Admits(scope, s, r) && IsClean(scope)
    ensures Clean(s, r)
  {
    hide Apply, TargetId, FilesAreNew;
  }

  /** In every clean run the attachment store is exactly what live messages reference. */
  lemma {:induction false} RunConserved(scope: Scope, s: State, reqs: seq<Request>, s': State)
    requires IsClean(scope) && Conserved(s) && Run(scope, s, reqs, s')
    ensures Conserved(s')
    decreases |reqs|
  {
    hide Conserved, Apply, Admits, Clean;
    if reqs != [] {
      AdmitsClean(scope, s, reqs[0]);
      StepConserved(s, reqs[0]);
      RunConserved(scope, Apply(s, reqs[0]).state, reqs[1..], s');
    }
  }

  /** Message k is live all along the run. */
  ghost predicate StaysLive(s: State, reqs: seq<Request>, k: Id)
    decreases |reqs|
  {
    k in s.messages && (reqs != [] ==> StaysLive(Apply(s, reqs[0]).state, reqs[1..], k))
  }

  lemma {:induction false} RunSameAttachments(scope: Scope, s: State, reqs: seq<Request>, s': State, k: Id)
    requires IsClean(scope) && Conserved(s) && Run(scope, s, reqs, s') && StaysLive(s, reqs, k)
    ensures SameAttachments(s, s', k)
    decreases |reqs|
  {
    hide Conserved, Admits, Clean, Apply, SameAttachments;
    if reqs == [] {
      SameReflexive(s, k);
    } else {
      var s1 := Apply(s, reqs[0]).state;
      AdmitsClean(scope, s, reqs[0]);
      StepConserved(s, reqs[0]);
      StepSameAttachments(s, reqs[0], k);
      RunSameAttachments(scope, s1, reqs[1..], s', k);
      SameTransitive(s, s1, s', k);
    }
  }

  lemma SameReflexive(s: State, k: Id)
    requires k in s.messages
    ensures SameAttachments(s, s, k)
  {
  }

  lemma SameTransitive(s: State, s1: State, s': State, k: Id)
    requires k in s.messages && SameAttachments(s, s1, k) && SameAttachments(s1, s', k)
    ensures SameAttachments(s, s', k)
  {
    assert forall i: nat, a :: RefAt(s.messages, k, i, a) ==> RefAt(s1.messages, k, i, a);
  }

  /** Reading an attachment returns the bytes that arrived, after any clean run
      during which its message stays. */
  lemma ArrivedIsServed(scope: Scope, s: State, r: Request, reqs: seq<Request>, s': State, i: nat)
    requires IsClean(scope) && Conserved(s) && IsArrival(r) && Clean(s, r) && i < |Files(r)|
    requires var o := Apply(s, r);
      Run(scope, o.state, reqs, s') && StaysLive(o.state, reqs, TargetId(s, r))
    ensures var o := Apply(s, r); var m := o.result.value.message;
      && o.result.value.OneMessage? && i < |m.attachments| && Files(r)[i].data.Some?
      && var data := Files(r)[i].data.value;
         GetAttachment(s', m.id, m.attachments[i].id) == Ok((data, |data|))
  {
    hide Apply, Joined, Refreshed, FilesAreNew, StoredFiles, TargetId, Run, StaysLive, Conserved, GetAttachment;
    ArrivalShape(s, r);
    ArrivalConserved(s, r);
    var o := Apply(s, r);
    var m := o.result.value.message;
    var a := m.attachments[i].id;
    assert RefAt(o.state.messages, m.id, i, a);
    RunConserved(scope, o.state, reqs, s');
    RunSameAttachments(scope, o.state, reqs, s', m.id);
    assert RefAt(s'.messages, m.id, i, a);
    ReferencedIsServed(s', m.id, i, a);
  }
}
