/** What callers have to see to so that all the invariants of a run hold
    together: only inserted messages can go wrong, by the ids they bring. */
module GmailProper {
  import opened Decimal
  import opened GmailModel
  import opened GmailInvariants
  import opened GmailIds
  import opened GmailRuns

  /** The conditions under which the invariants hold together; that on subjects
      needs every message to find its own thread. */
  function Strict(threaded: bool): Scope {
    Scope(threaded, true, true, true)
  }

  /** All files decode, and the ids they bring are new and distinct. */
  ghost predicate ProperFiles(files: seq<Incoming>, store: map<Id, Bytes>, next: nat) {
    && (forall f :: f in files ==> f.data.Some?)
    && (forall f :: f in files && f.id.Some? ==> f.id.value !in store && NotPending(f.id.value, "att_", next))
    && (forall i, j :: 0 <= i < j < |files| && files[i].id.Some? ==> files[i].id != files[j].id)
  }

  /** An inserted message brings no id that is in use or still to be allocated;
      in a threaded run, no message names a live thread. */
  ghost predicate Proper(threaded: bool, s: State, r: Request) {
    && NoWrap(s, r)
    && (threaded && IsArrival(r) ==> !NamesLiveThread(s, r))
    && (r.InsertMessage? ==>
          && ProperFiles(r.raw.attachments, s.attachments, s.nextId)
          && r.raw.id !in s.messages && NotPending(r.raw.id, "msg_", s.nextId))
  }

  ghost predicate ProperRun(threaded: bool, s: State, reqs: seq<Request>, s': State)
    decreases |reqs|
  {
    if reqs == [] then s' == s
    else Proper(threaded, s, reqs[0]) && ProperRun(threaded, Apply(s, reqs[0]).state, reqs[1..], s')
  }

  // ---------------------------------------------------------------------
  // Attachments
  // ---------------------------------------------------------------------

  lemma FreshLater(keys: set<Id>, prefix: string, a: nat, b: nat)
    requires FreshKeys(keys, prefix, a) && a <= b
    ensures FreshKeys(keys, prefix, b)
  {
  }

  lemma NotPendingLater(x: Id, prefix: string, a: nat, b: nat)
    requires NotPending(x, prefix, a) && a <= b
    ensures NotPending(x, prefix, b)
  {
  }

  lemma ProperLater(files: seq<Incoming>, store: map<Id, Bytes>, a: nat, b: nat)
    requires ProperFiles(files, store, a) && a <= b
    ensures ProperFiles(files, store, b)
  {
    hide NotPending;
    forall f | f in files && f.id.Some? ensures NotPending(f.id.value, "att_", b) {
      NotPendingLater(f.id.value, "att_", a, b);
    }
  }

  /** What is sent is always proper. */
  lemma SentIsProper(files: seq<Attached>, store: map<Id, Bytes>, next: nat)
    ensures ProperFiles(AsIncoming(files), store, next)
  {
  }

  /** The ids given to files are those they bring, or allocated ones. */
  ghost predicate GivenIds(files: seq<Incoming>, refs: seq<AttachmentRef>, a: nat, b: nat) {
    && |refs| == |files|
    && forall i :: 0 <= i < |refs| ==>
         if files[i].id.Some? then refs[i].id == files[i].id.value else Allocated(refs[i].id, "att_", a, b)
  }

  lemma {:induction false} StoreAllNew(store: map<Id, Bytes>, next: nat, files: seq<Incoming>)
    requires ProperFiles(files, store, next) && FreshKeys(store.Keys, "att_", next) && next + |files| < U64
    ensures var st := StoreAll(store, next, files);
      && st.ok && next <= st.nextId <= next + |files| && GivenIds(files, st.refs, next, st.nextId)
      && DistinctIds(st.refs) && forall i :: 0 <= i < |st.refs| ==> st.refs[i].id !in store
    decreases |files|
  {
    hide Numbered, Allocated, NotPending, FreshKeys, AttachmentId, GivenIds;
    if files == [] {
      NothingGiven(next);
    } else {
      var init, f := files[..|files| - 1], files[|files| - 1];
      assert files == init + [f];
      StoreAllNew(store, next, init);
      var st := StoreAll(store, next, init);
      GivenStep(init, f, st, next);
      NewIdIsDistinct(store, next, init, f, st);
    }
  }

  lemma NothingGiven(next: nat)
    ensures GivenIds([], [], next, next)
  {
  }

  lemma GivenStep(init: seq<Incoming>, f: Incoming, st: Stored, next: nat)
    requires st.ok && f.data.Some? && next <= st.nextId && st.nextId + 1 < U64
    requires GivenIds(init, st.refs, next, st.nextId)
    ensures var st' := StoreOne(st, f); GivenIds(init + [f], st'.refs, next, st'.nextId)
  {
    hide Allocated;
    var st' := StoreOne(st, f);
    forall x | Allocated(x, "att_", next, st.nextId) ensures Allocated(x, "att_", next, st'.nextId) {
      AllocatedWider(x, "att_", next, st.nextId, next, st'.nextId);
    }
    if f.id.None? {
      JustAllocated(st.nextId, next);
    }
  }

  lemma JustAllocated(n: nat, a: nat)
    requires a <= n
    ensures Allocated(AttachmentId(n), "att_", a, n + 1)
  {
    assert AttachmentId(n) == Numbered("att_", n);
  }

  /** The id given to the next file is none of those given before, nor in the store. */
  lemma NewIdIsDistinct(store: map<Id, Bytes>, next: nat, init: seq<Incoming>, f: Incoming, st: Stored)
    requires ProperFiles(init + [f], store, next) && FreshKeys(store.Keys, "att_", next)
    requires next <= st.nextId < U64 && GivenIds(init, st.refs, next, st.nextId)
    ensures var id := if f.id.Some? then f.id.value else AttachmentId(st.nextId);
      id !in store && forall i :: 0 <= i < |st.refs| ==> st.refs[i].id != id
  {
    hide Allocated, FreshKeys, NotPending, AttachmentId;
    var all := init + [f];
    assert all[|init|] == f;
    var id := if f.id.Some? then f.id.value else AttachmentId(st.nextId);
    if f.id.None? {
      PendingIsFree(store.Keys, next, st.nextId);
    }
    forall i | 0 <= i < |st.refs| ensures st.refs[i].id != id {
      assert all[i] == init[i];
      if init[i].id.Some? {
        assert init[i] in all;
        PendingIsOther(init[i].id.value, next, st.nextId);
      } else {
        AllocatedIsOther(st.refs[i].id, next, st.nextId);
        if f.id.Some? {
          NotPendingIsOther(st.refs[i].id, f.id.value, next, st.nextId);
        }
      }
    }
  }

  lemma PendingIsFree(keys: set<Id>, next: nat, n: nat)
    requires FreshKeys(keys, "att_", next) && next <= n < U64
    ensures AttachmentId(n) !in keys
  {
    assert AttachmentId(n) == Numbered("att_", n);
  }

  lemma PendingIsOther(x: Id, next: nat, n: nat)
    requires NotPending(x, "att_", next) && next <= n < U64
    ensures x != AttachmentId(n)
  {
    assert AttachmentId(n) == Numbered("att_", n);
  }

  lemma AllocatedIsOther(x: Id, a: nat, n: nat)
    requires Allocated(x, "att_", a, n) && n < U64
    ensures x != AttachmentId(n)
  {
    AllocatedIsPast(x, "att_", a, n);
    PendingIsOther(x, n, n);
  }

  lemma NotPendingIsOther(x: Id, y: Id, a: nat, b: nat)
    requires Allocated(x, "att_", a, b) && NotPending(y, "att_", a) && b < U64
    ensures x != y
  {
  }

  // ---------------------------------------------------------------------
  // Requests and runs
  // ---------------------------------------------------------------------

  /** Sending outside a thread is always proper. */
  lemma SendIsProper(threaded: bool, s: State, r: Request)
    requires r.SendMessage? && r.thread.None? && NoWrap(s, r)
    ensures Proper(threaded, s, r)
  {
  }

  lemma ProperRequestFiles(threaded: bool, s: State, r: Request)
    requires IsArrival(r) && Proper(threaded, s, r)
    ensures ProperFiles(Files(r), s.attachments, s.nextId)
  {
    hide ProperFiles, NotPending, AsIncoming;
    if r.SendMessage? {
      SentIsProper(r.files, s.attachments, s.nextId);
    }
  }

  lemma ProperStored(threaded: bool, s: State, r: Request)
    requires IsArrival(r) && Proper(threaded, s, r) && Fresh(s)
    ensures Apply(s, r).result.Ok? && FilesAreNew(s, r)
  {
    hide FreshKeys, ProperFiles, Apply, Files, FileCounter, Joined, Placed, StoreAll, GivenIds, TargetId,
         NamesLiveThread;
    ProperRequestFiles(threaded, s, r);
    JoinedCounters(s, r);
    FileCounterEnough(s, r);
    ProperLater(Files(r), s.attachments, s.nextId, FileCounter(s, r));
    FreshLater(s.attachments.Keys, "att_", s.nextId, FileCounter(s, r));
    StoreAllNew(s.attachments, FileCounter(s, r), Files(r));
    ArrivalShape(s, r);
  }

  lemma FileCounterEnough(s: State, r: Request)
    requires IsArrival(r) && NoWrap(s, r)
    ensures s.nextId <= FileCounter(s, r) && FileCounter(s, r) + |Files(r)| < U64
  {
    hide Files, Joined, FileCounter;
    JoinedCounters(s, r);
  }

  lemma ProperTarget(threaded: bool, s: State, r: Request)
    requires IsArrival(r) && Proper(threaded, s, r) && Fresh(s)
    ensures TargetId(s, r) !in s.messages
  {
    hide ProperFiles, Joined, Files, NamesLiveThread, NotPending;
    JoinedCounters(s, r);
    var n := if r.SendMessage? then Joined(s, r).0.nextId else s.nextId;
    assert MessageId(n) == Numbered("msg_", n);
  }

  /** A proper request satisfies all the conditions of a run. */
  lemma ProperIsStrict(threaded: bool, s: State, r: Request)
    requires Proper(threaded, s, r) && Fresh(s)
    ensures Admits(Strict(threaded), s, r)
  {
    hide ProperFiles, Fresh, Apply, FilesAreNew, TargetId, NamesLiveThread, NotPending;
    if IsArrival(r) {
      ProperStored(threaded, s, r);
      ProperTarget(threaded, s, r);
    }
  }

  lemma ProperBrings(threaded: bool, s: State, r: Request, x: Id)
    requires IsArrival(r) && Proper(threaded, s, r) && Brings(Files(r), x)
    ensures NotPending(x, "att_", s.nextId)
  {
    ProperRequestFiles(threaded, s, r);
    hide NotPending, Files;
  }

  lemma ProperKeepsFresh(threaded: bool, s: State, r: Request)
    requires Proper(threaded, s, r) && Fresh(s)
    ensures Fresh(Apply(s, r).state)
  {
    hide ProperFiles, Fresh, Apply, NamesLiveThread, NotPending, Brings, Files, NextCounter, NoWrap;
    StepCounters(s, r);
    if IsArrival(r) {
      ArrivalConsumes(s, r);
      var next := NextCounter(s, r);
      if r.InsertMessage? {
        NotPendingLater(r.raw.id, "msg_", s.nextId, next);
      }
      forall x | Brings(Decoding(Files(r)), x) ensures NotPending(x, "att_", next) {
        BroughtEarly(Files(r), x);
        ProperBrings(threaded, s, r, x);
        NotPendingLater(x, "att_", s.nextId, next);
      }
    }
    StepFresh(s, r);
  }

  /** Conditions that can be checked before each request give those of a run,
      and keep all allocated ids fresh. */
  lemma {:induction false} ProperRunIsStrict(threaded: bool, s: State, reqs: seq<Request>, s': State)
    requires Fresh(s) && ProperRun(threaded, s, reqs, s')
    ensures Run(Strict(threaded), s, reqs, s') && Fresh(s')
    decreases |reqs|
  {
    hide Fresh, Proper, Apply, Admits;
    if reqs != [] {
      ProperIsStrict(threaded, s, reqs[0]);
      ProperKeepsFresh(threaded, s, reqs[0]);
      ProperRunIsStrict(threaded, Apply(s, reqs[0]).state, reqs[1..], s');
    }
  }
}
