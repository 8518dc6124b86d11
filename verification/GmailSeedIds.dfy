/** What a list of seeded messages has to look like for all of them to go in
    undisturbed: no id may be used twice. */
module GmailSeedIds {
  import opened Wrappers
  import opened Decimal
  import opened GmailModel
  import opened GmailInvariants
  import opened GmailIds
  import opened GmailRuns
  import opened GmailSeeding
  import opened GmailProper
  import opened GmailSeededRuns

  /** Given ids are distinct, and either all messages have one or none looks
      like an allocated one. */
  ghost predicate MessageIdsApart(own: bool, raws: seq<Raw>) {
    && (forall r :: r in raws ==> if r.id == "" then !own else own || NotPending(r.id, "msg_", 1))
    && (forall i, j :: 0 <= i < j < |raws| && raws[i].id != "" ==> raws[i].id != raws[j].id)
  }

  /** The same of attachments, which all decode. */
  ghost predicate FileIdsApart(named: bool, files: seq<Incoming>) {
    && (forall f :: f in files ==>
          f.data.Some? && if f.id.None? then !named else named || NotPending(f.id.value, "att_", 1))
    && (forall i, j :: 0 <= i < j < |files| && files[i].id.Some? ==> files[i].id != files[j].id)
  }

  function AllFiles(raws: seq<Raw>): seq<Incoming> {
    if raws == [] then [] else AllFiles(raws[..|raws| - 1]) + raws[|raws| - 1].attachments
  }

  /** The ids in use are those brought so far, or allocated ones. */
  ghost predicate OnlySeeded(own: bool, named: bool, raws: seq<Raw>, s: State) {
    && s.nextId >= 1
    && (forall k :: k in s.messages ==>
          (exists r :: r in raws && r.id == k && k != "") || (!own && Allocated(k, "msg_", 1, s.nextId)))
    && (forall a :: a in s.attachments ==>
          Brings(AllFiles(raws), a) || (!named && Allocated(a, "att_", 1, s.nextId)))
  }

  lemma AllocatedIsPending(x: Id, prefix: string, n: nat)
    requires Allocated(x, prefix, 1, n) && n < U64
    ensures !NotPending(x, prefix, 1)
  {
  }

  lemma ApartPrefix(own: bool, raws: seq<Raw>)
    requires MessageIdsApart(own, raws) && raws != []
    ensures MessageIdsApart(own, raws[..|raws| - 1])
  {
    hide NotPending;
    assert forall r :: r in raws[..|raws| - 1] ==> r in raws;
  }

  lemma FilesApartSplit(named: bool, a: seq<Incoming>, b: seq<Incoming>)
    requires FileIdsApart(named, a + b)
    ensures FileIdsApart(named, a) && FileIdsApart(named, b)
    ensures forall x :: Brings(a, x) ==> !Brings(b, x)
    ensures forall x :: Brings(a, x) || Brings(b, x) ==> named || NotPending(x, "att_", 1)
  {
    hide NotPending;
    var c := a + b;
    assert forall i :: 0 <= i < |a| ==> c[i] == a[i];
    assert forall i :: 0 <= i < |b| ==> c[|a| + i] == b[i];
    assert forall f :: f in a || f in b ==> f in c;
    forall x | Brings(a, x) ensures !Brings(b, x) {
      var i :| 0 <= i < |a| && a[i].id == Some(x);
      forall j | 0 <= j < |b| ensures b[j].id != Some(x) {
        assert c[i].id != c[|a| + j].id;
      }
    }
  }

  // ---------------------------------------------------------------------
  // One message
  // ---------------------------------------------------------------------

  lemma TargetIsNew(own: bool, named: bool, raws: seq<Raw>, s: State, raw: Raw)
    requires OnlySeeded(own, named, raws, s) && MessageIdsApart(own, raws + [raw]) && s.nextId < U64
    ensures TargetId(s, InsertMessage(raw)) !in s.messages
  {
    hide Allocated, NotPending, Joined;
    var all, k := raws + [raw], TargetId(s, InsertMessage(raw));
    assert all[|raws|] == raw && raw in all;
    forall r | r in raws ensures r in all && (r.id == raw.id ==> r.id == "") {
      var i :| 0 <= i < |raws| && raws[i] == r;
      assert all[i] == r;
    }
    if raw.id == "" {
      PendingMessage(s.nextId, k);
    } else if !own && Allocated(k, "msg_", 1, s.nextId) {
      AllocatedIsPending(k, "msg_", s.nextId);
    }
  }

  lemma PendingMessage(n: nat, k: Id)
    requires 1 <= n < U64 && k == MessageId(n)
    ensures !NotPending(k, "msg_", 1) && !Allocated(k, "msg_", 1, n)
  {
    assert k == Numbered("msg_", n);
    if Allocated(k, "msg_", 1, n) {
      AllocatedIsPast(k, "msg_", 1, n);
    }
  }

  /** Files that all have ids of their own are stored under those. */
  lemma {:induction false} StoreAllNamed(store: map<Id, Bytes>, next: nat, files: seq<Incoming>)
    requires FileIdsApart(true, files)
    ensures var st := StoreAll(store, next, files);
      && st.ok && |st.refs| == |files| && (forall i :: 0 <= i < |files| ==> Some(st.refs[i].id) == files[i].id)
      && forall a :: a in st.attachments ==> a in store || Brings(files, a)
    decreases |files|
  {
    hide NotPending;
    if files != [] {
      var init, f := files[..|files| - 1], files[|files| - 1];
      assert files == init + [f];
      FilesApartSplit(true, init, [f]);
      StoreAllNamed(store, next, init);
      assert f in files && files[|files| - 1].id == f.id;
      forall a | Brings(init, a) ensures Brings(files, a) {
        var i :| 0 <= i < |init| && init[i].id == Some(a);
        assert files[i].id == Some(a);
      }
    }
  }

  lemma SeededFilesAreNew(own: bool, named: bool, raws: seq<Raw>, s: State, raw: Raw)
    requires OnlySeeded(own, named, raws, s) && NoWrap(s, InsertMessage(raw))
    requires FileIdsApart(named, AllFiles(raws) + raw.attachments)
    ensures FilesAreNew(s, InsertMessage(raw))
  {
    hide NotPending, Allocated, FileIdsApart, FileCounter, StoreAll, AllFiles, Brings, FreshKeys, ProperFiles;
    var r := InsertMessage(raw);
    var files, next := raw.attachments, FileCounter(s, r);
    FilesApartSplit(named, AllFiles(raws), files);
    FileCounterEnough(s, r);
    if named {
      StoreAllNamed(s.attachments, next, files);
      NamedAreNew(s.attachments, next, files);
    } else {
      forall a | a in s.attachments ensures NotPending(a, "att_", next) {
        if Brings(AllFiles(raws), a) {
          NotPendingLater(a, "att_", 1, next);
        } else {
          AllocatedIsPast(a, "att_", 1, s.nextId);
          NotPendingLater(a, "att_", s.nextId, next);
        }
      }
      NotPendingIsFresh(s.attachments.Keys, next);
      forall x | Brings(files, x) ensures x !in s.attachments && NotPending(x, "att_", next) {
        if x in s.attachments && !Brings(AllFiles(raws), x) {
          AllocatedIsPending(x, "att_", s.nextId);
        }
        NotPendingLater(x, "att_", 1, next);
      }
      ApartIsProper(files, s.attachments, next);
      StoreAllNew(s.attachments, next, files);
    }
  }

  lemma NamedAreNew(store: map<Id, Bytes>, next: nat, files: seq<Incoming>)
    requires FileIdsApart(true, files) && forall x :: Brings(files, x) ==> x !in store
    ensures var refs := StoreAll(store, next, files).refs;
      DistinctIds(refs) && forall i :: 0 <= i < |refs| ==> refs[i].id !in store
  {
    StoreAllNamed(store, next, files);
    hide NotPending, StoreAll;
    var refs := StoreAll(store, next, files).refs;
    forall i | 0 <= i < |refs| ensures Brings(files, refs[i].id) {
      assert files[i].id == Some(refs[i].id);
    }
  }

  lemma NotPendingIsFresh(keys: set<Id>, next: nat)
    requires forall a :: a in keys ==> NotPending(a, "att_", next)
    ensures FreshKeys(keys, "att_", next)
  {
  }

  lemma ApartIsProper(files: seq<Incoming>, store: map<Id, Bytes>, next: nat)
    requires FileIdsApart(false, files)
    requires forall x :: Brings(files, x) ==> x !in store && NotPending(x, "att_", next)
    ensures ProperFiles(files, store, next)
  {
    hide NotPending;
    forall f | f in files && f.id.Some? ensures Brings(files, f.id.value) {
      var i :| 0 <= i < |files| && files[i] == f;
    }
  }

  lemma FilesDecode(named: bool, files: seq<Incoming>)
    requires FileIdsApart(named, files)
    ensures AllDecode(files)
  {
  }

  /** The next message can be inserted under the conditions of a run. */
  lemma SeedAdmitted(threaded: bool, own: bool, named: bool, raws: seq<Raw>, s: State, raw: Raw)
    requires OnlySeeded(own, named, raws, s) && NoWrap(s, InsertMessage(raw))
    requires MessageIdsApart(own, raws + [raw]) && FileIdsApart(named, AllFiles(raws) + raw.attachments)
    requires threaded ==> raw.threadId == ""
    ensures Admits(Strict(threaded), s, InsertMessage(raw))
  {
    hide OnlySeeded, MessageIdsApart, FileIdsApart, TargetId, FilesAreNew, Apply, AllDecode, AllFiles;
    TargetIsNew(own, named, raws, s, raw);
    SeededFilesAreNew(own, named, raws, s, raw);
    FilesApartSplit(named, AllFiles(raws), raw.attachments);
    FilesDecode(named, raw.attachments);
    ArrivalSucceeds(s, InsertMessage(raw));
  }

  lemma MessagesOnlySeeded(own: bool, named: bool, raws: seq<Raw>, s: State, raw: Raw, k: Id)
    requires OnlySeeded(own, named, raws, s) && NoWrap(s, InsertMessage(raw)) && (raw.id == "" ==> !own)
    requires k in Insert(s, raw).state.messages
    ensures (exists r :: r in raws + [raw] && r.id == k && k != "")
         || (!own && Allocated(k, "msg_", 1, Insert(s, raw).state.nextId))
  {
    hide Insert, Allocated, TargetId;
    SeededKey(s, raw, k);
    SeedConsumes(s, raw);
    var next := Insert(s, raw).state.nextId;
    assert raw in raws + [raw] && forall r :: r in raws ==> r in raws + [raw];
    if k in s.messages {
      if !own && Allocated(k, "msg_", 1, s.nextId) {
        AllocatedWider(k, "msg_", 1, s.nextId, 1, next);
      }
    } else if raw.id == "" {
      JustAllocatedMessage(s.nextId, next);
    }
  }

  lemma SeededKey(s: State, raw: Raw, k: Id)
    requires k in Insert(s, raw).state.messages
    ensures k !in s.messages ==> k == if raw.id == "" then MessageId(s.nextId) else raw.id
  {
    hide Insert, Joined, Refreshed, StoredFiles;
    ArrivalShape(s, InsertMessage(raw));
  }

  lemma SeedConsumes(s: State, raw: Raw)
    requires NoWrap(s, InsertMessage(raw))
    ensures s.nextId + (if raw.id == "" then 1 else 0) <= Insert(s, raw).state.nextId
  {
    hide Insert, Joined, Refreshed, StoreAll, FileCounter;
    var q := InsertMessage(raw);
    ArrivalShape(s, q);
    JoinedCounters(s, q);
    StoreAllCounter(s.attachments, FileCounter(s, q), raw.attachments);
  }

  lemma JustAllocatedMessage(n: nat, b: nat)
    requires 1 <= n < b
    ensures Allocated(MessageId(n), "msg_", 1, b)
  {
    assert MessageId(n) == Numbered("msg_", n);
  }

  lemma BringsAppend(a: seq<Incoming>, b: seq<Incoming>, x: Id)
    requires Brings(a, x) || Brings(b, x)
    ensures Brings(a + b, x)
  {
    if Brings(a, x) {
      var i :| 0 <= i < |a| && a[i].id == Some(x);
      assert (a + b)[i].id == Some(x);
    } else {
      var i :| 0 <= i < |b| && b[i].id == Some(x);
      assert (a + b)[|a| + i].id == Some(x);
    }
  }

  lemma FilesOnlySeeded(own: bool, named: bool, raws: seq<Raw>, s: State, raw: Raw, a: Id)
    requires OnlySeeded(own, named, raws, s) && NoWrap(s, InsertMessage(raw))
    requires FileIdsApart(named, raw.attachments) && a in Insert(s, raw).state.attachments
    ensures Brings(AllFiles(raws) + raw.attachments, a)
         || (!named && Allocated(a, "att_", 1, Insert(s, raw).state.nextId))
  {
    hide Insert, Joined, Refreshed, Allocated, FileIdsApart, Brings, FileCounter, StoreAll;
    var q := InsertMessage(raw);
    ArrivalShape(s, q);
    StepCounters(s, q);
    StepAttachmentKeys(s, q, a);
    var next := Insert(s, raw).state.nextId;
    if named {
      StoreAllNamed(s.attachments, FileCounter(s, q), raw.attachments);
    }
    if Brings(AllFiles(raws), a) || Brings(raw.attachments, a) {
      BringsAppend(AllFiles(raws), raw.attachments, a);
    } else {
      AllocatedWider(a, "att_", 1, s.nextId, s.nextId, next);
    }
  }

  lemma StillOnlySeeded(own: bool, named: bool, raws: seq<Raw>, raw: Raw, s: State)
    requires OnlySeeded(own, named, raws, s) && NoWrap(s, InsertMessage(raw)) && (raw.id == "" ==> !own)
    requires FileIdsApart(named, raw.attachments)
    ensures OnlySeeded(own, named, raws + [raw], Insert(s, raw).state)
  {
    hide Insert, Allocated, FileIdsApart, Brings;
    var s' := Insert(s, raw).state;
    StepCounters(s, InsertMessage(raw));
    assert (raws + [raw])[..|raws|] == raws;
    assert AllFiles(raws + [raw]) == AllFiles(raws) + raw.attachments;
    forall k | k in s'.messages
      ensures (exists r :: r in raws + [raw] && r.id == k && k != "") || (!own && Allocated(k, "msg_", 1, s'.nextId))
    {
      MessagesOnlySeeded(own, named, raws, s, raw, k);
    }
    forall a | a in s'.attachments
      ensures Brings(AllFiles(raws + [raw]), a) || (!named && Allocated(a, "att_", 1, s'.nextId))
    {
      FilesOnlySeeded(own, named, raws, s, raw, a);
    }
  }

  // ---------------------------------------------------------------------
  // All messages
  // ---------------------------------------------------------------------

  lemma {:induction false} RunThen(scope: Scope, s: State, reqs: seq<Request>, s1: State, r: Request)
    requires Run(scope, s, reqs, s1) && Admits(scope, s1, r)
    ensures Run(scope, s, reqs + [r], Apply(s1, r).state)
    decreases |reqs|
  {
    hide Admits, Apply;
    if reqs == [] {
      assert [r][1..] == [];
    } else {
      RunThen(scope, Apply(s, reqs[0]).state, reqs[1..], s1, r);
      assert (reqs + [r])[1..] == reqs[1..] + [r];
    }
  }

  lemma OneMoreSeed(s: State, raw: Raw)
    requires NoWrap(s, InsertMessage(raw))
    ensures var s' := Insert(s, raw).state;
      s'.nextId <= s.nextId + 2 + |raw.attachments| && s'.nextHistoryId <= s.nextHistoryId + 2
  {
    hide Insert;
    StepCounters(s, InsertMessage(raw));
  }

  /** Seeding messages whose ids are apart is an undisturbed run. */
  lemma {:induction false} ApartSeedsRun(threaded: bool, own: bool, named: bool, s: State, raws: seq<Raw>)
    requires OnlySeeded(own, named, [], s)
    requires MessageIdsApart(own, raws) && FileIdsApart(named, AllFiles(raws))
    requires threaded ==> forall r :: r in raws ==> r.threadId == ""
    requires s.nextId + TotalIds(raws) < U64 && s.nextHistoryId + 2 * |raws| < U64
    ensures var (s', ok) := SeedMessages(s, raws);
      && ok && Run(Strict(threaded), s, Insertions(raws), s') && OnlySeeded(own, named, raws, s')
      && s'.nextId <= s.nextId + TotalIds(raws) && s'.nextHistoryId <= s.nextHistoryId + 2 * |raws|
    decreases |raws|
  {
    hide OnlySeeded, MessageIdsApart, FileIdsApart, Insert, Admits;
    if raws != [] {
      var init, raw := raws[..|raws| - 1], raws[|raws| - 1];
      assert raws == init + [raw];
      ApartPrefix(own, raws);
      FilesApartSplit(named, AllFiles(init), raw.attachments);
      OwnOrNot(own, raws, raw);
      ApartSeedsRun(threaded, own, named, s, init);
      var s1 := SeedMessages(s, init).0;
      SeedAdmitted(threaded, own, named, init, s1, raw);
      AdmitsDelivered(Strict(threaded), s1, InsertMessage(raw));
      StillOnlySeeded(own, named, init, raw, s1);
      OneMoreSeed(s1, raw);
      RunThen(Strict(threaded), s, Insertions(init), s1, InsertMessage(raw));
    }
  }

  lemma OwnOrNot(own: bool, raws: seq<Raw>, raw: Raw)
    requires MessageIdsApart(own, raws) && raw in raws
    ensures raw.id == "" ==> !own
  {
  }

  /** From the initial state, with any labels: a list of seeded messages whose
      ids are apart goes in completely, as a run to which SeededRunSound applies. */
  lemma ApartSeeds(threaded: bool, own: bool, named: bool, seeds: seq<SeedLabel>, raws: seq<Raw>)
    requires MessageIdsApart(own, raws) && FileIdsApart(named, AllFiles(raws))
    requires threaded ==> forall r :: r in raws ==> r.threadId == ""
    requires 1 + TotalIds(raws) < U64 && 1 + 2 * |raws| < U64
    ensures var (s1, ok) := SeedMessages(Labelled(seeds), raws);
      ok && Run(Strict(threaded), Labelled(seeds), Insertions(raws), s1)
  {
    hide MessageIdsApart, FileIdsApart, WithSeedLabels, Run;
    ApartSeedsRun(threaded, own, named, Labelled(seeds), raws);
  }
}
