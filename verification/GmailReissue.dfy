/** Allocated ids over whole runs: none is handed out twice, and an id that is
    gone does not come back unless somebody brings it. */
module GmailReissue {
  import opened Decimal
  import opened GmailModel
  import opened GmailInvariants
  import opened GmailIds
  import opened GmailRuns

  // ---------------------------------------------------------------------
  // Labels
  // ---------------------------------------------------------------------

  ghost predicate LabelsFresh(s: State) {
    FreshKeys(s.labels.Keys, "Label_", s.nextId)
  }

  /** No run uses a label id that is still to be allocated. */
  lemma {:induction false} RunLabelsFresh(scope: Scope, s: State, reqs: seq<Request>, s': State)
    requires LabelsFresh(s) && Run(scope, s, reqs, s')
    ensures LabelsFresh(s')
    decreases |reqs|
  {
    hide FreshKeys, Apply, Admits;
    if reqs != [] {
      AdmitsNoWrap(scope, s, reqs[0]);
      StepLabelsFresh(s, reqs[0]);
      RunLabelsFresh(scope, Apply(s, reqs[0]).state, reqs[1..], s');
    }
  }

  // ---------------------------------------------------------------------
  // Ids that are gone
  // ---------------------------------------------------------------------

  datatype Sort = AMessage | AnAttachment | ALabel

  function KeysOf(sort: Sort, s: State): set<Id> {
    match sort
    case AMessage => s.messages.Keys
    case AnAttachment => s.attachments.Keys
    case ALabel => s.labels.Keys
  }

  function PrefixOf(sort: Sort): string {
    match sort
    case AMessage => "msg_"
    case AnAttachment => "att_"
    case ALabel => "Label_"
  }

  /** The request brings the id x along, instead of having one allocated. */
  ghost predicate BringsAlong(sort: Sort, r: Request, x: Id) {
    match sort
    case AMessage => r.InsertMessage? && r.raw.id == x
    case AnAttachment => IsArrival(r) && Brings(Files(r), x)
    case ALabel => false
  }

  ghost predicate Retired(sort: Sort, s: State, x: Id) {
    x !in KeysOf(sort, s) && NotPending(x, PrefixOf(sort), s.nextId)
  }

  lemma StepKeysOf(sort: Sort, s: State, r: Request, x: Id)
    requires NoWrap(s, r) && x in KeysOf(sort, Apply(s, r).state)
    ensures x in KeysOf(sort, s) || BringsAlong(sort, r, x)
         || Allocated(x, PrefixOf(sort), s.nextId, Apply(s, r).state.nextId)
  {
    hide Apply, Allocated, Brings;
    match sort
    case AMessage => StepMessageKeys(s, r, x);
    case AnAttachment => StepAttachmentKeys(s, r, x);
    case ALabel => StepLabelKeys(s, r, x);
  }

  lemma StepRetires(sort: Sort, s: State, r: Request, x: Id)
    requires NoWrap(s, r) && Retired(sort, s, x) && !BringsAlong(sort, r, x)
    ensures Retired(sort, Apply(s, r).state, x)
  {
    hide Apply, KeysOf, BringsAlong, PrefixOf;
    StepCounters(s, r);
    var s' := Apply(s, r).state;
    if x in KeysOf(sort, s') {
      StepKeysOf(sort, s, r, x);
      PendingWasAllocated(x, PrefixOf(sort), s.nextId, s'.nextId);
    }
  }

  lemma PendingWasAllocated(x: Id, prefix: string, a: nat, b: nat)
    requires b <= U64
    ensures Allocated(x, prefix, a, b) ==> !NotPending(x, prefix, a)
  {
  }

  lemma {:induction false} RetiredForGood(sort: Sort, scope: Scope, s: State, reqs: seq<Request>, s': State, x: Id)
    requires Run(scope, s, reqs, s') && Retired(sort, s, x)
    requires forall r :: r in reqs ==> !BringsAlong(sort, r, x)
    ensures Retired(sort, s', x)
    decreases |reqs|
  {
    hide Retired, Apply, Admits, BringsAlong;
    if reqs != [] {
      AdmitsNoWrap(scope, s, reqs[0]);
      StepRetires(sort, s, reqs[0], x);
      RetiredForGood(sort, scope, Apply(s, reqs[0]).state, reqs[1..], s', x);
    }
  }

  /** The id of a message, attachment or label that is gone is not used again,
      unless a message brings it along; no request does that with a label. */
  lemma GoneIdStaysAway(sort: Sort, scope: Scope, s: State, reqs1: seq<Request>, s1: State, reqs2: seq<Request>,
                        s2: State, x: Id)
    requires FreshKeys(KeysOf(sort, s), PrefixOf(sort), s.nextId)
    requires Run(scope, s, reqs1, s1) && Run(scope, s1, reqs2, s2)
    requires x in KeysOf(sort, s) && x !in KeysOf(sort, s1)
    requires forall r :: r in reqs2 ==> !BringsAlong(sort, r, x)
    ensures x !in KeysOf(sort, s2)
  {
    hide Run, KeysOf, PrefixOf, BringsAlong;
    RunCounter(scope, s, reqs1, s1);
    InFreshKeys(KeysOf(sort, s), PrefixOf(sort), s.nextId, x);
    RetiredForGood(sort, scope, s1, reqs2, s2, x);
  }

  // ---------------------------------------------------------------------
  // No id is handed out twice
  // ---------------------------------------------------------------------

  ghost predicate HandsOutMessage(s: State, r: Request, x: Id) {
    IsArrival(r) && (r.InsertMessage? ==> r.raw.id == "") && x == TargetId(s, r)
  }

  ghost predicate HandsOutThread(s: State, r: Request, x: Id) {
    && IsArrival(r) && FindThread(BeforeThread(s, r), Explicit(r), Subject(r)).None? && x == Joined(s, r).1
  }

  /** The id given to the i-th file of a message. */
  ghost predicate HandsOutFile(s: State, r: Request, i: nat, x: Id) {
    && IsArrival(r) && i < |Files(r)| && Files(r)[i].id.None?
    && i < |StoredFiles(s, r).refs| && StoredFiles(s, r).refs[i].id == x
  }

  ghost predicate HandsOutLabel(s: State, r: Request, x: Id) {
    r.CreateLabel? && Apply(s, r).result.Ok? && x == Apply(s, r).result.value.record.id
  }

  /** The request has the id x allocated. */
  ghost predicate HandsOut(s: State, r: Request, x: Id) {
    || HandsOutMessage(s, r, x)
    || HandsOutThread(s, r, x)
    || (exists i: nat :: HandsOutFile(s, r, i, x))
    || HandsOutLabel(s, r, x)
  }

  /** x is an id of one of the four forms with a number from a up to b. */
  ghost predicate Issued(x: Id, a: nat, b: nat) {
    || Allocated(x, "msg_", a, b)
    || Allocated(x, "thread_", a, b)
    || Allocated(x, "att_", a, b)
    || Allocated(x, "Label_", a, b)
  }

  lemma AllocatedApart(x: Id, prefix: string, a: nat, b: nat, other: string, c: nat, d: nat)
    requires b <= c && prefix != "" && other != "" && (prefix == other || prefix[0] != other[0])
    requires Allocated(x, prefix, a, b)
    ensures !Allocated(x, other, c, d)
  {
    var m: nat :| a <= m < b && x == Numbered(prefix, m);
    assert x[0] == prefix[0];
    forall n: nat | c <= n < d ensures x != Numbered(other, n) {
      NumberedInjective(prefix, m, n);
      assert Numbered(other, n)[0] == other[0];
    }
  }

  lemma AllocatedOnce(x: Id, prefix: string, a: nat, b: nat, c: nat, d: nat)
    requires b <= c && prefix in ["msg_", "thread_", "att_", "Label_"] && Allocated(x, prefix, a, b)
    ensures !Issued(x, c, d)
  {
    hide Allocated;
    AllocatedApart(x, prefix, a, b, "msg_", c, d);
    AllocatedApart(x, prefix, a, b, "thread_", c, d);
    AllocatedApart(x, prefix, a, b, "att_", c, d);
    AllocatedApart(x, prefix, a, b, "Label_", c, d);
  }

  lemma IssuedOnce(x: Id, a: nat, b: nat, c: nat, d: nat)
    requires b <= c && Issued(x, a, b)
    ensures !Issued(x, c, d)
  {
    hide Allocated;
    var prefix := if Allocated(x, "msg_", a, b) then "msg_" else if Allocated(x, "thread_", a, b) then "thread_"
                  else if Allocated(x, "att_", a, b) then "att_" else "Label_";
    AllocatedOnce(x, prefix, a, b, c, d);
  }

  /** Files without ids got different ids, with numbers from a up to b. */
  ghost predicate Gives(files: seq<Incoming>, refs: seq<AttachmentRef>, a: nat, b: nat) {
    && |refs| <= |files|
    && (forall i :: 0 <= i < |refs| && files[i].id.None? ==> Allocated(refs[i].id, "att_", a, b))
    && (forall i, j :: 0 <= i < j < |refs| && files[i].id.None? && files[j].id.None? ==> refs[i].id != refs[j].id)
  }

  lemma GivesOne(files: seq<Incoming>, f: Incoming, st: Stored, next: nat)
    requires st.nextId + 1 < U64 && next <= st.nextId && (st.ok ==> |st.refs| == |files|)
    requires Gives(files, st.refs, next, st.nextId)
    ensures var st' := StoreOne(st, f);
      && Gives(files + [f], st'.refs, next, st'.nextId)
      && (st'.ok ==> |st'.refs| == |files + [f]|)
  {
    hide Allocated, AttachmentId;
    var n := st.nextId;
    forall i | 0 <= i < |st.refs| && files[i].id.None?
      ensures st.refs[i].id != AttachmentId(n) && Allocated(st.refs[i].id, "att_", next, n + 1)
    {
      AllocatedWider(st.refs[i].id, "att_", next, n, next, n + 1);
      BelowIsOther(st.refs[i].id, next, n);
    }
    AtIsAllocated(next, n);
  }

  lemma {:induction false} StoreAllGives(store: map<Id, Bytes>, next: nat, files: seq<Incoming>)
    requires next + |files| < U64
    ensures var st := StoreAll(store, next, files);
      && next <= st.nextId && Gives(files, st.refs, next, st.nextId) && (st.ok ==> |st.refs| == |files|)
    decreases |files|
  {
    hide Allocated, StoreOne, Gives;
    if files == [] {
      GivesNothing(next);
    } else {
      var init, f := files[..|files| - 1], files[|files| - 1];
      assert files == init + [f];
      StoreAllGives(store, next, init);
      StoreAllCounter(store, next, init);
      StoreAllCounter(store, next, files);
      GivesOne(init, f, StoreAll(store, next, init), next);
    }
  }

  lemma GivesNothing(next: nat)
    ensures Gives([], [], next, next)
  {
  }

  lemma BelowIsOther(x: Id, a: nat, n: nat)
    requires Allocated(x, "att_", a, n) && n < U64
    ensures x != AttachmentId(n)
  {
    AllocatedIsPast(x, "att_", a, n);
    assert AttachmentId(n) == Numbered("att_", n);
  }

  lemma AtIsAllocated(a: nat, n: nat)
    requires a <= n
    ensures Allocated(AttachmentId(n), "att_", a, n + 1)
  {
    assert AttachmentId(n) == Numbered("att_", n);
  }

  lemma AllocatedAt(x: Id, prefix: string, a: nat, n: nat, b: nat)
    requires a <= n < b && x == Numbered(prefix, n)
    ensures Allocated(x, prefix, a, b)
  {
  }

  lemma MessageIssued(s: State, r: Request, x: Id)
    requires NoWrap(s, r) && HandsOutMessage(s, r, x)
    ensures Allocated(x, "msg_", s.nextId, Apply(s, r).state.nextId)
  {
    hide Apply, Joined, Refreshed, StoreAll, BeforeThread, Files;
    ArrivalShape(s, r);
    BeforeCounters(s, r);
    JoinedCounters(s, r);
    FileBounds(s, r);
    var n := if r.SendMessage? then Joined(s, r).0.nextId else s.nextId;
    NumberTaken(s, r, n);
    AllocatedAt(x, "msg_", s.nextId, n, Apply(s, r).state.nextId);
  }

  lemma NumberTaken(s: State, r: Request, n: nat)
    requires IsArrival(r) && NoWrap(s, r) && (r.InsertMessage? ==> r.raw.id == "")
    requires n == if r.SendMessage? then Joined(s, r).0.nextId else s.nextId
    ensures s.nextId <= n < FileCounter(s, r)
  {
    hide FindThread, Explicit, Subject, Files;
    JoinedCounters(s, r);
  }

  /** The counter ends at or above where the files started. */
  lemma FileBounds(s: State, r: Request)
    requires IsArrival(r) && NoWrap(s, r)
    ensures FileCounter(s, r) + |Files(r)| < U64 && FileCounter(s, r) <= StoredFiles(s, r).nextId
  {
    hide Files, FileCounter, Joined, StoreAll;
    JoinedCounters(s, r);
    StoreAllGives(s.attachments, FileCounter(s, r), Files(r));
  }

  lemma ThreadIssued(s: State, r: Request, x: Id)
    requires NoWrap(s, r) && HandsOutThread(s, r, x)
    ensures Allocated(x, "thread_", s.nextId, Apply(s, r).state.nextId)
  {
    hide Apply, FindThread, Refreshed, StoreAll, Files, Explicit, Subject;
    ArrivalShape(s, r);
    BeforeCounters(s, r);
    JoinedCounters(s, r);
    FileBounds(s, r);
    var n := BeforeThread(s, r).nextId;
    AllocatedAt(x, "thread_", s.nextId, n, Apply(s, r).state.nextId);
  }

  lemma FileIssued(s: State, r: Request, i: nat, x: Id)
    requires NoWrap(s, r) && HandsOutFile(s, r, i, x)
    ensures Allocated(x, "att_", s.nextId, Apply(s, r).state.nextId)
  {
    hide Apply, Joined, FileCounter, Refreshed, StoreAll, Files, Allocated, TargetId;
    ArrivalShape(s, r);
    JoinedCounters(s, r);
    FileBounds(s, r);
    StoreAllGives(s.attachments, FileCounter(s, r), Files(r));
    var next := Apply(s, r).state.nextId;
    AllocatedWider(x, "att_", s.nextId, s.nextId, FileCounter(s, r), next);
  }

  lemma LabelIssued(s: State, r: Request, x: Id)
    requires NoWrap(s, r) && HandsOutLabel(s, r, x)
    ensures Allocated(x, "Label_", s.nextId, Apply(s, r).state.nextId)
  {
    assert x == Numbered("Label_", s.nextId);
  }

  lemma OutIsIssued(s: State, r: Request, x: Id)
    requires NoWrap(s, r) && HandsOut(s, r, x)
    ensures Issued(x, s.nextId, Apply(s, r).state.nextId)
  {
    hide Apply, Allocated, HandsOutMessage, HandsOutThread, HandsOutFile, HandsOutLabel;
    if HandsOutMessage(s, r, x) {
      MessageIssued(s, r, x);
    } else if HandsOutThread(s, r, x) {
      ThreadIssued(s, r, x);
    } else if HandsOutLabel(s, r, x) {
      LabelIssued(s, r, x);
    } else {
      var i: nat :| HandsOutFile(s, r, i, x);
      FileIssued(s, r, i, x);
    }
  }

  /** One request gives different files different ids. */
  lemma FilesGetDifferentIds(s: State, r: Request, i: nat, j: nat, x: Id)
    requires NoWrap(s, r) && HandsOutFile(s, r, i, x) && HandsOutFile(s, r, j, x)
    ensures i == j
  {
    hide FileCounter, StoreAll, Files, Allocated;
    FileBounds(s, r);
    StoreAllGives(s.attachments, FileCounter(s, r), Files(r));
  }

  /** Over a run, no two requests have the same id allocated. */
  lemma NeverHandedOutTwice(scope: Scope, s: State, r: Request, reqs: seq<Request>, s': State, r': Request, x: Id)
    requires Admits(scope, s, r) && Run(scope, Apply(s, r).state, reqs, s') && Admits(scope, s', r')
    requires HandsOut(s, r, x)
    ensures !HandsOut(s', r', x)
  {
    hide Run, HandsOut, Issued, Apply, Admits;
    AdmitsNoWrap(scope, s, r);
    AdmitsNoWrap(scope, s', r');
    RunCounter(scope, Apply(s, r).state, reqs, s');
    OutIsIssued(s, r, x);
    if HandsOut(s', r', x) {
      OutIsIssued(s', r', x);
      IssuedOnce(x, s.nextId, Apply(s, r).state.nextId, s'.nextId, Apply(s', r').state.nextId);
    }
  }
}
