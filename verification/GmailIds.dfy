/** Allocated ids and history ids over requests and runs. */
module GmailIds {
  import opened Wrappers
  import opened Decimal
  import opened SortedKeys
  import opened GmailModel
  import opened GmailInvariants

  // ---------------------------------------------------------------------
  // Counters
  // ---------------------------------------------------------------------

  /** The most ids a request can consume. */
  function IdsNeeded(r: Request): nat {
    if IsArrival(r) then 2 + |Files(r)| else if r.CreateLabel? then 1 else 0
  }

  /** Neither counter can wrap during the request. */
  predicate NoWrap(s: State, r: Request) {
    s.nextId + IdsNeeded(r) < U64 && s.nextHistoryId + 2 < U64
  }

  lemma {:induction false} StoreAllCounter(attachments: map<Id, Bytes>, nextId: nat, files: seq<Incoming>)
    requires nextId + |files| < U64
    ensures nextId <= StoreAll(attachments, nextId, files).nextId <= nextId + |files|
    decreases |files|
  {
    hide StoreOne;
    if files != [] {
      StoreAllCounter(attachments, nextId, files[..|files| - 1]);
      StoreOneCounter(StoreAll(attachments, nextId, files[..|files| - 1]), files[|files| - 1]);
    }
  }

  lemma StoreOneCounter(before: Stored, f: Incoming)
    requires before.nextId + 1 < U64
    ensures before.nextId <= StoreOne(before, f).nextId <= before.nextId + 1
  {
  }

  lemma FindOrCreateCounters(s: State, explicit: Option<Id>, subject: string)
    requires s.nextId + 1 < U64 && s.nextHistoryId + 1 < U64
    ensures var s1 := FindOrCreateThread(s, explicit, subject).0;
      s.nextId <= s1.nextId <= s.nextId + 1 && s.nextHistoryId <= s1.nextHistoryId <= s.nextHistoryId + 1
  {
    hide FindThread, ThreadId;
  }

  lemma BeforeCounters(s: State, r: Request)
    requires IsArrival(r) && NoWrap(s, r)
    ensures var b := BeforeThread(s, r);
      && s.nextId <= b.nextId <= s.nextId + 1 && b.nextHistoryId == s.nextHistoryId
      && b.threads == s.threads && b.messages == s.messages
      && b.nextId + 1 + (if r.SendMessage? then 1 else 0) <= s.nextId + 2
  {
    hide Files;
  }

  lemma JoinedCounters(s: State, r: Request)
    requires IsArrival(r) && NoWrap(s, r)
    ensures var b, s1 := BeforeThread(s, r), Joined(s, r).0;
      && s.nextId <= b.nextId <= s1.nextId <= b.nextId + 1
      && s.nextHistoryId <= s1.nextHistoryId <= s.nextHistoryId + 1
      && s1.nextId <= FileCounter(s, r) <= s.nextId + 2
  {
    hide BeforeThread, FindOrCreateThread, Explicit, Subject, Files, FindThread;
    BeforeCounters(s, r);
    FindOrCreateCounters(BeforeThread(s, r), Explicit(r), Subject(r));
  }

  lemma StepCounters(s: State, r: Request)
    requires NoWrap(s, r)
    ensures var s' := Apply(s, r).state;
      && s.nextId <= s'.nextId <= s.nextId + IdsNeeded(r)
      && s.nextHistoryId <= s'.nextHistoryId <= s.nextHistoryId + 2
  {
    if IsArrival(r) {
      ArrivalShape(s, r);
      JoinedCounters(s, r);
      StoreAllCounter(s.attachments, FileCounter(s, r), Files(r));
      ArrivalCounters(s, r);
    } else {
      OtherCounters(s, r);
    }
  }

  lemma ArrivalCounters(s: State, r: Request)
    requires IsArrival(r) && NoWrap(s, r)
    ensures var s' := Apply(s, r).state;
      && FileCounter(s, r) <= s'.nextId <= s.nextId + IdsNeeded(r)
      && s'.nextHistoryId == Joined(s, r).0.nextHistoryId + 1
  {
    hide Joined, Apply, StoreAll, FileCounter, Refreshed, TargetId;
    ArrivalShape(s, r);
    JoinedCounters(s, r);
    StoreAllCounter(s.attachments, FileCounter(s, r), Files(r));
  }

  lemma OtherCounters(s: State, r: Request)
    requires !IsArrival(r) && NoWrap(s, r)
    ensures var s' := Apply(s, r).state;
      && s'.nextId == s.nextId + (if r.CreateLabel? && Apply(s, r).result.Ok? then 1 else 0)
      && s.nextHistoryId <= s'.nextHistoryId <= s.nextHistoryId + 1
  {
    hide Refreshed, Relabelled, RelabelAll, Members, Sorted, Retain, RefIds, ThreadRefIds, ThreadKeys, ToVisibility,
         ToListVisibility, LabelId;
  }

  // ---------------------------------------------------------------------
  // Where new keys come from
  // ---------------------------------------------------------------------

  function Numbered(prefix: string, n: nat): Id {
    prefix + Print(n)
  }

  lemma NumberedInjective(prefix: string, m: nat, n: nat)
    ensures Numbered(prefix, m) == Numbered(prefix, n) ==> m == n
  {
    if Numbered(prefix, m) == Numbered(prefix, n) {
      assert Numbered(prefix, m)[|prefix|..] == Print(m) && Numbered(prefix, n)[|prefix|..] == Print(n);
      PrintInjective(m, n);
    }
  }

  /** x was allocated while the counter moved from a to b. */
  ghost predicate Allocated(x: Id, prefix: string, a: nat, b: nat) {
    exists n: nat :: a <= n < b && x == Numbered(prefix, n)
  }

  /** Some attachment brings its own id x. */
  ghost predicate Brings(files: seq<Incoming>, x: Id) {
    exists i :: 0 <= i < |files| && files[i].id == Some(x)
  }

  lemma {:induction false} StoreAllKeys(attachments: map<Id, Bytes>, nextId: nat, files: seq<Incoming>, x: Id)
    requires nextId + |files| < U64
    requires x in StoreAll(attachments, nextId, files).attachments
    ensures x in attachments || Brings(files, x)
         || Allocated(x, "att_", nextId, StoreAll(attachments, nextId, files).nextId)
    decreases |files|
  {
    hide Allocated;
    if files != [] {
      var init, f := files[..|files| - 1], files[|files| - 1];
      var before := StoreAll(attachments, nextId, init);
      StoreAllCounter(attachments, nextId, init);
      StoreOneKeys(before, f, x);
      if x in before.attachments {
        StoreAllKeys(attachments, nextId, init, x);
        if Brings(init, x) {
          var i :| 0 <= i < |init| && init[i].id == Some(x);
          assert files[i].id == Some(x);
        }
      }
      AllocatedWider(x, "att_", nextId, before.nextId, before.nextId, StoreOne(before, f).nextId);
    }
  }

  lemma StoreOneKeys(before: Stored, f: Incoming, x: Id)
    requires before.nextId + 1 < U64 && x in StoreOne(before, f).attachments
    ensures before.nextId <= StoreOne(before, f).nextId <= before.nextId + 1
    ensures x in before.attachments || f.id == Some(x)
         || Allocated(x, "att_", before.nextId, StoreOne(before, f).nextId)
  {
    if x !in before.attachments && f.id != Some(x) {
      assert x == Numbered("att_", before.nextId);
    }
  }

  lemma AllocatedWider(x: Id, prefix: string, a: nat, b: nat, c: nat, d: nat)
    requires a <= b <= d && a <= c <= d
    ensures Allocated(x, prefix, a, b) || Allocated(x, prefix, c, d) ==> Allocated(x, prefix, a, d)
  {
  }

  lemma ThreadIdNumbered(n: nat)
    ensures ThreadId(n) == Numbered("thread_", n)
  {
  }

  lemma JoinedThreadKeys(s: State, r: Request, t: Id)
    requires IsArrival(r) && NoWrap(s, r) && t in Joined(s, r).0.threads
    ensures t in s.threads || Allocated(t, "thread_", s.nextId, Joined(s, r).0.nextId)
  {
    hide FindThread, Explicit, Subject, Files, BeforeThread, Numbered, ThreadId, NoWrap;
    BeforeCounters(s, r);
    JoinedCounters(s, r);
    var b := BeforeThread(s, r);
    if t !in s.threads {
      ThreadIdNumbered(b.nextId);
    }
  }

  lemma StepThreadKeys(s: State, r: Request, t: Id)
    requires NoWrap(s, r) && t in Apply(s, r).state.threads
    ensures t in s.threads || Allocated(t, "thread_", s.nextId, Apply(s, r).state.nextId)
  {
    if IsArrival(r) {
      ArrivalThreadKeys(s, r, t);
    } else {
      OtherThreadKeys(s, r, t);
    }
  }

  lemma ArrivalThreadKeys(s: State, r: Request, t: Id)
    requires IsArrival(r) && NoWrap(s, r) && t in Apply(s, r).state.threads
    ensures t in s.threads || Allocated(t, "thread_", s.nextId, Apply(s, r).state.nextId)
  {
    hide Apply, Joined, StoredFiles, TargetId, Refreshed, FileCounter, NoWrap;
    ArrivalShape(s, r);
    ArrivalCounters(s, r);
    JoinedCounters(s, r);
    var o, s1 := Apply(s, r), Joined(s, r).0;
    RefreshedKeys(o.state.messages, s1.threads, Joined(s, r).1);
    JoinedThreadKeys(s, r, t);
  }

  lemma OtherThreadKeys(s: State, r: Request, t: Id)
    requires !IsArrival(r) && t in Apply(s, r).state.threads
    ensures t in s.threads
  {
    if r.DeleteMessage? && r.message in s.messages {
      RefreshedKeys(s.messages - {r.message}, s.threads, s.messages[r.message].threadId);
    }
    hide Refreshed, Relabelled, Members, RelabelAll;
  }

  lemma StepMessageKeys(s: State, r: Request, k: Id)
    requires NoWrap(s, r) && k in Apply(s, r).state.messages
    ensures k in s.messages || Allocated(k, "msg_", s.nextId, Apply(s, r).state.nextId)
         || (r.InsertMessage? && r.raw.id == k)
  {
    if IsArrival(r) {
      ArrivalMessageKeys(s, r, k);
    } else {
      OtherMessageKeys(s, r, k);
    }
  }

  lemma ArrivalMessageKeys(s: State, r: Request, k: Id)
    requires IsArrival(r) && NoWrap(s, r) && k in Apply(s, r).state.messages
    ensures k in s.messages || Allocated(k, "msg_", s.nextId, Apply(s, r).state.nextId)
         || (r.InsertMessage? && r.raw.id == k)
  {
    hide Apply, Joined, StoredFiles, Refreshed, NoWrap;
    ArrivalShape(s, r);
    ArrivalCounters(s, r);
    JoinedCounters(s, r);
    BeforeCounters(s, r);
    if k !in s.messages && !(r.InsertMessage? && r.raw.id == k) {
      var n := if r.SendMessage? then Joined(s, r).0.nextId else s.nextId;
      assert k == Numbered("msg_", n);
    }
  }

  lemma OtherMessageKeys(s: State, r: Request, k: Id)
    requires !IsArrival(r) && k in Apply(s, r).state.messages
    ensures k in s.messages
  {
    hide Refreshed, Relabelled, Members;
  }

  lemma StepLabelKeys(s: State, r: Request, l: Id)
    requires NoWrap(s, r) && l in Apply(s, r).state.labels
    ensures l in s.labels || Allocated(l, "Label_", s.nextId, Apply(s, r).state.nextId)
  {
    if IsArrival(r) {
      ArrivalShape(s, r);
    } else if l !in s.labels {
      NewLabelKey(s, r, l);
      assert l == Numbered("Label_", s.nextId);
    }
  }

  lemma NewLabelKey(s: State, r: Request, l: Id)
    requires !IsArrival(r) && NoWrap(s, r) && l in Apply(s, r).state.labels && l !in s.labels
    ensures l == LabelId(s.nextId) && Apply(s, r).state.nextId == s.nextId + 1
  {
    hide Refreshed, Relabelled, Members;
  }

  lemma StepAttachmentKeys(s: State, r: Request, a: Id)
    requires NoWrap(s, r) && a in Apply(s, r).state.attachments
    ensures a in s.attachments || Allocated(a, "att_", s.nextId, Apply(s, r).state.nextId)
         || (IsArrival(r) && Brings(Files(r), a))
  {
    if IsArrival(r) {
      ArrivalAttachmentKeys(s, r, a);
    } else {
      OtherAttachmentKeys(s, r, a);
    }
  }

  lemma ArrivalAttachmentKeys(s: State, r: Request, a: Id)
    requires IsArrival(r) && NoWrap(s, r) && a in Apply(s, r).state.attachments
    ensures a in s.attachments || Allocated(a, "att_", s.nextId, Apply(s, r).state.nextId) || Brings(Files(r), a)
  {
    hide Apply, Joined, FileCounter, TargetId, Refreshed, Files, StoreAll;
    ArrivalShape(s, r);
    ArrivalCounters(s, r);
    JoinedCounters(s, r);
    StoreAllKeys(s.attachments, FileCounter(s, r), Files(r), a);
  }

  lemma OtherAttachmentKeys(s: State, r: Request, a: Id)
    requires !IsArrival(r) && a in Apply(s, r).state.attachments
    ensures a in s.attachments
  {
    hide Refreshed, Relabelled, Members, ThreadRefIds, RefIds;
  }

  // ---------------------------------------------------------------------
  // Freshness
  // ---------------------------------------------------------------------

  /** No id of this form with a number still to come is a key. */
  ghost predicate FreshKeys(keys: set<Id>, prefix: string, next: nat) {
    forall n: nat :: next <= n < U64 ==> Numbered(prefix, n) !in keys
  }

  ghost predicate Fresh(s: State) {
    && FreshKeys(s.messages.Keys, "msg_", s.nextId) && FreshKeys(s.threads.Keys, "thread_", s.nextId)
    && FreshKeys(s.labels.Keys, "Label_", s.nextId) && FreshKeys(s.attachments.Keys, "att_", s.nextId)
  }

  /** x is no id that is still to be allocated. */
  ghost predicate NotPending(x: Id, prefix: string, next: nat) {
    forall n: nat :: next <= n < U64 ==> Numbered(prefix, n) != x
  }

  lemma AllocatedIsPast(x: Id, prefix: string, a: nat, b: nat)
    requires Allocated(x, prefix, a, b)
    ensures NotPending(x, prefix, b)
  {
    var m: nat :| a <= m < b && x == Numbered(prefix, m);
    forall n: nat | b <= n < U64 ensures Numbered(prefix, n) != x {
      NumberedInjective(prefix, m, n);
    }
  }

  lemma FreshGrows(keys: set<Id>, keys': set<Id>, prefix: string, a: nat, b: nat)
    requires FreshKeys(keys, prefix, a) && a <= b
    requires forall x :: x in keys' ==> x in keys || Allocated(x, prefix, a, b) || NotPending(x, prefix, b)
    ensures FreshKeys(keys', prefix, b)
  {
    forall x | Allocated(x, prefix, a, b) ensures NotPending(x, prefix, b) {
      AllocatedIsPast(x, prefix, a, b);
    }
    hide Numbered, Allocated;
  }

  /** Thread ids stay fresh through every request. */
  lemma StepThreadsFresh(s: State, r: Request)
    requires NoWrap(s, r) && FreshKeys(s.threads.Keys, "thread_", s.nextId)
    ensures FreshKeys(Apply(s, r).state.threads.Keys, "thread_", Apply(s, r).state.nextId)
  {
    hide Apply, FreshKeys;
    StepCounters(s, r);
    var s' := Apply(s, r).state;
    forall t | t in s'.threads.Keys ensures t in s.threads.Keys || Allocated(t, "thread_", s.nextId, s'.nextId) {
      StepThreadKeys(s, r, t);
    }
    FreshGrows(s.threads.Keys, s'.threads.Keys, "thread_", s.nextId, s'.nextId);
  }

  /** The number of files without an id of their own. */
  function Unnamed(files: seq<Incoming>): nat {
    if files == [] then 0 else Unnamed(files[..|files| - 1]) + if files[|files| - 1].id.None? then 1 else 0
  }

  lemma {:induction false} StoreAllConsumes(attachments: map<Id, Bytes>, nextId: nat, files: seq<Incoming>)
    requires nextId + |files| < U64 && AllDecode(files)
    ensures Unnamed(files) <= |files|
    ensures StoreAll(attachments, nextId, files).nextId == nextId + Unnamed(files)
    decreases |files|
  {
    hide StoreOne;
    if files != [] {
      var init, f := files[..|files| - 1], files[|files| - 1];
      assert files == init + [f];
      StoreAllConsumes(attachments, nextId, init);
      StoredIfDecoded(attachments, nextId, init);
      OneConsumes(StoreAll(attachments, nextId, init), f);
    }
  }

  lemma OneConsumes(before: Stored, f: Incoming)
    requires before.ok && f.data.Some? && before.nextId + 1 < U64
    ensures StoreOne(before, f).nextId == before.nextId + if f.id.None? then 1 else 0
  {
    hide AttachmentId;
  }

  /** The files before the first that does not decode. */
  function Decoding(files: seq<Incoming>): (d: seq<Incoming>)
    ensures d <= files
  {
    if files == [] then []
    else
      var init := files[..|files| - 1];
      var d := Decoding(init);
      if d == init && files[|files| - 1].data.Some? then files else d
  }

  lemma {:induction false} DecodingMeaning(files: seq<Incoming>)
    ensures AllDecode(Decoding(files))
    ensures AllDecode(files) <==> Decoding(files) == files
    decreases |files|
  {
    if files != [] {
      var init := files[..|files| - 1];
      assert files == init + [files[|files| - 1]];
      DecodingMeaning(init);
    }
  }

  /** The ids consumed by files: the one that does not decode has its id allocated too. */
  function Consumed(files: seq<Incoming>): nat {
    var d := Decoding(files);
    Unnamed(d) + if |d| < |files| && files[|d|].id.None? then 1 else 0
  }

  /** Nothing is stored from the first file on that does not decode. */
  lemma {:induction false} StoreAllDecoding(store: map<Id, Bytes>, next: nat, files: seq<Incoming>)
    requires next + |files| < U64
    ensures var d := Decoding(files); var st, st' := StoreAll(store, next, files), StoreAll(store, next, d);
      && st.attachments == st'.attachments
      && st.nextId == if |d| < |files| && files[|d|].id.None? then Bump(st'.nextId) else st'.nextId
    decreases |files|
  {
    hide AttachmentId;
    if files != [] {
      var init, f := files[..|files| - 1], files[|files| - 1];
      assert files == init + [f];
      StoreAllDecoding(store, next, init);
      StoredIfDecoded(store, next, init);
      DecodingMeaning(init);
    }
  }

  lemma StoreAllCounts(store: map<Id, Bytes>, next: nat, files: seq<Incoming>)
    requires next + |files| < U64
    ensures StoreAll(store, next, files).nextId == next + Consumed(files)
  {
    hide StoreAll, Unnamed;
    StoreAllDecoding(store, next, files);
    DecodingMeaning(files);
    StoreAllConsumes(store, next, Decoding(files));
  }

  /** The counter after an arriving message, known before it arrives. */
  function NextCounter(s: State, r: Request): nat
    requires IsArrival(r)
  {
    FileCounter(s, r) + Consumed(Files(r))
  }

  lemma ArrivalConsumes(s: State, r: Request)
    requires IsArrival(r) && NoWrap(s, r)
    ensures Apply(s, r).state.nextId == NextCounter(s, r)
  {
    ArrivalShape(s, r);
    JoinedCounters(s, r);
    StoreAllCounts(s.attachments, FileCounter(s, r), Files(r));
    hide Apply, Joined, TargetId, Refreshed, StoreAll, FileCounter, Files, Consumed;
  }

  /** An inserted message will be stored under an id that is still to be allocated. */
  ghost predicate Anticipates(s: State, r: Request) {
    && r.InsertMessage? && r.raw.id != "" && AllDecode(r.raw.attachments)
    && !NotPending(r.raw.id, "msg_", NextCounter(s, r))
  }

  /** A file will be stored under an id that is still to be allocated. */
  ghost predicate AnticipatesFile(s: State, r: Request) {
    && IsArrival(r)
    && exists x :: Brings(Decoding(Files(r)), x) && !NotPending(x, "att_", NextCounter(s, r))
  }

  /** Message ids stay fresh exactly when no inserted message takes, under its
      own id, an id that is still to be allocated. */
  lemma StepMessagesFresh(s: State, r: Request)
    requires NoWrap(s, r) && FreshKeys(s.messages.Keys, "msg_", s.nextId)
    ensures FreshKeys(Apply(s, r).state.messages.Keys, "msg_", Apply(s, r).state.nextId) <==> !Anticipates(s, r)
  {
    hide Apply, FreshKeys, NotPending, NextCounter, NoWrap;
    MessagesFreshAfter(s, r);
    if r.InsertMessage? {
      ArrivalSucceeds(s, r);
      ArrivalConsumes(s, r);
    }
  }

  lemma MessagesFreshAfter(s: State, r: Request)
    requires NoWrap(s, r) && FreshKeys(s.messages.Keys, "msg_", s.nextId)
    ensures var o := Apply(s, r);
      FreshKeys(o.state.messages.Keys, "msg_", o.state.nextId)
      <==> (r.InsertMessage? && r.raw.id != "" && o.result.Ok? ==> NotPending(r.raw.id, "msg_", o.state.nextId))
  {
    hide Apply, FreshKeys, NotPending;
    StepCounters(s, r);
    var o := Apply(s, r);
    if r.InsertMessage? && r.raw.id != "" && o.result.Ok? {
      InsertedKey(s, r);
      if FreshKeys(o.state.messages.Keys, "msg_", o.state.nextId) {
        InFreshKeys(o.state.messages.Keys, "msg_", o.state.nextId, r.raw.id);
      }
    }
    if r.InsertMessage? && r.raw.id != "" && o.result.Ok? ==> NotPending(r.raw.id, "msg_", o.state.nextId) {
      forall k | k in o.state.messages.Keys
        ensures k in s.messages.Keys || Allocated(k, "msg_", s.nextId, o.state.nextId)
             || NotPending(k, "msg_", o.state.nextId)
      {
        StepMessageKeys(s, r, k);
        FailedInsertKey(s, r, k);
        EmptyNotPending("msg_", o.state.nextId);
      }
      FreshGrows(s.messages.Keys, o.state.messages.Keys, "msg_", s.nextId, o.state.nextId);
    }
  }

  lemma InsertedKey(s: State, r: Request)
    requires r.InsertMessage? && r.raw.id != "" && Apply(s, r).result.Ok?
    ensures r.raw.id in Apply(s, r).state.messages
  {
    ArrivalShape(s, r);
    hide Apply, Joined, StoredFiles, Refreshed;
  }

  lemma FailedInsertKey(s: State, r: Request, k: Id)
    requires k in Apply(s, r).state.messages
    ensures r.InsertMessage? && Apply(s, r).result.Err? ==> k in s.messages
  {
    if IsArrival(r) {
      ArrivalShape(s, r);
    }
    hide Apply, Joined, StoredFiles, Refreshed;
  }

  lemma EmptyNotPending(prefix: string, next: nat)
    requires prefix != ""
    ensures NotPending("", prefix, next)
  {
    forall n: nat | next <= n < U64 ensures Numbered(prefix, n) != "" {
      assert |Numbered(prefix, n)| >= |prefix|;
    }
  }

  lemma InFreshKeys(keys: set<Id>, prefix: string, next: nat, x: Id)
    requires FreshKeys(keys, prefix, next) && x in keys
    ensures NotPending(x, prefix, next)
  {
  }

  lemma StepLabelsFresh(s: State, r: Request)
    requires NoWrap(s, r) && FreshKeys(s.labels.Keys, "Label_", s.nextId)
    ensures FreshKeys(Apply(s, r).state.labels.Keys, "Label_", Apply(s, r).state.nextId)
  {
    hide Apply, FreshKeys;
    StepCounters(s, r);
    var s' := Apply(s, r).state;
    forall l | l in s'.labels.Keys ensures l in s.labels.Keys || Allocated(l, "Label_", s.nextId, s'.nextId) {
      StepLabelKeys(s, r, l);
    }
    FreshGrows(s.labels.Keys, s'.labels.Keys, "Label_", s.nextId, s'.nextId);
  }

  /** The id a decoding file brings along is stored. */
  lemma {:induction false} BroughtIsStored(store: map<Id, Bytes>, next: nat, files: seq<Incoming>, x: Id)
    requires AllDecode(files) && Brings(files, x)
    ensures x in StoreAll(store, next, files).attachments
    decreases |files|
  {
    hide AttachmentId;
    var init, f := files[..|files| - 1], files[|files| - 1];
    assert files == init + [f];
    StoredIfDecoded(store, next, init);
    if f.id != Some(x) {
      var i :| 0 <= i < |files| && files[i].id == Some(x);
      assert init[i].id == Some(x);
      BroughtIsStored(store, next, init, x);
    }
  }

  lemma BroughtEarly(files: seq<Incoming>, x: Id)
    requires Brings(Decoding(files), x)
    ensures Brings(files, x)
  {
    var d := Decoding(files);
    var i :| 0 <= i < |d| && d[i].id == Some(x);
    assert files[i] == d[i];
  }

  lemma DecodedKeys(store: map<Id, Bytes>, next: nat, files: seq<Incoming>, x: Id)
    requires next + |files| < U64
    ensures var st := StoreAll(store, next, files);
      && (Brings(Decoding(files), x) ==> x in st.attachments)
      && (x in st.attachments ==> x in store || Brings(Decoding(files), x) || Allocated(x, "att_", next, st.nextId))
  {
    hide StoreAll, Brings, Allocated, Bump;
    var d := Decoding(files);
    StoreAllDecoding(store, next, files);
    DecodingMeaning(files);
    StoreAllCounts(store, next, files);
    StoreAllConsumes(store, next, d);
    if Brings(d, x) {
      BroughtIsStored(store, next, d, x);
    }
    if x in StoreAll(store, next, d).attachments {
      StoreAllKeys(store, next, d, x);
    }
    AllocatedWider(x, "att_", next, next + Unnamed(d), next, next + Consumed(files));
  }

  lemma ArrivedFiles(s: State, r: Request, x: Id)
    requires IsArrival(r) && NoWrap(s, r)
    ensures var s' := Apply(s, r).state;
      && (Brings(Decoding(Files(r)), x) ==> x in s'.attachments)
      && (x in s'.attachments ==>
            x in s.attachments || Brings(Decoding(Files(r)), x) || Allocated(x, "att_", s.nextId, s'.nextId))
  {
    hide Apply, Joined, TargetId, Refreshed, StoreAll, FileCounter, Files, Brings, Allocated, Decoding;
    ArrivalShape(s, r);
    ArrivalCounters(s, r);
    JoinedCounters(s, r);
    StoreAllCounter(s.attachments, FileCounter(s, r), Files(r));
    DecodedKeys(s.attachments, FileCounter(s, r), Files(r), x);
    var next := Apply(s, r).state.nextId;
    AllocatedWider(x, "att_", s.nextId, s.nextId, FileCounter(s, r), next);
  }

  /** Attachment ids stay fresh exactly when no file brings along, and is stored
      under, an id that is still to be allocated. */
  lemma StepAttachmentsFresh(s: State, r: Request)
    requires NoWrap(s, r) && FreshKeys(s.attachments.Keys, "att_", s.nextId)
    ensures FreshKeys(Apply(s, r).state.attachments.Keys, "att_", Apply(s, r).state.nextId)
       <==> !AnticipatesFile(s, r)
  {
    hide Apply, FreshKeys, NotPending, Brings, Decoding, NextCounter, NoWrap;
    StepCounters(s, r);
    var s' := Apply(s, r).state;
    if IsArrival(r) {
      ArrivalConsumes(s, r);
    }
    if AnticipatesFile(s, r) {
      var x :| Brings(Decoding(Files(r)), x) && !NotPending(x, "att_", s'.nextId);
      ArrivedFiles(s, r, x);
      if FreshKeys(s'.attachments.Keys, "att_", s'.nextId) {
        InFreshKeys(s'.attachments.Keys, "att_", s'.nextId, x);
      }
    } else {
      forall a | a in s'.attachments.Keys
        ensures a in s.attachments.Keys || Allocated(a, "att_", s.nextId, s'.nextId) || NotPending(a, "att_", s'.nextId)
      {
        if IsArrival(r) {
          ArrivedFiles(s, r, a);
        } else {
          OtherAttachmentKeys(s, r, a);
        }
      }
      FreshGrows(s.attachments.Keys, s'.attachments.Keys, "att_", s.nextId, s'.nextId);
    }
  }

  /** All allocated ids stay fresh exactly when no message is stored under an id
      it brings along, and no file either, that is still to be allocated. */
  lemma StepFresh(s: State, r: Request)
    requires NoWrap(s, r) && Fresh(s)
    ensures Fresh(Apply(s, r).state) <==> !Anticipates(s, r) && !AnticipatesFile(s, r)
  {
    hide Apply, FreshKeys, NotPending, Anticipates, AnticipatesFile;
    StepThreadsFresh(s, r);
    StepMessagesFresh(s, r);
    StepLabelsFresh(s, r);
    StepAttachmentsFresh(s, r);
  }

  // ---------------------------------------------------------------------
  // History ids
  // ---------------------------------------------------------------------

  /** Every history id in use is below the next one. */
  ghost predicate HistoryBelow(s: State) {
    && (forall k :: k in s.messages ==> s.messages[k].historyId < s.nextHistoryId)
    && (forall t :: t in s.threads ==> s.threads[t].historyId < s.nextHistoryId)
  }

  /** The message is as it was, or carries a history id of this request. */
  ghost predicate OldOrTouched(s: State, s': State, k: Id) {
    k in s'.messages ==>
      || (k in s.messages && s'.messages[k] == s.messages[k])
      || s.nextHistoryId <= s'.messages[k].historyId < s'.nextHistoryId
  }

  lemma RelabelMessageHistory(s: State, id: Id, op: Relabel, k: Id)
    requires s.nextHistoryId + 2 < U64
    ensures OldOrTouched(s, RelabelMessage(s, id, op).state, k)
  {
    hide Relabelled;
  }

  lemma RelabelThreadHistory(s: State, id: Id, op: Relabel, k: Id)
    requires s.nextHistoryId + 2 < U64
    ensures OldOrTouched(s, RelabelThread(s, id, op).state, k)
  {
    hide Relabelled, Members, Sorted;
  }

  lemma DeletionHistory(s: State, r: Request, k: Id)
    requires IsDeletion(r)
    ensures OldOrTouched(s, Apply(s, r).state, k)
  {
    hide Refreshed, RefIds, ThreadRefIds;
  }

  lemma ArrivalHistory(s: State, r: Request, k: Id)
    requires IsArrival(r) && NoWrap(s, r)
    ensures OldOrTouched(s, Apply(s, r).state, k)
  {
    hide Apply, Joined, StoredFiles, Refreshed, FileCounter, NoWrap, TargetId;
    ArrivalShape(s, r);
    ArrivalCounters(s, r);
    JoinedCounters(s, r);
  }

  lemma LabelRecordHistory(s: State, r: Request, k: Id)
    requires r.CreateLabel? || r.UpdateLabel? || r.DeleteLabel?
    requires k in Apply(s, r).state.messages
    ensures k in s.messages && Apply(s, r).state.messages[k].historyId == s.messages[k].historyId
    ensures !r.DeleteLabel? ==> Apply(s, r).state.messages[k] == s.messages[k]
  {
    hide Retain, ToVisibility, ToListVisibility;
  }

  /** A request other than a label deletion gives every message it touches a
      history id above every earlier one; a label deletion keeps history ids. */
  lemma TouchedHistory(s: State, r: Request, k: Id)
    requires NoWrap(s, r) && k in Apply(s, r).state.messages
    ensures if r.DeleteLabel? then k in s.messages && Apply(s, r).state.messages[k].historyId == s.messages[k].historyId
            else OldOrTouched(s, Apply(s, r).state, k)
  {
    hide OldOrTouched, RelabelMessage, RelabelThread, Send, Insert, ApplyDeleteMessage, ApplyDeleteThread,
         ApplyCreateLabel, ApplyUpdateLabel, ApplyDeleteLabel;
    match r
    case SendMessage(_, _, _, _, _, _, _, _) => ArrivalHistory(s, r, k);
    case InsertMessage(_) => ArrivalHistory(s, r, k);
    case ModifyMessage(id, add, remove) => RelabelMessageHistory(s, id, Modify(add, remove), k);
    case TrashMessage(id) => RelabelMessageHistory(s, id, Trash, k);
    case UntrashMessage(id) => RelabelMessageHistory(s, id, Untrash, k);
    case ModifyThread(id, add, remove) => RelabelThreadHistory(s, id, Modify(add, remove), k);
    case TrashThread(id) => RelabelThreadHistory(s, id, Trash, k);
    case UntrashThread(id) => RelabelThreadHistory(s, id, Untrash, k);
    case DeleteMessage(_) => DeletionHistory(s, r, k);
    case DeleteThread(_) => DeletionHistory(s, r, k);
    case _ =>
      LabelRecordHistory(s, r, k);
      SameIsOld(s, Apply(s, r).state, k);
  }

  lemma SameIsOld(s: State, s': State, k: Id)
    requires k in s.messages && k in s'.messages
    ensures s'.messages[k] == s.messages[k] ==> OldOrTouched(s, s', k)
  {
  }

  /** The history id of a thread is its own old one, this request's, or that of
      one of the messages. */
  ghost predicate ThreadHistoryFrom(s: State, s': State, t: Id) {
    t in s'.threads ==>
      || (t in s.threads && s'.threads[t].historyId == s.threads[t].historyId)
      || s.nextHistoryId <= s'.threads[t].historyId < s'.nextHistoryId
      || exists k :: k in s'.messages && s'.threads[t].historyId == s'.messages[k].historyId
  }

  lemma RefreshedHistory(messages: Messages, threads: Threads, thread: Id, t: Id)
    requires t in threads
    ensures var t' := Refreshed(messages, threads, thread);
      t in t' && (t'[t].historyId == threads[t].historyId
                  || exists k :: k in messages && t'[t].historyId == messages[k].historyId)
  {
    hide Latest;
  }

  lemma ArrivalThreadHistory(s: State, r: Request, t: Id)
    requires IsArrival(r) && NoWrap(s, r)
    ensures ThreadHistoryFrom(s, Apply(s, r).state, t)
  {
    hide Apply, Joined, StoredFiles, Refreshed, FileCounter, NoWrap, TargetId;
    ArrivalShape(s, r);
    ArrivalCounters(s, r);
    JoinedCounters(s, r);
    var s', s1 := Apply(s, r).state, Joined(s, r).0;
    RefreshedKeys(s'.messages, s1.threads, Joined(s, r).1);
    if t in s'.threads && t in s1.threads {
      RefreshedHistory(s'.messages, s1.threads, Joined(s, r).1, t);
      JoinedThreadHistory(s, r, t);
    }
  }

  lemma JoinedThreadHistory(s: State, r: Request, t: Id)
    requires IsArrival(r) && NoWrap(s, r) && t in Joined(s, r).0.threads
    ensures var s1 := Joined(s, r).0;
      (t in s.threads && s1.threads[t].historyId == s.threads[t].historyId)
      || s.nextHistoryId <= s1.threads[t].historyId < s1.nextHistoryId + 1
  {
    BeforeCounters(s, r);
    hide FindThread, Explicit, Subject, Files, BeforeThread, ThreadId;
  }

  lemma OtherThreadHistory(s: State, r: Request, t: Id)
    requires !IsArrival(r) && NoWrap(s, r)
    ensures ThreadHistoryFrom(s, Apply(s, r).state, t)
  {
    hide Refreshed, Relabelled, Members, RelabelAll, Sorted, Retain, RefIds, ThreadRefIds, ThreadKeys, ToVisibility,
         ToListVisibility, LabelId, ApplyDeleteMessage;
    if r.DeleteMessage? {
      DeletionThreadHistory(s, r.message, t);
    }
  }

  lemma DeletionThreadHistory(s: State, id: Id, t: Id)
    ensures ThreadHistoryFrom(s, ApplyDeleteMessage(s, id).state, t)
  {
    if id in s.messages && t in s.threads {
      RefreshedHistory(s.messages - {id}, s.threads, s.messages[id].threadId, t);
      RefreshedKeys(s.messages - {id}, s.threads, s.messages[id].threadId);
    }
    hide Refreshed, RefIds;
  }

  /** History ids stay below the next one. */
  lemma StepHistoryBelow(s: State, r: Request)
    requires NoWrap(s, r) && HistoryBelow(s)
    ensures HistoryBelow(Apply(s, r).state)
  {
    hide Apply, NoWrap;
    StepCounters(s, r);
    var s' := Apply(s, r).state;
    forall k | k in s'.messages ensures s'.messages[k].historyId < s'.nextHistoryId {
      TouchedHistory(s, r, k);
    }
    forall t | t in s'.threads ensures s'.threads[t].historyId < s'.nextHistoryId {
      if IsArrival(r) {
        ArrivalThreadHistory(s, r, t);
      } else {
        OtherThreadHistory(s, r, t);
      }
    }
  }
}
