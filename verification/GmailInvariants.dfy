/** The shape of every change to a Gmail state, and the invariants that every
    request keeps: references, history ids, and allocated ids. */
module GmailInvariants {
  import opened Wrappers
  import opened Decimal
  import opened SortedKeys
  import opened GmailModel

  // ---------------------------------------------------------------------
  // Arriving messages
  // ---------------------------------------------------------------------

  predicate IsArrival(r: Request) {
    r.SendMessage? || r.InsertMessage?
  }

  function Explicit(r: Request): Option<Id>
    requires IsArrival(r)
  {
    if r.SendMessage? then r.thread else if r.raw.threadId == "" then None else Some(r.raw.threadId)
  }

  function Subject(r: Request): string
    requires IsArrival(r)
  {
    if r.SendMessage? then r.subject else r.raw.subject
  }

  function Files(r: Request): seq<Incoming>
    requires IsArrival(r)
  {
    if r.SendMessage? then AsIncoming(r.files) else r.raw.attachments
  }

  /** An inserted message without an id takes its id before its thread. */
  function BeforeThread(s: State, r: Request): State
    requires IsArrival(r)
  {
    if r.InsertMessage? && r.raw.id == "" then s.(nextId := Bump(s.nextId)) else s
  }

  /** The state once the thread is found or created, and that thread. */
  function Joined(s: State, r: Request): (State, Id)
    requires IsArrival(r)
  {
    FindOrCreateThread(BeforeThread(s, r), Explicit(r), Subject(r))
  }

  /** The id under which the message will be stored. */
  function TargetId(s: State, r: Request): Id
    requires IsArrival(r)
  {
    if r.SendMessage? then MessageId(Joined(s, r).0.nextId)
    else if r.raw.id == "" then MessageId(s.nextId)
    else r.raw.id
  }

  /** The counter from which attachment ids are allocated. */
  function FileCounter(s: State, r: Request): nat
    requires IsArrival(r)
  {
    if r.SendMessage? then Bump(Joined(s, r).0.nextId) else Joined(s, r).0.nextId
  }

  function StoredFiles(s: State, r: Request): Stored
    requires IsArrival(r)
  {
    StoreAll(s.attachments, FileCounter(s, r), Files(r))
  }

  /** What storing a message changes, given the state s1 and the thread it joins. */
  ghost predicate Arrives(s: State, r: Request, o: Outcome)
    requires IsArrival(r)
  {
    var (s1, tid) := Joined(s, r);
    var stored := StoredFiles(s, r);
    && o.state.labels == s.labels
    && o.state.attachments == stored.attachments && o.state.nextId == stored.nextId
    && o.state.nextHistoryId == Bump(s1.nextHistoryId)
    && (o.result.Ok? <==> stored.ok)
    && if o.result.Ok? then o.result.value.OneMessage? && Placed(s, s1, o.state, o.result.value.message, tid, r, stored)
       else o.state.messages == s.messages && o.state.threads == s1.threads
  }

  ghost predicate Placed(s: State, s1: State, s': State, m: Message, tid: Id, r: Request, stored: Stored)
    requires IsArrival(r)
  {
    && m.id == TargetId(s, r) && m.threadId == tid && m.subject == Subject(r)
    && m.historyId == s1.nextHistoryId && m.attachments == stored.refs
    && s'.messages == s.messages[m.id := m]
    && s'.threads == Refreshed(s'.messages, s1.threads, tid)
  }

  lemma DeliverShape(s: State, draft: Message, files: seq<Incoming>)
    ensures var o := Deliver(s, draft, files); var stored := StoreAll(s.attachments, s.nextId, files);
      && o.state.labels == s.labels && o.state.nextHistoryId == s.nextHistoryId
      && o.state.attachments == stored.attachments && o.state.nextId == stored.nextId
      && (o.result.Ok? <==> stored.ok)
      && (o.result.Err? ==> o.state.messages == s.messages && o.state.threads == s.threads)
      && (o.result.Ok? ==> o.result.value.OneMessage?)
      && (o.result.Ok? ==>
            var m := o.result.value.message;
            && m.id == draft.id && m.threadId == draft.threadId && m.subject == draft.subject
            && m.historyId == draft.historyId && m.attachments == stored.refs
            && o.state.messages == s.messages[m.id := m]
            && o.state.threads == Refreshed(o.state.messages, s.threads, m.threadId))
  {
    hide StoreAll, Refreshed, EstimateSize;
  }

  lemma FindOrCreateFrame(s: State, explicit: Option<Id>, subject: string)
    ensures var s1 := FindOrCreateThread(s, explicit, subject).0;
      s1.messages == s.messages && s1.labels == s.labels && s1.attachments == s.attachments
  {
    hide FindThread;
  }

  lemma SendShape(s: State, r: Request)
    requires r.SendMessage?
    ensures Arrives(s, r, Send(s, r))
  {
    hide Deliver, StoreAll, Refreshed, FindOrCreateThread, MakeSnippet;
    var (s1, tid) := FindOrCreateThread(s, r.thread, r.subject);
    FindOrCreateFrame(s, r.thread, r.subject);
    var hid := s1.nextHistoryId;
    var s2 := s1.(nextId := Bump(s1.nextId), nextHistoryId := Bump(hid));
    var draft := Message(MessageId(s1.nextId), tid, ["SENT"], r.actor + "@twin.local", r.to, r.cc, r.bcc, r.subject,
                         Some(r.body), None, MakeSnippet(r.body), (EPOCH + hid) % U64, 0, [], hid);
    DeliverShape(s2, draft, AsIncoming(r.files));
  }

  lemma InsertShape(s: State, r: Request)
    requires r.InsertMessage?
    ensures Arrives(s, r, Insert(s, r.raw))
  {
    hide Deliver, StoreAll, Refreshed, FindOrCreateThread, MakeSnippet;
    var raw := r.raw;
    var (s1, tid) := Joined(s, r);
    FindOrCreateFrame(BeforeThread(s, r), Explicit(r), raw.subject);
    var hid := s1.nextHistoryId;
    var s2 := s1.(nextHistoryId := Bump(hid));
    var body := if raw.body.Some? then raw.body.value else "";
    var labels := if raw.labels == [] then [INBOX, "UNREAD"] else raw.labels;
    var date := if raw.date.Some? then raw.date.value else (EPOCH + hid) % U64;
    var draft := Message(TargetId(s, r), tid, labels, raw.from, raw.to, raw.cc, raw.bcc, raw.subject, raw.body,
                         raw.bodyHtml, MakeSnippet(body), date, 0, [], hid);
    DeliverShape(s2, draft, raw.attachments);
    assert Insert(s, raw) == Deliver(s2, draft, raw.attachments);
  }

  lemma ArrivalShape(s: State, r: Request)
    requires IsArrival(r)
    ensures Arrives(s, r, Apply(s, r))
  {
    hide Arrives, Send, Insert;
    if r.SendMessage? {
      SendShape(s, r);
    } else {
      InsertShape(s, r);
    }
  }

  predicate AllDecode(files: seq<Incoming>) {
    forall f :: f in files ==> f.data.Some?
  }

  lemma {:induction false} StoredIfDecoded(store: map<Id, Bytes>, nextId: nat, files: seq<Incoming>)
    ensures StoreAll(store, nextId, files).ok <==> AllDecode(files)
    decreases |files|
  {
    if files != [] {
      var init, f := files[..|files| - 1], files[|files| - 1];
      assert files == init + [f];
      StoredIfDecoded(store, nextId, init);
    }
  }

  /** An arrival succeeds exactly if all its files decode; sending always does. */
  lemma ArrivalSucceeds(s: State, r: Request)
    requires IsArrival(r)
    ensures Apply(s, r).result.Ok? <==> AllDecode(Files(r))
    ensures r.SendMessage? ==> Apply(s, r).result.Ok?
  {
    ArrivalShape(s, r);
    StoredIfDecoded(s.attachments, FileCounter(s, r), Files(r));
    hide Apply, Joined, TargetId, Refreshed, StoreAll, FileCounter;
  }

  // ---------------------------------------------------------------------
  // Requests that only touch labels
  // ---------------------------------------------------------------------

  predicate IsDeletion(r: Request) {
    r.DeleteMessage? || r.DeleteThread?
  }

  /** The same messages, up to their labels and history ids. */
  ghost predicate SameBodies(a: Messages, b: Messages) {
    && (forall k :: k in a <==> k in b)
    && forall k :: k in a ==> b[k] == a[k].(labels := b[k].labels, historyId := b[k].historyId)
  }

  /** The same threads, up to their history ids. */
  ghost predicate SameSummaries(a: Threads, b: Threads) {
    && (forall t :: t in a <==> t in b)
    && forall t :: t in a ==> b[t] == a[t].(historyId := b[t].historyId)
  }

  ghost predicate OnlyLabels(s: State, s': State) {
    SameBodies(s.messages, s'.messages) && SameSummaries(s.threads, s'.threads) && s'.attachments == s.attachments
  }

  lemma RelabelMessageShape(s: State, id: Id, op: Relabel)
    ensures OnlyLabels(s, RelabelMessage(s, id, op).state)
  {
    hide Relabelled;
  }

  lemma RelabelThreadShape(s: State, id: Id, op: Relabel)
    ensures OnlyLabels(s, RelabelThread(s, id, op).state)
  {
    hide Relabelled, Members, Sorted;
  }

  lemma LabelRecordShape(s: State, r: Request)
    requires r.CreateLabel? || r.UpdateLabel? || r.DeleteLabel?
    ensures OnlyLabels(s, Apply(s, r).state)
  {
    hide OnlyLabels, ApplyCreateLabel, ApplyUpdateLabel, ApplyDeleteLabel;
    match r
    case CreateLabel(name, mv, lv) => CreateLabelShape(s, name, mv, lv);
    case UpdateLabel(id, name, mv, lv) => UpdateLabelShape(s, id, name, mv, lv);
    case DeleteLabel(id) => DeleteLabelShape(s, id);
  }

  lemma CreateLabelShape(s: State, name: string, mv: Option<string>, lv: Option<string>)
    ensures OnlyLabels(s, ApplyCreateLabel(s, name, mv, lv).state)
  {
    hide ToVisibility, ToListVisibility, LabelId;
  }

  lemma UpdateLabelShape(s: State, id: Id, name: Option<string>, mv: Option<string>, lv: Option<string>)
    ensures OnlyLabels(s, ApplyUpdateLabel(s, id, name, mv, lv).state)
  {
    hide ToVisibility, ToListVisibility;
  }

  lemma DeleteLabelShape(s: State, id: Id)
    ensures OnlyLabels(s, ApplyDeleteLabel(s, id).state)
  {
    hide Retain;
  }

  lemma LabelsOnly(s: State, r: Request)
    requires !IsArrival(r) && !IsDeletion(r)
    ensures OnlyLabels(s, Apply(s, r).state)
  {
    hide OnlyLabels, RelabelMessage, RelabelThread;
    match r
    case ModifyMessage(id, add, remove) => RelabelMessageShape(s, id, Modify(add, remove));
    case TrashMessage(id) => RelabelMessageShape(s, id, Trash);
    case UntrashMessage(id) => RelabelMessageShape(s, id, Untrash);
    case ModifyThread(id, add, remove) => RelabelThreadShape(s, id, Modify(add, remove));
    case TrashThread(id) => RelabelThreadShape(s, id, Trash);
    case UntrashThread(id) => RelabelThreadShape(s, id, Untrash);
    case _ => LabelRecordShape(s, r);
  }

  lemma DeletionSubset(s: State, r: Request)
    requires IsDeletion(r)
    ensures var s' := Apply(s, r).state;
      forall k :: k in s'.messages ==> k in s.messages && s'.messages[k] == s.messages[k]
  {
    hide Refreshed, RefIds, ThreadRefIds;
  }

  /** A request that is no arrival leaves everything of a remaining message
      alone but its labels and history id. */
  lemma KeptBody(s: State, r: Request, k: Id)
    requires !IsArrival(r) && k in Apply(s, r).state.messages
    ensures k in s.messages
    ensures var m, m' := s.messages[k], Apply(s, r).state.messages[k];
      m' == m.(labels := m'.labels, historyId := m'.historyId)
  {
    hide Apply;
    if IsDeletion(r) {
      DeletionSubset(s, r);
    } else {
      LabelsOnly(s, r);
    }
  }

  // ---------------------------------------------------------------------
  // References
  // ---------------------------------------------------------------------

  ghost predicate MessagesWF(messages: Messages, threads: Threads) {
    forall k :: k in messages ==> messages[k].id == k && messages[k].threadId in threads
  }

  ghost predicate ThreadsWF(threads: Threads) {
    forall t :: t in threads ==> threads[t].id == t
  }

  ghost predicate LabelsWF(labels: map<Id, Label>) {
    forall l :: l in labels ==> labels[l].id == l
  }

  /** Entries sit under their own ids, and every message's thread exists. */
  ghost predicate WF(s: State) {
    MessagesWF(s.messages, s.threads) && ThreadsWF(s.threads) && LabelsWF(s.labels)
  }

  predicate SameSubject(a: string, b: string) {
    Normalize(a) == Normalize(b) && Normalize(a) != ""
  }

  lemma {:induction false} FirstWithSubjectMeaning(keys: seq<Id>, messages: Messages, normal: string)
    ensures var f := FirstWithSubject(keys, messages, normal);
      && (f.Some? ==> f.value in messages && Normalize(messages[f.value].subject) == normal && normal != "")
      && (f.None? ==>
            forall k :: k in keys && k in messages ==> Normalize(messages[k].subject) != normal || normal == "")
    decreases |keys|
  {
    hide Normalize;
    if keys != [] {
      FirstWithSubjectMeaning(keys[1..], messages, normal);
      assert forall k :: k in keys ==> k == keys[0] || k in keys[1..];
    }
  }

  /** What the thread search finds: the named live thread, the thread of a
      message with the same subject, or nothing when there is neither. */
  lemma FindThreadMeaning(s: State, explicit: Option<Id>, subject: string)
    ensures var f := FindThread(s, explicit, subject);
      if explicit.Some? && explicit.value in s.threads then f == explicit
      else if f.Some? then
        exists k :: k in s.messages && s.messages[k].threadId == f.value && SameSubject(s.messages[k].subject, subject)
      else forall k :: k in s.messages ==> !SameSubject(s.messages[k].subject, subject)
  {
    FirstWithSubjectMeaning(Sorted(s.messages.Keys), s.messages, Normalize(subject));
    hide Normalize, FirstWithSubject;
  }

  lemma {:induction false} LatestAmongMeaning(keys: seq<Id>, messages: Messages, thread: Id)
    ensures var k := LatestAmong(keys, messages, thread);
      k.Some? ==> k.value in keys && InThread(messages, k.value, thread)
    ensures LatestAmong(keys, messages, thread).None? ==> forall k :: k in keys ==> !InThread(messages, k, thread)
    decreases |keys|
  {
    if keys != [] {
      LatestAmongMeaning(keys[..|keys| - 1], messages, thread);
      assert keys == keys[..|keys| - 1] + [keys[|keys| - 1]];
    }
  }

  lemma RefreshedKeys(messages: Messages, threads: Threads, thread: Id)
    ensures var t' := Refreshed(messages, threads, thread);
      && t'.Keys == threads.Keys
      && (ThreadsWF(threads) ==> ThreadsWF(t'))
      && forall t :: t in threads && t != thread ==> t'[t] == threads[t]
  {
    hide Latest;
  }

  /** Finding or creating a thread keeps the existing ones and yields a live one. */
  lemma FindOrCreateMeaning(s: State, explicit: Option<Id>, subject: string)
    requires WF(s)
    ensures var (s1, tid) := FindOrCreateThread(s, explicit, subject);
      && tid in s1.threads && ThreadsWF(s1.threads)
      && s.threads.Keys <= s1.threads.Keys
      && s1.threads.Keys == (if FindThread(s, explicit, subject).Some? then s.threads.Keys else s.threads.Keys + {tid})
  {
    FindThreadMeaning(s, explicit, subject);
    hide FindThread, SameSubject;
  }

  lemma JoinedMeaning(s: State, r: Request)
    requires IsArrival(r) && WF(s)
    ensures var (s1, tid) := Joined(s, r);
      && s1.messages == s.messages && s1.labels == s.labels && s1.attachments == s.attachments
      && tid in s1.threads && ThreadsWF(s1.threads) && s.threads.Keys <= s1.threads.Keys
  {
    FindOrCreateFrame(BeforeThread(s, r), Explicit(r), Subject(r));
    FindOrCreateMeaning(BeforeThread(s, r), Explicit(r), Subject(r));
    hide FindOrCreateThread, Subject, Explicit, MessagesWF, ThreadsWF, LabelsWF;
  }

  lemma PlacedWF(messages: Messages, threads: Threads, threads1: Threads, m: Message)
    requires MessagesWF(messages, threads) && ThreadsWF(threads1)
    requires threads.Keys <= threads1.Keys && m.threadId in threads1
    ensures var messages' := messages[m.id := m];
      MessagesWF(messages, threads1)
      && MessagesWF(messages', Refreshed(messages', threads1, m.threadId))
      && ThreadsWF(Refreshed(messages', threads1, m.threadId))
  {
    RefreshedKeys(messages[m.id := m], threads1, m.threadId);
    hide Refreshed;
  }

  lemma ArrivalWF(s: State, r: Request)
    requires IsArrival(r) && WF(s)
    ensures WF(Apply(s, r).state)
  {
    hide Apply, Joined, StoredFiles, TargetId, Refreshed, Subject, MessagesWF, ThreadsWF, LabelsWF;
    ArrivalShape(s, r);
    JoinedMeaning(s, r);
    var o, s1 := Apply(s, r), Joined(s, r).0;
    if o.result.Ok? {
      PlacedWF(s.messages, s.threads, s1.threads, o.result.value.message);
    } else {
      MoreThreadsWF(s.messages, s.threads, s1.threads);
    }
  }

  lemma MoreThreadsWF(messages: Messages, threads: Threads, threads1: Threads)
    requires MessagesWF(messages, threads) && threads.Keys <= threads1.Keys
    ensures MessagesWF(messages, threads1)
  {
  }

  lemma DeleteMessageWF(s: State, id: Id)
    requires WF(s)
    ensures WF(ApplyDeleteMessage(s, id).state)
  {
    if id in s.messages {
      RefreshedKeys(s.messages - {id}, s.threads, s.messages[id].threadId);
    }
    hide Refreshed, RefIds;
  }

  lemma DeleteThreadWF(s: State, id: Id)
    requires WF(s)
    ensures WF(ApplyDeleteThread(s, id).state)
  {
    hide ThreadRefIds;
  }

  lemma LabelRecordsWF(s: State, r: Request)
    requires !IsArrival(r) && !IsDeletion(r) && LabelsWF(s.labels)
    ensures LabelsWF(Apply(s, r).state.labels)
  {
    hide Relabelled, Members, RelabelAll, Retain, ToVisibility, ToListVisibility;
  }

  lemma BodiesWF(s: State, s': State)
    requires WF(s) && OnlyLabels(s, s') && LabelsWF(s'.labels)
    ensures WF(s')
  {
  }

  /** References stay intact through every request. */
  lemma StepWF(s: State, r: Request)
    requires WF(s)
    ensures WF(Apply(s, r).state)
  {
    hide WF, ApplyDeleteMessage, ApplyDeleteThread, OnlyLabels;
    if IsArrival(r) {
      ArrivalWF(s, r);
    } else if r.DeleteMessage? {
      DeleteMessageWF(s, r.message);
    } else if r.DeleteThread? {
      DeleteThreadWF(s, r.threadId);
    } else {
      LabelsOnly(s, r);
      WFLabels(s);
      LabelRecordsWF(s, r);
      BodiesWF(s, Apply(s, r).state);
    }
  }

  lemma WFLabels(s: State)
    requires WF(s)
    ensures LabelsWF(s.labels)
  {
  }
}
