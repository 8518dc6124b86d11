/** What the requests that relabel, delete and manage labels do, said in terms of
    messages, threads and labels alone. */
module GmailStateLaws {
  import opened Wrappers
  import opened Decimal
  import opened SortedKeys
  import opened GmailModel
  import opened GmailInvariants
  import opened GmailRuns
  import opened GmailLabels
  import opened GmailSnippets
  import opened GmailAttachments
  import opened GmailSeeding

  // ---------------------------------------------------------------------
  // Labels of messages
  // ---------------------------------------------------------------------

  predicate Relabels(r: Request) {
    r.ModifyMessage? || r.TrashMessage? || r.UntrashMessage? || r.ModifyThread? || r.TrashThread? || r.UntrashThread?
  }

  /** The labels a relabelling request leaves: those that stay, in their order,
      and behind them those that are added and were missing. */
  ghost predicate LeftLabels(r: Request, was: seq<Id>, now: seq<Id>)
    requires Relabels(r)
  {
    if r.TrashMessage? || r.TrashThread? then
      now == Except(was, {"INBOX"}) + (if "TRASH" in was then [] else ["TRASH"])
    else if r.UntrashMessage? || r.UntrashThread? then
      now == Except(was, {"TRASH"}) + (if "INBOX" in was then [] else ["INBOX"])
    else
      var kept := Except(was, Elements(r.remove));
      && kept <= now
      && (forall l :: l in now <==> l in kept || l in r.add)
      && (forall i, j :: |kept| <= j < |now| && 0 <= i < j ==> now[i] != now[j])
  }

  function Change(r: Request): Relabel
    requires Relabels(r)
  {
    if r.TrashMessage? || r.TrashThread? then Trash
    else if r.UntrashMessage? || r.UntrashThread? then Untrash
    else Modify(r.add, r.remove)
  }

  lemma ExceptAppend(a: seq<Id>, l: Id, remove: set<Id>)
    ensures Except(a + [l], remove) == Except(a, remove) + (if l in remove then [] else [l])
  {
    assert (a + [l])[..|a|] == a;
  }

  lemma LabelsLeft(r: Request, was: seq<Id>)
    requires Relabels(r)
    ensures LeftLabels(r, was, Relabelled(was, Change(r)))
  {
    hide Except, Retain, RemoveLabels, AddLabels;
    assert "TRASH"[0] != "INBOX"[0];
    match Change(r)
    case Modify(add, remove) =>
      RemoveIsFilter(was, remove);
      AddAppends(RemoveLabels(was, remove), add);
    case Trash =>
      RetainIsExcept(AddLabel(was, TRASH), INBOX);
      ExceptAppend(was, TRASH, {INBOX});
    case Untrash =>
      RetainIsExcept(was, TRASH);
      ExceptMembers(was, {TRASH});
  }

  /** A relabelling request on a message changes its labels and history id, and
      answers with it. */
  lemma MessageChangeLaw(s: State, r: Request)
    requires r.ModifyMessage? || r.TrashMessage? || r.UntrashMessage?
    ensures var o := Apply(s, r); var k := r.message;
      if k !in s.messages then o == Outcome(s, Err("message not found: " + k))
      else
        && o.result.Ok? && o.result.value.OneMessage?
        && var m := o.result.value.message;
        && m == s.messages[k].(labels := m.labels, historyId := s.nextHistoryId)
        && LeftLabels(r, s.messages[k].labels, m.labels)
        && o.state == s.(messages := s.messages[k := m],
                         nextHistoryId := (s.nextHistoryId + 1) % 0x1_0000_0000_0000_0000)
  {
    hide Relabelled, LeftLabels;
    if r.message in s.messages {
      LabelsLeft(r, s.messages[r.message].labels);
    }
  }

  // ---------------------------------------------------------------------
  // Threads
  // ---------------------------------------------------------------------

  predicate ListsMessages(messages: Messages, ids: seq<Id>, listed: seq<Message>) {
    |listed| == |ids| && forall i :: 0 <= i < |ids| ==> ids[i] in messages && listed[i] == messages[ids[i]]
  }

  lemma AscendingMore(ids: seq<Id>, init: seq<Id>, last: Id)
    requires Ascending(init + [last]) && Ascending(ids) && forall k :: k in ids ==> k in init
    ensures Ascending(ids + [last])
  {
    hide Leq;
    var keys := init + [last];
    forall i | 0 <= i < |ids| ensures ids[i] != last && Leq(ids[i], last) {
      assert ids[i] in init;
      var j :| 0 <= j < |init| && init[j] == ids[i];
      assert keys[j] == ids[i] && keys[|init|] == last;
    }
  }

  lemma {:induction false} MembersList(keys: seq<Id>, messages: Messages, t: Id) returns (ids: seq<Id>)
    requires Ascending(keys)
    ensures ListsMessages(messages, ids, Members(keys, messages, t)) && Ascending(ids)
    ensures forall k :: k in ids <==> k in keys && InThread(messages, k, t)
    decreases |keys|
  {
    ids := [];
    if keys != [] {
      var init, last := keys[..|keys| - 1], keys[|keys| - 1];
      assert keys == init + [last] && Ascending(init);
      hide Leq, Ascending;
      ids := MembersList(init, messages, t);
      if InThread(messages, last, t) {
        AscendingMore(ids, init, last);
        ids := ids + [last];
      }
    }
  }

  /** A relabelling request on a thread gives the thread and its messages one
      history id, relabels those messages, leaves all others alone, and answers
      with the thread and its messages in id order. */
  lemma ThreadChangeLaw(s: State, r: Request)
    requires r.ModifyThread? || r.TrashThread? || r.UntrashThread?
    ensures var o := Apply(s, r); var t := r.threadId;
      if t !in s.threads then o == Outcome(s, Err("thread not found: " + t))
      else
        && ThreadChanged(s, r, o.state)
        && o.state.threads == s.threads[t := s.threads[t].(historyId := s.nextHistoryId)]
        && o.state == s.(messages := o.state.messages, threads := o.state.threads,
                         nextHistoryId := (s.nextHistoryId + 1) % 0x1_0000_0000_0000_0000)
        && exists ids, listed ::
             && o.result == Ok(OneThread(o.state.threads[t], listed))
             && ListsMessages(o.state.messages, ids, listed) && Ascending(ids)
             && forall k :: k in ids <==> k in s.messages && s.messages[k].threadId == t
  {
    hide RelabelAll, Members, ThreadChanged, Leq, Change, Apply;
    if r.threadId in s.threads {
      var o := Apply(s, r);
      ThreadStep(s, r);
      ChangedMembers(s, r);
      var messages := o.state.messages;
      var ids := MembersList(Sorted(messages.Keys), messages, r.threadId);
      SameThreads(s, r, o.state);
      var listed := Members(Sorted(messages.Keys), messages, r.threadId);
      assert ListsMessages(messages, ids, listed);
      forall k ensures k in ids <==> k in s.messages && s.messages[k].threadId == r.threadId {
        assert k in ids <==> InThread(messages, k, r.threadId);
        assert InThread(messages, k, r.threadId) <==> InThread(s.messages, k, r.threadId);
      }
      assert o.result == Ok(OneThread(o.state.threads[r.threadId], listed));
    } else {
      NoThread(s, r);
    }
  }

  lemma NoThread(s: State, r: Request)
    requires r.ModifyThread? || r.TrashThread? || r.UntrashThread?
    requires r.threadId !in s.threads
    ensures Apply(s, r) == Outcome(s, Err("thread not found: " + r.threadId))
  {
  }

  ghost predicate ThreadChanged(s: State, r: Request, s': State)
    requires Relabels(r)
    requires r.ModifyThread? || r.TrashThread? || r.UntrashThread?
  {
    && s'.messages.Keys == s.messages.Keys
    && forall k :: k in s.messages ==>
         var was, now := s.messages[k], s'.messages[k];
         if was.threadId == r.threadId then
           now == was.(labels := now.labels, historyId := s.nextHistoryId) && LeftLabels(r, was.labels, now.labels)
         else now == was
  }

  lemma SameThreads(s: State, r: Request, s': State)
    requires r.ModifyThread? || r.TrashThread? || r.UntrashThread?
    requires ThreadChanged(s, r, s')
    ensures forall k :: InThread(s'.messages, k, r.threadId) <==> InThread(s.messages, k, r.threadId)
  {
    hide LeftLabels;
  }

  lemma ChangedMembers(s: State, r: Request)
    requires r.ModifyThread? || r.TrashThread? || r.UntrashThread?
    requires r.threadId in s.threads
    ensures ThreadChanged(s, r, Apply(s, r).state)
  {
    hide Relabelled, LeftLabels, Change, Apply;
    ThreadStep(s, r);
    RelabelAllMeaning(s.messages, r.threadId, Change(r), s.nextHistoryId);
    forall k | k in s.messages
      ensures LeftLabels(r, s.messages[k].labels, Relabelled(s.messages[k].labels, Change(r)))
    {
      LabelsLeft(r, s.messages[k].labels);
    }
  }

  lemma ThreadStep(s: State, r: Request)
    requires r.ModifyThread? || r.TrashThread? || r.UntrashThread?
    requires r.threadId in s.threads
    ensures var o := Apply(s, r); var t := r.threadId;
            var messages := RelabelAll(s.messages, t, Change(r), s.nextHistoryId);
      && o.state == s.(messages := messages, nextHistoryId := Bump(s.nextHistoryId),
                       threads := s.threads[t := s.threads[t].(historyId := s.nextHistoryId)])
      && o.result == Ok(OneThread(o.state.threads[t], Members(Sorted(messages.Keys), messages, t)))
  {
    hide RelabelAll, Members, Sorted;
  }

  // ---------------------------------------------------------------------
  // Deletion
  // ---------------------------------------------------------------------

  ghost predicate Attaches(m: Message, a: Id) {
    exists i :: 0 <= i < |m.attachments| && m.attachments[i].id == a
  }

  /** The record of a thread after its messages changed: snippet and history id
      are those of its latest message, and its id stays. */
  ghost predicate Renewed(messages: Messages, was: Thread, now: Thread, t: Id) {
    forall k :: IsLatest(messages, t, k) ==>
      now == was.(snippet := messages[k].snippet, historyId := messages[k].historyId)
  }

  lemma RefreshedLaw(messages: Messages, threads: Threads, t: Id)
    requires exists k :: InThread(messages, k, t)
    ensures var threads' := Refreshed(messages, threads, t);
      && threads'.Keys == threads.Keys
      && (forall u :: u in threads && u != t ==> threads'[u] == threads[u])
      && (t in threads ==> Renewed(messages, threads[t], threads'[t], t))
  {
    LatestMeaning(messages, t);
    hide Latest, IsLatest;
    var l := Latest(messages, t);
    forall k | IsLatest(messages, t, k) ensures l == Some(k) {
      LatestUnique(messages, t, k, l.value);
    }
    if l.Some? {
      LatestInThread(messages, t, l.value);
    }
  }

  /** The record of the thread that a message joins, before it is renewed: the
      one that is there, or a new one under the next number and history id. */
  ghost predicate JoinsRecord(s: State, r: Request, record: Thread)
    requires IsArrival(r)
  {
    var found := FindThread(BeforeThread(s, r), Explicit(r), Subject(r));
    if found.Some? then found.value in s.threads && record == s.threads[found.value]
    else record == Thread("thread_" + Print(BeforeThread(s, r).nextId), s.nextHistoryId, "")
  }

  /** An arriving message adds at most its thread, and renews that thread's
      record; a refused one leaves the record of a new thread. */
  lemma ArrivalThreadLaw(s: State, r: Request)
    requires IsArrival(r) && WF(s)
    ensures var s', t := Apply(s, r).state, Joined(s, r).1;
      && s'.threads.Keys == s.threads.Keys + {t}
      && (forall u :: u in s.threads && u != t ==> s'.threads[u] == s.threads[u])
      && exists record :: JoinsRecord(s, r, record) && record.id == t
           && if AllDecode(Files(r)) then Renewed(s'.messages, record, s'.threads[t], t) else s'.threads[t] == record
  {
    hide Apply, Joined, StoredFiles, TargetId, Refreshed, Renewed, FindThread, Files, AllDecode, FileCounter,
         JoinsRecord;
    ArrivalShape(s, r);
    ArrivalSucceeds(s, r);
    var o, s1, t := Apply(s, r), Joined(s, r).0, Joined(s, r).1;
    JoinedRecord(s, r);
    if o.result.Ok? {
      assert InThread(o.state.messages, o.result.value.message.id, t);
      RefreshedLaw(o.state.messages, s1.threads, t);
    }
  }

  lemma JoinedRecord(s: State, r: Request)
    requires IsArrival(r) && WF(s)
    ensures var (s1, t) := Joined(s, r);
      && t in s1.threads && s1.threads.Keys == s.threads.Keys + {t} && s1.threads[t].id == t
      && (forall u :: u in s.threads && u != t ==> s1.threads[u] == s.threads[u])
      && JoinsRecord(s, r, s1.threads[t])
  {
    hide FindThread, Explicit, Subject, SameSubject, MessagesWF, LabelsWF, Print;
    var b := BeforeThread(s, r);
    FindThreadLive(s, r);
    assert b.threads == s.threads && b.nextHistoryId == s.nextHistoryId;
  }

  /** Deleting a message removes it and its attachments, and its thread if that
      was its only message; otherwise the thread's record is renewed. */
  lemma DeletionLaw(s: State, id: Id)
    ensures var o := Apply(s, DeleteMessage(id)); var s' := o.state;
      if id !in s.messages then o == Outcome(s, Err("message not found: " + id))
      else
        var m := s.messages[id]; var t := m.threadId;
        && o.result == Ok(Deleted)
        && s' == s.(messages := s'.messages, threads := s'.threads, attachments := s'.attachments)
        && s'.messages == (map k | k in s.messages && k != id :: s.messages[k])
        && s'.attachments == (map a | a in s.attachments && !Attaches(m, a) :: s.attachments[a])
        && if exists k :: InThread(s'.messages, k, t) then
             && s'.threads.Keys == s.threads.Keys
             && (forall u :: u in s.threads && u != t ==> s'.threads[u] == s.threads[u])
             && (t in s.threads ==> Renewed(s'.messages, s.threads[t], s'.threads[t], t))
           else s'.threads == map u | u in s.threads && u != t :: s.threads[u]
  {
    hide Refreshed, Renewed;
    if id in s.messages {
      var rest, t := s.messages - {id}, s.messages[id].threadId;
      if exists k :: InThread(rest, k, t) {
        RefreshedLaw(rest, s.threads, t);
      }
      if k :| k in rest && rest[k].threadId == t {
        assert InThread(rest, k, t);
      }
      AttachedIds(s.messages[id]);
    }
  }

  lemma AttachedIds(m: Message)
    ensures forall a :: a in RefIds(m) <==> Attaches(m, a)
  {
  }

  /** Deleting a thread removes it, its messages and their attachments. */
  lemma ThreadDeletionLaw(s: State, t: Id)
    ensures var o := Apply(s, DeleteThread(t)); var s' := o.state;
      if t !in s.threads then o == Outcome(s, Err("thread not found: " + t))
      else
        && o.result == Ok(Deleted)
        && s' == s.(messages := s'.messages, threads := s'.threads, attachments := s'.attachments)
        && s'.messages == (map k | k in s.messages && s.messages[k].threadId != t :: s.messages[k])
        && s'.threads == (map u | u in s.threads && u != t :: s.threads[u])
        && (forall a :: a in s'.attachments <==>
              a in s.attachments && forall k :: InThread(s.messages, k, t) ==> !Attaches(s.messages[k], a))
        && (forall a :: a in s'.attachments ==> s'.attachments[a] == s.attachments[a])
  {
    hide RefIds, Attaches;
    forall k | k in s.messages ensures forall a :: a in RefIds(s.messages[k]) <==> Attaches(s.messages[k], a) {
      AttachedIds(s.messages[k]);
    }
  }

  // ---------------------------------------------------------------------
  // Label records
  // ---------------------------------------------------------------------

  /** Only "hide" hides messages; only two words keep a label out of the list. */
  ghost predicate Shown(mv: Option<string>, lv: Option<string>, record: Label, was: Label) {
    && record.inMessages == (if mv.None? then was.inMessages else if mv == Some("hide") then Hide else Show)
    && record.inList == (if lv.None? then was.inList
                         else if lv == Some("labelHide") then LabelHide
                         else if lv == Some("labelShowIfUnread") then LabelShowIfUnread
                         else LabelShow)
  }

  /** Creating refuses a name in use, and otherwise adds a user label, shown
      unless asked otherwise, under an allocated id. */
  lemma CreateLabelLaw(s: State, name: string, mv: Option<string>, lv: Option<string>)
    ensures var o := Apply(s, CreateLabel(name, mv, lv));
      if exists l :: l in s.labels && s.labels[l].name == name then
        o == Outcome(s, Err("label already exists: " + name))
      else
        && o.result.Ok? && o.result.value.OneLabel?
        && var record := o.result.value.record;
        && record.id == "Label_" + Print(s.nextId) && record.name == name && record.labelType == User
        && Shown(mv, lv, record, record.(inMessages := Show, inList := LabelShow))
        && o.state == s.(labels := s.labels[record.id := record],
                         nextId := (s.nextId + 1) % 0x1_0000_0000_0000_0000)
  {
  }

  /** Updating a user label sets what is given; system labels are refused. */
  lemma UpdateLabelLaw(s: State, id: Id, name: Option<string>, mv: Option<string>, lv: Option<string>)
    ensures var o := Apply(s, UpdateLabel(id, name, mv, lv));
      if id !in s.labels then o == Outcome(s, Err("label not found: " + id))
      else if s.labels[id].labelType == System then o == Outcome(s, Err("cannot modify system label"))
      else
        && o.result.Ok? && o.result.value.OneLabel?
        && var was, record := s.labels[id], o.result.value.record;
        && record.id == was.id && record.labelType == was.labelType
        && record.name == (if name.Some? then name.value else was.name)
        && Shown(mv, lv, record, was)
        && o.state == s.(labels := s.labels[id := record])
  {
  }

  /** Deleting a user label takes it off every message, in place; system labels are refused. */
  lemma DeleteLabelLaw(s: State, id: Id)
    ensures var o := Apply(s, DeleteLabel(id));
      if id !in s.labels then o == Outcome(s, Err("label not found: " + id))
      else if s.labels[id].labelType == System then o == Outcome(s, Err("cannot delete system label"))
      else
        && o.result == Ok(Deleted)
        && o.state == s.(labels := o.state.labels, messages := o.state.messages)
        && o.state.labels == (map l | l in s.labels && l != id :: s.labels[l])
        && o.state.messages
           == map k | k in s.messages :: s.messages[k].(labels := Except(s.messages[k].labels, {id}))
  {
    hide Retain, Except;
    forall k | k in s.messages ensures Retain(s.messages[k].labels, id) == Except(s.messages[k].labels, {id}) {
      RetainIsExcept(s.messages[k].labels, id);
    }
  }

  /** The system labels are there from the start, and only they. */
  lemma SystemLabels(l: Id)
    ensures l in DefaultState().labels <==>
      l in ["INBOX", "SENT", "DRAFT", "TRASH", "SPAM", "UNREAD", "STARRED", "IMPORTANT", "CATEGORY_PERSONAL",
            "CATEGORY_SOCIAL", "CATEGORY_PROMOTIONS", "CATEGORY_UPDATES", "CATEGORY_FORUMS"]
    ensures l in DefaultState().labels ==>
      DefaultState().labels[l] == Label(l, l, System, Show, LabelShow)
  {
  }

  // ---------------------------------------------------------------------
  // Seeded labels
  // ---------------------------------------------------------------------

  /** Position i holds the first seed with this id. */
  predicate FirstSeed(seeds: seq<SeedLabel>, id: Id, i: nat) {
    i < |seeds| && seeds[i].id == id && forall j :: 0 <= j < i ==> seeds[j].id != id
  }

  /** Seeding labels keeps those that are there, and adds each other id as its
      first seed says, shown everywhere. */
  lemma {:induction false} SeedLabelsLaw(labels: map<Id, Label>, seeds: seq<SeedLabel>)
    ensures var labels' := WithSeedLabels(labels, seeds);
      && (forall l :: l in labels ==> l in labels' && labels'[l] == labels[l])
      && (forall l :: l in labels' ==> l in labels || exists i: nat :: FirstSeed(seeds, l, i))
      && (forall l, i: nat :: FirstSeed(seeds, l, i) && l !in labels ==>
            && l in labels'
            && labels'[l] == Label(l, seeds[i].name, if seeds[i].labelType == "system" then System else User, Show,
                                   LabelShow))
    decreases |seeds|
  {
    if seeds != [] {
      var init, last := seeds[..|seeds| - 1], seeds[|seeds| - 1];
      SeedLabelsLaw(labels, init);
      var before := WithSeedLabels(labels, init);
      assert forall l, i: nat :: i < |init| ==> (FirstSeed(seeds, l, i) <==> FirstSeed(init, l, i));
      if last.id !in before {
        assert forall j :: 0 <= j < |init| ==> init[j].id != last.id by {
          forall j | 0 <= j < |init| && init[j].id == last.id ensures false {
            var k := FirstOf(init, last.id, j);
          }
        }
        assert FirstSeed(seeds, last.id, |init|);
      }
    }
  }

  lemma {:induction false} FirstOf(seeds: seq<SeedLabel>, id: Id, j: nat) returns (i: nat)
    requires j < |seeds| && seeds[j].id == id
    ensures FirstSeed(seeds, id, i)
    decreases j
  {
    i := j;
    if k :| 0 <= k < j && seeds[k].id == id {
      i := FirstOf(seeds, id, k);
    }
  }

  // ---------------------------------------------------------------------
  // Attachments and counts
  // ---------------------------------------------------------------------

  /** Reading an attachment needs a message that refers to it and stored bytes,
      and gives the size of the first such reference. */
  lemma AttachmentLaw(s: State, k: Id, a: Id)
    ensures var r := GetAttachment(s, k, a);
      if k !in s.messages then r == Err("message not found: " + k)
      else if !Attaches(s.messages[k], a) then r == Err("attachment not found: " + a)
      else if a !in s.attachments then r == Err("attachment data not found: " + a)
      else
        exists i :: 0 <= i < |s.messages[k].attachments| && s.messages[k].attachments[i].id == a
                 && (forall j :: 0 <= j < i ==> s.messages[k].attachments[j].id != a)
                 && r == Ok((s.attachments[a], s.messages[k].attachments[i].size))
  {
    if k in s.messages {
      FirstRef(s.messages[k].attachments, a);
    }
  }

  lemma {:induction false} FirstRef(refs: seq<AttachmentRef>, a: Id)
    ensures var f := FindRef(refs, a);
      if f.None? then forall i :: 0 <= i < |refs| ==> refs[i].id != a
      else exists i :: 0 <= i < |refs| && refs[i].id == a && refs[i] == f.value
                    && forall j :: 0 <= j < i ==> refs[j].id != a
    decreases |refs|
  {
    if refs != [] {
      FirstRef(refs[1..], a);
      if refs[0].id != a && FindRef(refs, a).Some? {
        var i :| 0 <= i < |refs[1..]| && refs[1..][i].id == a && refs[1..][i] == FindRef(refs, a).value
              && forall j :: 0 <= j < i ==> refs[1..][j].id != a;
        assert refs[i + 1] == refs[1..][i];
        assert forall j :: 1 <= j < i + 1 ==> refs[j] == refs[1..][j - 1];
      }
    }
  }

  /** What is counted for a label: the messages that carry it, those of them that
      carry "UNREAD" too, and the threads of either. */
  lemma CountedMeaning(messages: Messages, l: Id)
    ensures forall k :: k in WithLabel(messages, l) <==> k in messages && l in messages[k].labels
    ensures forall k :: k in UnreadWithLabel(messages, l) <==>
              k in messages && l in messages[k].labels && "UNREAD" in messages[k].labels
    ensures forall t :: t in ThreadsOf(messages, WithLabel(messages, l)) <==>
              exists k :: InThread(messages, k, t) && l in messages[k].labels
    ensures forall t :: t in ThreadsOf(messages, UnreadWithLabel(messages, l)) <==>
              exists k :: InThread(messages, k, t) && l in messages[k].labels && "UNREAD" in messages[k].labels
  {
  }
}
