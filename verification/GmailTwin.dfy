/** The Gmail twin service: mutable maps and the methods that handle requests,
    each held to the value-level specification in GmailModel. */
module GmailTwin {
  import opened Wrappers
  import opened Decimal
  import opened SortedKeys
  import opened GmailModel
  import opened GmailInvariants
  import opened GmailLabels
  import opened GmailSeeding

  class GmailTwinService {
    var messages: Messages
    var threads: Threads
    var labels: map<Id, Label>
    var attachments: map<Id, Bytes>
    var nextId: nat
    var nextHistoryId: nat

    ghost function Abs(): State
      reads this
    {
      State(messages, threads, labels, attachments, nextId, nextHistoryId)
    }

    constructor ()
      ensures Abs() == DefaultState()
    {
      messages, threads, attachments := map[], map[], map[];
      labels := map id | id in SYSTEM_LABELS :: Label(id, id, System, Show, LabelShow);
      nextId, nextHistoryId := 1, 1;
    }

    // -------------------------------------------------------------------
    // Threads
    // -------------------------------------------------------------------

    /** The first message with a non-empty normalised subject. */
    method FindSubject(normal: string) returns (k: Option<Id>)
      ensures k == FirstWithSubject(Sorted(messages.Keys), messages, normal)
      ensures k.Some? ==> k.value in messages
    {
      hide Normalize, Sorted;
      var keys := Sorted(messages.Keys);
      for i := 0 to |keys|
        invariant FirstWithSubject(keys, messages, normal) == FirstWithSubject(keys[i..], messages, normal)
      {
        assert keys[i..][1..] == keys[i + 1..];
        assert keys[i] in keys;
        if Normalize(messages[keys[i]].subject) == normal && normal != "" {
          return Some(keys[i]);
        }
      }
      assert keys[|keys|..] == [];
      return None;
    }

    method FindOrCreateThread(explicit: Option<Id>, subject: string) returns (id: Id)
      modifies this
      ensures (Abs(), id) == GmailModel.FindOrCreateThread(old(Abs()), explicit, subject)
    {
      hide Normalize, Sorted, FirstWithSubject;
      if explicit.Some? && explicit.value in threads {
        return explicit.value;
      }
      var same := FindSubject(Normalize(subject));
      if same.Some? {
        return messages[same.value].threadId;
      }
      id := ThreadId(nextId);
      nextId := Bump(nextId);
      var hid := nextHistoryId;
      nextHistoryId := Bump(nextHistoryId);
      threads := threads[id := Thread(id, hid, "")];
    }

    method UpdateThreadSnippet(thread: Id)
      modifies this`threads
      ensures threads == Refreshed(messages, old(threads), thread)
    {
      hide Sorted;
      var keys := Sorted(messages.Keys);
      var latest: Option<Id> := None;
      for i := 0 to |keys|
        invariant latest == LatestAmong(keys[..i], messages, thread)
        invariant latest.Some? ==> latest.value in messages
      {
        assert keys[..i + 1][..i] == keys[..i];
        assert keys[i] in keys;
        var m := messages[keys[i]];
        if m.threadId == thread && (latest.None? || messages[latest.value].date <= m.date) {
          latest := Some(keys[i]);
        }
      }
      assert keys[..|keys|] == keys;
      if latest.Some? && thread in threads {
        var m := messages[latest.value];
        threads := threads[thread := threads[thread].(snippet := m.snippet, historyId := m.historyId)];
      }
    }

    // -------------------------------------------------------------------
    // Arriving messages
    // -------------------------------------------------------------------

    /** Stores attachments one by one; stops where one does not decode. */
    method StoreFiles(files: seq<Incoming>) returns (refs: seq<AttachmentRef>, ok: bool)
      modifies this`attachments, this`nextId
      ensures Stored(attachments, nextId, refs, ok) == StoreAll(old(attachments), old(nextId), files)
    {
      hide AttachmentId;
      refs, ok := [], true;
      for i := 0 to |files|
        invariant Stored(attachments, nextId, refs, true) == StoreAll(old(attachments), old(nextId), files[..i])
      {
        assert files[..i + 1][..i] == files[..i];
        var f := files[i];
        var id;
        if f.id.Some? {
          id := f.id.value;
        } else {
          id := AttachmentId(nextId);
          nextId := Bump(nextId);
        }
        if f.data.None? {
          StoppedEarly(old(attachments), old(nextId), files, i + 1);
          return refs, false;
        }
        attachments := attachments[id := f.data.value];
        refs := refs + [AttachmentRef(id, f.filename, f.mimeType, |f.data.value|)];
      }
      assert files[..|files|] == files;
    }

    method PlaceMessage(draft: Message, files: seq<Incoming>) returns (r: Result<Response>)
      modifies this
      ensures Outcome(Abs(), r) == Deliver(old(Abs()), draft, files)
    {
      hide StoreAll, Refreshed, EstimateSize;
      var refs, ok := StoreFiles(files);
      if !ok {
        return Err("failed to decode attachment base64");
      }
      var m := draft.(attachments := refs);
      m := m.(sizeEstimate := EstimateSize(m));
      messages := messages[m.id := m];
      UpdateThreadSnippet(m.threadId);
      return Ok(OneMessage(m));
    }

    method SendMessage(actor: string, to: seq<string>, cc: seq<string>, bcc: seq<string>, subject: string,
                       body: string, thread: Option<Id>, files: seq<Attached>) returns (r: Result<Response>)
      modifies this
      ensures Outcome(Abs(), r)
           == Apply(old(Abs()), Request.SendMessage(actor, to, cc, bcc, subject, body, thread, files))
    {
      hide Deliver, GmailModel.FindOrCreateThread, MakeSnippet;
      var tid := FindOrCreateThread(thread, subject);
      var mid := MessageId(nextId);
      nextId := Bump(nextId);
      var hid := nextHistoryId;
      nextHistoryId := Bump(nextHistoryId);
      var draft := Message(mid, tid, ["SENT"], actor + "@twin.local", to, cc, bcc, subject, Some(body), None,
                           MakeSnippet(body), (EPOCH + hid) % U64, 0, [], hid);
      r := PlaceMessage(draft, AsIncoming(files));
    }

    method InsertMessage(raw: Raw) returns (r: Result<Response>)
      modifies this
      ensures Outcome(Abs(), r) == Apply(old(Abs()), Request.InsertMessage(raw))
    {
      hide Deliver, GmailModel.FindOrCreateThread, MakeSnippet;
      var mid := raw.id;
      if raw.id == "" {
        mid := MessageId(nextId);
        nextId := Bump(nextId);
      }
      var tid := FindOrCreateThread(if raw.threadId == "" then None else Some(raw.threadId), raw.subject);
      var hid := nextHistoryId;
      nextHistoryId := Bump(nextHistoryId);
      var body := if raw.body.Some? then raw.body.value else "";
      var labelIds := if raw.labels == [] then [INBOX, "UNREAD"] else raw.labels;
      var date := if raw.date.Some? then raw.date.value else (EPOCH + hid) % U64;
      var draft := Message(mid, tid, labelIds, raw.from, raw.to, raw.cc, raw.bcc, raw.subject, raw.body,
                           raw.bodyHtml, MakeSnippet(body), date, 0, [], hid);
      r := PlaceMessage(draft, raw.attachments);
    }

    // -------------------------------------------------------------------
    // Changes of labels
    // -------------------------------------------------------------------

    static method RetainOthers(was: seq<Id>, l: Id) returns (now: seq<Id>)
      ensures now == Retain(was, l)
    {
      now := [];
      for i := 0 to |was|
        invariant now == Retain(was[..i], l)
      {
        assert was[..i + 1][..i] == was[..i];
        if was[i] != l {
          now := now + [was[i]];
        }
      }
      assert was[..|was|] == was;
    }

    static method ChangeLabels(was: seq<Id>, op: Relabel) returns (now: seq<Id>)
      ensures now == Relabelled(was, op)
    {
      hide Retain;
      now := was;
      match op
      case Modify(add, remove) =>
        for i := 0 to |remove|
          invariant now == RemoveLabels(was, remove[..i])
        {
          assert remove[..i + 1][..i] == remove[..i];
          now := RetainOthers(now, remove[i]);
        }
        assert remove[..|remove|] == remove;
        ghost var kept := now;
        for i := 0 to |add|
          invariant now == AddLabels(kept, add[..i])
        {
          assert add[..i + 1][..i] == add[..i];
          if add[i] !in now {
            now := now + [add[i]];
          }
        }
        assert add[..|add|] == add;
      case Trash =>
        if TRASH !in now {
          now := now + [TRASH];
        }
        now := RetainOthers(now, INBOX);
      case Untrash =>
        now := RetainOthers(now, TRASH);
        if INBOX !in now {
          now := now + [INBOX];
        }
    }

    /** Modify, trash or untrash one message. */
    method ChangeMessage(id: Id, op: Relabel) returns (r: Result<Response>)
      modifies this
      ensures Outcome(Abs(), r) == RelabelMessage(old(Abs()), id, op)
    {
      hide Relabelled;
      if id !in messages {
        return Err("message not found: " + id);
      }
      var m := messages[id];
      var now := ChangeLabels(m.labels, op);
      m := m.(labels := now, historyId := nextHistoryId);
      messages := messages[id := m];
      nextHistoryId := Bump(nextHistoryId);
      return Ok(OneMessage(m));
    }

    method ChangeMembers(id: Id, op: Relabel, hid: nat)
      modifies this`messages
      ensures messages == RelabelAll(old(messages), id, op, hid)
    {
      hide Relabelled, Sorted, RelabelAll, Distinct, Ascending, Partly;
      var keys := Sorted(messages.Keys);
      ghost var was, target := messages, RelabelAll(messages, id, op, hid);
      RelabelAllMeaning(messages, id, op, hid);
      PartlyInitially(was, target, keys);
      for i := 0 to |keys|
        invariant Partly(messages, was, target, keys[i..])
      {
        PartlyStep(messages, was, target, keys, i);
        var m := messages[keys[i]];
        if m.threadId == id {
          var now := ChangeLabels(m.labels, op);
          messages := messages[keys[i] := m.(labels := now, historyId := hid)];
        }
      }
      PartlyFinally(messages, was, target, keys);
    }

    /** Modify, trash or untrash every message of a thread. */
    method ChangeThread(id: Id, op: Relabel) returns (r: Result<Response>)
      modifies this
      ensures Outcome(Abs(), r) == RelabelThread(old(Abs()), id, op)
    {
      hide RelabelAll, Members;
      if id !in threads {
        return Err("thread not found: " + id);
      }
      var hid := nextHistoryId;
      nextHistoryId := Bump(nextHistoryId);
      ChangeMembers(id, op, hid);
      var thread := threads[id].(historyId := hid);
      threads := threads[id := thread];
      var listed := ListMembers(id);
      return Ok(OneThread(thread, listed));
    }

    method ListMembers(thread: Id) returns (listed: seq<Message>)
      ensures listed == Members(Sorted(messages.Keys), messages, thread)
    {
      hide Sorted, Members;
      var keys := Sorted(messages.Keys);
      listed := [];
      NoMembers(messages, thread);
      assert keys[..0] == [];
      for i := 0 to |keys|
        invariant listed == Members(keys[..i], messages, thread)
      {
        MembersStep(keys, i, messages, thread);
        assert keys[i] in keys;
        if messages[keys[i]].threadId == thread {
          listed := listed + [messages[keys[i]]];
        }
      }
      assert keys[..|keys|] == keys;
    }

    // -------------------------------------------------------------------
    // Deletion
    // -------------------------------------------------------------------

    method DropFiles(m: Message)
      modifies this`attachments
      ensures attachments == old(attachments) - RefIds(m)
    {
      for i := 0 to |m.attachments|
        invariant attachments == old(attachments) - set j | 0 <= j < i :: m.attachments[j].id
      {
        attachments := attachments - {m.attachments[i].id};
      }
    }

    method HasMessages(thread: Id) returns (found: bool)
      ensures found <==> exists k :: k in messages && messages[k].threadId == thread
    {
      hide Sorted;
      var keys := Sorted(messages.Keys);
      for i := 0 to |keys|
        invariant forall k :: k in keys[..i] ==> messages[k].threadId != thread
      {
        assert keys[i] in keys;
        if messages[keys[i]].threadId == thread {
          return true;
        }
      }
      assert keys[..|keys|] == keys;
      return false;
    }

    method DeleteMessage(id: Id) returns (r: Result<Response>)
      modifies this
      ensures Outcome(Abs(), r) == ApplyDeleteMessage(old(Abs()), id)
    {
      hide Refreshed, RefIds;
      if id !in messages {
        return Err("message not found: " + id);
      }
      var m := messages[id];
      messages := messages - {id};
      DropFiles(m);
      var remaining := HasMessages(m.threadId);
      if remaining {
        UpdateThreadSnippet(m.threadId);
      } else {
        threads := threads - {m.threadId};
      }
      return Ok(Deleted);
    }

    method MemberIds(thread: Id) returns (ids: seq<Id>)
      requires forall k :: k in messages ==> messages[k].id == k
      ensures Elements(ids) == ThreadKeys(messages, thread)
    {
      hide Sorted;
      ids := [];
      var keys := Sorted(messages.Keys);
      for i := 0 to |keys|
        invariant forall k :: k in ids <==> k in keys[..i] && messages[k].threadId == thread
      {
        assert keys[..i + 1] == keys[..i] + [keys[i]];
        assert keys[i] in keys;
        if messages[keys[i]].threadId == thread {
          ids := ids + [messages[keys[i]].id];
        }
      }
      assert keys[..|keys|] == keys;
    }

    /** Removes messages with all their attachments. */
    method RemoveMessages(ids: seq<Id>)
      modifies this`messages, this`attachments
      ensures messages == old(messages) - Elements(ids)
      ensures attachments == old(attachments) - RefIdsOf(old(messages), Elements(ids))
    {
      hide RefIds;
      for i := 0 to |ids|
        invariant messages == old(messages) - Elements(ids[..i])
        invariant attachments == old(attachments) - RefIdsOf(old(messages), Elements(ids[..i]))
      {
        var k := ids[i];
        assert ids[..i + 1] == ids[..i] + [k];
        assert Elements(ids[..i + 1]) == Elements(ids[..i]) + {k};
        if k in messages {
          var m := messages[k];
          messages := messages - {k};
          DropFiles(m);
        }
      }
      assert ids[..|ids|] == ids;
    }

    method DeleteThread(id: Id) returns (r: Result<Response>)
      requires forall k :: k in messages ==> messages[k].id == k
      modifies this
      ensures Outcome(Abs(), r) == ApplyDeleteThread(old(Abs()), id)
    {
      hide RefIds, Elements;
      if id !in threads {
        return Err("thread not found: " + id);
      }
      var ids := MemberIds(id);
      RemoveMessages(ids);
      assert RefIdsOf(old(messages), ThreadKeys(old(messages), id)) == ThreadRefIds(old(messages), id);
      threads := threads - {id};
      return Ok(Deleted);
    }

    // -------------------------------------------------------------------
    // Label records
    // -------------------------------------------------------------------

    method CreateLabel(name: string, mv: Option<string>, lv: Option<string>) returns (r: Result<Response>)
      modifies this
      ensures Outcome(Abs(), r) == ApplyCreateLabel(old(Abs()), name, mv, lv)
    {
      hide Sorted, LabelId;
      var keys := Sorted(labels.Keys);
      for i := 0 to |keys|
        invariant forall k :: k in keys[..i] ==> labels[k].name != name
        invariant Abs() == old(Abs())
      {
        assert keys[i] in keys;
        if labels[keys[i]].name == name {
          return Err("label already exists: " + name);
        }
      }
      assert keys[..|keys|] == keys;
      var id := LabelId(nextId);
      nextId := Bump(nextId);
      var record := Label(id, name, User, if mv.Some? then ToVisibility(mv.value) else Show,
                          if lv.Some? then ToListVisibility(lv.value) else LabelShow);
      labels := labels[id := record];
      return Ok(OneLabel(record));
    }

    method UpdateLabel(id: Id, name: Option<string>, mv: Option<string>, lv: Option<string>)
      returns (r: Result<Response>)
      modifies this
      ensures Outcome(Abs(), r) == ApplyUpdateLabel(old(Abs()), id, name, mv, lv)
    {
      if id !in labels {
        return Err("label not found: " + id);
      }
      var record := labels[id];
      if record.labelType == System {
        return Err("cannot modify system label");
      }
      if name.Some? {
        record := record.(name := name.value);
      }
      if mv.Some? {
        record := record.(inMessages := ToVisibility(mv.value));
      }
      if lv.Some? {
        record := record.(inList := ToListVisibility(lv.value));
      }
      labels := labels[id := record];
      return Ok(OneLabel(record));
    }

    method StripLabel(l: Id)
      modifies this`messages
      ensures messages == WithoutLabel(old(messages), l)
    {
      hide Sorted, Retain, Distinct, Ascending, Partly;
      var keys := Sorted(messages.Keys);
      ghost var was, target := messages, WithoutLabel(messages, l);
      PartlyInitially(was, target, keys);
      for i := 0 to |keys|
        invariant Partly(messages, was, target, keys[i..])
      {
        PartlyStep(messages, was, target, keys, i);
        var m := messages[keys[i]];
        var now := RetainOthers(m.labels, l);
        messages := messages[keys[i] := m.(labels := now)];
      }
      PartlyFinally(messages, was, target, keys);
    }

    method DeleteLabel(id: Id) returns (r: Result<Response>)
      modifies this
      ensures Outcome(Abs(), r) == ApplyDeleteLabel(old(Abs()), id)
    {
      if id !in labels {
        return Err("label not found: " + id);
      }
      if labels[id].labelType == System {
        return Err("cannot delete system label");
      }
      labels := labels - {id};
      StripLabel(id);
      return Ok(Deleted);
    }

    /** How many messages have a label, and how many of those are unread. */
    method LabelMessageCount(l: Id) returns (total: nat, unread: nat)
      ensures total == |WithLabel(messages, l)| && unread == |UnreadWithLabel(messages, l)|
    {
      hide Sorted, Distinct, Ascending;
      total, unread := 0, 0;
      var keys := Sorted(messages.Keys);
      ghost var seen: set<Id>, seenUnread: set<Id> := {}, {};
      for i := 0 to |keys|
        invariant total == |seen| && unread == |seenUnread|
        invariant forall k :: k in seen <==> k in messages && k !in keys[i..] && l in messages[k].labels
        invariant forall k :: k in seenUnread <==> k in seen && UNREAD in messages[k].labels
      {
        NextKey(keys, i);
        var m := messages[keys[i]];
        if l in m.labels {
          total, seen := total + 1, seen + {keys[i]};
          if UNREAD in m.labels {
            unread, seenUnread := unread + 1, seenUnread + {keys[i]};
          }
        }
      }
      assert seen == WithLabel(messages, l) && seenUnread == UnreadWithLabel(messages, l);
    }

    /** How many threads have a message with a label, and how many an unread one. */
    method LabelThreadCount(l: Id) returns (total: nat, unread: nat)
      ensures total == |ThreadsOf(messages, WithLabel(messages, l))|
      ensures unread == |ThreadsOf(messages, UnreadWithLabel(messages, l))|
    {
      hide Sorted, Distinct, Ascending;
      var keys := Sorted(messages.Keys);
      var ids: set<Id>, unreadIds: set<Id> := {}, {};
      ghost var seen: set<Id>, seenUnread: set<Id> := {}, {};
      for i := 0 to |keys|
        invariant ids == ThreadsOf(messages, seen) && unreadIds == ThreadsOf(messages, seenUnread)
        invariant forall k :: k in seen <==> k in messages && k !in keys[i..] && l in messages[k].labels
        invariant forall k :: k in seenUnread <==> k in seen && UNREAD in messages[k].labels
      {
        NextKey(keys, i);
        var m := messages[keys[i]];
        if l in m.labels {
          ids, seen := ids + {m.threadId}, seen + {keys[i]};
          if UNREAD in m.labels {
            unreadIds, seenUnread := unreadIds + {m.threadId}, seenUnread + {keys[i]};
          }
        }
      }
      assert seen == WithLabel(messages, l) && seenUnread == UnreadWithLabel(messages, l);
      return |ids|, |unreadIds|;
    }

    // -------------------------------------------------------------------
    // Requests
    // -------------------------------------------------------------------

    method Handle(request: Request) returns (r: Result<Response>)
      requires WF(Abs())
      modifies this
      ensures Outcome(Abs(), r) == Apply(old(Abs()), request)
      ensures WF(Abs())
    {
      hide WF, Send, Insert, RelabelMessage, RelabelThread, ApplyDeleteMessage, ApplyDeleteThread, ApplyCreateLabel,
           ApplyUpdateLabel, ApplyDeleteLabel;
      StepWF(Abs(), request);
      OwnIds(Abs());
      match request
      case SendMessage(actor, to, cc, bcc, subject, body, thread, files) =>
        r := SendMessage(actor, to, cc, bcc, subject, body, thread, files);
      case InsertMessage(raw) => r := InsertMessage(raw);
      case ModifyMessage(id, add, remove) => r := ChangeMessage(id, Modify(add, remove));
      case TrashMessage(id) => r := ChangeMessage(id, Trash);
      case UntrashMessage(id) => r := ChangeMessage(id, Untrash);
      case DeleteMessage(id) => r := DeleteMessage(id);
      case ModifyThread(id, add, remove) => r := ChangeThread(id, Modify(add, remove));
      case TrashThread(id) => r := ChangeThread(id, Trash);
      case UntrashThread(id) => r := ChangeThread(id, Untrash);
      case DeleteThread(id) => r := DeleteThread(id);
      case CreateLabel(name, mv, lv) => r := CreateLabel(name, mv, lv);
      case UpdateLabel(id, name, mv, lv) => r := UpdateLabel(id, name, mv, lv);
      case DeleteLabel(id) => r := DeleteLabel(id);
    }

    // -------------------------------------------------------------------
    // Seeding
    // -------------------------------------------------------------------

    static method MaxNumber(keys: set<Id>, start: nat, ghost before: set<Id>) returns (m: nat)
      requires IsMaxNumber(before, start)
      ensures IsMaxNumber(before + keys, m)
    {
      hide ExtractNumber, Sorted;
      m := start;
      var order := Sorted(keys);
      for i := 0 to |order|
        invariant IsMaxNumber(before + Elements(order[..i]), m)
      {
        var n := ExtractNumber(order[i]);
        assert Elements(order[..i + 1]) == Elements(order[..i]) + {order[i]};
        if n > m {
          m := n;
        }
      }
      assert Elements(order[..|order|]) == keys;
    }

    /** Raises the id counter above every number in an id, and yields the greatest. */
    method BumpNextId() returns (ghost m: nat)
      modifies this`nextId
      ensures IsMaxNumber(AllKeys(old(Abs())), m) && nextId == Raised(old(nextId), m)
    {
      hide IsMaxNumber;
      NoNumbers();
      var n := MaxNumber(messages.Keys, 0, {});
      n := MaxNumber(threads.Keys, n, {} + messages.Keys);
      n := MaxNumber(labels.Keys, n, {} + messages.Keys + threads.Keys);
      n := MaxNumber(attachments.Keys, n, {} + messages.Keys + threads.Keys + labels.Keys);
      assert {} + messages.Keys + threads.Keys + labels.Keys + attachments.Keys == AllKeys(Abs());
      m := n;
      if n >= nextId {
        nextId := Bump(n);
      }
    }

    method SeedLabels(seeds: seq<SeedLabel>)
      modifies this`labels
      ensures labels == WithSeedLabels(old(labels), seeds)
    {
      for i := 0 to |seeds|
        invariant labels == WithSeedLabels(old(labels), seeds[..i])
      {
        assert seeds[..i + 1][..i] == seeds[..i];
        var l := seeds[i];
        if l.id !in labels {
          var labelType := if l.labelType == "system" then System else User;
          labels := labels[l.id := Label(l.id, l.name, labelType, Show, LabelShow)];
        }
      }
      assert seeds[..|seeds|] == seeds;
    }

    /** Seeds labels, then messages up to the first that cannot be inserted, and
        raises the id counter if all were. */
    method SeedFromScenario(seeds: seq<SeedLabel>, raws: seq<Raw>) returns (ok: bool)
      requires WF(Abs())
      modifies this
      ensures var (s1, loaded) := Loaded(old(Abs()), seeds, raws);
        && ok == loaded && WF(s1)
        && (!ok ==> Abs() == s1)
        && (ok ==> exists m :: IsMaxNumber(AllKeys(s1), m) && Abs() == s1.(nextId := Raised(s1.nextId, m)))
    {
      hide WF, Insert, IsMaxNumber, WithSeedLabels, AllKeys, Raised;
      SeedLabelsKeepWF(Abs(), seeds);
      SeedLabels(seeds);
      ghost var s0 := Abs();
      for i := 0 to |raws|
        invariant (Abs(), true) == SeedMessages(s0, raws[..i]) && WF(Abs())
      {
        assert raws[..i + 1][..i] == raws[..i];
        var r := Handle(Request.InsertMessage(raws[i]));
        if r.Err? {
          SeedingStops(s0, raws, i + 1);
          return false;
        }
      }
      assert raws[..|raws|] == raws;
      ghost var m := BumpNextId();
      return true;
    }
  }

  function WithoutLabel(messages: Messages, l: Id): Messages {
    map k | k in messages :: messages[k].(labels := Retain(messages[k].labels, l))
  }

  function RefIdsOf(messages: Messages, ids: set<Id>): set<Id> {
    set k, a | k in ids && k in messages && a in RefIds(messages[k]) :: a
  }

  // A pass that replaces every message in turn: those still to come are as they
  // were, the others as they are to be.

  ghost predicate Partly(now: Messages, was: Messages, target: Messages, rest: seq<Id>) {
    && now.Keys == was.Keys == target.Keys
    && forall k :: k in now ==> now[k] == if k in rest then was[k] else target[k]
  }

  lemma PartlyInitially(was: Messages, target: Messages, keys: seq<Id>)
    requires was.Keys == target.Keys && forall k :: k in was ==> k in keys
    ensures Partly(was, was, target, keys[0..])
  {
    assert keys[0..] == keys;
  }

  lemma PartlyStep(now: Messages, was: Messages, target: Messages, keys: seq<Id>, i: nat)
    requires i < |keys| && Distinct(keys) && keys[i] in was && Partly(now, was, target, keys[i..])
    ensures keys[i] in now && now[keys[i]] == was[keys[i]]
    ensures Partly(now[keys[i] := target[keys[i]]], was, target, keys[i + 1..])
    ensures was[keys[i]] == target[keys[i]] ==> Partly(now, was, target, keys[i + 1..])
  {
    NextKey(keys, i);
  }

  lemma PartlyFinally(now: Messages, was: Messages, target: Messages, keys: seq<Id>)
    requires Partly(now, was, target, keys[|keys|..])
    ensures now == target
  {
  }

  lemma NoMembers(messages: Messages, thread: Id)
    ensures Members([], messages, thread) == []
  {
  }

  lemma MembersStep(keys: seq<Id>, i: nat, messages: Messages, thread: Id)
    requires i < |keys|
    ensures Members(keys[..i + 1], messages, thread)
         == Members(keys[..i], messages, thread)
            + if InThread(messages, keys[i], thread) then [messages[keys[i]]] else []
  {
    assert keys[..i + 1][..i] == keys[..i];
  }

  lemma OwnIds(s: State)
    requires WF(s)
    ensures forall k :: k in s.messages ==> s.messages[k].id == k
  {
  }

  lemma NoNumbers()
    ensures IsMaxNumber({}, 0)
  {
  }

  lemma SeedLabelsKeepWF(s: State, seeds: seq<SeedLabel>)
    requires WF(s)
    ensures WF(s.(labels := WithSeedLabels(s.labels, seeds)))
  {
    SeedLabelsWF(s.labels, seeds);
  }

  /** Nothing is inserted after a message that could not be. */
  lemma {:induction false} SeedingStops(s: State, raws: seq<Raw>, i: nat)
    requires i <= |raws| && !SeedMessages(s, raws[..i]).1
    ensures SeedMessages(s, raws) == SeedMessages(s, raws[..i])
    decreases |raws| - i
  {
    if i < |raws| {
      assert raws[..i + 1][..i] == raws[..i];
      SeedingStops(s, raws, i + 1);
    } else {
      assert raws[..i] == raws;
    }
  }

  lemma NextKey(keys: seq<Id>, i: nat)
    requires i < |keys| && Distinct(keys)
    ensures keys[i] in keys && keys[i] !in keys[i + 1..]
    ensures forall k :: k in keys[i..] <==> k == keys[i] || k in keys[i + 1..]
  {
    assert keys[i..] == [keys[i]] + keys[i + 1..];
  }

  /** Nothing is stored after an attachment that did not decode. */
  lemma {:induction false} StoppedEarly(store: map<Id, Bytes>, nextId: nat, files: seq<Incoming>, i: nat)
    requires i <= |files| && !StoreAll(store, nextId, files[..i]).ok
    ensures StoreAll(store, nextId, files) == StoreAll(store, nextId, files[..i])
    decreases |files| - i
  {
    if i < |files| {
      assert files[..i + 1][..i] == files[..i];
      StoppedEarly(store, nextId, files, i + 1);
    } else {
      assert files[..i] == files;
    }
  }
}
