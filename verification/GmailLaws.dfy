/** What each Gmail request is for, said in terms of the request, the messages
    and the labels alone. */
module GmailLaws {
  import opened Wrappers
  import opened Decimal
  import opened GmailModel
  import opened GmailInvariants
  import opened GmailIds

  // ---------------------------------------------------------------------
  // UTF-8
  // ---------------------------------------------------------------------

  function Utf8Char(c: char): seq<nat> {
    var n := c as int;
    if n < 0x80 then [n]
    else if n < 0x800 then [0xC0 + n / 0x40, 0x80 + n % 0x40]
    else if n < 0x1_0000 then [0xE0 + n / 0x1000, 0x80 + n / 0x40 % 0x40, 0x80 + n % 0x40]
    else [0xF0 + n / 0x4_0000, 0x80 + n / 0x1000 % 0x40, 0x80 + n / 0x40 % 0x40, 0x80 + n % 0x40]
  }

  function Utf8(s: string): seq<nat> {
    if s == "" then [] else Utf8(s[..|s| - 1]) + Utf8Char(s[|s| - 1])
  }

  lemma {:induction false} Utf8LengthMeaning(s: string)
    ensures Utf8Length(s) == |Utf8(s)|
    decreases |s|
  {
    if s != "" {
      Utf8LengthMeaning(s[..|s| - 1]);
    }
  }

  lemma {:induction false} Utf8Append(a: string, b: string)
    ensures Utf8(a + b) == Utf8(a) + Utf8(b)
    decreases |b|
  {
    if b == "" {
      assert a + b == a;
    } else {
      assert (a + b)[..|a + b| - 1] == a + b[..|b| - 1];
      Utf8Append(a, b[..|b| - 1]);
    }
  }

  function Concat(ss: seq<string>): string {
    if ss == [] then "" else Concat(ss[..|ss| - 1]) + ss[|ss| - 1]
  }

  lemma {:induction false} TotalLengthMeaning(ss: seq<string>)
    ensures TotalLength(ss) == |Utf8(Concat(ss))|
    decreases |ss|
  {
    if ss != [] {
      var init, last := ss[..|ss| - 1], ss[|ss| - 1];
      TotalLengthMeaning(init);
      Utf8LengthMeaning(last);
      Utf8Append(Concat(init), last);
    }
  }

  function OrNothing(s: Option<string>): string {
    if s.Some? then s.value else ""
  }

  /** What the size estimate counts of a message besides its attachments. */
  function Text(m: Message): string {
    m.from + Concat(m.to) + m.subject + OrNothing(m.bodyText) + OrNothing(m.bodyHtml)
  }

  lemma SizeMeaning(m: Message)
    ensures EstimateSize(m) == |Utf8(Text(m))| + TotalSize(m.attachments)
  {
    hide Utf8, Utf8Length, TotalLength, Concat;
    var a, b, c, d, e := m.from, Concat(m.to), m.subject, OrNothing(m.bodyText), OrNothing(m.bodyHtml);
    Utf8LengthMeaning(a);
    TotalLengthMeaning(m.to);
    Utf8LengthMeaning(c);
    Utf8LengthMeaning(d);
    Utf8LengthMeaning(e);
    Utf8Append(a, b);
    Utf8Append(a + b, c);
    Utf8Append(a + b + c, d);
    Utf8Append(a + b + c + d, e);
    NothingToCount();
  }

  lemma NothingToCount()
    ensures Utf8Length("") == 0
  {
  }

  /** The snippet of a body: its first hundred characters, and an ellipsis exactly
      if the body has more than a hundred bytes. */
  lemma SnippetMeaning(body: string)
    ensures MakeSnippet(body) == (if |body| <= 100 then body else body[..100])
                                 + (if |Utf8(body)| > 100 then "..." else "")
  {
    hide Utf8, Utf8Length;
    Utf8LengthMeaning(body);
  }

  // ---------------------------------------------------------------------
  // Arriving messages
  // ---------------------------------------------------------------------

  /** The bytes of the files that decode, one after the other. */
  function AllBytes(files: seq<Incoming>): Bytes {
    if files == [] then []
    else
      var f := files[|files| - 1];
      AllBytes(files[..|files| - 1]) + if f.data.Some? then f.data.value else []
  }

  /** Each reference repeats the name and type of its file, and the length of its bytes. */
  ghost predicate Refers(files: seq<Incoming>, refs: seq<AttachmentRef>) {
    && |refs| == |files|
    && forall i :: 0 <= i < |files| ==>
         && refs[i].filename == files[i].filename && refs[i].mimeType == files[i].mimeType
         && files[i].data.Some? && refs[i].size == |files[i].data.value|
         && (files[i].id.Some? ==> refs[i].id == files[i].id.value)
  }

  lemma {:induction false} StoredRefer(store: map<Id, Bytes>, next: nat, files: seq<Incoming>)
    requires StoreAll(store, next, files).ok
    ensures var st := StoreAll(store, next, files); Refers(files, st.refs) && TotalSize(st.refs) == |AllBytes(files)|
    decreases |files|
  {
    hide StoreOne, Refers, TotalSize;
    if files == [] {
      NothingReferred();
    } else {
      var init, f := files[..|files| - 1], files[|files| - 1];
      assert files == init + [f];
      OnlyAfterOk(StoreAll(store, next, init), f);
      StoredRefer(store, next, init);
      OneRefers(init, f, StoreAll(store, next, init));
    }
  }

  lemma NothingReferred()
    ensures Refers([], []) && TotalSize([]) == 0
  {
  }

  lemma OnlyAfterOk(before: Stored, f: Incoming)
    ensures StoreOne(before, f).ok ==> before.ok && f.data.Some?
  {
  }

  lemma OneRefers(files: seq<Incoming>, f: Incoming, before: Stored)
    requires before.ok && f.data.Some? && Refers(files, before.refs)
    ensures var after := StoreOne(before, f);
      Refers(files + [f], after.refs) && TotalSize(after.refs) == TotalSize(before.refs) + |f.data.value|
  {
    hide AttachmentId;
    var after := StoreOne(before, f);
    assert after.refs[..|after.refs| - 1] == before.refs;
  }

  /** What a message says of itself, as sent. */
  ghost predicate AsSent(r: Request, m: Message)
    requires r.SendMessage?
  {
    && m.from == r.actor + "@twin.local" && m.to == r.to && m.cc == r.cc && m.bcc == r.bcc
    && m.subject == r.subject && m.bodyText == Some(r.body) && m.bodyHtml == None
    && m.labels == ["SENT"]
    && m.date == (1_700_000_000_000 + m.historyId) % 0x1_0000_0000_0000_0000
  }

  /** The same as inserted. */
  ghost predicate AsInserted(raw: Raw, m: Message) {
    && m.from == raw.from && m.to == raw.to && m.cc == raw.cc && m.bcc == raw.bcc
    && m.subject == raw.subject && m.bodyText == raw.body && m.bodyHtml == raw.bodyHtml
    && m.labels == (if raw.labels == [] then ["INBOX", "UNREAD"] else raw.labels)
    && m.date == (if raw.date.Some? then raw.date.value
                  else (1_700_000_000_000 + m.historyId) % 0x1_0000_0000_0000_0000)
  }

  /** Snippet, attachments and size of a message, from its request. */
  ghost predicate Summed(r: Request, m: Message)
    requires IsArrival(r)
  {
    var body := if r.SendMessage? then r.body else OrNothing(r.raw.body);
    && m.snippet == (if |body| <= 100 then body else body[..100]) + (if |Utf8(body)| > 100 then "..." else "")
    && Refers(Files(r), m.attachments)
    && m.sizeEstimate == |Utf8(Text(m))| + |AllBytes(Files(r))|
  }

  lemma DeliveredFields(s: State, draft: Message, files: seq<Incoming>)
    requires Deliver(s, draft, files).result.Ok?
    ensures var o := Deliver(s, draft, files);
      && o.result.value.OneMessage?
      && var m := o.result.value.message;
      && m == draft.(attachments := m.attachments, sizeEstimate := m.sizeEstimate)
      && Refers(files, m.attachments) && m.sizeEstimate == |Utf8(Text(m))| + |AllBytes(files)|
      && o.state.messages == s.messages[m.id := m]
  {
    hide StoreAll, Refreshed, EstimateSize, Refers, AllBytes, Utf8, Text, TotalSize;
    StoredRefer(s.attachments, s.nextId, files);
    var sized := draft.(attachments := StoreAll(s.attachments, s.nextId, files).refs);
    SizeMeaning(sized);
    var m := Deliver(s, draft, files).result.value.message;
    SameText(sized, m);
  }

  lemma SameText(a: Message, b: Message)
    requires b == a.(sizeEstimate := b.sizeEstimate)
    ensures Text(a) == Text(b)
  {
  }

  /** An arriving message is stored and answered with every field as its request
      says, under the history id that the request was given. */
  lemma ArrivalLaw(s: State, r: Request)
    requires IsArrival(r) && AllDecode(Files(r))
    ensures var o := Apply(s, r);
      && o.result.Ok? && o.result.value.OneMessage?
      && var m := o.result.value.message;
      && m.id in o.state.messages && o.state.messages[m.id] == m
      && (forall k :: k in o.state.messages && k != m.id ==> k in s.messages && o.state.messages[k] == s.messages[k])
      && (forall k :: k in s.messages ==> k in o.state.messages)
      && (if r.SendMessage? then AsSent(r, m) else AsInserted(r.raw, m))
      && Summed(r, m)
  {
    ArrivalSucceeds(s, r);
    if r.SendMessage? {
      SentLaw(s, r);
    } else {
      InsertedLaw(s, r);
    }
  }

  lemma SentLaw(s: State, r: Request)
    requires r.SendMessage? && Send(s, r).result.Ok?
    ensures var o := Send(s, r);
      && o.result.value.OneMessage?
      && var m := o.result.value.message;
      && m.id in o.state.messages && o.state.messages == s.messages[m.id := m] && AsSent(r, m) && Summed(r, m)
  {
    hide Deliver, FindOrCreateThread, MakeSnippet, Refers, AllBytes, Utf8, Text, AsIncoming;
    var (s1, tid) := FindOrCreateThread(s, r.thread, r.subject);
    FindOrCreateFrame(s, r.thread, r.subject);
    var hid := s1.nextHistoryId;
    var s2 := s1.(nextId := Bump(s1.nextId), nextHistoryId := Bump(hid));
    var draft := Message(MessageId(s1.nextId), tid, ["SENT"], r.actor + "@twin.local", r.to, r.cc, r.bcc, r.subject,
                         Some(r.body), None, MakeSnippet(r.body), (EPOCH + hid) % U64, 0, [], hid);
    assert Send(s, r) == Deliver(s2, draft, AsIncoming(r.files));
    DeliveredFields(s2, draft, AsIncoming(r.files));
    SnippetMeaning(r.body);
  }

  lemma InsertedLaw(s: State, r: Request)
    requires r.InsertMessage? && Insert(s, r.raw).result.Ok?
    ensures var o := Insert(s, r.raw);
      && o.result.value.OneMessage?
      && var m := o.result.value.message;
      && m.id in o.state.messages && o.state.messages == s.messages[m.id := m]
      && AsInserted(r.raw, m) && Summed(r, m)
  {
    hide Deliver, FindOrCreateThread, MakeSnippet, Refers, AllBytes, Utf8, Text;
    var raw := r.raw;
    var (s1, tid) := Joined(s, r);
    FindOrCreateFrame(BeforeThread(s, r), Explicit(r), raw.subject);
    var hid := s1.nextHistoryId;
    var s2 := s1.(nextHistoryId := Bump(hid));
    var body := OrNothing(raw.body);
    var labels := if raw.labels == [] then [INBOX, "UNREAD"] else raw.labels;
    var date := if raw.date.Some? then raw.date.value else (EPOCH + hid) % U64;
    var draft := Message(TargetId(s, r), tid, labels, raw.from, raw.to, raw.cc, raw.bcc, raw.subject, raw.body,
                         raw.bodyHtml, MakeSnippet(body), date, 0, [], hid);
    assert Insert(s, raw) == Deliver(s2, draft, raw.attachments);
    DeliveredFields(s2, draft, raw.attachments);
    SnippetMeaning(body);
  }

  // ---------------------------------------------------------------------
  // Stored bytes and refusals
  // ---------------------------------------------------------------------

  /** No later reference has the id of the i-th. */
  predicate LastWithId(refs: seq<AttachmentRef>, i: nat) {
    i < |refs| && forall j :: i < j < |refs| ==> refs[j].id != refs[i].id
  }

  predicate NoneHas(refs: seq<AttachmentRef>, x: Id) {
    forall i :: 0 <= i < |refs| ==> refs[i].id != x
  }

  /** Each file's bytes are under the id of its reference, unless a later file
      takes that id. */
  ghost predicate HoldsOwn(files: seq<Incoming>, refs: seq<AttachmentRef>, store: map<Id, Bytes>) {
    && |refs| == |files|
    && forall i: nat :: LastWithId(refs, i) ==>
         files[i].data.Some? && refs[i].id in store && store[refs[i].id] == files[i].data.value
  }

  /** All other ids are as they were. */
  ghost predicate LeavesOthers(store: map<Id, Bytes>, refs: seq<AttachmentRef>, store': map<Id, Bytes>) {
    forall x :: NoneHas(refs, x) ==> (x in store' <==> x in store) && (x in store ==> store'[x] == store[x])
  }

  ghost predicate Holds(store: map<Id, Bytes>, files: seq<Incoming>, refs: seq<AttachmentRef>, store': map<Id, Bytes>) {
    HoldsOwn(files, refs, store') && LeavesOthers(store, refs, store')
  }

  lemma LastWithIdOne(refs: seq<AttachmentRef>, ref: AttachmentRef, i: nat)
    requires LastWithId(refs + [ref], i) && i < |refs|
    ensures LastWithId(refs, i) && refs[i].id != ref.id
  {
    var refs' := refs + [ref];
    assert refs'[|refs|] == ref && refs'[i] == refs[i];
    assert forall j :: i < j < |refs| ==> refs'[j] == refs[j];
  }

  lemma HoldsOwnOne(files: seq<Incoming>, f: Incoming, refs: seq<AttachmentRef>, ref: AttachmentRef,
                    store: map<Id, Bytes>)
    requires HoldsOwn(files, refs, store) && f.data.Some?
    ensures HoldsOwn(files + [f], refs + [ref], store[ref.id := f.data.value])
  {
    hide LastWithId;
    forall i: nat | LastWithId(refs + [ref], i) && i < |refs| ensures LastWithId(refs, i) && refs[i].id != ref.id {
      LastWithIdOne(refs, ref, i);
    }
    forall i: nat | LastWithId(refs + [ref], i) ensures i <= |refs| {
      LastIsIndex(refs + [ref], i);
    }
  }

  lemma LastIsIndex(refs: seq<AttachmentRef>, i: nat)
    ensures LastWithId(refs, i) ==> i < |refs|
  {
  }

  lemma NoneHasOne(refs: seq<AttachmentRef>, ref: AttachmentRef, x: Id)
    requires NoneHas(refs + [ref], x)
    ensures x != ref.id && NoneHas(refs, x)
  {
    var refs' := refs + [ref];
    assert refs'[|refs|] == ref;
    assert forall i :: 0 <= i < |refs| ==> refs'[i] == refs[i];
  }

  lemma LeavesOthersOne(store: map<Id, Bytes>, refs: seq<AttachmentRef>, ref: AttachmentRef, store1: map<Id, Bytes>,
                        data: Bytes)
    requires LeavesOthers(store, refs, store1)
    ensures LeavesOthers(store, refs + [ref], store1[ref.id := data])
  {
    hide NoneHas;
    forall x | NoneHas(refs + [ref], x) ensures x != ref.id && NoneHas(refs, x) {
      NoneHasOne(refs, ref, x);
    }
  }

  lemma HoldsOne(store: map<Id, Bytes>, files: seq<Incoming>, f: Incoming, before: Stored)
    requires before.ok && f.data.Some? && Holds(store, files, before.refs, before.attachments)
    ensures var after := StoreOne(before, f); Holds(store, files + [f], after.refs, after.attachments)
  {
    hide AttachmentId, HoldsOwn, LeavesOthers;
    var ref := StoreOne(before, f).refs[|before.refs|];
    HoldsOwnOne(files, f, before.refs, ref, before.attachments);
    LeavesOthersOne(store, before.refs, ref, before.attachments, f.data.value);
  }

  lemma {:induction false} StoredBytes(store: map<Id, Bytes>, next: nat, files: seq<Incoming>)
    requires StoreAll(store, next, files).ok
    ensures var st := StoreAll(store, next, files); Holds(store, files, st.refs, st.attachments)
    decreases |files|
  {
    hide StoreOne, Holds;
    if files == [] {
      NothingHeld(store);
    } else {
      var init, f := files[..|files| - 1], files[|files| - 1];
      assert files == init + [f];
      OnlyAfterOk(StoreAll(store, next, init), f);
      StoredBytes(store, next, init);
      HoldsOne(store, init, f, StoreAll(store, next, init));
    }
  }

  lemma NothingHeld(store: map<Id, Bytes>)
    ensures Holds(store, [], [], store)
  {
  }

  /** The bytes of an arriving message are stored under the ids its references
      give; a refused message changes no message and no label, and what it
      stored is that of the files before the one that does not decode. */
  lemma ArrivedBytesLaw(s: State, r: Request)
    requires IsArrival(r) && NoWrap(s, r)
    ensures var o := Apply(s, r); var d := StoreAll(s.attachments, FileCounter(s, r), Decoding(Files(r)));
      && Holds(s.attachments, Decoding(Files(r)), d.refs, o.state.attachments)
      && (AllDecode(Files(r)) ==> o.result.Ok? && o.result.value.message.attachments == d.refs)
      && (!AllDecode(Files(r)) ==>
            o.result == Err("failed to decode attachment base64")
            && o.state.messages == s.messages && o.state.labels == s.labels)
  {
    hide Holds, Joined, FileCounter, StoreAll, Refreshed, TargetId, Files, Decoding, AllDecode, Send, Insert;
    ArrivalShape(s, r);
    ArrivalSucceeds(s, r);
    FileCounterRoom(s, r);
    StoreAllDecoding(s.attachments, FileCounter(s, r), Files(r));
    DecodingMeaning(Files(r));
    StoredIfDecoded(s.attachments, FileCounter(s, r), Decoding(Files(r)));
    StoredBytes(s.attachments, FileCounter(s, r), Decoding(Files(r)));
    RefusalText(s, r);
  }

  lemma FileCounterRoom(s: State, r: Request)
    requires IsArrival(r) && NoWrap(s, r)
    ensures FileCounter(s, r) + |Files(r)| < U64
  {
    hide FileCounter, Joined, Files;
    JoinedCounters(s, r);
  }

  lemma RefusalText(s: State, r: Request)
    requires IsArrival(r)
    ensures Apply(s, r).result.Err? ==> Apply(s, r).result == Err("failed to decode attachment base64")
  {
    hide StoreAll, FindOrCreateThread, Refreshed, EstimateSize, MakeSnippet;
  }
}
