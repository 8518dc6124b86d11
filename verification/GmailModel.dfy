/** The Gmail twin as a value: its state, the requests that change it, and what
    each of them does. `Apply` is the specification the service class is held to. */
module GmailModel {
  import opened Wrappers
  import opened Decimal
  import opened SortedKeys
  import opened Text

  type Id = string
  type Bytes = seq<bv8>

  datatype AttachmentRef = AttachmentRef(id: Id, filename: string, mimeType: string, size: nat)

  datatype Message = Message(
    id: Id, threadId: Id, labels: seq<Id>, from: string, to: seq<string>, cc: seq<string>, bcc: seq<string>,
    subject: string, bodyText: Option<string>, bodyHtml: Option<string>, snippet: string, date: nat,
    sizeEstimate: nat, attachments: seq<AttachmentRef>, historyId: nat)

  datatype Thread = Thread(id: Id, historyId: nat, snippet: string)

  datatype LabelType = System | User
  datatype Visibility = Show | Hide
  datatype ListVisibility = LabelShow | LabelShowIfUnread | LabelHide

  datatype Label = Label(id: Id, name: string, labelType: LabelType, inMessages: Visibility, inList: ListVisibility)

  type Messages = map<Id, Message>
  type Threads = map<Id, Thread>

  datatype State = State(messages: Messages, threads: Threads, labels: map<Id, Label>, attachments: map<Id, Bytes>,
                         nextId: nat, nextHistoryId: nat)

  /** An attachment on its way in: an explicit id, if any, and the decoded bytes,
      or None where decoding fails. */
  datatype Incoming = Incoming(id: Option<Id>, filename: string, mimeType: string, data: Option<Bytes>)

  /** An attachment of a message that is sent: its bytes need no decoding. */
  datatype Attached = Attached(filename: string, mimeType: string, data: Bytes)

  function AsIncoming(files: seq<Attached>): seq<Incoming> {
    seq(|files|, i requires 0 <= i < |files| =>
      Incoming(None, files[i].filename, files[i].mimeType, Some(files[i].data)))
  }

  /** An inserted message; an empty id or thread id means none. */
  datatype Raw = Raw(
    id: Id, threadId: Id, from: string, to: seq<string>, cc: seq<string>, bcc: seq<string>, subject: string,
    body: Option<string>, bodyHtml: Option<string>, labels: seq<Id>, date: Option<nat>, attachments: seq<Incoming>)

  datatype Request =
    | SendMessage(actor: string, to: seq<string>, cc: seq<string>, bcc: seq<string>, subject: string, body: string,
                  thread: Option<Id>, files: seq<Attached>)
    | InsertMessage(raw: Raw)
    | ModifyMessage(message: Id, add: seq<Id>, remove: seq<Id>)
    | TrashMessage(message: Id)
    | UntrashMessage(message: Id)
    | DeleteMessage(message: Id)
    | ModifyThread(threadId: Id, add: seq<Id>, remove: seq<Id>)
    | TrashThread(threadId: Id)
    | UntrashThread(threadId: Id)
    | DeleteThread(threadId: Id)
    | CreateLabel(name: string, messageVisibility: Option<string>, listVisibility: Option<string>)
    | UpdateLabel(labelId: Id, newName: Option<string>, messageVisibility: Option<string>,
                  listVisibility: Option<string>)
    | DeleteLabel(labelId: Id)

  datatype Response =
    | OneMessage(message: Message)
    | OneThread(thread: Thread, messages: seq<Message>)
    | OneLabel(record: Label)
    | Deleted

  datatype Outcome = Outcome(state: State, result: Result<Response>)

  const INBOX: Id := "INBOX"
  const TRASH: Id := "TRASH"
  const EPOCH: nat := 1_700_000_000_000

  const SYSTEM_LABELS: seq<Id> := [
    "INBOX", "SENT", "DRAFT", "TRASH", "SPAM", "UNREAD", "STARRED", "IMPORTANT", "CATEGORY_PERSONAL",
    "CATEGORY_SOCIAL", "CATEGORY_PROMOTIONS", "CATEGORY_UPDATES", "CATEGORY_FORUMS"]

  function DefaultState(): State {
    State(map[], map[], map id | id in SYSTEM_LABELS :: Label(id, id, System, Show, LabelShow), map[], 1, 1)
  }

  // ---------------------------------------------------------------------
  // Ids
  // ---------------------------------------------------------------------

  /** Both counters are 64-bit words. */
  function Bump(n: nat): nat {
    (n + 1) % U64
  }

  function MessageId(n: nat): Id { "msg_" + Print(n) }

  function ThreadId(n: nat): Id { "thread_" + Print(n) }

  function LabelId(n: nat): Id { "Label_" + Print(n) }

  function AttachmentId(n: nat): Id { "att_" + Print(n) }

  // ---------------------------------------------------------------------
  // Threads
  // ---------------------------------------------------------------------

  function TrimPrefix(s: string, prefix: string): string
    requires prefix != ""
  {
    if StartsWith(s, prefix) then TrimPrefix(s[|prefix|..], prefix) else s
  }

  /** The subject without its reply and forward prefixes, stripped in this order. */
  function Normalize(subject: string): string {
    TrimPrefix(TrimPrefix(TrimPrefix(TrimPrefix(TrimPrefix(subject, "Re: "), "RE: "), "re: "), "Fwd: "), "FWD: ")
  }

  /** The first of the listed messages with this non-empty normalised subject. */
  function FirstWithSubject(keys: seq<Id>, messages: Messages, normal: string): Option<Id> {
    if keys == [] then None
    else if keys[0] in messages && Normalize(messages[keys[0]].subject) == normal && normal != "" then Some(keys[0])
    else FirstWithSubject(keys[1..], messages, normal)
  }

  /** The thread a message joins, if there is one for it. */
  function FindThread(s: State, explicit: Option<Id>, subject: string): Option<Id> {
    if explicit.Some? && explicit.value in s.threads then explicit
    else
      var k := FirstWithSubject(Sorted(s.messages.Keys), s.messages, Normalize(subject));
      if k.Some? && k.value in s.messages then Some(s.messages[k.value].threadId) else None
  }

  function FindOrCreateThread(s: State, explicit: Option<Id>, subject: string): (State, Id) {
    var found := FindThread(s, explicit, subject);
    if found.Some? then (s, found.value)
    else
      var id := ThreadId(s.nextId);
      (s.(threads := s.threads[id := Thread(id, s.nextHistoryId, "")],
          nextId := Bump(s.nextId), nextHistoryId := Bump(s.nextHistoryId)), id)
  }

  predicate InThread(messages: Messages, k: Id, thread: Id) {
    k in messages && messages[k].threadId == thread
  }

  /** The latest of the listed messages of a thread: the last one with maximal date. */
  function LatestAmong(keys: seq<Id>, messages: Messages, thread: Id): Option<Id> {
    if keys == [] then None
    else
      var best := LatestAmong(keys[..|keys| - 1], messages, thread);
      var k := keys[|keys| - 1];
      if InThread(messages, k, thread)
         && (best.None? || best.value !in messages || messages[best.value].date <= messages[k].date)
      then Some(k) else best
  }

  function Latest(messages: Messages, thread: Id): Option<Id> {
    LatestAmong(Sorted(messages.Keys), messages, thread)
  }

  /** The cached summary of a thread is renewed from its latest message. */
  function Refreshed(messages: Messages, threads: Threads, thread: Id): Threads {
    var k := Latest(messages, thread);
    if k.Some? && k.value in messages && thread in threads then
      threads[thread := threads[thread].(snippet := messages[k.value].snippet,
                                         historyId := messages[k.value].historyId)]
    else threads
  }

  // ---------------------------------------------------------------------
  // Messages
  // ---------------------------------------------------------------------

  function Utf8Length(s: string): nat {
    if s == "" then 0
    else
      var c := s[|s| - 1] as int;
      Utf8Length(s[..|s| - 1]) + if c < 0x80 then 1 else if c < 0x800 then 2 else if c < 0x1_0000 then 3 else 4
  }

  /** A hundred characters of the body; the ellipsis depends on its bytes. */
  function MakeSnippet(body: string): string {
    var cut := if |body| <= 100 then body else body[..100];
    if Utf8Length(body) > 100 then cut + "..." else cut
  }

  function TotalLength(ss: seq<string>): nat {
    if ss == [] then 0 else TotalLength(ss[..|ss| - 1]) + Utf8Length(ss[|ss| - 1])
  }

  function TotalSize(refs: seq<AttachmentRef>): nat {
    if refs == [] then 0 else TotalSize(refs[..|refs| - 1]) + refs[|refs| - 1].size
  }

  function OptionalLength(s: Option<string>): nat {
    if s.Some? then Utf8Length(s.value) else 0
  }

  function EstimateSize(m: Message): nat {
    Utf8Length(m.from) + TotalLength(m.to) + Utf8Length(m.subject) + OptionalLength(m.bodyText)
    + OptionalLength(m.bodyHtml) + TotalSize(m.attachments)
  }

  datatype Stored = Stored(attachments: map<Id, Bytes>, nextId: nat, refs: seq<AttachmentRef>, ok: bool)

  /** Stores one more attachment, allocating an id if none is given; nothing is
      stored after one that did not decode. */
  function StoreOne(before: Stored, f: Incoming): Stored {
    if !before.ok then before
    else
      var id := if f.id.Some? then f.id.value else AttachmentId(before.nextId);
      var next := if f.id.Some? then before.nextId else Bump(before.nextId);
      if f.data.None? then Stored(before.attachments, next, before.refs, false)
      else Stored(before.attachments[id := f.data.value], next,
                  before.refs + [AttachmentRef(id, f.filename, f.mimeType, |f.data.value|)], true)
  }

  function StoreAll(attachments: map<Id, Bytes>, nextId: nat, files: seq<Incoming>): Stored {
    if files == [] then Stored(attachments, nextId, [], true)
    else StoreOne(StoreAll(attachments, nextId, files[..|files| - 1]), files[|files| - 1])
  }

  /** Puts a message with its stored attachments into the state. */
  function Deliver(s: State, draft: Message, files: seq<Incoming>): Outcome {
    var stored := StoreAll(s.attachments, s.nextId, files);
    var s1 := s.(attachments := stored.attachments, nextId := stored.nextId);
    if !stored.ok then Outcome(s1, Err("failed to decode attachment base64"))
    else
      var sized := draft.(attachments := stored.refs);
      var m := sized.(sizeEstimate := EstimateSize(sized));
      var messages := s1.messages[m.id := m];
      Outcome(s1.(messages := messages, threads := Refreshed(messages, s1.threads, m.threadId)), Ok(OneMessage(m)))
  }

  function Send(s: State, r: Request): Outcome
    requires r.SendMessage?
  {
    var (s1, tid) := FindOrCreateThread(s, r.thread, r.subject);
    var mid, hid := MessageId(s1.nextId), s1.nextHistoryId;
    var s2 := s1.(nextId := Bump(s1.nextId), nextHistoryId := Bump(hid));
    var draft := Message(mid, tid, ["SENT"], r.actor + "@twin.local", r.to, r.cc, r.bcc, r.subject, Some(r.body), None,
                         MakeSnippet(r.body), (EPOCH + hid) % U64, 0, [], hid);
    Deliver(s2, draft, AsIncoming(r.files))
  }

  function Insert(s: State, raw: Raw): Outcome {
    var mid := if raw.id == "" then MessageId(s.nextId) else raw.id;
    var s0 := if raw.id == "" then s.(nextId := Bump(s.nextId)) else s;
    var (s1, tid) := FindOrCreateThread(s0, if raw.threadId == "" then None else Some(raw.threadId), raw.subject);
    var hid := s1.nextHistoryId;
    var s2 := s1.(nextHistoryId := Bump(hid));
    var body := if raw.body.Some? then raw.body.value else "";
    var labels := if raw.labels == [] then [INBOX, "UNREAD"] else raw.labels;
    var date := if raw.date.Some? then raw.date.value else (EPOCH + hid) % U64;
    var draft := Message(mid, tid, labels, raw.from, raw.to, raw.cc, raw.bcc, raw.subject, raw.body, raw.bodyHtml,
                         MakeSnippet(body), date, 0, [], hid);
    Deliver(s2, draft, raw.attachments)
  }

  // ---------------------------------------------------------------------
  // Labels
  // ---------------------------------------------------------------------

  /** The labels other than l, in order. */
  function Retain(labels: seq<Id>, l: Id): seq<Id> {
    if labels == [] then []
    else
      var last := labels[|labels| - 1];
      Retain(labels[..|labels| - 1], l) + if last == l then [] else [last]
  }

  function RemoveLabels(labels: seq<Id>, remove: seq<Id>): seq<Id> {
    if remove == [] then labels
    else Retain(RemoveLabels(labels, remove[..|remove| - 1]), remove[|remove| - 1])
  }

  function AddLabel(labels: seq<Id>, l: Id): seq<Id> {
    if l in labels then labels else labels + [l]
  }

  function AddLabels(labels: seq<Id>, add: seq<Id>): seq<Id> {
    if add == [] then labels else AddLabel(AddLabels(labels, add[..|add| - 1]), add[|add| - 1])
  }

  /** A change of labels. */
  datatype Relabel = Modify(add: seq<Id>, remove: seq<Id>) | Trash | Untrash

  function Relabelled(labels: seq<Id>, op: Relabel): seq<Id> {
    match op
    case Modify(add, remove) => AddLabels(RemoveLabels(labels, remove), add)
    case Trash => Retain(AddLabel(labels, TRASH), INBOX)
    case Untrash => AddLabel(Retain(labels, TRASH), INBOX)
  }

  function RelabelMessage(s: State, id: Id, op: Relabel): Outcome {
    if id !in s.messages then Outcome(s, Err("message not found: " + id))
    else
      var m := s.messages[id];
      var m' := m.(labels := Relabelled(m.labels, op), historyId := s.nextHistoryId);
      Outcome(s.(messages := s.messages[id := m'], nextHistoryId := Bump(s.nextHistoryId)), Ok(OneMessage(m')))
  }

  /** Those of the listed messages that belong to a thread. */
  function Members(keys: seq<Id>, messages: Messages, thread: Id): seq<Message> {
    if keys == [] then []
    else
      var k := keys[|keys| - 1];
      Members(keys[..|keys| - 1], messages, thread) + if InThread(messages, k, thread) then [messages[k]] else []
  }

  function RelabelAll(messages: Messages, thread: Id, op: Relabel, hid: nat): Messages {
    map k | k in messages ::
      if messages[k].threadId == thread
      then messages[k].(labels := Relabelled(messages[k].labels, op), historyId := hid)
      else messages[k]
  }

  function RelabelThread(s: State, id: Id, op: Relabel): Outcome {
    if id !in s.threads then Outcome(s, Err("thread not found: " + id))
    else
      var hid := s.nextHistoryId;
      var messages := RelabelAll(s.messages, id, op, hid);
      var thread := s.threads[id].(historyId := hid);
      Outcome(s.(messages := messages, threads := s.threads[id := thread], nextHistoryId := Bump(hid)),
              Ok(OneThread(thread, Members(Sorted(messages.Keys), messages, id))))
  }

  // ---------------------------------------------------------------------
  // Deletion
  // ---------------------------------------------------------------------

  function RefIds(m: Message): set<Id> {
    set i | 0 <= i < |m.attachments| :: m.attachments[i].id
  }

  function ApplyDeleteMessage(s: State, id: Id): Outcome {
    if id !in s.messages then Outcome(s, Err("message not found: " + id))
    else
      var m := s.messages[id];
      var messages := s.messages - {id};
      var threads := if exists k :: k in messages && messages[k].threadId == m.threadId
                     then Refreshed(messages, s.threads, m.threadId)
                     else s.threads - {m.threadId};
      Outcome(s.(messages := messages, threads := threads, attachments := s.attachments - RefIds(m)), Ok(Deleted))
  }

  function ThreadKeys(messages: Messages, thread: Id): set<Id> {
    set k | k in messages && messages[k].threadId == thread
  }

  function ThreadRefIds(messages: Messages, thread: Id): set<Id> {
    set k, a | k in messages && messages[k].threadId == thread && a in RefIds(messages[k]) :: a
  }

  function ApplyDeleteThread(s: State, id: Id): Outcome {
    if id !in s.threads then Outcome(s, Err("thread not found: " + id))
    else
      Outcome(s.(messages := s.messages - ThreadKeys(s.messages, id), threads := s.threads - {id},
                 attachments := s.attachments - ThreadRefIds(s.messages, id)), Ok(Deleted))
  }

  // ---------------------------------------------------------------------
  // Label records
  // ---------------------------------------------------------------------

  function ToVisibility(v: string): Visibility {
    if v == "hide" then Hide else Show
  }

  function ToListVisibility(v: string): ListVisibility {
    if v == "labelHide" then LabelHide else if v == "labelShowIfUnread" then LabelShowIfUnread else LabelShow
  }

  function ApplyCreateLabel(s: State, name: string, mv: Option<string>, lv: Option<string>): Outcome {
    if exists k :: k in s.labels && s.labels[k].name == name then Outcome(s, Err("label already exists: " + name))
    else
      var id := LabelId(s.nextId);
      var record := Label(id, name, User, if mv.Some? then ToVisibility(mv.value) else Show,
                         if lv.Some? then ToListVisibility(lv.value) else LabelShow);
      Outcome(s.(labels := s.labels[id := record], nextId := Bump(s.nextId)), Ok(OneLabel(record)))
  }

  function ApplyUpdateLabel(s: State, id: Id, name: Option<string>, mv: Option<string>, lv: Option<string>): Outcome {
    if id !in s.labels then Outcome(s, Err("label not found: " + id))
    else if s.labels[id].labelType == System then Outcome(s, Err("cannot modify system label"))
    else
      var was := s.labels[id];
      var record := Label(was.id, if name.Some? then name.value else was.name, was.labelType,
                         if mv.Some? then ToVisibility(mv.value) else was.inMessages,
                         if lv.Some? then ToListVisibility(lv.value) else was.inList);
      Outcome(s.(labels := s.labels[id := record]), Ok(OneLabel(record)))
  }

  function ApplyDeleteLabel(s: State, id: Id): Outcome {
    if id !in s.labels then Outcome(s, Err("label not found: " + id))
    else if s.labels[id].labelType == System then Outcome(s, Err("cannot delete system label"))
    else
      var messages := map k | k in s.messages :: s.messages[k].(labels := Retain(s.messages[k].labels, id));
      Outcome(s.(labels := s.labels - {id}, messages := messages), Ok(Deleted))
  }

  function Apply(s: State, r: Request): Outcome {
    match r
    case SendMessage(_, _, _, _, _, _, _, _) => Send(s, r)
    case InsertMessage(raw) => Insert(s, raw)
    case ModifyMessage(id, add, remove) => RelabelMessage(s, id, Modify(add, remove))
    case TrashMessage(id) => RelabelMessage(s, id, Trash)
    case UntrashMessage(id) => RelabelMessage(s, id, Untrash)
    case DeleteMessage(id) => ApplyDeleteMessage(s, id)
    case ModifyThread(id, add, remove) => RelabelThread(s, id, Modify(add, remove))
    case TrashThread(id) => RelabelThread(s, id, Trash)
    case UntrashThread(id) => RelabelThread(s, id, Untrash)
    case DeleteThread(id) => ApplyDeleteThread(s, id)
    case CreateLabel(name, mv, lv) => ApplyCreateLabel(s, name, mv, lv)
    case UpdateLabel(id, name, mv, lv) => ApplyUpdateLabel(s, id, name, mv, lv)
    case DeleteLabel(id) => ApplyDeleteLabel(s, id)
  }
}
