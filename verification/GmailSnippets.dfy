/** The cached snippet of a thread against recomputation from its messages. */
module GmailSnippets {
  import opened Wrappers
  import opened SortedKeys
  import opened GmailModel
  import opened GmailInvariants
  import opened GmailIds
  import opened GmailRuns

  /** k is the latest message of t: of maximal date, and last in id order among those. */
  ghost predicate IsLatest(messages: Messages, t: Id, k: Id) {
    && InThread(messages, k, t)
    && forall j :: InThread(messages, j, t) ==>
         messages[j].date < messages[k].date || (messages[j].date == messages[k].date && Leq(j, k))
  }

  lemma LatestUnique(messages: Messages, t: Id, j: Id, k: Id)
    requires IsLatest(messages, t, j) && IsLatest(messages, t, k)
    ensures j == k
  {
    if messages[j].date == messages[k].date {
      LeqAntisymmetric(j, k);
    }
  }

  /** k is the latest of the listed messages of t. */
  ghost predicate LatestIn(keys: seq<Id>, messages: Messages, t: Id, k: Id) {
    && k in keys && InThread(messages, k, t)
    && forall j :: j in keys && InThread(messages, j, t) ==>
         messages[j].date < messages[k].date || (messages[j].date == messages[k].date && Leq(j, k))
  }

  lemma {:induction false} LatestAmongIsLatest(keys: seq<Id>, messages: Messages, t: Id)
    requires Ascending(keys)
    ensures var k := LatestAmong(keys, messages, t); k.Some? ==> LatestIn(keys, messages, t, k.value)
    decreases |keys|
  {
    if keys != [] {
      var init, last := keys[..|keys| - 1], keys[|keys| - 1];
      assert keys == init + [last];
      LatestAmongIsLatest(init, messages, t);
      LatestAmongMeaning(init, messages, t);
      LeqTotal(last, last);
      assert forall j :: j in init ==> Leq(j, last);
    }
  }

  /** The fold over the message map yields the latest message, if there is any. */
  lemma LatestMeaning(messages: Messages, t: Id)
    ensures var k := Latest(messages, t); k.Some? ==> IsLatest(messages, t, k.value)
    ensures Latest(messages, t).None? ==> forall k :: !InThread(messages, k, t)
  {
    LatestAmongIsLatest(Sorted(messages.Keys), messages, t);
    LatestAmongMeaning(Sorted(messages.Keys), messages, t);
  }

  // ---------------------------------------------------------------------
  // Agreement
  // ---------------------------------------------------------------------

  ghost predicate AgreesAt(messages: Messages, threads: Threads, t: Id) {
    t in threads ==> forall k :: IsLatest(messages, t, k) ==> threads[t].snippet == messages[k].snippet
  }

  /** Every thread with messages has the snippet of its latest one. */
  ghost predicate SnippetsAgree(s: State) {
    forall t :: AgreesAt(s.messages, s.threads, t)
  }

  lemma RefreshedAgrees(messages: Messages, threads: Threads, t: Id)
    ensures AgreesAt(messages, Refreshed(messages, threads, t), t)
  {
    LatestMeaning(messages, t);
    hide Latest, IsLatest;
    var k := Latest(messages, t);
    if k.Some? {
      LatestInThread(messages, t, k.value);
    }
    forall j | IsLatest(messages, t, j) ensures k == Some(j) {
      LatestInThread(messages, t, j);
      if k.Some? {
        LatestUnique(messages, t, j, k.value);
      }
    }
  }

  lemma LatestInThread(messages: Messages, t: Id, k: Id)
    requires IsLatest(messages, t, k)
    ensures InThread(messages, k, t)
  {
  }

  /** The same messages of t, up to labels and history ids. */
  ghost predicate SameMembers(a: Messages, b: Messages, t: Id) {
    && (forall k :: InThread(a, k, t) <==> InThread(b, k, t))
    && forall k :: InThread(a, k, t) ==> a[k].date == b[k].date && a[k].snippet == b[k].snippet
  }

  lemma SameMembersSameLatest(a: Messages, b: Messages, t: Id, k: Id)
    requires SameMembers(a, b, t)
    ensures IsLatest(a, t, k) <==> IsLatest(b, t, k)
    ensures IsLatest(a, t, k) ==> a[k].snippet == b[k].snippet
  {
    hide Leq;
  }

  lemma AgreementTransfers(a: Messages, b: Messages, ta: Threads, tb: Threads, t: Id)
    requires SameMembers(a, b, t)
    requires t in tb ==> t in ta && tb[t].snippet == ta[t].snippet
    requires AgreesAt(a, ta, t)
    ensures AgreesAt(b, tb, t)
  {
    hide IsLatest, SameMembers;
    forall k {
      SameMembersSameLatest(a, b, t, k);
    }
  }

  // ---------------------------------------------------------------------
  // Requests
  // ---------------------------------------------------------------------

  lemma LabelsOnlySnippets(s: State, s': State)
    requires OnlyLabels(s, s') && SnippetsAgree(s)
    ensures SnippetsAgree(s')
  {
    hide AgreesAt;
    forall t ensures AgreesAt(s'.messages, s'.threads, t) {
      AgreementTransfers(s.messages, s'.messages, s.threads, s'.threads, t);
    }
  }

  lemma DeleteThreadSnippets(s: State, id: Id)
    requires SnippetsAgree(s)
    ensures SnippetsAgree(ApplyDeleteThread(s, id).state)
  {
    hide AgreesAt, ThreadRefIds;
    var s' := ApplyDeleteThread(s, id).state;
    forall t ensures AgreesAt(s'.messages, s'.threads, t) {
      if t == id && id in s.threads {
        GoneAgrees(s'.messages, s'.threads, t);
      } else {
        AgreementTransfers(s.messages, s'.messages, s.threads, s'.threads, t);
      }
    }
  }

  lemma GoneAgrees(messages: Messages, threads: Threads, t: Id)
    requires t !in threads
    ensures AgreesAt(messages, threads, t)
  {
  }

  lemma DeleteMessageSnippets(s: State, id: Id)
    requires SnippetsAgree(s)
    ensures SnippetsAgree(ApplyDeleteMessage(s, id).state)
  {
    hide AgreesAt, RefIds, Refreshed;
    var s' := ApplyDeleteMessage(s, id).state;
    if id in s.messages {
      var thread := s.messages[id].threadId;
      RefreshedKeys(s'.messages, s.threads, thread);
      RefreshedAgrees(s'.messages, s.threads, thread);
      forall t ensures AgreesAt(s'.messages, s'.threads, t) {
        if t == thread {
          if t !in s'.threads {
            GoneAgrees(s'.messages, s'.threads, t);
          }
        } else {
          AgreementTransfers(s.messages, s'.messages, s.threads, s'.threads, t);
        }
      }
    }
  }

  /** The thread an arriving message takes another message away from, by
      overwriting it, still has the right snippet without that message. */
  ghost predicate LossHarmless(s: State, r: Request)
    requires IsArrival(r)
  {
    var id := TargetId(s, r);
    id in s.messages && s.messages[id].threadId != Joined(s, r).1 ==>
      AgreesAt(s.messages - {id}, s.threads, s.messages[id].threadId)
  }

  /** Placing a message keeps every thread's agreement but that of a thread that
      loses an overwritten message. */
  lemma PlacedSnippets(s: State, threads1: Threads, m: Message, t: Id)
    requires AgreesAt(s.messages, s.threads, t) && WF(s)
    requires t in threads1 && t != m.threadId ==> t in s.threads && threads1[t].snippet == s.threads[t].snippet
    ensures var messages' := s.messages[m.id := m]; var threads' := Refreshed(messages', threads1, m.threadId);
      if t != m.threadId && m.id in s.messages && s.messages[m.id].threadId == t && t in threads1
      then AgreesAt(messages', threads', t) <==> AgreesAt(s.messages - {m.id}, s.threads, t)
      else AgreesAt(messages', threads', t)
  {
    hide Refreshed, AgreesAt;
    var messages' := s.messages[m.id := m];
    var threads' := Refreshed(messages', threads1, m.threadId);
    RefreshedAgrees(messages', threads1, m.threadId);
    RefreshedKeys(messages', threads1, m.threadId);
    if t != m.threadId {
      if m.id in s.messages && s.messages[m.id].threadId == t {
        var rest := s.messages - {m.id};
        assert SameMembers(rest, messages', t) && SameMembers(messages', rest, t);
        if AgreesAt(rest, s.threads, t) {
          AgreementTransfers(rest, messages', s.threads, threads', t);
        }
        if AgreesAt(messages', threads', t) && t in threads1 {
          AgreementTransfers(messages', rest, threads', s.threads, t);
        }
        if t !in threads1 {
          GoneAgrees(messages', threads', t);
        }
      } else {
        AgreementTransfers(s.messages, messages', s.threads, threads', t);
      }
    }
  }

  /** An arriving message keeps the agreement exactly when it fails to decode, or
      the thread it takes an overwritten message from does not mind. */
  lemma ArrivalSnippets(s: State, r: Request)
    requires IsArrival(r) && Base(s) && NoWrap(s, r) && SnippetsAgree(s)
    ensures SnippetsAgree(Apply(s, r).state) <==> (Apply(s, r).result.Ok? ==> LossHarmless(s, r))
  {
    hide Apply, Joined, StoredFiles, TargetId, Refreshed, AgreesAt, NoWrap, HistoryBelow, ThreadsFresh, Subject;
    ArrivalShape(s, r);
    JoinedSummaries(s, r);
    var o, s1, tid := Apply(s, r), Joined(s, r).0, Joined(s, r).1;
    if o.result.Ok? {
      var m := o.result.value.message;
      forall t ensures t in s1.threads && t != tid ==> t in s.threads && s1.threads[t].snippet == s.threads[t].snippet {
      }
      var lost := m.id in s.messages && s.messages[m.id].threadId != tid;
      forall t
        ensures if lost && t == s.messages[m.id].threadId
                then AgreesAt(o.state.messages, o.state.threads, t) <==> AgreesAt(s.messages - {m.id}, s.threads, t)
                else AgreesAt(o.state.messages, o.state.threads, t)
      {
        PlacedSnippets(s, s1.threads, m, t);
      }
    } else {
      forall t ensures AgreesAt(o.state.messages, o.state.threads, t) {
        FailedAgrees(s, s1.threads, tid, t);
      }
    }
  }

  lemma FailedAgrees(s: State, threads1: Threads, tid: Id, t: Id)
    requires AgreesAt(s.messages, s.threads, t)
    requires t in threads1 ==> (t in s.threads && threads1[t] == s.threads[t]) || (t == tid && t !in s.threads)
    requires tid !in s.threads ==> forall k :: !InThread(s.messages, k, tid)
    ensures AgreesAt(s.messages, threads1, t)
  {
  }

  /** The overwritten message is the latest of another thread, and the latest
      of those that remain there has another snippet. */
  ghost predicate LosesLatest(s: State, r: Request)
    requires IsArrival(r)
  {
    var id := TargetId(s, r);
    id in s.messages &&
    var t := s.messages[id].threadId;
    && t != Joined(s, r).1
    && IsLatest(s.messages, t, id)
    && exists k :: IsLatest(s.messages - {id}, t, k) && s.messages[k].snippet != s.messages[id].snippet
  }

  /** Losing a message that is not the latest changes nothing; losing the latest
      changes what the snippet should be to that of the next one. */
  lemma LossMeaning(s: State, r: Request)
    requires IsArrival(r) && WF(s) && SnippetsAgree(s)
    ensures LossHarmless(s, r) <==> !LosesLatest(s, r)
  {
    hide AgreesAt, IsLatest, TargetId, Joined, LabelsWF, ThreadsWF;
    var id := TargetId(s, r);
    if id in s.messages && s.messages[id].threadId != Joined(s, r).1 {
      LossAt(s.messages, s.threads, s.messages[id].threadId, id);
    }
  }

  lemma LossAt(messages: Messages, threads: Threads, t: Id, id: Id)
    requires InThread(messages, id, t) && t in threads && AgreesAt(messages, threads, t)
    ensures AgreesAt(messages - {id}, threads, t)
       <==> !(IsLatest(messages, t, id)
              && exists k :: IsLatest(messages - {id}, t, k) && messages[k].snippet != messages[id].snippet)
  {
    hide Leq, Latest;
    LatestMeaning(messages, t);
    var l := Latest(messages, t).value;
    if l != id {
      LatestWithout(messages, t, id, l);
      forall k | IsLatest(messages, t, k) ensures k == l {
        LatestUnique(messages, t, k, l);
      }
      forall k | IsLatest(messages - {id}, t, k) ensures k == l {
        LatestUnique(messages - {id}, t, k, l);
      }
    }
  }

  lemma LatestWithout(messages: Messages, t: Id, id: Id, l: Id)
    requires IsLatest(messages, t, l) && l != id
    ensures IsLatest(messages - {id}, t, l)
  {
    hide Leq;
  }

  /** Every request keeps the agreement, exactly unless an arriving message,
      whose files decode, overwrites the latest message of another thread that
      goes on with another snippet. */
  lemma StepSnippets(s: State, r: Request)
    requires Base(s) && NoWrap(s, r) && SnippetsAgree(s)
    ensures SnippetsAgree(Apply(s, r).state) <==> !(IsArrival(r) && AllDecode(Files(r)) && LosesLatest(s, r))
  {
    hide SnippetsAgree, LossHarmless, LosesLatest, NoWrap, OnlyLabels, ApplyDeleteMessage, ApplyDeleteThread, WF,
         ThreadsFresh, HistoryBelow, Send, Insert, Files;
    if IsArrival(r) {
      ArrivalSnippets(s, r);
      ArrivalSucceeds(s, r);
      LossMeaning(s, r);
    } else if r.DeleteMessage? {
      DeleteMessageSnippets(s, r.message);
    } else if r.DeleteThread? {
      DeleteThreadSnippets(s, r.threadId);
    } else {
      LabelsOnly(s, r);
      LabelsOnlySnippets(s, Apply(s, r).state);
    }
  }

  lemma AdmitsNoOverwrite(scope: Scope, s: State, r: Request)
    requires Admits(scope, s, r) && scope.noOverwrite
    ensures NoWrap(s, r) && (IsArrival(r) ==> !LosesLatest(s, r))
  {
    hide Apply, TargetId, Joined, IsLatest;
  }

  /** In every run in which no message is stored under the id of a live one, the
      cached snippets agree with recomputation after every request. */
  lemma {:induction false} RunSnippets(scope: Scope, s: State, reqs: seq<Request>, s': State)
    requires scope.noOverwrite && Base(s) && SnippetsAgree(s) && Run(scope, s, reqs, s')
    ensures Base(s') && SnippetsAgree(s')
    decreases |reqs|
  {
    hide Base, SnippetsAgree, Apply, Admits, LosesLatest;
    if reqs != [] {
      AdmitsNoOverwrite(scope, s, reqs[0]);
      StepBase(s, reqs[0]);
      StepSnippets(s, reqs[0]);
      RunSnippets(scope, Apply(s, reqs[0]).state, reqs[1..], s');
    }
  }
}
