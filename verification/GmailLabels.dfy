/** Label changes on messages and threads, and the counts kept per label. */
module GmailLabels {
  import opened SortedKeys
  import opened GmailModel
  import opened GmailInvariants

  // ---------------------------------------------------------------------
  // What a label change does to a list of labels
  // ---------------------------------------------------------------------

  /** The labels that are not in `remove`, in order. */
  function Except(labels: seq<Id>, remove: set<Id>): seq<Id> {
    if labels == [] then []
    else
      var last := labels[|labels| - 1];
      Except(labels[..|labels| - 1], remove) + if last in remove then [] else [last]
  }

  lemma {:induction false} RetainAfterExcept(labels: seq<Id>, remove: set<Id>, l: Id)
    ensures Retain(Except(labels, remove), l) == Except(labels, remove + {l})
    decreases |labels|
  {
    if labels != [] {
      var init, last := labels[..|labels| - 1], labels[|labels| - 1];
      RetainAfterExcept(init, remove, l);
      var e := Except(init, remove);
      if last !in remove {
        assert (e + [last])[..|e|] == e;
      } else {
        assert e + [] == e;
      }
    }
  }

  lemma {:induction false} ExceptNothing(labels: seq<Id>)
    ensures Except(labels, {}) == labels
    decreases |labels|
  {
    if labels != [] {
      ExceptNothing(labels[..|labels| - 1]);
      assert labels == labels[..|labels| - 1] + [labels[|labels| - 1]];
    }
  }

  ghost function Elements(s: seq<Id>): set<Id> {
    set x | x in s
  }

  /** Removing labels one by one filters them out, and keeps the order. */
  lemma {:induction false} RemoveIsFilter(labels: seq<Id>, remove: seq<Id>)
    ensures RemoveLabels(labels, remove) == Except(labels, Elements(remove))
    decreases |remove|
  {
    if remove == [] {
      ExceptNothing(labels);
      assert Elements(remove) == {};
    } else {
      var init, last := remove[..|remove| - 1], remove[|remove| - 1];
      RemoveIsFilter(labels, init);
      RetainAfterExcept(labels, Elements(init), last);
      assert remove == init + [last];
      assert Elements(remove) == Elements(init) + {last};
    }
  }

  /** Adding labels keeps the list as a prefix and appends, once each, exactly
      those that were missing. */
  lemma {:induction false} AddAppends(labels: seq<Id>, add: seq<Id>)
    ensures var r := AddLabels(labels, add);
      && labels <= r
      && (forall l :: l in r <==> l in labels || l in add)
      && (forall i, j :: |labels| <= j < |r| && 0 <= i < j ==> r[i] != r[j])
    decreases |add|
  {
    if add != [] {
      var init, last := add[..|add| - 1], add[|add| - 1];
      AddAppends(labels, init);
      assert add == init + [last];
    }
  }

  lemma {:induction false} ExceptMembers(labels: seq<Id>, remove: set<Id>)
    ensures forall l :: l in Except(labels, remove) <==> l in labels && l !in remove
    ensures Distinct(labels) ==> Distinct(Except(labels, remove))
    decreases |labels|
  {
    if labels != [] {
      var init, last := labels[..|labels| - 1], labels[|labels| - 1];
      ExceptMembers(init, remove);
      assert labels == init + [last];
    }
  }

  lemma {:induction false} RetainIsExcept(labels: seq<Id>, l: Id)
    ensures Retain(labels, l) == Except(labels, {l})
    decreases |labels|
  {
    if labels != [] {
      RetainIsExcept(labels[..|labels| - 1], l);
    }
  }

  /** Whether a change leaves label l on a message. */
  predicate Leaves(labels: seq<Id>, op: Relabel, l: Id) {
    match op
    case Modify(add, remove) => (l in labels && l !in remove) || l in add
    case Trash => (l in labels || l == TRASH) && l != INBOX
    case Untrash => (l in labels || l == INBOX) && l != TRASH
  }

  lemma RelabelledMembers(labels: seq<Id>, op: Relabel)
    ensures forall l :: l in Relabelled(labels, op) <==> Leaves(labels, op, l)
  {
    match op
    case Modify(add, remove) =>
      RemoveIsFilter(labels, remove);
      ExceptMembers(labels, Elements(remove));
      AddAppends(RemoveLabels(labels, remove), add);
      hide AddLabels, RemoveLabels, Except;
    case Trash =>
      RetainIsExcept(AddLabel(labels, TRASH), INBOX);
      ExceptMembers(AddLabel(labels, TRASH), {INBOX});
      hide Retain, Except;
    case Untrash =>
      RetainIsExcept(labels, TRASH);
      ExceptMembers(labels, {TRASH});
      hide Retain, Except;
  }

  lemma {:induction false} AddKeepsDistinct(labels: seq<Id>, add: seq<Id>)
    requires Distinct(labels)
    ensures Distinct(AddLabels(labels, add))
    decreases |add|
  {
    if add != [] {
      AddKeepsDistinct(labels, add[..|add| - 1]);
    }
  }

  /** No change of labels puts a label on a message twice. */
  lemma RelabelledDistinct(labels: seq<Id>, op: Relabel)
    requires Distinct(labels)
    ensures Distinct(Relabelled(labels, op))
  {
    match op
    case Modify(add, remove) =>
      RemoveIsFilter(labels, remove);
      ExceptMembers(labels, Elements(remove));
      AddKeepsDistinct(RemoveLabels(labels, remove), add);
    case Trash =>
      RetainIsExcept(AddLabel(labels, TRASH), INBOX);
      ExceptMembers(AddLabel(labels, TRASH), {INBOX});
    case Untrash =>
      RetainIsExcept(labels, TRASH);
      ExceptMembers(labels, {TRASH});
  }

  /** Trashing and restoring gives back the same labels exactly to a message that
      was in the inbox and not in the trash. */
  lemma TrashUntrash(labels: seq<Id>)
    ensures (forall l :: l in Relabelled(Relabelled(labels, Trash), Untrash) <==> l in labels)
       <==> INBOX in labels && TRASH !in labels
  {
    RelabelledMembers(labels, Trash);
    RelabelledMembers(Relabelled(labels, Trash), Untrash);
    hide Relabelled;
    var back := Relabelled(Relabelled(labels, Trash), Untrash);
    assert INBOX != TRASH by { assert INBOX[0] != TRASH[0]; }
    assert INBOX in back && TRASH !in back;
  }

  // ---------------------------------------------------------------------
  // Threads against messages
  // ---------------------------------------------------------------------

  lemma RelabelAllMeaning(messages: Messages, id: Id, op: Relabel, hid: nat)
    ensures var t := RelabelAll(messages, id, op, hid);
      && t.Keys == messages.Keys
      && forall k :: k in messages ==>
           t[k] == if messages[k].threadId == id
                   then messages[k].(labels := Relabelled(messages[k].labels, op), historyId := hid)
                   else messages[k]
  {
    hide Relabelled;
  }

  /** A change of a thread leaves each of its messages as the same change of
      that message would, and every other message alone. */
  lemma ThreadChangeIsMessageChange(s: State, t: Id, op: Relabel, k: Id)
    requires t in s.threads && k in s.messages
    ensures var s' := RelabelThread(s, t, op).state;
      && s'.messages.Keys == s.messages.Keys
      && s'.messages[k] == if s.messages[k].threadId == t then RelabelMessage(s, k, op).state.messages[k]
                           else s.messages[k]
  {
    hide Relabelled, Members;
  }

  // ---------------------------------------------------------------------
  // Counts
  // ---------------------------------------------------------------------

  ghost function MessagesOfAny(messages: Messages, ts: set<Id>): set<Id> {
    set k | k in messages && messages[k].threadId in ts
  }

  /** The sum of the member counts of some threads. */
  ghost function SumOfCounts(messages: Messages, ts: set<Id>): nat
    decreases ts
  {
    if ts == {} then 0
    else
      var t :| t in ts;
      |ThreadKeys(messages, t)| + SumOfCounts(messages, ts - {t})
  }

  lemma {:induction false} SumCounts(messages: Messages, ts: set<Id>)
    ensures SumOfCounts(messages, ts) == |MessagesOfAny(messages, ts)|
    decreases ts
  {
    if ts == {} {
      assert MessagesOfAny(messages, ts) == {};
    } else {
      var t :| t in ts && SumOfCounts(messages, ts) == |ThreadKeys(messages, t)| + SumOfCounts(messages, ts - {t});
      SumCounts(messages, ts - {t});
      var a, b := ThreadKeys(messages, t), MessagesOfAny(messages, ts - {t});
      assert a + b == MessagesOfAny(messages, ts) && a !! b;
    }
  }

  /** The member counts of all threads add up to the number of messages. */
  lemma CountsAddUp(s: State)
    requires WF(s)
    ensures SumOfCounts(s.messages, s.threads.Keys) == |s.messages|
  {
    SumCounts(s.messages, s.threads.Keys);
    assert MessagesOfAny(s.messages, s.threads.Keys) == s.messages.Keys;
  }

  const UNREAD: Id := "UNREAD"

  /** The messages with a label, and those of them that are unread. */
  function WithLabel(messages: Messages, l: Id): set<Id> {
    set k | k in messages && l in messages[k].labels
  }

  function UnreadWithLabel(messages: Messages, l: Id): set<Id> {
    set k | k in messages && l in messages[k].labels && UNREAD in messages[k].labels
  }

  function ThreadsOf(messages: Messages, ks: set<Id>): set<Id> {
    set k | k in ks && k in messages :: messages[k].threadId
  }

  lemma {:induction false} FewerThreads(messages: Messages, ks: set<Id>)
    requires ks <= messages.Keys
    ensures |ThreadsOf(messages, ks)| <= |ks|
    decreases ks
  {
    if ks != {} {
      var k :| k in ks;
      FewerThreads(messages, ks - {k});
      assert ThreadsOf(messages, ks) == ThreadsOf(messages, ks - {k}) + {messages[k].threadId};
    } else {
      assert ThreadsOf(messages, ks) == {};
    }
  }

  /** Per label, threads are no more than messages, and unread ones no more than all. */
  lemma LabelCounts(messages: Messages, l: Id)
    ensures var all, unread := WithLabel(messages, l), UnreadWithLabel(messages, l);
      && |ThreadsOf(messages, all)| <= |all| <= |messages|
      && |ThreadsOf(messages, unread)| <= |unread| <= |all|
      && |ThreadsOf(messages, unread)| <= |ThreadsOf(messages, all)|
  {
    var all, unread := WithLabel(messages, l), UnreadWithLabel(messages, l);
    FewerThreads(messages, all);
    FewerThreads(messages, unread);
    SubsetCardinality(unread, all);
    SubsetCardinality(all, messages.Keys);
    SubsetCardinality(ThreadsOf(messages, unread), ThreadsOf(messages, all));
  }
}
