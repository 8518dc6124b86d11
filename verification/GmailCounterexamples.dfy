/** Runs of accepted requests after which a natural claim fails. */
module GmailCounterexamples {
  import opened Wrappers
  import opened SortedKeys
  import opened GmailModel
  import opened GmailInvariants
  import opened GmailIds
  import opened GmailRuns
  import opened GmailThreading
  import opened GmailSnippets

  /** An inserted message without subject, recipients and attachments. */
  function Plain(id: Id, thread: Id, body: string, date: nat): Request {
    InsertMessage(Raw(id, thread, "", [], [], [], "", Some(body), None, [], Some(date), []))
  }

  lemma NoSubject()
    ensures Normalize("") == ""
  {
  }

  /** Without a subject and a live thread, a message gets a thread of its own. */
  lemma OwnThread(s: State, explicit: Option<Id>)
    requires explicit.Some? ==> explicit.value !in s.threads
    ensures FindThread(s, explicit, "") == None
  {
    hide Normalize, FirstWithSubject;
    NoSubject();
    FindThreadMeaning(s, explicit, "");
  }

  lemma PlainIn(s: State, id: Id, thread: Id, body: string, date: nat)
    requires id != "" && NoWrap(s, Plain(id, thread, body, date))
    ensures var r := Plain(id, thread, body, date); var s' := Apply(s, r).state; var (s1, tid) := Joined(s, r);
      && id in s'.messages && s'.messages == s.messages[id := s'.messages[id]]
      && s'.messages[id].threadId == tid && s'.messages[id].date == date && s'.messages[id].snippet == MakeSnippet(body)
      && s'.threads.Keys == s1.threads.Keys
      && s'.nextId == s1.nextId && s'.nextHistoryId == Bump(s1.nextHistoryId)
  {
    hide FindOrCreateThread, Refreshed, MakeSnippet, EstimateSize;
    var r := Plain(id, thread, body, date);
    FindOrCreateFrame(s, Explicit(r), "");
    var (s1, tid) := Joined(s, r);
    RefreshedKeys(Apply(s, r).state.messages, s1.threads, tid);
    JoinedCounters(s, r);
  }

  lemma ThreadIdInjective(m: nat, n: nat)
    ensures ThreadId(m) == ThreadId(n) ==> m == n
  {
    assert ThreadId(m) == Numbered("thread_", m) && ThreadId(n) == Numbered("thread_", n);
    NumberedInjective("thread_", m, n);
  }

  lemma ShortSnippet(c: char)
    requires c == 'p' || c == 'q'
    ensures MakeSnippet([c]) == [c]
  {
    var s: string := [c];
    assert s[..|s| - 1] == "" && Utf8Length("") == 0;
    assert Utf8Length(s) == 1;
  }

  /** Three insertions: two messages in one thread, and one that takes the id of
      the later of them to another thread. */
  lemma StaleSummaryIsReachable()
    ensures exists reqs, s :: Run(ANY, DefaultState(), reqs, s) && !SnippetsAgree(s)
  {
    hide Apply, Joined, SnippetsAgree, MakeSnippet, Base, FindThread, ThreadId;
    var t := ThreadId(1);
    var s0, r1, r2, r3 := DefaultState(), Plain("a", "", "p", 1), Plain("b", t, "q", 2), Plain("b", "", "q", 3);
    var s1 := Apply(s0, r1).state;
    var s2 := Apply(s1, r2).state;
    var s3 := Apply(s2, r3).state;
    FirstPlain();
    SecondPlain(s1);
    ThirdPlain(s2);
    assert Run(ANY, s2, [r3], s3);
    assert Run(ANY, s1, [r2, r3], s3) by { assert [r2, r3][1..] == [r3]; }
    assert Run(ANY, s0, [r1, r2, r3], s3) by { assert [r1, r2, r3][1..] == [r2, r3]; }
  }

  /** One message, "a" in thread 1. */
  ghost predicate AfterFirst(s: State) {
    && Base(s) && SnippetsAgree(s) && s.nextId == 2 && s.nextHistoryId <= 3
    && s.messages.Keys == {"a"} && s.threads.Keys == {ThreadId(1)}
    && s.messages["a"].threadId == ThreadId(1) && s.messages["a"].date == 1 && s.messages["a"].snippet == "p"
  }

  /** A later one, "b", in the same thread. */
  ghost predicate AfterSecond(s: State) {
    && Base(s) && SnippetsAgree(s) && s.nextId == 2 && s.nextHistoryId <= 5
    && s.messages.Keys == {"a", "b"}
    && s.messages["a"].threadId == s.messages["b"].threadId == ThreadId(1)
    && s.messages["a"].date == 1 && s.messages["b"].date == 2
    && s.messages["a"].snippet == "p" && s.messages["b"].snippet == "q"
  }

  lemma DefaultAgrees()
    ensures SnippetsAgree(DefaultState())
  {
  }

  lemma NewIdHarmless(s: State, r: Request)
    requires Base(s) && NoWrap(s, r) && SnippetsAgree(s)
    requires IsArrival(r) && TargetId(s, r) !in s.messages
    ensures Base(Apply(s, r).state) && SnippetsAgree(Apply(s, r).state)
  {
    hide Apply, Base, SnippetsAgree, TargetId, NoWrap, IsLatest, Joined;
    StepBase(s, r);
    StepSnippets(s, r);
  }

  lemma FirstPlain()
    ensures var r := Plain("a", "", "p", 1);
      Admits(ANY, DefaultState(), r) && AfterFirst(Apply(DefaultState(), r).state)
  {
    hide Apply, MakeSnippet, FindThread, ThreadId, Base, SnippetsAgree;
    var s, r := DefaultState(), Plain("a", "", "p", 1);
    DefaultBase();
    DefaultAgrees();
    OwnThread(s, None);
    PlainIn(s, "a", "", "p", 1);
    ShortSnippet('p');
    NewIdHarmless(s, r);
  }

  lemma SecondPlain(s: State)
    requires AfterFirst(s)
    ensures var r := Plain("b", ThreadId(1), "q", 2); Admits(ANY, s, r) && AfterSecond(Apply(s, r).state)
  {
    hide Apply, MakeSnippet, ThreadId, Base, SnippetsAgree;
    var r := Plain("b", ThreadId(1), "q", 2);
    ThreadIdGiven(1);
    PlainIn(s, "b", ThreadId(1), "q", 2);
    ShortSnippet('q');
    NewIdHarmless(s, r);
  }

  lemma ThreadIdGiven(n: nat)
    ensures ThreadId(n) != ""
  {
    assert ThreadId(n)[0] == 't';
  }

  lemma ThirdPlain(s: State)
    requires AfterSecond(s)
    ensures var r := Plain("b", "", "q", 3); Admits(ANY, s, r) && !SnippetsAgree(Apply(s, r).state)
  {
    hide Apply, Base, SnippetsAgree, FindThread, ThreadId, FirstWithSubject;
    var r := Plain("b", "", "q", 3);
    OwnThread(s, None);
    ThreadIdInjective(1, 2);
    assert Joined(s, r).1 == ThreadId(2);
    assert IsLatest(s.messages, ThreadId(1), "b");
    LeqTotal("a", "a");
    assert IsLatest(s.messages - {"b"}, ThreadId(1), "a");
    StepSnippets(s, r);
  }

  /** An insertion that anticipates an allocated id, and a send that is then
      given that id and overwrites the message. */
  lemma OverwriteIsReachable()
    ensures exists reqs, s, r :: Run(ANY, DefaultState(), reqs, s) && Admits(ANY, s, r) && r.SendMessage?
              && TargetId(s, r) in s.messages
  {
    hide Apply, MakeSnippet, FindThread;
    var s, id := DefaultState(), MessageId(3);
    assert id[0] == 'm';
    var r := Plain(id, "", "p", 1);
    var send := SendMessage("", [], [], [], "", "", None, []);
    OwnThread(s, None);
    PlainIn(s, id, "", "p", 1);
    var s1 := Apply(s, r).state;
    OwnThread(s1, None);
    assert Run(ANY, s1, [], s1);
    assert Run(ANY, s, [r], s1) by { assert [r][1..] == []; }
    assert TargetId(s1, send) == id;
  }

  /** One insertion that is refused leaves a thread without messages. */
  lemma EmptyThreadIsReachable()
    ensures exists reqs, s :: Run(ANY, DefaultState(), reqs, s) && !Inhabited(s.messages, s.threads)
  {
    hide Apply, FindThread, Inhabited;
    var s, file := DefaultState(), Incoming(None, "", "", None);
    var r := InsertMessage(Raw("a", "", "", [], [], [], "", None, None, [], None, [file]));
    assert file in r.raw.attachments;
    DefaultBase();
    DefaultThreaded();
    OwnThread(s, None);
    StepInhabited(s, r);
    var s1 := Apply(s, r).state;
    assert Run(ANY, s1, [], s1);
    assert Run(ANY, s, [r], s1) by { assert [r][1..] == []; }
  }
}
