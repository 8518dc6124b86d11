/** Threads as classes of messages with the same subject. */
module GmailThreading {
  import opened Text
  import opened GmailModel
  import opened GmailInvariants
  import opened GmailIds
  import opened GmailRuns

  /** Two different messages share a thread exactly when their normalised
      subjects are equal and not empty. */
  ghost predicate Threaded(messages: Messages) {
    forall a, b :: a in messages && b in messages && a != b ==>
      (messages[a].threadId == messages[b].threadId <==> SameSubject(messages[a].subject, messages[b].subject))
  }

  /** Every thread has a message. */
  ghost predicate Inhabited(messages: Messages, threads: Threads) {
    forall t :: t in threads ==> exists k :: InThread(messages, k, t)
  }

  /** Without an explicit live thread, an arriving message joins exactly the
      messages with its subject. */
  lemma JoinsSameSubject(s: State, r: Request)
    requires IsArrival(r) && Base(s) && Threaded(s.messages) && NoWrap(s, r) && !NamesLiveThread(s, r)
    ensures forall k :: k in s.messages ==>
              (s.messages[k].threadId == Joined(s, r).1 <==> SameSubject(s.messages[k].subject, Subject(r)))
  {
    hide FindThread, Normalize, HistoryBelow, Subject, Explicit, Files;
    var b := BeforeThread(s, r);
    BeforeCounters(s, r);
    FindThreadMeaning(b, Explicit(r), Subject(r));
    var tid := Joined(s, r).1;
    if FindThread(b, Explicit(r), Subject(r)).Some? {
      var k0 :| k0 in s.messages && s.messages[k0].threadId == tid && SameSubject(s.messages[k0].subject, Subject(r));
      forall k | k in s.messages
        ensures s.messages[k].threadId == tid <==> SameSubject(s.messages[k].subject, Subject(r))
      {
        if k != k0 {
          assert s.messages[k].threadId == s.messages[k0].threadId
            <==> SameSubject(s.messages[k].subject, s.messages[k0].subject);
        }
      }
    } else {
      assert tid == Numbered("thread_", b.nextId);
      assert tid !in s.threads;
    }
  }

  lemma PlacedThreaded(messages: Messages, m: Message, tid: Id, subject: string)
    requires Threaded(messages) && m.threadId == tid && m.subject == subject
    requires forall k :: k in messages ==> (messages[k].threadId == tid <==> SameSubject(messages[k].subject, subject))
    ensures Threaded(messages[m.id := m])
  {
    hide Normalize;
  }

  lemma BodiesThreaded(a: Messages, b: Messages)
    requires Threaded(a)
    requires forall k :: k in b ==> k in a && b[k].threadId == a[k].threadId && b[k].subject == a[k].subject
    ensures Threaded(b)
  {
    hide SameSubject;
  }

  lemma StepThreaded(s: State, r: Request)
    requires Base(s) && Threaded(s.messages) && NoWrap(s, r)
    requires IsArrival(r) ==> !NamesLiveThread(s, r)
    ensures Threaded(Apply(s, r).state.messages)
  {
    hide Apply, Base, Threaded, NoWrap, NamesLiveThread;
    if IsArrival(r) {
      ArrivalThreaded(s, r);
    } else {
      forall k | k in Apply(s, r).state.messages
        ensures k in s.messages && Apply(s, r).state.messages[k].threadId == s.messages[k].threadId
             && Apply(s, r).state.messages[k].subject == s.messages[k].subject
      {
        KeptBody(s, r, k);
      }
      BodiesThreaded(s.messages, Apply(s, r).state.messages);
    }
  }

  lemma ArrivalThreaded(s: State, r: Request)
    requires IsArrival(r) && Base(s) && Threaded(s.messages) && NoWrap(s, r) && !NamesLiveThread(s, r)
    ensures Threaded(Apply(s, r).state.messages)
  {
    hide Apply, Base, Threaded, NoWrap, NamesLiveThread, Joined, StoredFiles, TargetId, Refreshed, SameSubject;
    ArrivalShape(s, r);
    JoinsSameSubject(s, r);
    var o := Apply(s, r);
    if o.result.Ok? {
      PlacedThreaded(s.messages, o.result.value.message, Joined(s, r).1, Subject(r));
    }
  }

  // ---------------------------------------------------------------------
  // Inhabited threads
  // ---------------------------------------------------------------------

  /** The message whose id is taken was the only one of another thread. */
  ghost predicate TakesOnly(s: State, r: Request)
    requires IsArrival(r)
  {
    var id := TargetId(s, r);
    id in s.messages &&
    var t := s.messages[id].threadId;
    t != Joined(s, r).1 && forall k :: InThread(s.messages, k, t) ==> k == id
  }

  /** An arrival that fails after a thread was created for it, or that takes the
      only message of another thread away. */
  ghost predicate EmptiesThread(s: State, r: Request) {
    && IsArrival(r)
    && if AllDecode(Files(r)) then TakesOnly(s, r)
       else FindThread(BeforeThread(s, r), Explicit(r), Subject(r)).None?
  }

  lemma PlacedInhabitedIff(messages: Messages, threads: Threads, threads': Threads, m: Message)
    requires Inhabited(messages, threads) && MessagesWF(messages, threads)
    requires forall t :: t in threads' ==> t in threads || t == m.threadId
    requires forall t :: t in threads ==> t in threads'
    ensures Inhabited(messages[m.id := m], threads')
       <==> !(m.id in messages && messages[m.id].threadId != m.threadId
              && forall k :: InThread(messages, k, messages[m.id].threadId) ==> k == m.id)
  {
    var messages' := messages[m.id := m];
    assert InThread(messages', m.id, m.threadId);
    if m.id in messages && messages[m.id].threadId != m.threadId
       && forall k :: InThread(messages, k, messages[m.id].threadId) ==> k == m.id {
      var t := messages[m.id].threadId;
      assert forall k :: InThread(messages', k, t) ==> InThread(messages, k, t);
      assert t in threads' && !exists k :: InThread(messages', k, t);
    } else {
      forall t | t in threads' ensures exists k :: InThread(messages', k, t) {
        if t != m.threadId {
          var k :| InThread(messages, k, t) && (k != m.id || forall j :: InThread(messages, j, t) ==> j == m.id);
          assert InThread(messages', k, t);
        }
      }
    }
  }

  lemma ArrivalInhabited(s: State, r: Request)
    requires IsArrival(r) && Base(s) && NoWrap(s, r) && Inhabited(s.messages, s.threads)
    ensures Inhabited(Apply(s, r).state.messages, Apply(s, r).state.threads) <==> !EmptiesThread(s, r)
  {
    hide Apply, Joined, StoredFiles, TargetId, Refreshed, Inhabited, FindThread, MessagesWF, HistoryBelow, ThreadsFresh,
         InThread, NoWrap, Files, Explicit, Subject, AllDecode, FileCounter;
    ArrivalShape(s, r);
    ArrivalSucceeds(s, r);
    JoinedSummaries(s, r);
    var o, s1 := Apply(s, r), Joined(s, r).0;
    if o.result.Ok? {
      RefreshedKeys(o.state.messages, s1.threads, Joined(s, r).1);
      PlacedInhabitedIff(s.messages, s.threads, o.state.threads, o.result.value.message);
    } else {
      FailedInhabited(s, s1.threads, Joined(s, r).1);
    }
  }

  lemma FailedInhabited(s: State, threads': Threads, tid: Id)
    requires Inhabited(s.messages, s.threads) && tid in threads'
    requires forall t :: t in threads' ==> t in s.threads || t == tid
    requires tid !in s.threads ==> forall k :: !InThread(s.messages, k, tid)
    ensures Inhabited(s.messages, threads') <==> tid in s.threads
  {
    hide InThread;
  }

  lemma DeletionInhabited(s: State, r: Request)
    requires IsDeletion(r) && Inhabited(s.messages, s.threads)
    ensures Inhabited(Apply(s, r).state.messages, Apply(s, r).state.threads)
  {
    if r.DeleteMessage? {
      DeleteMessageInhabited(s, r.message);
    } else {
      DeleteThreadInhabited(s, r.threadId);
    }
  }

  lemma DeleteThreadInhabited(s: State, id: Id)
    requires Inhabited(s.messages, s.threads)
    ensures var s' := ApplyDeleteThread(s, id).state; Inhabited(s'.messages, s'.threads)
  {
    hide ThreadRefIds;
    var s' := ApplyDeleteThread(s, id).state;
    forall t | t in s'.threads ensures exists k :: InThread(s'.messages, k, t) {
      var k :| InThread(s.messages, k, t);
      assert id in s.threads ==> InThread(s'.messages, k, t);
    }
  }

  lemma DeleteMessageInhabited(s: State, id: Id)
    requires Inhabited(s.messages, s.threads)
    ensures var s' := ApplyDeleteMessage(s, id).state; Inhabited(s'.messages, s'.threads)
  {
    hide RefIds, Refreshed;
    var s' := ApplyDeleteMessage(s, id).state;
    if id in s.messages {
      var thread := s.messages[id].threadId;
      RefreshedKeys(s'.messages, s.threads, thread);
      forall t | t in s'.threads ensures exists k :: InThread(s'.messages, k, t) {
        if t == thread {
          var k :| k in s'.messages && s'.messages[k].threadId == thread;
          assert InThread(s'.messages, k, t);
        } else {
          var k :| InThread(s.messages, k, t);
          assert InThread(s'.messages, k, t);
        }
      }
    }
  }

  lemma LabelsInhabited(s: State, s': State)
    requires OnlyLabels(s, s') && Inhabited(s.messages, s.threads)
    ensures Inhabited(s'.messages, s'.threads)
  {
    forall t | t in s'.threads ensures exists k :: InThread(s'.messages, k, t) {
      var k :| InThread(s.messages, k, t);
      assert InThread(s'.messages, k, t);
    }
  }

  /** Every request keeps every thread inhabited, exactly unless it empties one. */
  lemma StepInhabited(s: State, r: Request)
    requires Base(s) && NoWrap(s, r) && Inhabited(s.messages, s.threads)
    ensures Inhabited(Apply(s, r).state.messages, Apply(s, r).state.threads) <==> !EmptiesThread(s, r)
  {
    hide Apply, Inhabited, OnlyLabels, Base, NoWrap, AllDecode, TakesOnly;
    if IsArrival(r) {
      ArrivalInhabited(s, r);
    } else if IsDeletion(r) {
      DeletionInhabited(s, r);
    } else {
      LabelsOnly(s, r);
      LabelsInhabited(s, Apply(s, r).state);
    }
  }

  // ---------------------------------------------------------------------
  // Runs
  // ---------------------------------------------------------------------

  lemma AdmitsNewThreads(scope: Scope, s: State, r: Request)
    requires Admits(scope, s, r) && scope.newThreads
    ensures NoWrap(s, r) && (IsArrival(r) ==> !NamesLiveThread(s, r))
  {
  }

  /** In every run in which no message names a live thread, two messages share a
      thread exactly when their normalised subjects are equal and not empty. */
  lemma {:induction false} RunThreaded(scope: Scope, s: State, reqs: seq<Request>, s': State)
    requires scope.newThreads && Base(s) && Threaded(s.messages) && Run(scope, s, reqs, s')
    ensures Base(s') && Threaded(s'.messages)
    decreases |reqs|
  {
    hide Base, Threaded, Apply, Admits, NamesLiveThread;
    if reqs != [] {
      AdmitsNewThreads(scope, s, reqs[0]);
      StepBase(s, reqs[0]);
      StepThreaded(s, reqs[0]);
      RunThreaded(scope, Apply(s, reqs[0]).state, reqs[1..], s');
    }
  }

  lemma AdmitsStored(scope: Scope, s: State, r: Request)
    requires Admits(scope, s, r) && scope.noOverwrite && scope.allStored
    ensures NoWrap(s, r) && !EmptiesThread(s, r)
  {
    if IsArrival(r) {
      ArrivalSucceeds(s, r);
    }
    hide Apply, TargetId, Joined, FindThread;
  }

  lemma {:induction false} RunInhabited(scope: Scope, s: State, reqs: seq<Request>, s': State)
    requires scope.noOverwrite && scope.allStored && Base(s) && Inhabited(s.messages, s.threads)
    requires Run(scope, s, reqs, s')
    ensures Inhabited(s'.messages, s'.threads)
    decreases |reqs|
  {
    hide Inhabited, Apply, Admits, EmptiesThread, Base;
    if reqs != [] {
      AdmitsStored(scope, s, reqs[0]);
      StepBase(s, reqs[0]);
      StepInhabited(s, reqs[0]);
      RunInhabited(scope, Apply(s, reqs[0]).state, reqs[1..], s');
    }
  }

  /** The messages that share a thread with k: those with its subject, and k itself. */
  ghost predicate SameClass(messages: Messages, k: Id, j: Id)
    requires k in messages && j in messages
  {
    j == k || SameSubject(messages[j].subject, messages[k].subject)
  }

  /** Thread t holds exactly the class of message k. */
  ghost predicate IsClass(messages: Messages, t: Id, k: Id) {
    k in messages && forall j :: j in messages ==> (messages[j].threadId == t <==> SameClass(messages, k, j))
  }

  /** Each thread is the class of one of its messages, and each message's thread
      is there and is its class. */
  ghost predicate ThreadsAreClasses(s: State) {
    && (forall t :: t in s.threads ==> exists k :: IsClass(s.messages, t, k))
    && (forall k :: k in s.messages ==>
          s.messages[k].threadId in s.threads && IsClass(s.messages, s.messages[k].threadId, k))
  }

  lemma ClassesFromThreading(s: State)
    requires MessagesWF(s.messages, s.threads) && Threaded(s.messages) && Inhabited(s.messages, s.threads)
    ensures ThreadsAreClasses(s)
  {
    hide IsClass, Threaded, MessagesWF;
    forall k | k in s.messages ensures IsClass(s.messages, s.messages[k].threadId, k) {
      ClassOf(s.messages, k);
    }
    forall t | t in s.threads ensures exists k :: IsClass(s.messages, t, k) {
      var k :| InThread(s.messages, k, t);
      assert IsClass(s.messages, t, k);
    }
    LiveThreads(s.messages, s.threads);
  }

  lemma ClassOf(messages: Messages, k: Id)
    requires Threaded(messages) && k in messages
    ensures IsClass(messages, messages[k].threadId, k)
  {
    hide SameClass, Threaded;
    forall j | j in messages ensures messages[j].threadId == messages[k].threadId <==> SameClass(messages, k, j) {
      PairClass(messages, k, j);
    }
  }

  lemma PairClass(messages: Messages, k: Id, j: Id)
    requires Threaded(messages) && k in messages && j in messages
    ensures messages[j].threadId == messages[k].threadId <==> SameClass(messages, k, j)
  {
    hide SameSubject;
  }

  lemma LiveThreads(messages: Messages, threads: Threads)
    requires MessagesWF(messages, threads)
    ensures forall k :: k in messages ==> messages[k].threadId in threads
  {
  }

  /** After such a run from the initial state, in which moreover every message
      is stored under a new id, the threads are exactly the classes of messages
      with the same subject. */
  lemma RunYieldsClasses(scope: Scope, reqs: seq<Request>, s: State)
    requires scope.newThreads && scope.noOverwrite && scope.allStored && Run(scope, DefaultState(), reqs, s)
    ensures ThreadsAreClasses(s)
  {
    hide Run, MessagesWF, Threaded, Inhabited, ThreadsAreClasses;
    DefaultBase();
    DefaultThreaded();
    RunThreaded(scope, DefaultState(), reqs, s);
    RunInhabited(scope, DefaultState(), reqs, s);
    ClassesFromThreading(s);
  }

  lemma DefaultThreaded()
    ensures Threaded(DefaultState().messages) && Inhabited(DefaultState().messages, DefaultState().threads)
  {
  }

  // ---------------------------------------------------------------------
  // Replies and forwards
  // ---------------------------------------------------------------------

  lemma {:induction false} TrimShortens(s: string, prefix: string)
    requires prefix != ""
    ensures |TrimPrefix(s, prefix)| <= |s|
    ensures StartsWith(s, prefix) ==> |TrimPrefix(s, prefix)| < |s|
    decreases |s|
  {
    if StartsWith(s, prefix) {
      TrimShortens(s[|prefix|..], prefix);
    }
  }

  /** A string with one prefix does not start with another that differs at i. */
  lemma OtherPrefix(s: string, prefix: string, other: string, i: nat)
    requires StartsWith(s, prefix) && i < |prefix| && i < |other| && prefix[i] != other[i]
    ensures TrimPrefix(s, other) == s
  {
    assert s[..|prefix|][i] == s[i];
    if |other| <= |s| {
      assert s[..|other|][i] == s[i];
    }
  }

  lemma OwnPrefix(prefix: string, s: string)
    requires prefix != ""
    ensures StartsWith(prefix + s, prefix) && TrimPrefix(prefix + s, prefix) == TrimPrefix(s, prefix)
  {
    assert (prefix + s)[..|prefix|] == prefix && (prefix + s)[|prefix|..] == s;
  }

  /** Normalising shortens what starts with one of the first four prefixes. */
  lemma NormalizeShortens(s: string)
    ensures |Normalize(s)| <= |s|
    ensures StartsWith(s, "Re: ") ==> |Normalize(s)| < |s|
    ensures StartsWith(s, "RE: ") || StartsWith(s, "re: ") || StartsWith(s, "Fwd: ") ==> |Normalize(s)| < |s|
  {
    hide TrimPrefix;
    var a := TrimPrefix(s, "Re: ");
    var b := TrimPrefix(a, "RE: ");
    var c := TrimPrefix(b, "re: ");
    var d := TrimPrefix(c, "Fwd: ");
    TrimShortens(s, "Re: ");
    TrimShortens(a, "RE: ");
    TrimShortens(b, "re: ");
    TrimShortens(c, "Fwd: ");
    TrimShortens(d, "FWD: ");
    if StartsWith(s, "RE: ") {
      OtherPrefix(s, "RE: ", "Re: ", 1);
    } else if StartsWith(s, "re: ") {
      OtherPrefix(s, "re: ", "Re: ", 0);
      OtherPrefix(s, "re: ", "RE: ", 0);
    } else if StartsWith(s, "Fwd: ") {
      OtherPrefix(s, "Fwd: ", "Re: ", 0);
      OtherPrefix(s, "Fwd: ", "RE: ", 0);
      OtherPrefix(s, "Fwd: ", "re: ", 0);
    }
  }

  lemma NotTrimmed(s: string, prefix: string)
    requires !StartsWith(s, prefix) && prefix != ""
    ensures TrimPrefix(s, prefix) == s
  {
  }

  /** A reply with "Re: " always has the subject it answers. With "RE: " it has
      exactly if that does not start with "Re: ", and with "re: " exactly if it
      starts with neither: prefixes are stripped once, in a fixed order. */
  lemma ReplyKeepsSubject(subject: string)
    ensures Normalize("Re: " + subject) == Normalize(subject)
    ensures Normalize("RE: " + subject) == Normalize(subject) <==> !StartsWith(subject, "Re: ")
    ensures Normalize("re: " + subject) == Normalize(subject)
       <==> !StartsWith(subject, "Re: ") && !StartsWith(subject, "RE: ")
  {
    ReReply(subject);
    REReply(subject);
    LowerReply(subject);
  }

  lemma ReReply(s: string)
    ensures Normalize("Re: " + s) == Normalize(s)
  {
    OwnPrefix("Re: ", s);
    hide TrimPrefix;
  }

  lemma REReply(s: string)
    ensures Normalize("RE: " + s) == Normalize(s) <==> !StartsWith(s, "Re: ")
  {
    hide TrimPrefix;
    var r := "RE: " + s;
    OwnPrefix("RE: ", s);
    OtherPrefix(r, "RE: ", "Re: ", 1);
    if StartsWith(s, "Re: ") {
      NormalizeShortens(s);
      OtherPrefix(s, "Re: ", "RE: ", 1);
      OtherPrefix(s, "Re: ", "re: ", 0);
      OtherPrefix(s, "Re: ", "Fwd: ", 0);
      OtherPrefix(s, "Re: ", "FWD: ", 0);
    } else {
      NotTrimmed(s, "Re: ");
    }
  }

  lemma LowerReply(s: string)
    ensures Normalize("re: " + s) == Normalize(s) <==> !StartsWith(s, "Re: ") && !StartsWith(s, "RE: ")
  {
    hide TrimPrefix;
    var r := "re: " + s;
    OwnPrefix("re: ", s);
    OtherPrefix(r, "re: ", "Re: ", 0);
    OtherPrefix(r, "re: ", "RE: ", 0);
    if StartsWith(s, "Re: ") || StartsWith(s, "RE: ") {
      var p := if StartsWith(s, "Re: ") then "Re: " else "RE: ";
      NormalizeShortens(s);
      OtherPrefix(s, p, "re: ", 0);
      OtherPrefix(s, p, "Fwd: ", 0);
      OtherPrefix(s, p, "FWD: ", 0);
    } else {
      NotTrimmed(s, "Re: ");
      NotTrimmed(s, "RE: ");
    }
  }

  predicate IsReply(s: string) {
    StartsWith(s, "Re: ") || StartsWith(s, "RE: ") || StartsWith(s, "re: ")
  }

  /** A forward has the subject of what it forwards exactly if that is no reply,
      and with "FWD: " no "Fwd: " forward either. */
  lemma ForwardKeepsSubject(subject: string)
    ensures Normalize("Fwd: " + subject) == Normalize(subject) <==> !IsReply(subject)
    ensures Normalize("FWD: " + subject) == Normalize(subject)
       <==> !IsReply(subject) && !StartsWith(subject, "Fwd: ")
  {
    hide Normalize;
    FwdForward(subject);
    FWDForward(subject);
  }

  /** A reply starts with neither of the forward prefixes. */
  lemma ReplyIsNoForward(s: string)
    requires IsReply(s)
    ensures TrimPrefix(s, "Fwd: ") == s && TrimPrefix(s, "FWD: ") == s
  {
    var p := if StartsWith(s, "Re: ") then "Re: " else if StartsWith(s, "RE: ") then "RE: " else "re: ";
    hide TrimPrefix;
    OtherPrefix(s, p, "Fwd: ", 0);
    OtherPrefix(s, p, "FWD: ", 0);
  }

  lemma NoReplyPrefix(s: string)
    requires !IsReply(s)
    ensures Normalize(s) == TrimPrefix(TrimPrefix(s, "Fwd: "), "FWD: ")
  {
    hide TrimPrefix;
    NotTrimmed(s, "Re: ");
    NotTrimmed(s, "RE: ");
    NotTrimmed(s, "re: ");
  }

  lemma NotAReply(prefix: string, s: string)
    requires prefix != "" && prefix[0] == 'F'
    ensures !IsReply(prefix + s)
  {
    var r := prefix + s;
    assert r[0] == 'F';
    forall p | |p| == 4 && p[0] != 'F' ensures !StartsWith(r, p) {
      if 4 <= |r| {
        assert r[..4][0] == 'F';
      }
    }
  }

  lemma FwdForward(s: string)
    ensures Normalize("Fwd: " + s) == Normalize(s) <==> !IsReply(s)
  {
    hide TrimPrefix, IsReply, Normalize;
    NotAReply("Fwd: ", s);
    NoReplyPrefix("Fwd: " + s);
    OwnPrefix("Fwd: ", s);
    if IsReply(s) {
      ReplyIsNoForward(s);
      RepliesShorten(s);
    } else {
      NoReplyPrefix(s);
    }
  }

  lemma RepliesShorten(s: string)
    requires IsReply(s)
    ensures |Normalize(s)| < |s|
  {
    hide Normalize, StartsWith;
    NormalizeShortens(s);
  }

  lemma FWDForward(s: string)
    ensures Normalize("FWD: " + s) == Normalize(s) <==> !IsReply(s) && !StartsWith(s, "Fwd: ")
  {
    hide TrimPrefix, IsReply, Normalize;
    NotAReply("FWD: ", s);
    NoReplyPrefix("FWD: " + s);
    OwnPrefix("FWD: ", s);
    OtherPrefix("FWD: " + s, "FWD: ", "Fwd: ", 1);
    if IsReply(s) {
      ReplyIsNoForward(s);
      RepliesShorten(s);
    } else if StartsWith(s, "Fwd: ") {
      OtherPrefix(s, "Fwd: ", "FWD: ", 1);
      NormalizeShortens(s);
    } else {
      NoReplyPrefix(s);
      NotTrimmed(s, "Fwd: ");
    }
  }
}
