/** Runs of Gmail requests, the conditions a run may be held to, and what holds
    over every run. */
module GmailRuns {
  import opened Decimal
  import opened GmailModel
  import opened GmailInvariants
  import opened GmailIds

  /** What the arriving messages of a run may not do:
      `newThreads`: name a live thread explicitly;
      `noOverwrite`: be stored under the id of a live message;
      `allStored`: fail to decode;
      `newFiles`: bring an attachment id twice, or one that is in use. */
  datatype Scope = Scope(newThreads: bool, noOverwrite: bool, allStored: bool, newFiles: bool)

  const ANY := Scope(false, false, false, false)

  ghost predicate NamesLiveThread(s: State, r: Request)
    requires IsArrival(r)
  {
    Explicit(r).Some? && Explicit(r).value in s.threads
  }

  predicate DistinctIds(refs: seq<AttachmentRef>) {
    forall i, j :: 0 <= i < j < |refs| ==> refs[i].id != refs[j].id
  }

  ghost predicate FilesAreNew(s: State, r: Request)
    requires IsArrival(r)
  {
    var refs := StoredFiles(s, r).refs;
    DistinctIds(refs) && forall i :: 0 <= i < |refs| ==> refs[i].id !in s.attachments
  }

  ghost predicate Admits(scope: Scope, s: State, r: Request) {
    && NoWrap(s, r)
    && (IsArrival(r) ==>
          && (scope.newThreads ==> !NamesLiveThread(s, r))
          && (scope.noOverwrite ==> TargetId(s, r) !in s.messages)
          && (scope.allStored ==> Apply(s, r).result.Ok?)
          && (scope.newFiles ==> FilesAreNew(s, r)))
  }

  ghost predicate Run(scope: Scope, s: State, reqs: seq<Request>, s': State)
    decreases |reqs|
  {
    if reqs == [] then s' == s
    else Admits(scope, s, reqs[0]) && Run(scope, Apply(s, reqs[0]).state, reqs[1..], s')
  }

  // ---------------------------------------------------------------------
  // Every run
  // ---------------------------------------------------------------------

  ghost predicate ThreadsFresh(s: State) {
    FreshKeys(s.threads.Keys, "thread_", s.nextId)
  }

  /** What every run keeps. */
  ghost predicate Base(s: State) {
    WF(s) && ThreadsFresh(s) && HistoryBelow(s)
  }

  lemma DefaultBase()
    ensures Base(DefaultState())
  {
  }

  lemma StepBase(s: State, r: Request)
    requires Base(s) && NoWrap(s, r)
    ensures Base(Apply(s, r).state)
  {
    hide Apply, WF, FreshKeys, HistoryBelow, NoWrap;
    StepWF(s, r);
    StepThreadsFresh(s, r);
    StepHistoryBelow(s, r);
  }

  lemma AdmitsNoWrap(scope: Scope, s: State, r: Request)
    requires Admits(scope, s, r)
    ensures NoWrap(s, r)
  {
  }

  /** References, thread ids and history ids are sound after every run. */
  lemma {:induction false} RunBase(scope: Scope, s: State, reqs: seq<Request>, s': State)
    requires Base(s) && Run(scope, s, reqs, s')
    ensures Base(s')
    decreases |reqs|
  {
    hide Base, Apply, Admits;
    if reqs != [] {
      AdmitsNoWrap(scope, s, reqs[0]);
      StepBase(s, reqs[0]);
      RunBase(scope, Apply(s, reqs[0]).state, reqs[1..], s');
    }
  }

  /** Finding or creating a thread adds at most a thread without messages, and
      leaves the other summaries alone. */
  lemma JoinedSummaries(s: State, r: Request)
    requires IsArrival(r) && Base(s) && NoWrap(s, r)
    ensures var (s1, tid) := Joined(s, r);
      && (forall t :: t in s1.threads ==>
            (t in s.threads && s1.threads[t] == s.threads[t]) || (t == tid && t !in s.threads))
      && (forall t :: t in s.threads ==> t in s1.threads)
      && (tid !in s.threads <==> FindThread(BeforeThread(s, r), Explicit(r), Subject(r)).None?)
      && tid in s1.threads
      && (tid !in s.threads ==> forall k :: !InThread(s.messages, k, tid))
  {
    BeforeCounters(s, r);
    FindThreadLive(s, r);
    hide FindThread, Explicit, Subject, Files, HistoryBelow, BeforeThread, Print;
    var b := BeforeThread(s, r);
    assert ThreadId(b.nextId) == Numbered("thread_", b.nextId);
    FreshThread(s, b.nextId);
  }

  lemma FreshThread(s: State, n: nat)
    requires Base(s) && s.nextId <= n < U64
    ensures Numbered("thread_", n) !in s.threads && forall k :: !InThread(s.messages, k, Numbered("thread_", n))
  {
    hide Numbered;
  }

  lemma FindThreadLive(s: State, r: Request)
    requires IsArrival(r) && WF(s)
    ensures var f := FindThread(BeforeThread(s, r), Explicit(r), Subject(r)); f.Some? ==> f.value in s.threads
  {
    FindThreadMeaning(BeforeThread(s, r), Explicit(r), Subject(r));
    hide FindThread, Explicit, Subject, SameSubject;
  }

  // ---------------------------------------------------------------------
  // Thread ids are never reused
  // ---------------------------------------------------------------------

  ghost predicate RetiredThread(s: State, t: Id) {
    t !in s.threads && NotPending(t, "thread_", s.nextId)
  }

  lemma StepRetired(s: State, r: Request, t: Id)
    requires NoWrap(s, r) && RetiredThread(s, t)
    ensures RetiredThread(Apply(s, r).state, t)
  {
    hide Apply;
    StepCounters(s, r);
    var s' := Apply(s, r).state;
    if t in s'.threads {
      StepThreadKeys(s, r, t);
      AllocatedWasPending(t, s.nextId, s'.nextId);
    }
  }

  lemma AllocatedWasPending(t: Id, a: nat, b: nat)
    requires b <= U64
    ensures Allocated(t, "thread_", a, b) ==> !NotPending(t, "thread_", a)
  {
  }

  lemma {:induction false} RetiredForGood(scope: Scope, s: State, reqs: seq<Request>, s': State, t: Id)
    requires Run(scope, s, reqs, s') && RetiredThread(s, t)
    ensures RetiredThread(s', t)
    decreases |reqs|
  {
    hide RetiredThread, Apply, Admits;
    if reqs != [] {
      AdmitsNoWrap(scope, s, reqs[0]);
      StepRetired(s, reqs[0], t);
      RetiredForGood(scope, Apply(s, reqs[0]).state, reqs[1..], s', t);
    }
  }

  lemma {:induction false} RunCounter(scope: Scope, s: State, reqs: seq<Request>, s': State)
    requires Run(scope, s, reqs, s')
    ensures s.nextId <= s'.nextId
    decreases |reqs|
  {
    hide Apply, Admits;
    if reqs != [] {
      AdmitsNoWrap(scope, s, reqs[0]);
      StepCounters(s, reqs[0]);
      RunCounter(scope, Apply(s, reqs[0]).state, reqs[1..], s');
    }
  }

  /** The id of a thread that is gone is never used for another thread. */
  lemma DeletedThreadStaysAway(scope: Scope, s: State, reqs1: seq<Request>, s1: State, reqs2: seq<Request>, s2: State,
                               t: Id)
    requires Base(s) && Run(scope, s, reqs1, s1) && Run(scope, s1, reqs2, s2)
    requires t in s.threads && t !in s1.threads
    ensures t !in s2.threads
  {
    hide Run, WF, HistoryBelow;
    RunCounter(scope, s, reqs1, s1);
    InFreshKeys(s.threads.Keys, "thread_", s.nextId, t);
    PendingShrinks(t, s.nextId, s1.nextId);
    RetiredForGood(scope, s1, reqs2, s2, t);
  }

  lemma PendingShrinks(t: Id, a: nat, b: nat)
    requires NotPending(t, "thread_", a) && a <= b
    ensures NotPending(t, "thread_", b)
  {
  }
}
