/** Whole runs of the Gmail twin: seeding is itself a run of insertions, and
    everything proved of runs holds from a seeded state on. */
module GmailSeededRuns {
  import opened Decimal
  import opened GmailModel
  import opened GmailInvariants
  import opened GmailIds
  import opened GmailRuns
  import opened GmailThreading
  import opened GmailSnippets
  import opened GmailAttachments
  import opened GmailSeeding
  import opened GmailProper

  function Insertions(raws: seq<Raw>): seq<Request> {
    if raws == [] then [] else Insertions(raws[..|raws| - 1]) + [InsertMessage(raws[|raws| - 1])]
  }

  /** The state before the last request of a run. */
  lemma {:induction false} RunSplit(scope: Scope, s: State, reqs: seq<Request>, r: Request, s': State)
    returns (s1: State)
    requires Run(scope, s, reqs + [r], s')
    ensures Run(scope, s, reqs, s1) && Admits(scope, s1, r) && s' == Apply(s1, r).state
    decreases |reqs|
  {
    hide Admits, Apply;
    assert (reqs + [r])[0] == if reqs == [] then r else reqs[0];
    if reqs == [] {
      assert (reqs + [r])[1..] == [];
      s1 := s;
    } else {
      assert (reqs + [r])[1..] == reqs[1..] + [r];
      s1 := RunSplit(scope, Apply(s, reqs[0]).state, reqs[1..], r, s');
    }
  }

  /** Seeding messages does what inserting them one after the other does. */
  lemma {:induction false} SeedingIsARun(scope: Scope, s: State, raws: seq<Raw>, s1: State)
    requires scope.allStored && Run(scope, s, Insertions(raws), s1)
    ensures SeedMessages(s, raws) == (s1, true)
    decreases |raws|
  {
    hide Admits, Insert;
    if raws != [] {
      var init, r := raws[..|raws| - 1], InsertMessage(raws[|raws| - 1]);
      var before := RunSplit(scope, s, Insertions(init), r, s1);
      SeedingIsARun(scope, s, init, before);
      AdmitsDelivered(scope, before, r);
    }
  }

  lemma AdmitsDelivered(scope: Scope, s: State, r: Request)
    requires scope.allStored && IsArrival(r) && Admits(scope, s, r)
    ensures Apply(s, r).result.Ok?
  {
    hide Apply, TargetId, FilesAreNew, NamesLiveThread;
  }

  /** Threads, summaries and attachments fit the messages; in a threaded run,
      threads go by subject. */
  ghost predicate Sound(threaded: bool, s: State) {
    && Base(s)
    && (threaded ==> Threaded(s.messages))
    && Inhabited(s.messages, s.threads)
    && SnippetsAgree(s)
    && Conserved(s)
  }

  lemma DefaultSound()
    ensures Sound(true, DefaultState())
  {
    DefaultBase();
    DefaultThreaded();
  }

  lemma RunSound(threaded: bool, s: State, reqs: seq<Request>, s': State)
    requires Sound(threaded, s) && Run(Strict(threaded), s, reqs, s')
    ensures Sound(threaded, s')
  {
    hide Run, Base, Threaded, Inhabited, SnippetsAgree, Conserved;
    if threaded {
      RunThreaded(Strict(threaded), s, reqs, s');
    }
    RunInhabited(Strict(threaded), s, reqs, s');
    RunSnippets(Strict(threaded), s, reqs, s');
    RunConserved(Strict(threaded), s, reqs, s');
  }

  /** The rest of a state does not matter to the agreement of its messages,
      threads and attachments. */
  lemma SameSound(threaded: bool, s: State, s': State)
    requires Sound(threaded, s) && Base(s')
    requires s'.messages == s.messages && s'.threads == s.threads && s'.attachments == s.attachments
    ensures Sound(threaded, s')
  {
    hide Base, Threaded, Inhabited, AgreesAt, RefsStored, RefsUnique, StoreReferenced;
    assert SnippetsAgree(s') by {
      forall t ensures AgreesAt(s'.messages, s'.threads, t) {
        assert AgreesAt(s.messages, s.threads, t);
      }
    }
  }

  ghost function Labelled(seeds: seq<SeedLabel>): State {
    var s0 := DefaultState();
    s0.(labels := WithSeedLabels(s0.labels, seeds))
  }

  lemma LabelledSound(seeds: seq<SeedLabel>)
    ensures Sound(true, Labelled(seeds))
  {
    hide Sound, Base, WithSeedLabels, DefaultState;
    DefaultSound();
    DefaultBase();
    SeedLabelsBase(DefaultState(), seeds);
    SameSound(true, DefaultState(), Labelled(seeds));
  }

  lemma SoundParts(threaded: bool, s: State)
    requires Sound(threaded, s)
    ensures Base(s) && Sound(false, s)
  {
  }

  /** From the initial state, after seeding and any proper run: summaries are up
      to date, the attachment store holds what the messages reference and
      nothing else, and no id still to be allocated is in use. If no message
      named a live thread, threads are the classes of the messages. Seeded
      messages may bring any ids, as long as none is used twice. */
  lemma SeededRunSound(threaded: bool, seeds: seq<SeedLabel>, raws: seq<Raw>, s1: State, m: nat, reqs: seq<Request>,
                       s': State)
    requires Run(Strict(threaded), Labelled(seeds), Insertions(raws), s1)
    requires IsMaxNumber(AllKeys(s1), m) && m + 1 < U64
    requires ProperRun(threaded, s1.(nextId := Raised(s1.nextId, m)), reqs, s')
    ensures Loaded(DefaultState(), seeds, raws) == (s1, true)
    ensures Sound(threaded, s') && Fresh(s')
    ensures threaded ==> ThreadsAreClasses(s')
  {
    hide Run, ProperRun, Sound, SeedMessages, Labelled, Raised, ThreadsAreClasses, IsMaxNumber, AllKeys, Fresh,
         Loaded;
    var s0, s2 := Labelled(seeds), s1.(nextId := Raised(s1.nextId, m));
    LabelledSound(seeds);
    SoundParts(true, s0);
    SeedingIsARun(Strict(threaded), s0, raws, s1);
    LabelledLoads(seeds, raws);
    RunSound(threaded, s0, Insertions(raws), s1);
    SoundParts(threaded, s1);
    RaisedBase(s1, m);
    SameSound(threaded, s1, s2);
    BumpMakesFresh(s1, m);
    ProperRunIsStrict(threaded, s2, reqs, s');
    RunSound(threaded, s2, reqs, s');
    if threaded {
      SoundClasses(s');
    }
  }

  lemma LabelledLoads(seeds: seq<SeedLabel>, raws: seq<Raw>)
    ensures Loaded(DefaultState(), seeds, raws) == SeedMessages(Labelled(seeds), raws)
  {
    hide SeedMessages, WithSeedLabels, DefaultState;
  }

  lemma SoundClasses(s: State)
    requires Sound(true, s)
    ensures ThreadsAreClasses(s)
  {
    hide ThreadsAreClasses, Threaded, Inhabited, MessagesWF, ThreadsFresh, HistoryBelow, SnippetsAgree, Conserved;
    ClassesFromThreading(s);
  }
}
