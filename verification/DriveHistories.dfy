/** Every state the Drive twin can get into by seeding, accepted or refused, and
    by requests, in any order. */
module DriveHistories {
  import opened Decimal
  import opened ParentGraph
  import opened DriveModel
  import opened DriveInvariants
  import opened DriveRuns
  import opened DriveTree
  import opened DriveSeeding

  datatype Event = Asked(req: Request) | Loaded(files: seq<SeedFile>)

  ghost function After(s: State, e: Event, decode: Decoder): State {
    match e
    case Asked(req) => Apply(s, req).state
    case Loaded(files) => TrySeed(s, files, decode).state
  }

  /** The request returns, and the id counter does not wrap. */
  ghost predicate Possible(s: State, e: Event) {
    match e
    case Asked(req) => Returns(s, req) && s.nextId + 1 < U64
    case Loaded(files) => NoLastNumber(multiset(NonRoot(files)))
  }

  ghost predicate History(s: State, events: seq<Event>, decode: Decoder, s': State)
    decreases |events|
  {
    if events == [] then s' == s
    else Possible(s, events[0]) && History(After(s, events[0], decode), events[1..], decode, s')
  }

  lemma EventKeepsInv(s: State, e: Event, decode: Decoder)
    requires Inv(s) && Possible(s, e)
    ensures Inv(After(s, e, decode))
  {
    hide Structured, ContentAgrees, Apply, TrySeed, NoLastNumber, NonRoot, Returns;
    match e
    case Asked(req) => StepInvShort(s, req);
    case Loaded(files) => SeedingKeepsInv(s, files, decode);
  }

  lemma {:induction false} HistoryKeepsInv(s: State, events: seq<Event>, decode: Decoder, s': State)
    requires Inv(s) && History(s, events, decode, s')
    ensures Inv(s')
    decreases |events|
  {
    hide Inv, Possible, After;
    if events != [] {
      EventKeepsInv(s, events[0], decode);
      HistoryKeepsInv(After(s, events[0], decode), events[1..], decode, s');
    }
  }

  /** In every reachable state all parents are folders, sizes are those of the
      contents, ids to come are unused, there is no orphan, and the tree shows
      exactly the items below the root. */
  lemma ReachableStates(events: seq<Event>, decode: Decoder, s: State, index: ChildIndex)
    requires History(DefaultState(), events, decode, s) && Indexes(index, s.items)
    ensures Inv(s) && !HasOrphans(s.items)
    ensures Ready(s.items, index) && AtDepth(s.items, ROOT, 0)
    ensures IsTreeOf(s.items, BuildTreeNode(s.items, index, ROOT, s.items[ROOT].name, 0))
  {
    hide History, IsTreeOf, BuildTreeNode, ContentAgrees, Fresh, Indexes, AtDepth;
    DefaultInv();
    HistoryKeepsInv(DefaultState(), events, decode, s);
    TreeExact(s.items, index);
  }

  /** A request that moves an item into its own subtree. */
  ghost predicate MovesInward(s: State, e: Event) {
    && e.Asked? && Apply(s, e.req).result.Ok? && Relink(e.req).Some?
    && Relink(e.req).value.1 in Subtree(s.items, Relink(e.req).value.0)
  }

  /** From acyclic links, exactly such a request ends with a cycle; seeding never does. */
  lemma EventAcyclic(s: State, e: Event, decode: Decoder)
    requires Inv(s) && Acyclic(Up(s.items))
    ensures Acyclic(Up(After(s, e, decode).items)) <==> !MovesInward(s, e)
  {
    hide Structured, ContentAgrees, Fresh, Apply, TrySeed, Acyclic, Subtree, Up;
    match e
    case Asked(req) => StepAcyclic(s, req);
    case Loaded(files) =>
      InRange(s);
      SeedingKeepsInv(s, files, decode);
  }

  lemma InRange(s: State)
    requires Fresh(s)
    ensures s.nextId < U64
  {
  }
}
