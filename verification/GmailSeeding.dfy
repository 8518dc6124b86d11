/** Seeding a Gmail state: labels, then messages, then the id counter is raised
    above every number in use. */
module GmailSeeding {
  import opened Wrappers
  import opened Decimal
  import opened GmailModel
  import opened GmailInvariants
  import opened GmailIds
  import opened GmailRuns

  datatype SeedLabel = SeedLabel(id: Id, name: string, labelType: string)

  /** The labels with those of the seeds that are new; earlier ones win. */
  function WithSeedLabels(labels: map<Id, Label>, seeds: seq<SeedLabel>): map<Id, Label> {
    if seeds == [] then labels
    else
      var before := WithSeedLabels(labels, seeds[..|seeds| - 1]);
      var l := seeds[|seeds| - 1];
      if l.id in before then before
      else before[l.id := Label(l.id, l.name, if l.labelType == "system" then System else User, Show, LabelShow)]
  }

  /** The state after inserting the messages in order, up to the first failure. */
  function SeedMessages(s: State, raws: seq<Raw>): (State, bool) {
    if raws == [] then (s, true)
    else
      var (before, ok) := SeedMessages(s, raws[..|raws| - 1]);
      if !ok then (before, false)
      else
        var o := Insert(before, raws[|raws| - 1]);
        (o.state, o.result.Ok?)
  }

  // ---------------------------------------------------------------------
  // Numbers in ids
  // ---------------------------------------------------------------------

  /** What follows the last underscore; all of s if there is none. */
  function LastPiece(s: string): string {
    if s == "" || s[|s| - 1] == '_' then "" else LastPiece(s[..|s| - 1]) + [s[|s| - 1]]
  }

  function ExtractNumber(id: Id): nat {
    var n := ParseU64(LastPiece(id));
    if n.Some? then n.value else 0
  }

  lemma {:induction false} LastPieceOf(prefix: string, digits: string)
    requires prefix != "" && prefix[|prefix| - 1] == '_' && '_' !in digits
    ensures LastPiece(prefix + digits) == digits
    decreases |digits|
  {
    if digits == "" {
      assert prefix + digits == prefix;
    } else {
      var s, init := prefix + digits, digits[..|digits| - 1];
      assert s[..|s| - 1] == prefix + init && digits == init + [digits[|digits| - 1]];
      LastPieceOf(prefix, init);
    }
  }

  lemma {:induction false} NoPieces(s: string)
    requires '_' !in s
    ensures LastPiece(s) == s
    decreases |s|
  {
    if s != "" {
      NoPieces(s[..|s| - 1]);
      assert s == s[..|s| - 1] + [s[|s| - 1]];
    }
  }

  /** The number of an id is what follows its last underscore, if that writes a
      64-bit number, and 0 otherwise; without an underscore all of it counts. */
  lemma ExtractMeaning(before: string, piece: string)
    requires '_' !in piece && (before == "" || before[|before| - 1] == '_')
    ensures forall n: nat :: n < U64 && Writes(piece, n) ==> ExtractNumber(before + piece) == n
    ensures (forall n: nat :: n < U64 ==> !Writes(piece, n)) ==> ExtractNumber(before + piece) == 0
  {
    hide Writes, Parse;
    if before == "" {
      assert before + piece == piece;
      NoPieces(piece);
    } else {
      LastPieceOf(before, piece);
    }
    forall n: nat | n < U64 && Writes(piece, n) ensures ParseU64(piece) == Some(n) {
      ParseMeaning(piece, U64, n);
    }
    if ParseU64(piece).Some? {
      ParseMeaning(piece, U64, ParseU64(piece).value);
    }
  }

  lemma ExtractNumbered(prefix: string, n: nat)
    requires prefix != "" && prefix[|prefix| - 1] == '_' && n < U64
    ensures ExtractNumber(Numbered(prefix, n)) == n
  {
    LastPieceOf(prefix, Print(n));
    ParsePrint(n, U64);
  }

  function AllKeys(s: State): set<Id> {
    s.messages.Keys + s.threads.Keys + s.labels.Keys + s.attachments.Keys
  }

  /** m is the greatest number in the ids, or 0. */
  ghost predicate IsMaxNumber(keys: set<Id>, m: nat) {
    && (forall id :: id in keys ==> ExtractNumber(id) <= m)
    && (m == 0 || exists id :: id in keys && ExtractNumber(id) == m)
  }

  function Raised(next: nat, m: nat): nat {
    if m >= next then Bump(m) else next
  }

  // ---------------------------------------------------------------------
  // The seeded state
  // ---------------------------------------------------------------------

  lemma RaisedIsFresh(keys: set<Id>, all: set<Id>, prefix: string, next: nat, m: nat)
    requires keys <= all && IsMaxNumber(all, m) && m + 1 < U64
    requires prefix != "" && prefix[|prefix| - 1] == '_'
    ensures FreshKeys(keys, prefix, Raised(next, m))
  {
    hide ExtractNumber, Numbered;
    forall n: nat | Raised(next, m) <= n < U64 ensures Numbered(prefix, n) !in keys {
      ExtractNumbered(prefix, n);
    }
  }

  /** Raising the counter makes every kind of allocated id fresh, whatever the
      ids in the state are, unless the greatest number is the last one. */
  lemma BumpMakesFresh(s: State, m: nat)
    requires IsMaxNumber(AllKeys(s), m) && m + 1 < U64
    ensures Fresh(s.(nextId := Raised(s.nextId, m)))
  {
    hide IsMaxNumber, FreshKeys;
    RaisedIsFresh(s.messages.Keys, AllKeys(s), "msg_", s.nextId, m);
    RaisedIsFresh(s.threads.Keys, AllKeys(s), "thread_", s.nextId, m);
    RaisedIsFresh(s.labels.Keys, AllKeys(s), "Label_", s.nextId, m);
    RaisedIsFresh(s.attachments.Keys, AllKeys(s), "att_", s.nextId, m);
  }

  /** The ids and history ids a list of inserted messages can consume. */
  function TotalIds(raws: seq<Raw>): nat {
    if raws == [] then 0 else TotalIds(raws[..|raws| - 1]) + 2 + |raws[|raws| - 1].attachments|
  }

  lemma {:induction false} SeedMessagesBase(s: State, raws: seq<Raw>)
    requires Base(s) && s.nextId + TotalIds(raws) < U64 && s.nextHistoryId + 2 * |raws| + 2 < U64
    ensures var s' := SeedMessages(s, raws).0;
      && Base(s') && s'.nextId <= s.nextId + TotalIds(raws)
      && s'.nextHistoryId <= s.nextHistoryId + 2 * |raws|
    decreases |raws|
  {
    hide Base, Insert;
    if raws != [] {
      var init, last := raws[..|raws| - 1], raws[|raws| - 1];
      SeedMessagesBase(s, init);
      var (before, ok) := SeedMessages(s, init);
      if ok {
        InsertBase(before, last);
      }
    }
  }

  lemma InsertBase(s: State, raw: Raw)
    requires Base(s) && s.nextId + 2 + |raw.attachments| < U64 && s.nextHistoryId + 2 < U64
    ensures var s' := Insert(s, raw).state;
      Base(s') && s'.nextId <= s.nextId + 2 + |raw.attachments| && s'.nextHistoryId <= s.nextHistoryId + 2
  {
    hide Base, Insert;
    var r := InsertMessage(raw);
    StepBase(s, r);
    StepCounters(s, r);
  }

  lemma SeedLabelsBase(s: State, seeds: seq<SeedLabel>)
    requires Base(s)
    ensures Base(s.(labels := WithSeedLabels(s.labels, seeds)))
  {
    SeedLabelsWF(s.labels, seeds);
  }

  lemma {:induction false} SeedLabelsWF(labels: map<Id, Label>, seeds: seq<SeedLabel>)
    requires LabelsWF(labels)
    ensures LabelsWF(WithSeedLabels(labels, seeds))
    decreases |seeds|
  {
    if seeds != [] {
      SeedLabelsWF(labels, seeds[..|seeds| - 1]);
    }
  }

  lemma RaisedBase(s: State, m: nat)
    requires Base(s) && m + 1 < U64
    ensures Base(s.(nextId := Raised(s.nextId, m)))
  {
  }

  /** The state after the labels and the messages of a scenario, and whether
      every message went in. */
  function Loaded(s: State, seeds: seq<SeedLabel>, raws: seq<Raw>): (State, bool) {
    SeedMessages(s.(labels := WithSeedLabels(s.labels, seeds)), raws)
  }

  lemma LoadedBase(s: State, seeds: seq<SeedLabel>, raws: seq<Raw>)
    requires Base(s) && s.nextId + TotalIds(raws) < U64 && s.nextHistoryId + 2 * |raws| + 2 < U64
    ensures Base(Loaded(s, seeds, raws).0)
  {
    hide Base, SeedMessages, WithSeedLabels;
    SeedLabelsBase(s, seeds);
    SeedMessagesBase(s.(labels := WithSeedLabels(s.labels, seeds)), raws);
  }

  /** Seeding a state that satisfies the invariants of every run keeps them, and
      no id in the result collides with one still to be allocated. */
  lemma SeededState(s: State, seeds: seq<SeedLabel>, raws: seq<Raw>, m: nat)
    requires Base(s) && s.nextId + TotalIds(raws) < U64 && s.nextHistoryId + 2 * |raws| + 2 < U64
    requires IsMaxNumber(AllKeys(Loaded(s, seeds, raws).0), m) && m + 1 < U64
    ensures var s1 := Loaded(s, seeds, raws).0;
            var s' := s1.(nextId := Raised(s1.nextId, m));
      Base(s') && Fresh(s')
  {
    hide Base, Fresh, IsMaxNumber, AllKeys, Loaded, Raised, TotalIds;
    LoadedBase(s, seeds, raws);
    var s1 := Loaded(s, seeds, raws).0;
    BumpMakesFresh(s1, m);
    RaisedBase(s1, m);
  }
}
