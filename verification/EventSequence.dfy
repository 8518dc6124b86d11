/** The workflow event-sequence assertion: one cursor over the recorded events,
    never moved back, searching for each expected event in turn. */
module EventSequence {
  import opened Wrappers

  datatype Json =
    | Null
    | Bool(b: bool)
    | Num(n: int)
    | Str(s: string)
    | Arr(items: seq<Json>)
    | Obj(fields: map<string, Json>)

  /** Dictionary access with a default. */
  function Get(m: map<string, Json>, key: string, default: Json): Json {
    if key in m then m[key] else default
  }

  predicate EventMatches(expected: map<string, Json>, actual: map<string, Json>) {
    && Get(actual, "kind", Null) == Get(expected, "kind", Null)
    && var want := Get(expected, "attrs", Obj(map[]));
    && want.Obj?
    && var attrs := Get(actual, "attrs", Obj(map[]));
       var have := if attrs.Obj? then attrs.fields else map[];
       forall key :: key in want.fields ==> Get(have, key, Null) == want.fields[key]
  }

  predicate Matches(expected: Json, actual: Json) {
    expected.Obj? && actual.Obj? && EventMatches(expected.fields, actual.fields)
  }

  /** An expected event is met by an actual one exactly if both have the same
      kind, where none is Null, and each attribute asked for is there with the
      same value, where a missing one is Null. Attributes that are no object can
      not be asked for, and count as none where they are recorded. */
  lemma MatchMeaning(e: map<string, Json>, a: map<string, Json>)
    ensures EventMatches(e, a) <==>
      && (if "kind" in e then e["kind"] else Null) == (if "kind" in a then a["kind"] else Null)
      && ("attrs" in e ==>
            && e["attrs"].Obj?
            && forall key :: key in e["attrs"].fields ==>
                 if "attrs" in a && a["attrs"].Obj? && key in a["attrs"].fields
                 then a["attrs"].fields[key] == e["attrs"].fields[key]
                 else e["attrs"].fields[key] == Null)
  {
  }

  /** A strictly increasing choice of one matching event for each expected one. */
  ghost predicate IsEmbedding(at: seq<nat>, expected: seq<Json>, actual: seq<Json>) {
    && |at| == |expected|
    && (forall i :: 0 <= i < |at| ==> at[i] < |actual| && Matches(expected[i], actual[at[i]]))
    && (forall i, j :: 0 <= i < j < |at| ==> at[i] < at[j])
  }

  ghost predicate Embeds(expected: seq<Json>, actual: seq<Json>) {
    exists at :: IsEmbedding(at, expected, actual)
  }

  lemma EmbedsNothing(actual: seq<Json>)
    ensures Embeds([], actual)
  {
    assert IsEmbedding([], [], actual);
  }

  /** Positions counted after dropping the first event. */
  function Lowered(at: seq<nat>): seq<nat> {
    seq(|at|, i requires 0 <= i < |at| => if at[i] > 0 then at[i] - 1 else 0)
  }

  function Raised(at: seq<nat>): seq<nat> {
    seq(|at|, i requires 0 <= i < |at| => at[i] + 1)
  }

  lemma LowerEmbedding(at: seq<nat>, expected: seq<Json>, actual: seq<Json>)
    requires IsEmbedding(at, expected, actual) && actual != [] && (at != [] ==> at[0] > 0)
    ensures IsEmbedding(Lowered(at), expected, actual[1..])
  {
    hide Matches;
    assert forall i :: 0 < i < |at| ==> at[0] < at[i];
  }

  lemma RaiseEmbedding(at: seq<nat>, expected: seq<Json>, actual: seq<Json>)
    requires actual != [] && IsEmbedding(at, expected, actual[1..])
    ensures IsEmbedding(Raised(at), expected, actual)
  {
    hide Matches;
  }

  lemma DropFirst(at: seq<nat>, expected: seq<Json>, actual: seq<Json>)
    requires IsEmbedding(at, expected, actual) && expected != []
    ensures IsEmbedding(at[1..], expected[1..], actual) && forall i :: 0 < i < |at| ==> at[i] > 0
  {
    hide Matches;
    assert forall i :: 0 < i < |at| ==> at[0] < at[i];
  }

  lemma PrependEmbedding(at: seq<nat>, expected: seq<Json>, actual: seq<Json>)
    requires expected != [] && actual != [] && Matches(expected[0], actual[0])
    requires IsEmbedding(at, expected[1..], actual) && forall i :: 0 <= i < |at| ==> at[i] > 0
    ensures IsEmbedding([0] + at, expected, actual)
  {
    hide Matches;
    var at' := [0] + at;
    assert forall i :: 0 < i < |at'| ==> at'[i] == at[i - 1];
  }

  /** An event that does not match the next expected one can be skipped. */
  lemma SkipEvent(expected: seq<Json>, actual: seq<Json>)
    requires expected != [] && actual != [] && !Matches(expected[0], actual[0])
    ensures Embeds(expected, actual) <==> Embeds(expected, actual[1..])
  {
    hide Matches;
    if Embeds(expected, actual) {
      var at :| IsEmbedding(at, expected, actual);
      LowerEmbedding(at, expected, actual);
    }
    if Embeds(expected, actual[1..]) {
      var at :| IsEmbedding(at, expected, actual[1..]);
      RaiseEmbedding(at, expected, actual);
    }
  }

  /** An event that matches the next expected one can be taken at once: any
      embedding can be moved to use it. */
  lemma TakeEvent(expected: seq<Json>, actual: seq<Json>)
    requires expected != [] && actual != [] && Matches(expected[0], actual[0])
    ensures Embeds(expected, actual) <==> Embeds(expected[1..], actual[1..])
  {
    hide Matches;
    if Embeds(expected, actual) {
      var at :| IsEmbedding(at, expected, actual);
      DropFirst(at, expected, actual);
      LowerEmbedding(at[1..], expected[1..], actual);
    }
    if Embeds(expected[1..], actual[1..]) {
      var at :| IsEmbedding(at, expected[1..], actual[1..]);
      RaiseEmbedding(at, expected[1..], actual);
      PrependEmbedding(Raised(at), expected, actual);
    }
  }

  lemma NothingLeft(expected: seq<Json>)
    requires expected != []
    ensures !Embeds(expected, [])
  {
    forall at ensures !IsEmbedding(at, expected, []) {
      if |at| == |expected| {
        assert at[0] >= 0;
      }
    }
  }

  lemma NotAnObject(expected: seq<Json>, actual: seq<Json>)
    requires expected != [] && !expected[0].Obj?
    ensures !Embeds(expected, actual)
  {
    forall at ensures !IsEmbedding(at, expected, actual) {
      if |at| == |expected| && at[0] < |actual| {
        assert !Matches(expected[0], actual[at[0]]);
      }
    }
  }

  /** One turn of the scan loses no embedding. */
  lemma NextEvent(expected: seq<Json>, i: nat, actual: seq<Json>, cursor: nat)
    requires i < |expected| && cursor < |actual|
    ensures var next := if Matches(expected[i], actual[cursor]) then i + 1 else i;
      Embeds(expected[i..], actual[cursor..]) <==> Embeds(expected[next..], actual[cursor + 1..])
  {
    hide Embeds, Matches;
    assert expected[i..][1..] == expected[i + 1..] && actual[cursor..][1..] == actual[cursor + 1..];
    if Matches(expected[i], actual[cursor]) {
      TakeEvent(expected[i..], actual[cursor..]);
    } else {
      SkipEvent(expected[i..], actual[cursor..]);
    }
  }

  const NO_METRICS := "Workflow metrics were not provided for event sequence assertion"
  const NOT_A_LIST := "workflow.event_sequence expects params.events as a non-empty array"
  const NO_EVENTS := "workflow.event_sequence expects session_state.agent_sandbox_events list"
  const NOT_OBJECTS := "workflow.event_sequence params.events must be objects"
  const NOT_FOUND := "Expected event sequence item not found"

  /** The assertion passes exactly when the expected events, a non-empty list,
      embed in order into the recorded ones. */
  method AssertEventSequence(events: Json, recorded: Option<Json>) returns (r: Result<()>)
    ensures r.Ok? <==> events.Arr? && events.items != [] && recorded.Some? && recorded.value.Arr?
                       && Embeds(events.items, recorded.value.items)
  {
    hide Embeds, Matches;
    if recorded.None? {
      return Err(NO_METRICS);
    }
    if !events.Arr? || events.items == [] {
      return Err(NOT_A_LIST);
    }
    if !recorded.value.Arr? {
      return Err(NO_EVENTS);
    }
    var expected, actual := events.items, recorded.value.items;
    var cursor := 0;
    for i := 0 to |expected|
      invariant cursor <= |actual|
      invariant Embeds(expected, actual) <==> Embeds(expected[i..], actual[cursor..])
    {
      if !expected[i].Obj? {
        NotAnObject(expected[i..], actual[cursor..]);
        return Err(NOT_OBJECTS);
      }
      var found := false;
      while cursor < |actual| && !found
        invariant cursor <= |actual|
        invariant Embeds(expected, actual) <==>
                  Embeds(expected[if found then i + 1 else i..], actual[cursor..])
        decreases |actual| - cursor
      {
        NextEvent(expected, i, actual, cursor);
        found := Matches(expected[i], actual[cursor]);
        cursor := cursor + 1;
      }
      if !found {
        NothingLeft(expected[i..]);
        assert actual[cursor..] == [];
        return Err(NOT_FOUND);
      }
    }
    EmbedsNothing(actual[cursor..]);
    return Ok(());
  }
}
