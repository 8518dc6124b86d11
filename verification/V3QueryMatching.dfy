/** Matching items against a parsed filter, compared with evaluating the
    clauses of the query one by one. */
module V3QueryMatching {
  import opened Wrappers
  import opened DriveModel
  import opened V3Query
  import opened V3QueryRoundTrip

  function EffectiveMime(item: Item): string {
    if item.mimeType.Some? then item.mimeType.value
    else if item.kind == Folder then FOLDER_MIME
    else BINARY_MIME
  }

  predicate ItemMatches(item: Item, f: Filter) {
    && (f.parent.Some? ==> item.parent == f.parent)
    && (f.name.Some? ==> item.name == f.name.value)
    && (f.mimeType.Some? ==> EffectiveMime(item) == f.mimeType.value)
    && forall i :: 0 <= i < |f.properties| ==>
         var (k, v) := f.properties[i]; k in item.properties && item.properties[k] == v
  }

  /** An item matches exactly if it has the parent, the name, the mime type and
      the properties asked for; without a type of its own a folder has that of
      folders, and a file that of plain bytes. */
  lemma MatchMeaning(item: Item, f: Filter)
    ensures ItemMatches(item, f) <==>
      && (f.parent.Some? ==> item.parent == f.parent)
      && (f.name.Some? ==> item.name == f.name.value)
      && (f.mimeType.Some? ==>
            f.mimeType.value == (if item.mimeType.Some? then item.mimeType.value
                                 else if item.kind == Folder then "application/vnd.google-apps.folder"
                                 else "application/octet-stream"))
      && forall p :: p in f.properties ==> p.0 in item.properties && item.properties[p.0] == p.1
  {
  }

  /** A clause evaluated directly on an item. */
  predicate Holds(item: Item, c: Clause) {
    match c
    case InParents(id) => item.parent == Some(id)
    case NameIs(v, _) => item.name == v
    case MimeIs(v, _) => EffectiveMime(item) == v
    case HasProperty(k, v) => k in item.properties && item.properties[k] == v
  }

  predicate AllHold(item: Item, cs: seq<Clause>) {
    forall i :: 0 <= i < |cs| ==> Holds(item, cs[i])
  }

  /** Two clauses for the same single-valued field with different values. */
  predicate Rivals(c: Clause, d: Clause) {
    match (c, d)
    case (InParents(a), InParents(b)) => a != b
    case (NameIs(a, _), NameIs(b, _)) => a != b
    case (MimeIs(a, _), MimeIs(b, _)) => a != b
    case _ => false
  }

  /** Two property clauses for the same key with different values. */
  predicate Clash(c: Clause, d: Clause) {
    c.HasProperty? && d.HasProperty? && c.key == d.key && c.value != d.value
  }

  predicate Conflicting(cs: seq<Clause>) {
    exists i, j :: 0 <= i < j < |cs| && Rivals(cs[i], cs[j])
  }

  predicate Clashing(cs: seq<Clause>) {
    exists i, j :: 0 <= i < j < |cs| && Clash(cs[i], cs[j])
  }

  predicate Demands(f: Filter, c: Clause) {
    match c
    case InParents(id) => f.parent == Some(id)
    case NameIs(v, _) => f.name == Some(v)
    case MimeIs(v, _) => f.mimeType == Some(v)
    case HasProperty(k, v) => (k, v) in f.properties
  }

  /** A clause not followed by a rival is demanded by the filter. */
  lemma {:induction false} MeaningDemands(f: Filter, cs: seq<Clause>, c: Clause)
    requires Demands(f, c) && forall i :: 0 <= i < |cs| ==> !Rivals(c, cs[i])
    ensures Demands(Meaning(f, cs), c)
    decreases |cs|
  {
    if cs != [] {
      MeaningDemands(AddMeaning(f, cs[0]), cs[1..], c);
    }
  }

  lemma {:induction false} MeaningDemandsAt(f: Filter, cs: seq<Clause>, i: nat)
    requires i < |cs| && forall j :: i < j < |cs| ==> !Rivals(cs[i], cs[j])
    ensures Demands(Meaning(f, cs), cs[i])
    decreases |cs|
  {
    var f' := AddMeaning(f, cs[0]);
    if i == 0 {
      MeaningDemands(f', cs[1..], cs[0]);
    } else {
      MeaningDemandsAt(f', cs[1..], i - 1);
    }
  }

  lemma {:induction false} HoldingMatches(item: Item, f: Filter, cs: seq<Clause>)
    requires ItemMatches(item, f) && AllHold(item, cs)
    ensures ItemMatches(item, Meaning(f, cs))
    decreases |cs|
  {
    if cs != [] {
      assert Holds(item, cs[0]);
      HoldingMatches(item, AddMeaning(f, cs[0]), cs[1..]);
    }
  }

  lemma DemandedHolds(item: Item, f: Filter, c: Clause)
    requires ItemMatches(item, f) && Demands(f, c)
    ensures Holds(item, c)
  {
  }

  /** Every property of the filter comes from a clause. */
  lemma {:induction false} PropertySource(f: Filter, cs: seq<Clause>, p: (string, string))
    requires p in Meaning(f, cs).properties && p !in f.properties
    ensures exists i :: 0 <= i < |cs| && cs[i] == HasProperty(p.0, p.1)
    decreases |cs|
  {
    if cs != [] {
      if cs[0] != HasProperty(p.0, p.1) {
        PropertySource(AddMeaning(f, cs[0]), cs[1..], p);
        var i :| 0 <= i < |cs[1..]| && cs[1..][i] == HasProperty(p.0, p.1);
        assert cs[i + 1] == HasProperty(p.0, p.1);
      }
    }
  }

  function PropertyMap(ps: seq<(string, string)>): Properties {
    if ps == [] then map[] else PropertyMap(ps[..|ps| - 1])[ps[|ps| - 1].0 := ps[|ps| - 1].1]
  }

  lemma {:induction false} PropertyMapMeaning(ps: seq<(string, string)>)
    requires forall p, q :: p in ps && q in ps && p.0 == q.0 ==> p == q
    ensures forall p :: p in ps ==> p.0 in PropertyMap(ps) && PropertyMap(ps)[p.0] == p.1
  {
    if ps != [] {
      var init, last := ps[..|ps| - 1], ps[|ps| - 1];
      assert ps == init + [last];
      PropertyMapMeaning(init);
    }
  }

  /** An item made to match a filter. */
  function Witness(f: Filter): Item {
    Item("", if f.name.Some? then f.name.value else "", File, f.parent, "", [], 0, f.mimeType, None,
         PropertyMap(f.properties))
  }

  lemma WitnessMatches(cs: seq<Clause>)
    requires !Clashing(cs)
    ensures ItemMatches(Witness(Meaning(EmptyFilter(), cs)), Meaning(EmptyFilter(), cs))
  {
    var f := Meaning(EmptyFilter(), cs);
    forall p, q | p in f.properties && q in f.properties && p.0 == q.0 ensures p == q {
      PropertySource(EmptyFilter(), cs, p);
      PropertySource(EmptyFilter(), cs, q);
      var i :| 0 <= i < |cs| && cs[i] == HasProperty(p.0, p.1);
      var j :| 0 <= j < |cs| && cs[j] == HasProperty(q.0, q.1);
      if i < j {
        assert !Clash(cs[i], cs[j]);
      } else if j < i {
        assert !Clash(cs[j], cs[i]);
      }
    }
    PropertyMapMeaning(f.properties);
  }

  lemma MatchesWithoutConflict(item: Item, cs: seq<Clause>)
    requires !Conflicting(cs)
    ensures ItemMatches(item, Meaning(EmptyFilter(), cs)) <==> AllHold(item, cs)
  {
    hide ItemMatches, Meaning, Holds, Rivals;
    var f := Meaning(EmptyFilter(), cs);
    if AllHold(item, cs) {
      EmptyMatches(item);
      HoldingMatches(item, EmptyFilter(), cs);
    }
    if ItemMatches(item, f) {
      forall i | 0 <= i < |cs| ensures Holds(item, cs[i]) {
        MeaningDemandsAt(EmptyFilter(), cs, i);
        DemandedHolds(item, f, cs[i]);
      }
    }
  }

  lemma EmptyMatches(item: Item)
    ensures ItemMatches(item, EmptyFilter())
  {
  }

  lemma ClashNeverMatches(item: Item, cs: seq<Clause>)
    requires Clashing(cs)
    ensures !ItemMatches(item, Meaning(EmptyFilter(), cs)) && !AllHold(item, cs)
  {
    hide Meaning;
    var i, j :| 0 <= i < j < |cs| && Clash(cs[i], cs[j]);
    MeaningDemandsAt(EmptyFilter(), cs, i);
    MeaningDemandsAt(EmptyFilter(), cs, j);
    var f := Meaning(EmptyFilter(), cs);
    if ItemMatches(item, f) {
      DemandedHolds(item, f, cs[i]);
      DemandedHolds(item, f, cs[j]);
    }
    assert !(Holds(item, cs[i]) && Holds(item, cs[j]));
  }

  lemma RivalsExclude(item: Item, c: Clause, d: Clause)
    requires Rivals(c, d)
    ensures !(Holds(item, c) && Holds(item, d))
  {
  }

  /** Matching the filter of a query equals the conjunction of its clauses, on
      every item, exactly when no two clauses give the same field different
      values, or two property clauses exclude each other and nothing matches. */
  lemma MatchIsConjunction(cs: seq<Clause>)
    ensures (forall item :: ItemMatches(item, Meaning(EmptyFilter(), cs)) <==> AllHold(item, cs))
       <==> !Conflicting(cs) || Clashing(cs)
  {
    hide ItemMatches, Meaning, Holds, Rivals, Clash, Witness;
    if Clashing(cs) {
      forall item ensures ItemMatches(item, Meaning(EmptyFilter(), cs)) <==> AllHold(item, cs) {
        ClashNeverMatches(item, cs);
      }
    } else if !Conflicting(cs) {
      forall item ensures ItemMatches(item, Meaning(EmptyFilter(), cs)) <==> AllHold(item, cs) {
        MatchesWithoutConflict(item, cs);
      }
    } else {
      var item := Witness(Meaning(EmptyFilter(), cs));
      WitnessMatches(cs);
      var i, j :| 0 <= i < j < |cs| && Rivals(cs[i], cs[j]);
      RivalsExclude(item, cs[i], cs[j]);
      assert !AllHold(item, cs);
    }
  }

  /** A query with rival clauses: the parser keeps the last one, so an item
      matches that does not satisfy them all. */
  lemma LastNameWins()
    ensures var cs := [NameIs("a", false), NameIs("b", false)];
            var parsed := AddClauses(EmptyFilter(), SplitClauses(PrintQuery(cs), 0, ""));
      parsed.Some? && exists item :: ItemMatches(item, parsed.value) && !AllHold(item, cs)
  {
    hide SplitClauses, AddClauses, PrintQuery, Meaning, ItemMatches;
    var cs := [NameIs("a", false), NameIs("b", false)];
    QueryRoundTrip(cs);
    assert Rivals(cs[0], cs[1]);
    WitnessMatches(cs);
    RivalsExclude(Witness(Meaning(EmptyFilter(), cs)), cs[0], cs[1]);
  }
}
