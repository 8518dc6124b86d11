/** What the pieces of the query parser do with any text, and not only with the
    documented grammar. */
module V3QueryLaws {
  import opened Wrappers
  import opened Text
  import opened V3Query

  // ---------------------------------------------------------------------
  // Space
  // ---------------------------------------------------------------------

  /** The twenty-five characters with the property White_Space. */
  const SPACES: seq<char> := [
    '\U{0009}', '\U{000A}', '\U{000B}', '\U{000C}', '\U{000D}', '\U{0020}', '\U{0085}', '\U{00A0}', '\U{1680}',
    '\U{2000}', '\U{2001}', '\U{2002}', '\U{2003}', '\U{2004}', '\U{2005}', '\U{2006}', '\U{2007}', '\U{2008}',
    '\U{2009}', '\U{200A}', '\U{2028}', '\U{2029}', '\U{202F}', '\U{205F}', '\U{3000}']

  lemma SpaceMeaning(c: char)
    ensures IsSpace(c) <==> c in SPACES
  {
    var n := c as int;
    if 9 <= n <= 13 {
      assert SPACES[n - 9] == c;
    } else if 0x2000 <= n <= 0x200A {
      assert SPACES[n - 0x2000 + 9] == c;
    } else if IsSpace(c) {
      assert c in [SPACES[5], SPACES[6], SPACES[7], SPACES[8]]
          || c in [SPACES[20], SPACES[21], SPACES[22], SPACES[23], SPACES[24]];
    }
  }

  predicate AllSpace(s: string) {
    forall i :: 0 <= i < |s| ==> IsSpace(s[i])
  }

  lemma {:induction false} StartTrimmed(a: string, t: string)
    requires AllSpace(a) && (t == "" || !IsSpace(t[0]))
    ensures TrimStart(a + t) == t
    decreases |a|
  {
    if a == "" {
      assert a + t == t;
    } else {
      assert (a + t)[1..] == a[1..] + t;
      StartTrimmed(a[1..], t);
    }
  }

  lemma {:induction false} EndTrimmed(t: string, b: string)
    requires AllSpace(b) && (t == "" || !IsSpace(t[|t| - 1]))
    ensures TrimEnd(t + b) == t
    decreases |b|
  {
    if b == "" {
      assert t + b == t;
    } else {
      assert (t + b)[..|t + b| - 1] == t + b[..|b| - 1];
      EndTrimmed(t, b[..|b| - 1]);
    }
  }

  /** Trimming takes the space off both ends, and nothing else. */
  lemma TrimMeaning(a: string, t: string, b: string)
    requires AllSpace(a) && AllSpace(b) && Tight(t)
    ensures Trim(a + t + b) == t
  {
    assert a + t + b == a + (t + b);
    StartTrimmed(a, t + b);
    EndTrimmed(t, b);
  }

  // ---------------------------------------------------------------------
  // Equations
  // ---------------------------------------------------------------------

  lemma QuotesTight(v: string)
    ensures Tight("'" + v + "'")
  {
    var q := "'" + v + "'";
    assert q[0] == q[|q| - 1] == '\'';
  }

  lemma StripsQuotes(a: string, v: string, b: string)
    requires AllSpace(a) && AllSpace(b)
    ensures StripSingleQuotes(a + ("'" + v + "'") + b) == Some(v)
  {
    var q := "'" + v + "'";
    QuotesTight(v);
    TrimMeaning(a, q, b);
    assert q[1..|q| - 1] == v;
    hide Trim;
  }

  /** A key, an equals sign and a quoted value give the value, whatever it is and
      however much space there is between and around them. */
  lemma EquationMeaning(a: string, key: string, b: string, c: string, v: string, d: string)
    requires AllSpace(a) && AllSpace(b) && AllSpace(c) && AllSpace(d) && Tight(key)
    ensures ExtractEqValue(a + (key + b + "=" + c + ("'" + v + "'")) + d, key) == Some(v)
  {
    var value := "'" + v + "'";
    var rest := "=" + c + value;
    var clause := key + b + "=" + c + value;
    QuotesTight(v);
    assert clause[|clause| - 1] == value[|value| - 1] && clause[0] == key[0];
    TrimMeaning(a, clause, d);
    assert clause[..|key|] == key && clause[|key|..] == b + rest;
    assert rest[0] == '=' && rest[|rest| - 1] == value[|value| - 1];
    assert b + rest == b + rest + "" && AllSpace("");
    TrimMeaning(b, rest, "");
    assert rest[..1] == "=" && rest[1..] == c + value + "";
    StripsQuotes(c, v, "");
    hide Trim, StripSingleQuotes;
  }

  lemma UnquotedIsNothing(text: string)
    requires Trim(text) == "" || Trim(text)[0] != '\'' || Trim(text)[|Trim(text)| - 1] != '\''
    ensures StripSingleQuotes(text) == None
  {
    hide Trim;
  }

  // ---------------------------------------------------------------------
  // Property clauses
  // ---------------------------------------------------------------------

  function KeyIn(part: string): Option<string> {
    ExtractEqValue(Trim(part), "key")
  }

  /** A part that gives a key is not asked for a value. */
  function ValueIn(part: string): Option<string> {
    if KeyIn(part).Some? then None else ExtractEqValue(Trim(part), "value")
  }

  ghost predicate LastGiven(parts: seq<string>, read: string -> Option<string>, r: Option<string>) {
    if r.None? then forall i :: 0 <= i < |parts| ==> read(parts[i]) == None
    else exists i :: 0 <= i < |parts| && read(parts[i]) == r && forall j :: i < j < |parts| ==> read(parts[j]) == None
  }

  lemma LastGivenMore(parts: seq<string>, part: string, read: string -> Option<string>, r: Option<string>)
    requires LastGiven(parts, read, r)
    ensures LastGiven(parts + [part], read, if read(part).Some? then read(part) else r)
  {
    var all := parts + [part];
    assert all[|parts|] == part && forall i :: 0 <= i < |parts| ==> all[i] == parts[i];
  }

  /** The last key and the last value in a brace block count. */
  lemma {:induction false} PairsMeaning(parts: seq<string>)
    ensures LastGiven(parts, KeyIn, ReadPairs(parts).0) && LastGiven(parts, ValueIn, ReadPairs(parts).1)
    decreases |parts|
  {
    hide ExtractEqValue, Trim, LastGiven;
    if parts == [] {
      NothingGiven();
    } else {
      var init, last := parts[..|parts| - 1], parts[|parts| - 1];
      assert parts == init + [last];
      PairsMeaning(init);
      LastGivenMore(init, last, KeyIn, ReadPairs(init).0);
      LastGivenMore(init, last, ValueIn, ReadPairs(init).1);
    }
  }

  lemma NothingGiven()
    ensures LastGiven([], KeyIn, None) && LastGiven([], ValueIn, None)
  {
  }

  lemma LastBrace(inner: string)
    ensures FindLastChar("{" + inner + "}", '}') == Some(|inner| + 1)
    ensures FindChar("{" + inner + "}", '{') == Some(0)
  {
    var block := "{" + inner + "}";
    assert block[0] == '{' && block[|block| - 1] == '}';
  }

  lemma NoEquation(clause: string, key: string)
    requires Tight(clause) && key != "" && clause[0] != key[0]
    ensures ExtractEqValue(clause, key) == None
  {
    TrimTight(clause);
    hide Trim;
    if |key| <= |clause| {
      assert clause[..|key|][0] == clause[0];
    }
  }

  lemma PropertyText(a: string, inner: string)
    requires AllSpace(a)
    ensures var block := "{" + inner + "}"; var clause := "appProperties has" + a + block;
      && Tight(clause) && clause[0] == 'a'
      && StartsWith(clause, "appProperties has") && Trim(clause[17..]) == block
      && !EndsWith(clause, "in parents") && block[1..|inner| + 1] == inner
  {
    var block := "{" + inner + "}";
    var clause := "appProperties has" + a + block;
    assert block[0] == '{' && clause[|clause| - 1] == block[|block| - 1] == '}';
    assert a + block == a + block + "" && AllSpace("");
    TrimMeaning(a, block, "");
    assert clause[..17] == "appProperties has" && clause[17..] == a + block;
    hide Trim;
    assert |clause| >= 10 && clause[|clause| - 10..][9] == '}';
  }

  /** A property clause asks for the last key and the last value in its braces,
      from the first opening to the last closing one, if it gives both. */
  lemma PropertyMeaning(f: Filter, a: string, inner: string)
    requires AllSpace(a)
    ensures var (k, v) := ReadPairs(SplitAnd(inner, ""));
      AddClause(f, "appProperties has" + a + ("{" + inner + "}"))
      == Some(if k.Some? && v.Some? then f.(properties := f.properties + [(k.value, v.value)]) else f)
  {
    hide Trim, ExtractEqValue, ReadPairs, SplitAnd, FindChar, FindLastChar, TrimEndMatches, StripSingleQuotes,
         StartsWith, EndsWith, Tight;
    var clause := "appProperties has" + a + ("{" + inner + "}");
    PropertyText(a, inner);
    TrimTight(clause);
    NoEquation(clause, "name");
    NoEquation(clause, "mimeType");
    LastBrace(inner);
  }

  /** Clauses that start and end like none of the documented ones add nothing. */
  lemma OtherClauses(f: Filter, text: string)
    requires var t := Trim(text);
      && !EndsWith(t, "in parents")
      && forall word :: word in ["name", "mimeType", "appProperties has"] ==>
           !StartsWith(Trim(t), word) && !StartsWith(t, word)
    ensures AddClause(f, text) == Some(f)
  {
    var words := ["name", "mimeType", "appProperties has"];
    assert words[0] in words && words[1] in words && words[2] in words;
    hide Trim;
  }
}
