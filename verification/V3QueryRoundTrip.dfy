/** Printing clauses with the documented grammar, and what the query parser and
    the matcher make of the result. */
module V3QueryRoundTrip {
  import opened Wrappers
  import opened Text
  import opened V3Query

  /** The documented clauses; name and mimeType may put spaces around '='. */
  datatype Clause =
    | InParents(id: string)
    | NameIs(value: string, spaced: bool)
    | MimeIs(value: string, spaced: bool)
    | HasProperty(key: string, value: string)

  function Quoted(s: string): string {
    "'" + s + "'"
  }

  function Equals(spaced: bool): string {
    if spaced then " = " else "="
  }

  const OPENING := "appProperties has "

  function Print(c: Clause): string {
    match c
    case InParents(id) => Quoted(id) + " in parents"
    case NameIs(v, spaced) => "name" + Equals(spaced) + Quoted(v)
    case MimeIs(v, spaced) => "mimeType" + Equals(spaced) + Quoted(v)
    case HasProperty(k, v) => OPENING + "{" + Inner(k, v) + "}"
  }

  function Inner(k: string, v: string): string {
    "key=" + Quoted(k) + AND + ("value=" + Quoted(v))
  }

  function PrintQuery(cs: seq<Clause>): string {
    if cs == [] then ""
    else if |cs| == 1 then Print(cs[0])
    else Print(cs[0]) + (AND + PrintQuery(cs[1..]))
  }

  /** No brace, and no " and ". */
  predicate Plain(s: string) {
    '{' !in s && '}' !in s && NoAnd(s)
  }

  predicate NoAnd(s: string) {
    forall i: nat :: i < |s| ==> !AndAt(s, i)
  }

  predicate PlainClause(c: Clause) {
    match c
    case InParents(id) => Plain(id)
    case NameIs(v, _) => Plain(v)
    case MimeIs(v, _) => Plain(v)
    case HasProperty(k, v) => Plain(k) && Plain(v)
  }

  function AddMeaning(f: Filter, c: Clause): Filter {
    match c
    case InParents(id) => f.(parent := Some(id))
    case NameIs(v, _) => f.(name := Some(v))
    case MimeIs(v, _) => f.(mimeType := Some(v))
    case HasProperty(k, v) => f.(properties := f.properties + [(k, v)])
  }

  /** The filter a list of clauses means: the last parent, name and mimeType
      win, properties accumulate. */
  function Meaning(f: Filter, cs: seq<Clause>): Filter
    decreases |cs|
  {
    if cs == [] then f else Meaning(AddMeaning(f, cs[0]), cs[1..])
  }

  // ---------------------------------------------------------------------
  // Occurrences of " and "
  // ---------------------------------------------------------------------

  predicate InAnd(c: char) {
    c == ' ' || c == 'a' || c == 'n' || c == 'd'
  }

  lemma AndChars(s: string, i: nat)
    requires AndAt(s, i)
    ensures s[i] == ' ' && s[i + 1] == 'a' && s[i + 2] == 'n' && s[i + 3] == 'd' && s[i + 4] == ' '
  {
    var w := s[i..i + 5];
    assert w[0] == s[i] && w[1] == s[i + 1] && w[2] == s[i + 2] && w[3] == s[i + 3] && w[4] == s[i + 4];
  }

  /** No " and " runs over a character that is not one of its own. */
  lemma AndNotOver(s: string, i: nat, k: nat)
    requires i <= k < i + 5 && k < |s| && !InAnd(s[k])
    ensures !AndAt(s, i)
  {
    if AndAt(s, i) {
      AndChars(s, i);
    }
  }

  lemma AndShifted(a: string, b: string, i: nat)
    ensures AndAt(a + b, |a| + i) <==> AndAt(b, i)
  {
    if i + 5 <= |b| {
      assert (a + b)[|a| + i..|a| + i + 5] == b[i..i + 5];
    }
  }

  lemma AndPrefix(a: string, b: string, i: nat)
    requires i + 5 <= |a|
    ensures AndAt(a + b, i) <==> AndAt(a, i)
  {
    assert (a + b)[i..i + 5] == a[i..i + 5];
  }

  /** Text whose last character is foreign to " and " has no occurrence that
      starts in it, whatever follows. */
  lemma NoAndBefore(a: string, b: string, i: nat)
    requires a != "" && !InAnd(a[|a| - 1]) && NoAnd(a) && i < |a|
    ensures !AndAt(a + b, i)
  {
    if i + 5 <= |a| {
      AndPrefix(a, b, i);
    } else {
      AndNotOver(a + b, i, |a| - 1);
    }
  }

  lemma NoAndConcat(a: string, b: string)
    requires a != "" && !InAnd(a[|a| - 1]) && NoAnd(a) && NoAnd(b)
    ensures NoAnd(a + b)
  {
    forall i: nat | i < |a + b| ensures !AndAt(a + b, i) {
      if i < |a| {
        NoAndBefore(a, b, i);
      } else {
        AndShifted(a, b, i - |a|);
      }
    }
  }

  lemma NoAndConst(s: string)
    requires forall i :: 0 <= i < |s| - 1 && s[i] == ' ' ==> s[i + 1] != 'a'
    ensures NoAnd(s)
  {
    forall i: nat | i < |s| ensures !AndAt(s, i) {
      if AndAt(s, i) {
        AndChars(s, i);
      }
    }
  }

  lemma NoAndQuoted(s: string)
    requires NoAnd(s)
    ensures NoAnd(Quoted(s))
  {
    NoAndConst("'");
    var q := Quoted(s);
    forall i: nat | i < |q| ensures !AndAt(q, i) {
      if i == 0 {
        AndNotOver(q, 0, 0);
      } else if i + 5 <= |s| + 1 {
        AndShifted("'", s + "'", i - 1);
        AndPrefix(s, "'", i - 1);
        assert q == "'" + (s + "'");
      } else {
        AndNotOver(q, i, |q| - 1);
      }
    }
  }

  // ---------------------------------------------------------------------
  // Splitting a printed query
  // ---------------------------------------------------------------------

  predicate NoBraces(s: string) {
    '{' !in s && '}' !in s
  }

  lemma {:induction false} ReadFlat(text: string, rest: string, current: string)
    requires NoBraces(text) && forall i: nat :: i < |text| ==> !AndAt(text + rest, i)
    ensures SplitClauses(text + rest, 0, current) == SplitClauses(rest, 0, current + text)
    decreases |text|
  {
    if text == "" {
      assert text + rest == rest && current + text == current;
    } else {
      var q, tail := text + rest, text[1..];
      assert q[1..] == tail + rest && q[0] == text[0] && text[0] in text;
      forall i: nat | i < |tail| ensures !AndAt(tail + rest, i) {
        AndShifted([q[0]], tail + rest, i);
        assert [q[0]] + (tail + rest) == q;
      }
      assert !AndAt(q, 0);
      ReadFlat(tail, rest, current + [q[0]]);
      assert current + [q[0]] + tail == current + text;
    }
  }

  lemma {:induction false} ReadInside(text: string, rest: string, depth: nat, current: string)
    requires NoBraces(text) && depth > 0
    ensures SplitClauses(text + rest, depth, current) == SplitClauses(rest, depth, current + text)
    decreases |text|
  {
    if text == "" {
      assert text + rest == rest && current + text == current;
    } else {
      var q, tail := text + rest, text[1..];
      assert q[1..] == tail + rest && q[0] == text[0] && text[0] in text;
      ReadInside(tail, rest, depth, current + [q[0]]);
      assert current + [q[0]] + tail == current + text;
    }
  }

  /** A clause other than a property clause has no brace and no " and ". */
  lemma FlatClause(c: Clause)
    requires PlainClause(c) && !c.HasProperty?
    ensures NoBraces(Print(c)) && NoAnd(Print(c))
    ensures Print(c) != "" && !InAnd(Print(c)[|Print(c)| - 1])
  {
    match c
    case InParents(id) =>
      NoAndQuoted(id);
      NoAndConst(" in parents");
      NoAndConcat(Quoted(id), " in parents");
    case NameIs(v, spaced) => FlatEquation("name", v, spaced);
    case MimeIs(v, spaced) => FlatEquation("mimeType", v, spaced);
  }

  lemma FlatEquation(key: string, v: string, spaced: bool)
    requires Plain(v) && NoBraces(key) && ' ' !in key
    ensures var t := key + Equals(spaced) + Quoted(v);
      NoBraces(t) && NoAnd(t) && t != "" && !InAnd(t[|t| - 1])
  {
    var front := key + (if spaced then " =" else "=");
    NoAndConst(front);
    NoAndQuoted(v);
    if spaced {
      NoAndConst(" ");
      forall i: nat | i < |" " + Quoted(v)| ensures !AndAt(" " + Quoted(v), i) {
        if i == 0 {
          AndNotOver(" " + Quoted(v), 0, 1);
        } else {
          AndShifted(" ", Quoted(v), i - 1);
        }
      }
      NoAndConcat(front, " " + Quoted(v));
      assert front + (" " + Quoted(v)) == key + Equals(spaced) + Quoted(v);
    } else {
      NoAndConcat(front, Quoted(v));
    }
  }

  /** Reading one printed clause consumes all of it and nothing more. */
  lemma ReadClause(c: Clause, rest: string)
    requires PlainClause(c)
    ensures SplitClauses(Print(c) + rest, 0, "") == SplitClauses(rest, 0, Print(c))
  {
    if c.HasProperty? {
      ReadProperty(c.key, c.value, rest);
    } else {
      FlatClause(c);
      ReadForeignEnd(Print(c), rest);
    }
  }

  lemma ReadForeignEnd(text: string, rest: string)
    requires NoBraces(text) && NoAnd(text) && text != "" && !InAnd(text[|text| - 1])
    ensures SplitClauses(text + rest, 0, "") == SplitClauses(rest, 0, text)
  {
    hide SplitClauses, InAnd;
    forall i: nat | i < |text| ensures !AndAt(text + rest, i) {
      NoAndBefore(text, rest, i);
    }
    ReadFlat(text, rest, "");
    assert "" + text == text;
  }

  lemma ReadBrace(rest: string, depth: nat, current: string)
    ensures SplitClauses("{" + rest, depth, current) == SplitClauses(rest, depth + 1, current + "{")
    ensures SplitClauses("}" + rest, depth + 1, current) == SplitClauses(rest, depth, current + "}")
  {
    assert ("{" + rest)[1..] == rest && ("}" + rest)[1..] == rest;
  }

  /** No " and " starts in the opening words of a property clause. */
  lemma OpeningNoAnd(rest: string, i: nat)
    requires i < |OPENING|
    ensures !AndAt(OPENING + ("{" + rest), i)
  {
    NoAndConst(OPENING + "{");
    NoAndBefore(OPENING + "{", rest, i);
    assert OPENING + "{" + rest == OPENING + ("{" + rest);
  }

  lemma ReadProperty(k: string, v: string, rest: string)
    requires Plain(k) && Plain(v)
    ensures SplitClauses(OPENING + "{" + Inner(k, v) + "}" + rest, 0, "")
         == SplitClauses(rest, 0, OPENING + "{" + Inner(k, v) + "}")
  {
    hide SplitClauses, Inner, AndAt, NoBraces, Plain;
    var inner := Inner(k, v);
    var q1 := "{" + (inner + ("}" + rest));
    assert OPENING + "{" + inner + "}" + rest == OPENING + q1;
    forall i: nat | i < |OPENING| ensures !AndAt(OPENING + q1, i) {
      OpeningNoAnd(inner + ("}" + rest), i);
    }
    InnerNoBraces(k, v);
    OpeningNoBraces();
    ReadFlat(OPENING, q1, "");
    assert "" + OPENING == OPENING;
    ReadBrace(inner + ("}" + rest), 0, OPENING);
    ReadInside(inner, "}" + rest, 1, OPENING + "{");
    ReadBrace(rest, 0, OPENING + "{" + inner);
  }

  lemma OpeningNoBraces()
    ensures NoBraces(OPENING)
  {
  }

  lemma InnerNoBraces(k: string, v: string)
    requires Plain(k) && Plain(v)
    ensures NoBraces(Inner(k, v))
  {
  }

  function PrintAll(cs: seq<Clause>): seq<string> {
    if cs == [] then [] else [Print(cs[0])] + PrintAll(cs[1..])
  }

  lemma PrintTight(c: Clause)
    ensures Tight(Print(c)) && Print(c) != ""
  {
  }

  lemma TrimEmpty()
    ensures Trim("") == ""
  {
  }

  lemma {:induction false} SplitPrinted(cs: seq<Clause>)
    requires forall c :: c in cs ==> PlainClause(c)
    ensures SplitClauses(PrintQuery(cs), 0, "") == PrintAll(cs)
    decreases |cs|
  {
    hide Print, PlainClause, Trim, Tight;
    if cs == [] {
      TrimEmpty();
    } else {
      assert cs[0] in cs && forall c :: c in cs[1..] ==> c in cs;
      PrintTight(cs[0]);
      TrimTight(Print(cs[0]));
      if |cs| == 1 {
        ReadClause(cs[0], "");
        assert Print(cs[0]) + "" == Print(cs[0]);
      } else {
        var more := PrintQuery(cs[1..]);
        ReadClause(cs[0], AND + more);
        assert (AND + more)[0..5] == AND && (AND + more)[5..] == more;
        SplitPrinted(cs[1..]);
      }
    }
  }

  // ---------------------------------------------------------------------
  // Reading a printed clause
  // ---------------------------------------------------------------------

  lemma StripQuoted(v: string)
    ensures StripSingleQuotes(Quoted(v)) == Some(v) && StripSingleQuotes(" " + Quoted(v)) == Some(v)
  {
    TrimTight(Quoted(v));
    assert Quoted(v)[1..|Quoted(v)| - 1] == v;
  }

  lemma ExtractPrinted(key: string, v: string, spaced: bool)
    requires Tight(key)
    ensures ExtractEqValue(key + Equals(spaced) + Quoted(v), key) == Some(v)
  {
    hide Trim, StripSingleQuotes, Quoted;
    var text := key + Equals(spaced) + Quoted(v);
    var quoted := (if spaced then " " else "") + Quoted(v);
    EquationTight(key, v, spaced);
    TrimTight(text);
    TrimTight("=" + quoted);
    StripQuoted(v);
    EquationSlices(key, Quoted(v), spaced);
  }

  lemma EquationSlices(key: string, q: string, spaced: bool)
    ensures var text, quoted := key + Equals(spaced) + q, (if spaced then " " else "") + q;
      && text[..|key|] == key
      && text[|key|..] == (if spaced then " " + ("=" + quoted) else "=" + quoted)
      && ("=" + quoted)[1..] == quoted
      && "" + q == q
  {
  }

  lemma EquationTight(key: string, v: string, spaced: bool)
    requires Tight(key)
    ensures Tight(key + Equals(spaced) + Quoted(v)) && Tight("=" + ((if spaced then " " else "") + Quoted(v)))
  {
  }

  lemma ExtractNothing(text: string, key: string)
    requires Tight(text) && key != "" && text[0] != key[0]
    ensures ExtractEqValue(text, key) == None
  {
    hide TrimStart, TrimEnd;
    TrimTight(text);
    if |key| <= |text| {
      assert text[..|key|][0] == text[0];
    }
  }

  lemma NotInParents(text: string)
    requires text != "" && text[|text| - 1] != 's'
    ensures !EndsWith(text, IN_PARENTS)
  {
    if |text| >= 10 {
      assert text[|text| - 10..][9] == text[|text| - 1];
    }
  }

  lemma AddParent(f: Filter, id: string)
    ensures AddClause(f, Print(InParents(id))) == Some(f.(parent := Some(id)))
  {
    hide TrimStart, TrimEnd, StripSingleQuotes, ExtractEqValue, SplitAnd, FindChar, FindLastChar, ReadPairs;
    var text := Print(InParents(id));
    TrimTight(text);
    TrimTight(Quoted(id));
    StripQuoted(id);
    assert text[|text| - 10..] == IN_PARENTS;
    assert text[..|text| - 10] == Quoted(id) + " ";
    NotInParents(Quoted(id) + " ");
    assert TrimEndMatches(text, IN_PARENTS) == Quoted(id) + " ";
  }

  lemma AddEquation(f: Filter, c: Clause)
    requires c.NameIs? || c.MimeIs?
    ensures AddClause(f, Print(c)) == Some(AddMeaning(f, c))
  {
    hide TrimStart, TrimEnd, StripSingleQuotes, ExtractEqValue, SplitAnd, FindChar, FindLastChar, ReadPairs, EndsWith;
    var text := Print(c);
    TrimTight(text);
    NotInParents(text);
    if c.NameIs? {
      ExtractPrinted("name", c.value, c.spaced);
    } else {
      ExtractNothing(text, "name");
      ExtractPrinted("mimeType", c.value, c.spaced);
    }
  }

  lemma {:induction false} SplitAndRead(text: string, rest: string, current: string)
    requires forall i: nat :: i < |text| ==> !AndAt(text + rest, i)
    ensures SplitAnd(text + rest, current) == SplitAnd(rest, current + text)
    decreases |text|
  {
    if text == "" {
      assert text + rest == rest && current + text == current;
    } else {
      var q, tail := text + rest, text[1..];
      assert q[1..] == tail + rest;
      forall i: nat | i < |tail| ensures !AndAt(tail + rest, i) {
        AndShifted([q[0]], tail + rest, i);
        assert [q[0]] + (tail + rest) == q;
      }
      assert !AndAt(q, 0);
      SplitAndRead(tail, rest, current + [q[0]]);
      assert current + [q[0]] + tail == current + text;
    }
  }

  lemma SplitInner(k: string, v: string)
    requires Plain(k) && Plain(v)
    ensures SplitAnd(Inner(k, v), "") == ["key=" + Quoted(k), "value=" + Quoted(v)]
  {
    var a, b := "key=" + Quoted(k), "value=" + Quoted(v);
    FlatEquation("key", k, false);
    FlatEquation("value", v, false);
    assert "key" + "=" + Quoted(k) == a && "value" + "=" + Quoted(v) == b;
    hide SplitAnd, NoBraces, InAnd;
    forall i: nat | i < |a| ensures !AndAt(a + (AND + b), i) {
      NoAndBefore(a, AND + b, i);
    }
    SplitAndRead(a, AND + b, "");
    forall i: nat | i < |b| ensures !AndAt(b + "", i) {
      NoAndBefore(b, "", i);
    }
    SplitAndRead(b, "", "");
    SplitAndSteps(a, b);
    assert a + AND + b == a + (AND + b) && b + "" == b && "" + a == a && "" + b == b;
  }

  lemma SplitAndSteps(a: string, b: string)
    ensures SplitAnd(AND + b, a) == [a] + SplitAnd(b, "")
    ensures SplitAnd("", b) == [b]
  {
    assert (AND + b)[0..5] == AND && (AND + b)[5..] == b;
  }

  lemma InnerParts(k: string, v: string)
    ensures var a, b := "key=" + Quoted(k), "value=" + Quoted(v);
      && Trim(a) == a && Trim(b) == b
      && ExtractEqValue(a, "key") == Some(k)
      && ExtractEqValue(b, "key") == None && ExtractEqValue(b, "value") == Some(v)
  {
    hide ExtractEqValue, TrimStart, TrimEnd;
    var a, b := "key=" + Quoted(k), "value=" + Quoted(v);
    TrimTight(a);
    TrimTight(b);
    ExtractPrinted("key", k, false);
    ExtractPrinted("value", v, false);
    assert "key" + "=" + Quoted(k) == a && "value" + "=" + Quoted(v) == b;
    ExtractNothing(b, "key");
  }

  lemma ReadInner(k: string, v: string)
    ensures ReadPairs(["key=" + Quoted(k), "value=" + Quoted(v)]) == (Some(k), Some(v))
  {
    hide Trim, ExtractEqValue, Quoted;
    var a, b := "key=" + Quoted(k), "value=" + Quoted(v);
    InnerParts(k, v);
    assert [a, b][..1] == [a] && [a][..0] == [];
    assert ReadPairs([]) == (None, None);
    assert ReadPairs([a]) == (Some(k), None);
  }

  lemma FindsBraces(inner: string)
    requires NoBraces(inner)
    ensures FindChar("{" + inner + "}", '{') == Some(0)
    ensures FindLastChar("{" + inner + "}", '}') == Some(|inner| + 1)
    ensures ("{" + inner + "}")[1..|inner| + 1] == inner
  {
  }

  lemma AddProperty(f: Filter, k: string, v: string)
    requires Plain(k) && Plain(v)
    ensures AddClause(f, Print(HasProperty(k, v))) == Some(f.(properties := f.properties + [(k, v)]))
  {
    hide TrimStart, TrimEnd, StripSingleQuotes, ExtractEqValue, SplitAnd, FindChar, FindLastChar, ReadPairs, EndsWith,
         Inner, NoBraces, Plain;
    var text, inner := Print(HasProperty(k, v)), Inner(k, v);
    var block := "{" + inner + "}";
    TrimTight(text);
    NotInParents(text);
    ExtractNothing(text, "name");
    ExtractNothing(text, "mimeType");
    assert text == APP_PROPERTIES + (" " + block);
    assert text[..|APP_PROPERTIES|] == APP_PROPERTIES && text[|APP_PROPERTIES|..] == " " + block;
    TrimTight(block);
    InnerNoBraces(k, v);
    FindsBraces(inner);
    SplitInner(k, v);
    ReadInner(k, v);
  }

  lemma AddPrinted(f: Filter, c: Clause)
    requires PlainClause(c)
    ensures AddClause(f, Print(c)) == Some(AddMeaning(f, c))
  {
    match c
    case InParents(id) => AddParent(f, id);
    case NameIs(_, _) => AddEquation(f, c);
    case MimeIs(_, _) => AddEquation(f, c);
    case HasProperty(k, v) => AddProperty(f, k, v);
  }

  lemma {:induction false} AddAllPrinted(f: Filter, cs: seq<Clause>)
    requires forall c :: c in cs ==> PlainClause(c)
    ensures AddClauses(f, PrintAll(cs)) == Some(Meaning(f, cs))
    decreases |cs|
  {
    hide Print, AddClause, AddMeaning, PlainClause;
    if cs != [] {
      assert cs[0] in cs && forall c :: c in cs[1..] ==> c in cs;
      AddPrinted(f, cs[0]);
      AddAllPrinted(AddMeaning(f, cs[0]), cs[1..]);
    }
  }

  /** Parsing a printed list of clauses yields exactly the filter they mean. */
  lemma QueryRoundTrip(cs: seq<Clause>)
    requires forall c :: c in cs ==> PlainClause(c)
    ensures AddClauses(EmptyFilter(), SplitClauses(PrintQuery(cs), 0, "")) == Some(Meaning(EmptyFilter(), cs))
  {
    hide SplitClauses, AddClauses, PrintQuery, PrintAll, PlainClause;
    SplitPrinted(cs);
    AddAllPrinted(EmptyFilter(), cs);
  }
}
