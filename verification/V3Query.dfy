/** The v3 `q` parameter: splitting into clauses, reading each clause, and
    matching items against the resulting filter. */
module V3Query {
  import opened Wrappers
  import opened Text

  // ---------------------------------------------------------------------
  // Trimming and quotes
  // ---------------------------------------------------------------------

  /** The Unicode White_Space property. */
  predicate IsSpace(c: char) {
    || '\U{0009}' <= c <= '\U{000D}' || c == ' ' || c == '\U{0085}' || c == '\U{00A0}' || c == '\U{1680}'
    || '\U{2000}' <= c <= '\U{200A}' || c == '\U{2028}' || c == '\U{2029}' || c == '\U{202F}'
    || c == '\U{205F}' || c == '\U{3000}'
  }

  function TrimStart(s: string): string {
    if s != "" && IsSpace(s[0]) then TrimStart(s[1..]) else s
  }

  function TrimEnd(s: string): string {
    if s != "" && IsSpace(s[|s| - 1]) then TrimEnd(s[..|s| - 1]) else s
  }

  function Trim(s: string): string {
    TrimEnd(TrimStart(s))
  }

  /** Nothing to trim on either side. */
  predicate Tight(s: string) {
    s != "" && !IsSpace(s[0]) && !IsSpace(s[|s| - 1])
  }

  lemma TrimTight(s: string)
    requires Tight(s)
    ensures Trim(s) == s && Trim(" " + s) == s && Trim(s + " ") == s
  {
    assert (" " + s)[1..] == s;
    assert (s + " ")[..|s|] == s;
  }

  function StripSingleQuotes(s: string): Option<string> {
    var t := Trim(s);
    if |t| >= 2 && t[0] == '\'' && t[|t| - 1] == '\'' then Some(t[1..|t| - 1]) else None
  }

  function ExtractEqValue(clause: string, key: string): Option<string> {
    var c := Trim(clause);
    if !StartsWith(c, key) then None
    else
      var rest := Trim(c[|key|..]);
      if !StartsWith(rest, "=") then None else StripSingleQuotes(rest[1..])
  }

  function TrimEndMatches(s: string, suffix: string): string
    requires suffix != ""
  {
    if EndsWith(s, suffix) then TrimEndMatches(s[..|s| - |suffix|], suffix) else s
  }

  // ---------------------------------------------------------------------
  // Splitting
  // ---------------------------------------------------------------------

  const AND := " and "

  predicate AndAt(s: string, i: nat) {
    i + 5 <= |s| && s[i..i + 5] == AND
  }

  /** The clauses of q, given the brace depth and the clause read so far. */
  function SplitClauses(q: string, depth: nat, current: string): seq<string>
    decreases |q|
  {
    if q == "" then (if Trim(current) == "" then [] else [Trim(current)])
    else if q[0] == '{' then SplitClauses(q[1..], depth + 1, current + [q[0]])
    else if q[0] == '}' then SplitClauses(q[1..], if depth == 0 then 0 else depth - 1, current + [q[0]])
    else if depth == 0 && AndAt(q, 0) then [Trim(current)] + SplitClauses(q[5..], 0, "")
    else SplitClauses(q[1..], depth, current + [q[0]])
  }

  method SplitV3Clauses(q: string) returns (clauses: seq<string>)
    ensures clauses == SplitClauses(q, 0, "")
  {
    clauses := [];
    var depth: nat, current := 0, "";
    var i := 0;
    while i < |q|
      invariant i <= |q|
      invariant SplitClauses(q, 0, "") == clauses + SplitClauses(q[i..], depth, current)
    {
      hide Trim;
      var ch := q[i];
      assert q[i..][1..] == q[i + 1..];
      AndAtSuffix(q, i);
      if ch == '{' {
        depth := depth + 1;
        current := current + [ch];
        i := i + 1;
      } else if ch == '}' {
        depth := if depth == 0 then 0 else depth - 1;
        current := current + [ch];
        i := i + 1;
      } else if depth == 0 && i + 5 <= |q| && q[i..i + 5] == AND {
        assert q[i..][5..] == q[i + 5..];
        clauses := clauses + [Trim(current)];
        current := "";
        i := i + 5;
      } else {
        current := current + [ch];
        i := i + 1;
      }
    }
    var remaining := Trim(current);
    if remaining != "" {
      clauses := clauses + [remaining];
    }
  }

  lemma AndAtSuffix(q: string, i: nat)
    requires i <= |q|
    ensures AndAt(q[i..], 0) <==> AndAt(q, i)
  {
    if i + 5 <= |q| {
      assert q[i..][0..5] == q[i..i + 5];
    }
  }

  /** The pieces of s between the occurrences of " and ". */
  function SplitAnd(s: string, current: string): seq<string>
    decreases |s|
  {
    if s == "" then [current]
    else if AndAt(s, 0) then [current] + SplitAnd(s[5..], "")
    else SplitAnd(s[1..], current + [s[0]])
  }

  // ---------------------------------------------------------------------
  // Filters
  // ---------------------------------------------------------------------

  datatype Filter = Filter(parent: Option<string>, name: Option<string>, mimeType: Option<string>,
                           properties: seq<(string, string)>)

  function EmptyFilter(): Filter {
    Filter(None, None, None, [])
  }

  function FindChar(s: string, c: char): (r: Option<nat>)
    ensures r.Some? ==> r.value < |s| && s[r.value] == c && c !in s[..r.value]
    ensures r.None? ==> c !in s
  {
    if s == "" then None
    else if s[0] == c then Some(0)
    else match FindChar(s[1..], c) case Some(i) => Some(i + 1) case None => None
  }

  function FindLastChar(s: string, c: char): (r: Option<nat>)
    ensures r.Some? ==> r.value < |s| && s[r.value] == c
  {
    if s == "" then None
    else if s[|s| - 1] == c then Some(|s| - 1)
    else FindLastChar(s[..|s| - 1], c)
  }

  /** The key and value named inside a brace block: the last of each wins. */
  function ReadPairs(parts: seq<string>): (Option<string>, Option<string>) {
    if parts == [] then (None, None)
    else
      var (k, v) := ReadPairs(parts[..|parts| - 1]);
      var part := Trim(parts[|parts| - 1]);
      var k', v' := ExtractEqValue(part, "key"), ExtractEqValue(part, "value");
      if k'.Some? then (k', v) else if v'.Some? then (k, v') else (k, v)
  }

  const APP_PROPERTIES := "appProperties has"
  const IN_PARENTS := "in parents"

  /** What one clause adds to the filter. None stands for a slice whose end is
      before its start: a closing brace that precedes every opening one. */
  function AddClause(f: Filter, text: string): Option<Filter> {
    var clause := Trim(text);
    var parent := if EndsWith(clause, IN_PARENTS) then StripSingleQuotes(Trim(TrimEndMatches(clause, IN_PARENTS)))
                  else None;
    var name := ExtractEqValue(clause, "name");
    var mime := ExtractEqValue(clause, "mimeType");
    if parent.Some? then Some(f.(parent := parent))
    else if name.Some? then Some(f.(name := name))
    else if mime.Some? then Some(f.(mimeType := mime))
    else if StartsWith(clause, APP_PROPERTIES) then
      var block := Trim(clause[|APP_PROPERTIES|..]);
      var open, close := FindChar(block, '{'), FindLastChar(block, '}');
      if open.None? || close.None? then Some(f)
      else if close.value < open.value + 1 then None
      else
        var (k, v) := ReadPairs(SplitAnd(block[open.value + 1..close.value], ""));
        if k.Some? && v.Some? then Some(f.(properties := f.properties + [(k.value, v.value)])) else Some(f)
    else Some(f)
  }

  function AddClauses(f: Filter, clauses: seq<string>): Option<Filter>
    decreases |clauses|
  {
    if clauses == [] then Some(f)
    else
      var f' := AddClause(f, clauses[0]);
      if f'.None? then None else AddClauses(f'.value, clauses[1..])
  }

  method ParseV3Query(q: string) returns (r: Option<Filter>)
    ensures r == AddClauses(EmptyFilter(), SplitClauses(q, 0, ""))
  {
    hide AddClause, SplitClauses;
    var clauses := SplitV3Clauses(q);
    var filter := EmptyFilter();
    var i := 0;
    while i < |clauses|
      invariant i <= |clauses|
      invariant AddClauses(EmptyFilter(), clauses) == AddClauses(filter, clauses[i..])
    {
      assert clauses[i..][1..] == clauses[i + 1..];
      var next := AddClause(filter, clauses[i]);
      if next.None? {
        return None;
      }
      filter := next.value;
      i := i + 1;
    }
    return Some(filter);
  }

  // ---------------------------------------------------------------------
  // Where a query is cut
  // ---------------------------------------------------------------------

  /** How many braces are open at the end of a text; a closing brace without an
      opening one does not count. */
  function OpenBraces(q: string): nat {
    if q == "" then 0
    else
      var d, c := OpenBraces(q[..|q| - 1]), q[|q| - 1];
      if c == '{' then d + 1 else if c == '}' && d > 0 then d - 1 else d
  }

  /** A separator outside all braces stands at i. */
  predicate CutAt(q: string, i: nat) {
    i + 5 <= |q| && q[i..i + 5] == " and " && OpenBraces(q[..i]) == 0
  }

  /** All cuts from p on: each is the first one behind the separator before it. */
  ghost predicate AreCuts(q: string, p: nat, cuts: seq<nat>)
    requires p <= |q|
    decreases |cuts|
  {
    if cuts == [] then forall i: nat :: p <= i ==> !CutAt(q, i)
    else
      && p <= cuts[0] && CutAt(q, cuts[0]) && (forall i: nat :: p <= i < cuts[0] ==> !CutAt(q, i))
      && AreCuts(q, cuts[0] + 5, cuts[1..])
  }

  /** The texts between the cuts from the position st on, without the space around
      them; an empty last one is left out. */
  function Between(q: string, st: nat, cuts: seq<nat>): seq<string>
    requires st <= |q| && forall i :: 0 <= i < |cuts| ==> cuts[i] + 5 <= |q|
    requires cuts != [] ==> st <= cuts[0]
    requires forall i, j :: 0 <= i < j < |cuts| ==> cuts[i] + 5 <= cuts[j]
    decreases |cuts|
  {
    if cuts == [] then (if Trim(q[st..]) == "" then [] else [Trim(q[st..])])
    else
      [Trim(q[st..cuts[0]])] + Between(q, cuts[0] + 5, cuts[1..])
  }

  lemma {:induction false} CutsInOrder(q: string, p: nat, cuts: seq<nat>)
    requires p <= |q| && AreCuts(q, p, cuts)
    ensures forall i :: 0 <= i < |cuts| ==> p <= cuts[i] && cuts[i] + 5 <= |q|
    ensures forall i, j :: 0 <= i < j < |cuts| ==> cuts[i] + 5 <= cuts[j]
    decreases |cuts|
  {
    hide OpenBraces;
    if cuts != [] {
      CutsInOrder(q, cuts[0] + 5, cuts[1..]);
      assert forall i :: 1 <= i < |cuts| ==> cuts[i] == cuts[1..][i - 1];
    }
  }

  lemma OpenOneMore(q: string, p: nat)
    requires p < |q|
    ensures var d := OpenBraces(q[..p]);
      OpenBraces(q[..p + 1]) == if q[p] == '{' then d + 1 else if q[p] == '}' && d > 0 then d - 1 else d
  {
    assert q[..p + 1][..p] == q[..p];
  }

  lemma OpenBehind(q: string, p: nat)
    requires CutAt(q, p)
    ensures OpenBraces(q[..p + 5]) == 0
  {
    var word := q[p..p + 5];
    assert q[p] == word[0] && q[p + 1] == word[1] && q[p + 2] == word[2] && q[p + 3] == word[3] && q[p + 4] == word[4];
    OpenOneMore(q, p);
    OpenOneMore(q, p + 1);
    OpenOneMore(q, p + 2);
    OpenOneMore(q, p + 3);
    OpenOneMore(q, p + 4);
  }

  lemma {:induction false} CutsFrom(q: string, st: nat, p: nat) returns (cuts: seq<nat>)
    requires st <= p <= |q|
    ensures AreCuts(q, p, cuts)
    ensures forall i :: 0 <= i < |cuts| ==> p <= cuts[i] && cuts[i] + 5 <= |q|
    ensures forall i, j :: 0 <= i < j < |cuts| ==> cuts[i] + 5 <= cuts[j]
    ensures SplitClauses(q[p..], OpenBraces(q[..p]), q[st..p]) == Between(q, st, cuts)
    decreases |q| - p
  {
    hide Trim, OpenBraces;
    var rest := q[p..];
    if p == |q| {
      cuts := [];
      assert q[st..p] == q[st..];
    } else if CutAt(q, p) {
      OpenBehind(q, p);
      assert rest[0] == q[p] && rest[5..] == q[p + 5..] && rest[..5] == q[p..p + 5];
      assert q[p..p + 5][0] == ' ' && q[p + 5..p + 5] == "";
      var later := CutsFrom(q, p + 5, p + 5);
      cuts := [p] + later;
      CutsInOrder(q, p, cuts);
    } else {
      OpenOneMore(q, p);
      assert rest[0] == q[p] && rest[1..] == q[p + 1..] && q[st..p] + [q[p]] == q[st..p + 1];
      assert p + 5 <= |q| ==> rest[..5] == q[p..p + 5];
      cuts := CutsFrom(q, st, p + 1);
      CutsLater(q, p, cuts);
    }
  }

  lemma CutsLater(q: string, p: nat, cuts: seq<nat>)
    requires p < |q| && AreCuts(q, p + 1, cuts) && !CutAt(q, p)
    ensures AreCuts(q, p, cuts)
  {
    hide OpenBraces;
  }

  /** Any query is cut at its separators outside braces, the first one first, and
      nowhere else; its clauses are the trimmed texts between. */
  lemma SplitMeaning(q: string) returns (cuts: seq<nat>)
    ensures AreCuts(q, 0, cuts)
    ensures forall i :: 0 <= i < |cuts| ==> cuts[i] + 5 <= |q|
    ensures forall i, j :: 0 <= i < j < |cuts| ==> cuts[i] + 5 <= cuts[j]
    ensures SplitClauses(q, 0, "") == Between(q, 0, cuts)
  {
    cuts := CutsFrom(q, 0, 0);
    assert q[0..] == q && q[..0] == "" && q[0..0] == "";
  }
}
