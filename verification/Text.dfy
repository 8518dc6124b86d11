/** String operations the parsers share. */
module Text {

  /** The pieces of s between the occurrences of c; always at least one. */
  function Split(s: string, c: char): (r: seq<string>)
    ensures r != []
  {
    if s == "" then [""]
    else
      var r := Split(s[1..], c);
      if s[0] == c then [""] + r else [[s[0]] + r[0]] + r[1..]
  }

  lemma {:induction false} SplitAtFirst(a: string, c: char, b: string)
    requires c !in a
    ensures Split(a + [c] + b, c) == [a] + Split(b, c)
  {
    var s := a + [c] + b;
    if a == "" {
      assert s[1..] == b;
    } else {
      assert s[1..] == a[1..] + [c] + b;
      SplitAtFirst(a[1..], c, b);
      assert [a[0]] + a[1..] == a;
      assert ([a[1..]] + Split(b, c))[1..] == Split(b, c);
    }
  }

  lemma {:induction false} SplitNowhere(s: string, c: char)
    requires c !in s
    ensures Split(s, c) == [s]
  {
    if s != "" {
      SplitNowhere(s[1..], c);
      assert [s[0]] + s[1..] == s;
    }
  }

  /** One piece means that c does not occur; otherwise the first piece ends at
      the first c. */
  lemma {:induction false} SplitMeaning(s: string, c: char)
    ensures c !in Split(s, c)[0]
    ensures |Split(s, c)| == 1 ==> s == Split(s, c)[0]
    ensures |Split(s, c)| > 1 ==>
              exists rest :: s == Split(s, c)[0] + [c] + rest && Split(rest, c) == Split(s, c)[1..]
    decreases |s|
  {
    if s != "" {
      assert s == [s[0]] + s[1..];
      SplitMeaning(s[1..], c);
      var r := Split(s[1..], c);
      if s[0] == c {
        assert ([""] + r)[1..] == r && s == "" + [c] + s[1..];
      } else if |r| > 1 {
        var rest :| s[1..] == r[0] + [c] + rest && Split(rest, c) == r[1..];
        assert Split(s, c)[1..] == r[1..] && s == ([s[0]] + r[0]) + [c] + rest;
      }
    }
  }

  /** Two pieces: what is before and after the only c. */
  lemma SplitInTwo(s: string, c: char)
    ensures var r := Split(s, c); |r| == 2 ==> s == r[0] + [c] + r[1] && c !in r[0] && c !in r[1]
  {
    var r := Split(s, c);
    SplitMeaning(s, c);
    if |r| == 2 {
      var rest :| s == r[0] + [c] + rest && Split(rest, c) == r[1..];
      SplitMeaning(rest, c);
    }
  }

  predicate StartsWith(s: string, prefix: string) {
    |prefix| <= |s| && s[..|prefix|] == prefix
  }

  predicate EndsWith(s: string, suffix: string) {
    |suffix| <= |s| && s[|s| - |suffix|..] == suffix
  }
}
