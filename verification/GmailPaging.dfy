/** Listing messages and threads newest first, page by page. */
module GmailPaging {
  import opened Wrappers
  import opened Decimal
  import opened SortedKeys
  import opened Text
  import opened GmailModel
  import opened GmailInvariants

  // ---------------------------------------------------------------------
  // Stable sorting by descending weight
  // ---------------------------------------------------------------------

  datatype Entry = Entry(id: Id, weight: nat)

  function InsertDescending(x: Entry, s: seq<Entry>): seq<Entry> {
    if s == [] || s[0].weight <= x.weight then [x] + s
    else [s[0]] + InsertDescending(x, s[1..])
  }

  /** A stable sort: entries of equal weight keep their order. */
  function SortDescending(s: seq<Entry>): seq<Entry> {
    if s == [] then [] else InsertDescending(s[0], SortDescending(s[1..]))
  }

  /** x stands before y in a newest-first list: heavier, or as heavy and with the smaller id. */
  predicate Precedes(x: Entry, y: Entry) {
    x.weight > y.weight || (x.weight == y.weight && x.id != y.id && Leq(x.id, y.id))
  }

  predicate NewestFirst(s: seq<Entry>) {
    forall i, j :: 0 <= i < j < |s| ==> Precedes(s[i], s[j])
  }

  lemma PrecedesTransitive(x: Entry, y: Entry, z: Entry)
    requires Precedes(x, y) && Precedes(y, z)
    ensures Precedes(x, z)
  {
    if x.weight == y.weight == z.weight {
      LeqTransitive(x.id, y.id, z.id);
      if x.id == z.id {
        LeqAntisymmetric(x.id, y.id);
      }
    }
  }

  lemma {:induction false} InsertMembers(x: Entry, s: seq<Entry>)
    ensures forall y :: y in InsertDescending(x, s) <==> y == x || y in s
    ensures |InsertDescending(x, s)| == |s| + 1
  {
    if s != [] && s[0].weight > x.weight {
      InsertMembers(x, s[1..]);
    }
  }

  /** Inserting an entry with an id below all others keeps the order. */
  lemma {:induction false} InsertNewestFirst(x: Entry, s: seq<Entry>)
    requires NewestFirst(s) && forall y :: y in s ==> y.id != x.id && Leq(x.id, y.id)
    ensures NewestFirst(InsertDescending(x, s))
  {
    hide Leq;
    if s == [] {
    } else if s[0].weight <= x.weight {
      assert Precedes(x, s[0]);
      forall j | 0 < j < |s| ensures Precedes(x, s[j]) {
        PrecedesTransitive(x, s[0], s[j]);
      }
    } else {
      assert forall y :: y in s[1..] ==> y in s;
      InsertNewestFirst(x, s[1..]);
      InsertMembers(x, s[1..]);
      var tail := InsertDescending(x, s[1..]);
      forall j | 0 <= j < |tail| ensures Precedes(s[0], tail[j]) {
        assert tail[j] in tail;
      }
    }
  }

  predicate AscendingIds(s: seq<Entry>) {
    forall i, j :: 0 <= i < j < |s| ==> s[i].id != s[j].id && Leq(s[i].id, s[j].id)
  }

  /** Sorting a list in id order yields its entries, newest first, ties in id order. */
  lemma {:induction false} SortMeaning(s: seq<Entry>)
    requires AscendingIds(s)
    ensures var r := SortDescending(s); NewestFirst(r) && |r| == |s| && forall y :: y in r <==> y in s
  {
    hide Leq;
    if s != [] {
      SortMeaning(s[1..]);
      InsertMembers(s[0], SortDescending(s[1..]));
      assert forall y :: y in s <==> y == s[0] || y in s[1..];
      InsertNewestFirst(s[0], SortDescending(s[1..]));
    }
  }

  // ---------------------------------------------------------------------
  // Pages
  // ---------------------------------------------------------------------

  const TOKEN := "offset:"

  function Offset(token: Option<string>): nat {
    if token.Some? && StartsWith(token.value, TOKEN) then
      var n := ParseU64(token.value[|TOKEN|..]);
      if n.Some? then n.value else 0
    else 0
  }

  function Limit(maxResults: nat): (n: nat)
    ensures 1 <= n <= 500
  {
    var capped := if maxResults < 500 then maxResults else 500;
    if capped > 1 then capped else 1
  }

  function SkipTake<T>(list: seq<T>, offset: nat, limit: nat): seq<T> {
    if offset >= |list| then []
    else if offset + limit >= |list| then list[offset..]
    else list[offset..offset + limit]
  }

  function NextToken(nextOffset: nat, total: nat): Option<string> {
    if nextOffset < total then Some(TOKEN + Print(nextOffset)) else None
  }

  /** One page and the token of the next, if there is one. */
  function Page<T>(list: seq<T>, maxResults: nat, token: Option<string>): (seq<T>, Option<string>) {
    var offset := Offset(token);
    var page := SkipTake(list, offset, Limit(maxResults));
    (page, NextToken(offset + |page|, |list|))
  }

  lemma OffsetOfToken(n: nat)
    requires n < U64
    ensures Offset(Some(TOKEN + Print(n))) == n
  {
    ParsePrint(n, U64);
    hide Print, Parse;
    assert (TOKEN + Print(n))[..|TOKEN|] == TOKEN && (TOKEN + Print(n))[|TOKEN|..] == Print(n);
  }

  /** A page from position n holds what is left, up to the number asked for, which
      counts as at least one and at most five hundred; and names the position
      behind it while there is more. */
  lemma PageLaw<T>(list: seq<T>, maxResults: nat, n: nat)
    requires n < U64
    ensures var most := if maxResults == 0 then 1 else if maxResults > 500 then 500 else maxResults;
            var size := if n >= |list| then 0 else if |list| - n <= most then |list| - n else most;
            var (page, next) := Page(list, maxResults, Some("offset:" + Print(n)));
      && |page| == size
      && (forall i :: 0 <= i < size ==> page[i] == list[n + i])
      && next == (if n + size < |list| then Some("offset:" + Print(n + size)) else None)
      && (n == 0 ==> Page(list, maxResults, None) == (page, next))
  {
    hide Print, Offset, SkipTake;
    OffsetOfToken(n);
    NoOffset();
    SkipTakeMeaning(list, n, Limit(maxResults));
  }

  lemma SkipTakeMeaning<T>(list: seq<T>, offset: nat, limit: nat)
    ensures var page := SkipTake(list, offset, limit);
      && |page| == (if offset >= |list| then 0 else if |list| - offset <= limit then |list| - offset else limit)
      && forall i :: 0 <= i < |page| ==> page[i] == list[offset + i]
  {
  }

  lemma NoOffset()
    ensures Offset(None) == 0
  {
  }

  /** A token that does not write a 64-bit position stands for the first page. */
  lemma BadTokens(token: string)
    requires !(exists s, n: nat :: token == "offset:" + s && Writes(s, n) && n < U64)
    ensures Offset(Some(token)) == 0
  {
    hide Writes;
    if StartsWith(token, TOKEN) {
      var s := token[|TOKEN|..];
      assert token == "offset:" + s;
      if ParseU64(s).Some? {
        ParseMeaning(s, U64, ParseU64(s).value);
      }
    }
  }

  lemma NextPageIsLater<T>(list: seq<T>, maxResults: nat, token: Option<string>)
    requires |list| < U64
    ensures var (page, next) := Page(list, maxResults, token);
      next.Some? ==> Offset(next) == Offset(token) + |page| && |page| > 0 && Offset(next) < |list|
  {
    var offset := Offset(token);
    var page := SkipTake(list, offset, Limit(maxResults));
    if offset + |page| < |list| {
      OffsetOfToken(offset + |page|);
    }
  }

  /** The concatenation of all pages from a token on. */
  function Collect<T>(list: seq<T>, maxResults: nat, token: Option<string>): seq<T>
    requires |list| < U64
    decreases if Offset(token) < |list| then |list| - Offset(token) else 0
  {
    NextPageIsLater(list, maxResults, token);
    var (page, next) := Page(list, maxResults, token);
    if next.None? then page else page + Collect(list, maxResults, next)
  }

  /** Following the tokens yields the rest of the list; without a token, all of it. */
  lemma {:induction false} CollectIsRest<T>(list: seq<T>, maxResults: nat, token: Option<string>)
    requires |list| < U64
    ensures Collect(list, maxResults, token) == if Offset(token) < |list| then list[Offset(token)..] else []
    decreases if Offset(token) < |list| then |list| - Offset(token) else 0
  {
    hide Offset;
    NextPageIsLater(list, maxResults, token);
    var (page, next) := Page(list, maxResults, token);
    if next.Some? {
      CollectIsRest(list, maxResults, next);
    }
  }

  // ---------------------------------------------------------------------
  // Listing messages
  // ---------------------------------------------------------------------

  predicate HasLabels(m: Message, labels: seq<Id>) {
    forall i :: 0 <= i < |labels| ==> labels[i] in m.labels
  }

  /** The query filter is a parameter; see the README. */
  type Query = Option<Message -> bool>

  predicate Wanted(m: Message, labels: seq<Id>, q: Query) {
    HasLabels(m, labels) && (q.Some? ==> q.value(m))
  }

  function MessageEntries(keys: seq<Id>, messages: Messages, labels: seq<Id>, q: Query): seq<Entry> {
    if keys == [] then []
    else
      var k := keys[0];
      (if k in messages && Wanted(messages[k], labels, q) then [Entry(k, messages[k].date)] else [])
      + MessageEntries(keys[1..], messages, labels, q)
  }

  function ListedMessages(s: State, labels: seq<Id>, q: Query): seq<Entry> {
    SortDescending(MessageEntries(Sorted(s.messages.Keys), s.messages, labels, q))
  }

  function ListMessages(s: State, labels: seq<Id>, maxResults: nat, token: Option<string>, q: Query)
    : (seq<Entry>, Option<string>)
  {
    Page(ListedMessages(s, labels, q), maxResults, token)
  }

  lemma WantedMeaning(m: Message, labels: seq<Id>, q: Query)
    ensures Wanted(m, labels, q) <==> (forall l :: l in labels ==> l in m.labels) && (q.Some? ==> q.value(m))
  {
  }

  lemma {:induction false} MessageEntriesMembers(keys: seq<Id>, messages: Messages, labels: seq<Id>, q: Query)
    ensures var es := MessageEntries(keys, messages, labels, q);
      forall e :: e in es <==>
        e.id in keys && e.id in messages && Wanted(messages[e.id], labels, q) && e.weight == messages[e.id].date
    decreases |keys|
  {
    hide Wanted;
    if keys != [] {
      MessageEntriesMembers(keys[1..], messages, labels, q);
      assert forall k :: k in keys <==> k == keys[0] || k in keys[1..];
    }
  }

  /** Entries of the later keys may follow an entry of the first. */
  lemma AscendingCons(keys: seq<Id>, rest: seq<Entry>)
    requires Ascending(keys) && keys != [] && AscendingIds(rest)
    requires forall e :: e in rest ==> e.id in keys[1..]
    ensures forall w: nat :: AscendingIds([Entry(keys[0], w)] + rest)
  {
    hide Leq;
    assert forall i :: 0 <= i < |rest| ==> rest[i] in rest;
    assert forall k :: k in keys[1..] ==> k != keys[0] && Leq(keys[0], k);
  }

  lemma {:induction false} MessageEntriesAscend(keys: seq<Id>, messages: Messages, labels: seq<Id>, q: Query)
    requires Ascending(keys)
    ensures var es := MessageEntries(keys, messages, labels, q); AscendingIds(es) && |es| <= |keys|
    decreases |keys|
  {
    hide Leq, Wanted;
    if keys != [] {
      MessageEntriesAscend(keys[1..], messages, labels, q);
      MessageEntriesMembers(keys[1..], messages, labels, q);
      AscendingCons(keys, MessageEntries(keys[1..], messages, labels, q));
    }
  }

  /** Paging through an unchanged mailbox yields every wanted message exactly
      once, newest first and in id order on equal dates. */
  lemma MessagesPagedLosslessly(s: State, labels: seq<Id>, maxResults: nat, token: Option<string>, q: Query)
    requires |s.messages| < U64
    ensures var list := ListedMessages(s, labels, q);
      && |list| < U64
      && ListMessages(s, labels, maxResults, token, q) == Page(list, maxResults, token)
      && Collect(list, maxResults, None) == list
      && NewestFirst(list)
      && forall e :: e in list <==>
           && e.id in s.messages && e.weight == s.messages[e.id].date
           && (forall l :: l in labels ==> l in s.messages[e.id].labels) && (q.Some? ==> q.value(s.messages[e.id]))
  {
    forall k | k in s.messages
      ensures Wanted(s.messages[k], labels, q) <==>
                (forall l :: l in labels ==> l in s.messages[k].labels) && (q.Some? ==> q.value(s.messages[k]))
    {
      WantedMeaning(s.messages[k], labels, q);
    }
    hide NewestFirst, Wanted, AscendingIds, MessageEntries, SortDescending, Collect;
    var keys := Sorted(s.messages.Keys);
    MessageEntriesMembers(keys, s.messages, labels, q);
    MessageEntriesAscend(keys, s.messages, labels, q);
    var es := MessageEntries(keys, s.messages, labels, q);
    SortMeaning(es);
    assert |keys| == |s.messages|;
    CollectIsRest(ListedMessages(s, labels, q), maxResults, None);
  }

  // ---------------------------------------------------------------------
  // Listing threads
  // ---------------------------------------------------------------------

  function MatchingThreads(s: State, labels: seq<Id>): set<Id> {
    if labels == [] then s.threads.Keys
    else set k | k in s.messages && HasLabels(s.messages[k], labels) :: s.messages[k].threadId
  }

  function ThreadEntries(keys: seq<Id>, threads: Threads): seq<Entry> {
    if keys == [] then []
    else
      [Entry(keys[0], if keys[0] in threads then threads[keys[0]].historyId else 0)] + ThreadEntries(keys[1..], threads)
  }

  function ListedThreads(s: State, labels: seq<Id>): seq<Entry> {
    SortDescending(ThreadEntries(Sorted(MatchingThreads(s, labels)), s.threads))
  }

  /** The entries whose threads exist. */
  function Live(es: seq<Entry>, threads: Threads): seq<Entry> {
    if es == [] then [] else (if es[0].id in threads then [es[0]] else []) + Live(es[1..], threads)
  }

  /** Unlike messages, threads are looked up after the page is cut, and the next
      offset counts only those that exist. */
  function ListThreads(s: State, labels: seq<Id>, maxResults: nat, token: Option<string>)
    : (seq<Entry>, Option<string>)
  {
    var list := ListedThreads(s, labels);
    var offset := Offset(token);
    var page := Live(SkipTake(list, offset, Limit(maxResults)), s.threads);
    (page, NextToken(offset + |page|, |list|))
  }

  lemma {:induction false} ThreadEntriesMeaning(keys: seq<Id>, threads: Threads)
    requires Ascending(keys) && forall k :: k in keys ==> k in threads
    ensures var es := ThreadEntries(keys, threads);
      && AscendingIds(es) && |es| == |keys|
      && forall e :: e in es <==> e.id in keys && e.weight == threads[e.id].historyId
    decreases |keys|
  {
    hide Leq;
    if keys != [] {
      assert forall k :: k in keys <==> k == keys[0] || k in keys[1..];
      ThreadEntriesMeaning(keys[1..], threads);
      AscendingCons(keys, ThreadEntries(keys[1..], threads));
    }
  }

  /** The sorted list of matching threads, in a sound state. */
  lemma ListedThreadsMeaning(s: State, labels: seq<Id>)
    requires WF(s)
    ensures var list := ListedThreads(s, labels);
      && |list| <= |s.threads| && NewestFirst(list)
      && forall e :: e in list <==>
           e.id in MatchingThreads(s, labels) && e.id in s.threads && e.weight == s.threads[e.id].historyId
  {
    hide NewestFirst, AscendingIds, ThreadEntries, SortDescending, HasLabels, WF, MatchingThreads;
    var ts := MatchingThreads(s, labels);
    MatchingThreadsLive(s, labels);
    ThreadEntriesMeaning(Sorted(ts), s.threads);
    SortMeaning(ThreadEntries(Sorted(ts), s.threads));
    SubsetCardinality(ts, s.threads.Keys);
  }

  lemma {:induction false} AllLive(es: seq<Entry>, threads: Threads)
    requires forall i :: 0 <= i < |es| ==> es[i].id in threads
    ensures Live(es, threads) == es
  {
    if es != [] {
      AllLive(es[1..], threads);
    }
  }

  /** Every listed thread exists, since every message's thread does. */
  lemma MatchingThreadsLive(s: State, labels: seq<Id>)
    requires WF(s)
    ensures forall t :: t in MatchingThreads(s, labels) ==> t in s.threads
  {
    hide HasLabels;
  }

  /** The threads asked for: all of them, or those with a message that has all
      the labels asked for. */
  ghost predicate AskedFor(s: State, labels: seq<Id>, t: Id) {
    && t in s.threads
    && (labels == [] || exists k :: InThread(s.messages, k, t)
                                 && forall l :: l in labels ==> l in s.messages[k].labels)
  }

  lemma MatchingMeaning(s: State, labels: seq<Id>, t: Id)
    requires WF(s)
    ensures t in MatchingThreads(s, labels) <==> AskedFor(s, labels, t)
  {
    if t in MatchingThreads(s, labels) && labels != [] {
      var k :| k in s.messages && HasLabels(s.messages[k], labels) && s.messages[k].threadId == t;
      assert InThread(s.messages, k, t);
    }
    MatchingThreadsLive(s, labels);
  }

  /** In a sound state, listing threads pages through a complete list: every
      matching thread exactly once, most recent history first. */
  lemma ThreadsPagedLosslessly(s: State, labels: seq<Id>, maxResults: nat, token: Option<string>)
    requires WF(s) && |s.threads| < U64
    ensures var list := ListedThreads(s, labels);
      && |list| < U64
      && ListThreads(s, labels, maxResults, token) == Page(list, maxResults, token)
      && Collect(list, maxResults, None) == list
      && NewestFirst(list)
      && forall e :: e in list <==>
           AskedFor(s, labels, e.id) && e.id in s.threads && e.weight == s.threads[e.id].historyId
  {
    hide NewestFirst, Collect, WF, MatchingThreads, Offset, ListedThreads, AskedFor;
    forall t ensures t in MatchingThreads(s, labels) <==> AskedFor(s, labels, t) {
      MatchingMeaning(s, labels, t);
    }
    ListedThreadsMeaning(s, labels);
    var list := ListedThreads(s, labels);
    var page := SkipTake(list, Offset(token), Limit(maxResults));
    forall i | 0 <= i < |page| ensures page[i].id in s.threads {
      assert page[i] in list;
    }
    AllLive(page, s.threads);
    NoOffset();
    CollectIsRest(list, maxResults, None);
  }
}
