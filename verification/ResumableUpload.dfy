/** Resumable uploads: the Content-Range header of section 14.4 of RFC 9110, and
    the chunk protocol that assembles an upload from PUT requests. */
module ResumableUpload {
  import opened Wrappers
  import opened Decimal
  import opened Text
  import opened DriveModel

  // ---------------------------------------------------------------------
  // Content-Range
  // ---------------------------------------------------------------------

  datatype ContentRange = ContentRange(start: nat, end: nat, total: Option<nat>)

  function ParseContentRange(header: string): Option<ContentRange> {
    if !StartsWith(header, "bytes ") then None
    else
      var parts := Split(header[6..], '/');
      if |parts| != 2 then None
      else
        var bounds := Split(parts[0], '-');
        if |bounds| != 2 then None
        else
          var start, end := ParseU64(bounds[0]), ParseU64(bounds[1]);
          if start.None? || end.None? || end.value < start.value then None
          else if parts[1] == "*" then Some(ContentRange(start.value, end.value, None))
          else
            var total := ParseU64(parts[1]);
            if total.None? then None else Some(ContentRange(start.value, end.value, total))
  }

  function PrintContentRange(r: ContentRange): string {
    "bytes " + (Print(r.start) + "-" + Print(r.end) + "/" + if r.total.Some? then Print(r.total.value) else "*")
  }

  predicate Representable(r: ContentRange) {
    r.start <= r.end < U64 && (r.total.Some? ==> r.total.value < U64)
  }

  lemma DigitsOnly(n: nat, c: char)
    requires !IsDigit(c)
    ensures c !in Print(n)
  {
  }

  /** A printed Content-Range parses back to itself exactly when its numbers are
      64-bit words and its bounds are in order. */
  lemma ContentRangeRoundTrip(r: ContentRange)
    ensures ParseContentRange(PrintContentRange(r)) == if Representable(r) then Some(r) else None
  {
    var s, e := Print(r.start), Print(r.end);
    var t := if r.total.Some? then Print(r.total.value) else "*";
    DigitsOnly(r.start, '-');
    DigitsOnly(r.end, '-');
    DigitsOnly(r.start, '/');
    DigitsOnly(r.end, '/');
    if r.total.Some? {
      DigitsOnly(r.total.value, '/');
      DigitsOnly(r.total.value, '*');
      ParsePrint(r.total.value, U64);
    }
    ParsePrint(r.start, U64);
    ParsePrint(r.end, U64);
    RangeText(s, e, t);
    hide Print, Parse, Split;
  }

  /** How the text of a range falls into pieces. */
  lemma RangeText(a: string, b: string, c: string)
    requires '-' !in a && '/' !in a && '-' !in b && '/' !in b && '/' !in c
    ensures var header := "bytes " + (a + "-" + b + "/" + c);
      && StartsWith(header, "bytes ")
      && Split(header[6..], '/') == [a + "-" + b, c]
      && Split(a + "-" + b, '-') == [a, b]
  {
    SplitAtFirst(a + "-" + b, '/', c);
    SplitNowhere(c, '/');
    SplitAtFirst(a, '-', b);
    SplitNowhere(b, '-');
    hide Split;
    var header := "bytes " + (a + "-" + b + "/" + c);
    assert header[..6] == "bytes " && header[6..] == a + "-" + b + ['/'] + c;
    assert a + "-" + b == a + ['-'] + b;
  }

  /** The header reads "bytes a-b/c", where a and b write the bounds and c the
      total, or is a star. */
  ghost predicate Says(header: string, a: string, b: string, c: string, r: ContentRange) {
    && header == "bytes " + (a + "-" + b + "/" + c)
    && Writes(a, r.start) && Writes(b, r.end)
    && if r.total.Some? then Writes(c, r.total.value) else c == "*"
  }

  lemma SaidIsParsed(header: string, a: string, b: string, c: string, r: ContentRange)
    requires Says(header, a, b, c, r) && Representable(r)
    ensures ParseContentRange(header) == Some(r)
  {
    WritesDigits(a, r.start, '-');
    WritesDigits(a, r.start, '/');
    WritesDigits(b, r.end, '-');
    WritesDigits(b, r.end, '/');
    ParseMeaning(a, U64, r.start);
    ParseMeaning(b, U64, r.end);
    if r.total.Some? {
      WritesDigits(c, r.total.value, '/');
      WritesDigits(c, r.total.value, '*');
      ParseMeaning(c, U64, r.total.value);
    }
    hide Writes, Parse, Split;
    RangeText(a, b, c);
  }

  lemma ParsedIsSaid(header: string)
    requires ParseContentRange(header).Some?
    ensures var r := ParseContentRange(header).value; Representable(r) && exists a, b, c :: Says(header, a, b, c, r)
  {
    hide Writes, Parse, Split;
    var r := ParseContentRange(header).value;
    var parts := Split(header[6..], '/');
    SplitInTwo(header[6..], '/');
    var bounds := Split(parts[0], '-');
    SplitInTwo(parts[0], '-');
    NumberBelow(bounds[0]);
    NumberBelow(bounds[1]);
    ParseMeaning(bounds[0], U64, r.start);
    ParseMeaning(bounds[1], U64, r.end);
    if r.total.Some? {
      NumberBelow(parts[1]);
      ParseMeaning(parts[1], U64, r.total.value);
    }
    assert header == "bytes " + header[6..];
    assert Says(header, bounds[0], bounds[1], parts[1], r);
  }

  lemma NumberBelow(s: string)
    ensures ParseU64(s).Some? ==> ParseU64(s).value < U64
  {
  }

  /** A Content-Range is read exactly if it says 64-bit bounds in order, and a
      64-bit total or a star; and then as it says. */
  lemma ContentRangeMeaning(header: string, r: ContentRange)
    ensures ParseContentRange(header) == Some(r)
       <==> Representable(r) && exists a, b, c :: Says(header, a, b, c, r)
  {
    hide ParseContentRange, Says;
    if ParseContentRange(header) == Some(r) {
      ParsedIsSaid(header);
    }
    if Representable(r) && exists a, b, c :: Says(header, a, b, c, r) {
      var a, b, c :| Says(header, a, b, c, r);
      SaidIsParsed(header, a, b, c, r);
    }
  }

  // ---------------------------------------------------------------------
  // Chunks
  // ---------------------------------------------------------------------

  datatype Session = Session(
    actor: string, name: string, parent: string, mimeType: Option<string>,
    properties: Properties, expected: Option<nat>, data: Bytes)

  type Sessions = map<string, Session>

  datatype Put = Put(uploadId: string, header: Option<string>, body: Bytes)

  /** The answer to a PUT; `Issued` carries the upload request made to the service. */
  datatype Reply =
    | BadRequest(message: string)
    | UnknownSession
    | Resume(range: string)
    | Issued(request: Request)

  function HeaderOf(put: Put): Option<ContentRange> {
    if put.header.Some? then ParseContentRange(put.header.value) else None
  }

  /** The range the server reports, from a 64-bit length. */
  function ReceivedRange(length: nat): string {
    "bytes=0-" + Print((length + U64 - 1) % U64)
  }

  /** The header parses, and its bounds match the body, in 64-bit arithmetic. */
  predicate WellFormed(put: Put) {
    HeaderOf(put).Some? && (HeaderOf(put).value.end - HeaderOf(put).value.start + 1) % U64 == |put.body|
  }

  function UploadRequest(s: Session): Request {
    UploadContent(s.actor, s.parent, s.name, s.mimeType, s.data, s.properties)
  }

  function Total(r: ContentRange, s: Session): Option<nat> {
    if r.total.Some? then r.total else s.expected
  }

  const BAD_RANGE := "missing or invalid Content-Range for resumable upload chunk"
  const BAD_LENGTH := "Content-Range does not match uploaded body length"
  const TOO_LONG := "received more bytes than declared upload length"

  /** What one PUT does to the sessions, and its answer. */
  function Chunk(sessions: Sessions, put: Put): (Sessions, Reply) {
    if HeaderOf(put).None? then
      (sessions, BadRequest(BAD_RANGE))
    else if !WellFormed(put) then
      (sessions, BadRequest(BAD_LENGTH))
    else if put.uploadId !in sessions then (sessions, UnknownSession)
    else
      var range, session := HeaderOf(put).value, sessions[put.uploadId];
      if range.start != |session.data| then
        (sessions, Resume(if session.data == [] then "bytes */0" else ReceivedRange(|session.data|)))
      else
        var session' := session.(data := session.data + put.body);
        var sessions' := sessions[put.uploadId := session'];
        var total := Total(range, session);
        if total.Some? && |session'.data| < total.value then
          (sessions', Resume(ReceivedRange(|session'.data|)))
        else if total.Some? && |session'.data| > total.value then
          (sessions', BadRequest(TOO_LONG))
        else
          (sessions' - {put.uploadId}, Issued(UploadRequest(session')))
  }

  /** The store of open sessions behind the upload route. */
  class UploadSessions {
    var sessions: Sessions

    constructor ()
      ensures sessions == map[]
    {
      sessions := map[];
    }

    method Open(uploadId: string, session: Session)
      modifies this
      ensures sessions == old(sessions)[uploadId := session.(data := [])]
    {
      sessions := sessions[uploadId := session.(data := [])];
    }

    method PutChunk(put: Put) returns (reply: Reply)
      modifies this
      ensures (sessions, reply) == Chunk(old(sessions), put)
    {
      hide HeaderOf, ReceivedRange;
      var header := HeaderOf(put);
      if header.None? {
        return BadRequest(BAD_RANGE);
      }
      var range := header.value;
      HeaderInOrder(put);
      if (range.end - range.start + 1) % U64 != |put.body| {
        return BadRequest(BAD_LENGTH);
      }
      if put.uploadId !in sessions {
        return UnknownSession;
      }
      var session := sessions[put.uploadId];
      if range.start != |session.data| {
        return Resume(if session.data == [] then "bytes */0" else ReceivedRange(|session.data|));
      }
      session := session.(data := session.data + put.body);
      sessions := sessions[put.uploadId := session];
      var total := if range.total.Some? then range.total else session.expected;
      if total.Some? {
        if |session.data| < total.value {
          return Resume(ReceivedRange(|session.data|));
        }
        if |session.data| > total.value {
          return BadRequest(TOO_LONG);
        }
      }
      sessions := sessions - {put.uploadId};
      return Issued(UploadContent(session.actor, session.parent, session.name, session.mimeType, session.data,
                                  session.properties));
    }
  }

  lemma HeaderInOrder(put: Put)
    ensures HeaderOf(put).Some? ==> HeaderOf(put).value.start <= HeaderOf(put).value.end
  {
  }

  // ---------------------------------------------------------------------
  // Runs
  // ---------------------------------------------------------------------

  /** The put carries exactly the bytes of C that its header names, and the
      total is known to be |C|. */
  ghost predicate TrueSlice(put: Put, C: Bytes, expected: Option<nat>) {
    && HeaderOf(put).Some?
    && var r := HeaderOf(put).value;
    && r.start <= r.end < |C| && put.body == C[r.start..r.end + 1]
    && (if r.total.Some? then r.total else expected) == Some(|C|)
  }

  /** The session is the initial one, with a proper prefix of C received. */
  ghost predicate Receiving(sessions: Sessions, u: string, initial: Session, C: Bytes, k: nat) {
    u in sessions && k < |C| && sessions[u] == initial.(data := C[..k])
  }

  /** Sessions and answers after a list of puts. */
  function Run(sessions: Sessions, puts: seq<Put>): (Sessions, seq<Reply>)
    decreases |puts|
  {
    if puts == [] then (sessions, [])
    else
      var (sessions1, reply) := Chunk(sessions, puts[0]);
      var (sessions', replies) := Run(sessions1, puts[1..]);
      (sessions', [reply] + replies)
  }

  /** The upload requests issued by the puts of one session. */
  function IssuedFor(u: string, puts: seq<Put>, replies: seq<Reply>): seq<Request>
    requires |puts| == |replies|
    decreases |puts|
  {
    if puts == [] then []
    else
      (if puts[0].uploadId == u && replies[0].Issued? then [replies[0].request] else [])
      + IssuedFor(u, puts[1..], replies[1..])
  }

  /** The header parses, and names as many bytes as the body has. */
  predicate Counts(put: Put) {
    HeaderOf(put).Some? && |put.body| == HeaderOf(put).value.end - HeaderOf(put).value.start + 1
  }

  /** The header names another number of bytes than the body has. The range of
      all 2^64 positions counts as empty, since the number of them wraps. */
  predicate Miscounts(put: Put) {
    && HeaderOf(put).Some?
    && var n := HeaderOf(put).value.end - HeaderOf(put).value.start + 1;
    |put.body| != n && !(n == 0x1_0000_0000_0000_0000 && put.body == [])
  }

  /** How far one put extends the received prefix of session u: it counts only
      if it is for u and starts where the prefix ends. */
  function Extend(u: string, put: Put, k: nat): nat {
    if put.uploadId == u && Counts(put) && HeaderOf(put).value.start == k then HeaderOf(put).value.end + 1 else k
  }

  function Reach(u: string, puts: seq<Put>, C: Bytes, k: nat): nat
    decreases |puts|
  {
    if puts == [] || k >= |C| then k else Reach(u, puts[1..], C, Extend(u, puts[0], k))
  }

  lemma HeaderInWords(put: Put)
    ensures HeaderOf(put).Some? ==> HeaderOf(put).value.start <= HeaderOf(put).value.end < U64
  {
  }

  /** A put without a proper header, or whose header miscounts its body, is
      refused and changes nothing. */
  lemma Refused(sessions: Sessions, put: Put)
    ensures HeaderOf(put).None? ==>
      Chunk(sessions, put)
      == (sessions, BadRequest("missing or invalid Content-Range for resumable upload chunk"))
    ensures Miscounts(put) ==>
      Chunk(sessions, put) == (sessions, BadRequest("Content-Range does not match uploaded body length"))
  {
    hide HeaderOf, ReceivedRange;
    HeaderInWords(put);
  }

  /** What the server answers about the bytes it has: none, or those up to the last. */
  function Received(length: nat): Reply {
    Resume(if length == 0 then "bytes */0" else "bytes=0-" + Print(length - 1))
  }

  /** A put that counts and goes on where the session's data end is appended.
      The session stays open below the total and above it, where the put is
      called too long; at the total, or without one, it closes with an upload. */
  lemma Appended(sessions: Sessions, put: Put)
    requires put.uploadId in sessions && Counts(put) && |put.body| < U64
    requires HeaderOf(put).value.start == |sessions[put.uploadId].data|
    requires |sessions[put.uploadId].data| + |put.body| < U64
    ensures var (s', reply) := Chunk(sessions, put); var u, range := put.uploadId, HeaderOf(put).value;
            var was := sessions[u]; var data := was.data + put.body;
            var total := if range.total.Some? then range.total else was.expected;
      if total.Some? && total.value != |data| then
        && s' == sessions[u := was.(data := data)]
        && reply == (if |data| < total.value then Received(|data|)
                     else BadRequest("received more bytes than declared upload length"))
      else
        && s' == sessions - {u}
        && reply == Issued(UploadContent(was.actor, was.parent, was.name, was.mimeType, data, was.properties))
  {
    hide HeaderOf, Print;
    HeaderInWords(put);
  }

  /** A put that counts and starts elsewhere changes nothing, and is told what
      has been received; without a session there is nothing to tell. */
  lemma WrongOffset(sessions: Sessions, put: Put)
    requires Counts(put) && |put.body| < U64
    ensures if put.uploadId !in sessions then Chunk(sessions, put) == (sessions, UnknownSession)
            else
              var data := sessions[put.uploadId].data;
              HeaderOf(put).value.start != |data| && |data| < U64 ==>
                Chunk(sessions, put) == (sessions, Received(|data|))
  {
    hide HeaderOf, Print;
    HeaderInWords(put);
  }

  lemma OtherSession(sessions: Sessions, put: Put, u: string)
    requires put.uploadId != u
    ensures var s' := Chunk(sessions, put).0;
      (u in s' <==> u in sessions) && (u in sessions ==> s'[u] == sessions[u])
  {
    hide HeaderOf, ReceivedRange;
  }

  lemma SliceCounts(put: Put, C: Bytes, expected: Option<nat>)
    requires TrueSlice(put, C, expected)
    ensures Counts(put) && |put.body| <= |C| && !Miscounts(put)
  {
    hide HeaderOf;
  }

  /** A put to session u that is no put at all, or miscounts, or is a true slice. */
  ghost predicate Honest(put: Put, C: Bytes, expected: Option<nat>) {
    HeaderOf(put).None? || Miscounts(put) || TrueSlice(put, C, expected)
  }

  /** One put: a true slice that starts where the received prefix ends extends it
      to the end of the slice, and any other put leaves it. At |C| the session
      closes with one upload of C. */
  lemma OnePut(sessions: Sessions, put: Put, u: string, initial: Session, C: Bytes, k: nat)
    requires Receiving(sessions, u, initial, C, k) && |C| < U64
    requires put.uploadId == u ==> Honest(put, C, initial.expected)
    ensures var (s', reply) := Chunk(sessions, put); var k' := Extend(u, put, k);
      if k' < |C| then
        && Receiving(s', u, initial, C, k') && !(put.uploadId == u && reply.Issued?)
        && (put.uploadId == u && TrueSlice(put, C, initial.expected) ==> reply == Received(k'))
      else
        && k' == |C| && u !in s' && put.uploadId == u
        && reply == Issued(UploadContent(initial.actor, initial.parent, initial.name, initial.mimeType, C,
                                         initial.properties))
  {
    hide HeaderOf, Chunk, Print;
    if put.uploadId != u {
      OtherSession(sessions, put, u);
    } else if TrueSlice(put, C, initial.expected) {
      SliceCounts(put, C, initial.expected);
      if HeaderOf(put).value.start == k {
        var end := HeaderOf(put).value.end;
        assert C[..k] + C[k..end + 1] == C[..end + 1];
        assert C[..|C|] == C;
        Appended(sessions, put);
      } else {
        WrongOffset(sessions, put);
      }
    } else {
      Refused(sessions, put);
    }
  }

  lemma {:induction false} ClosedStaysClosed(sessions: Sessions, puts: seq<Put>, u: string)
    requires u !in sessions
    ensures var (s', replies) := Run(sessions, puts);
      u !in s' && |replies| == |puts| && IssuedFor(u, puts, replies) == []
    decreases |puts|
  {
    if puts != [] {
      var (s1, reply) := Chunk(sessions, puts[0]);
      assert u !in s1 && (puts[0].uploadId == u ==> !reply.Issued?) by {
        hide HeaderOf, ReceivedRange;
        if puts[0].uploadId != u {
          OtherSession(sessions, puts[0], u);
        }
      }
      hide Chunk;
      ClosedStaysClosed(s1, puts[1..], u);
      var rest := Run(s1, puts[1..]).1;
      assert ([reply] + rest)[1..] == rest;
    }
  }

  /** Any list of puts, to any sessions, in which the puts to session u are true
      slices of a non-empty C (in any order, overlapping or repeated), or have no
      proper header, or miscount: the session holds a prefix of C, and one upload
      is issued, with content C, exactly when that prefix reaches |C|. */
  lemma {:induction false} ResumableDelivers(sessions: Sessions, puts: seq<Put>, u: string, initial: Session,
                                             C: Bytes, k: nat)
    requires Receiving(sessions, u, initial, C, k) && |C| < U64
    requires forall p :: p in puts && p.uploadId == u ==> Honest(p, C, initial.expected)
    ensures var (s', replies) := Run(sessions, puts); var reach := Reach(u, puts, C, k);
      && |replies| == |puts|
      && if reach < |C| then Receiving(s', u, initial, C, reach) && IssuedFor(u, puts, replies) == []
         else reach == |C| && u !in s'
              && IssuedFor(u, puts, replies)
                 == [UploadContent(initial.actor, initial.parent, initial.name, initial.mimeType, C,
                                   initial.properties)]
    decreases |puts|
  {
    hide Honest, TrueSlice, HeaderOf, Chunk, Extend, Receiving;
    if puts == [] {
      PrefixIsShort(sessions, u, initial, C, k);
    } else {
      var put := puts[0];
      var (s1, reply) := Chunk(sessions, put);
      assert put in puts && forall p :: p in puts[1..] ==> p in puts;
      PrefixIsShort(sessions, u, initial, C, k);
      OnePut(sessions, put, u, initial, C, k);
      var k' := Extend(u, put, k);
      if k' < |C| {
        ResumableDelivers(s1, puts[1..], u, initial, C, k');
      } else {
        ClosedStaysClosed(s1, puts[1..], u);
      }
      var rest := Run(s1, puts[1..]).1;
      assert ([reply] + rest)[1..] == rest;
    }
  }

  lemma PrefixIsShort(sessions: Sessions, u: string, initial: Session, C: Bytes, k: nat)
    requires Receiving(sessions, u, initial, C, k)
    ensures k < |C|
  {
  }

  // ---------------------------------------------------------------------
  // A client that sends everything
  // ---------------------------------------------------------------------

  /** Positions from 0 up to the length of C, in order: where C is cut. */
  predicate Cuts(cuts: seq<nat>, C: Bytes) {
    && |cuts| >= 2 && cuts[0] == 0 && cuts[|cuts| - 1] == |C|
    && forall i, j :: 0 <= i < j < |cuts| ==> cuts[i] < cuts[j]
  }

  /** The put that carries the bytes from a to b, with a printed header. */
  function SlicePut(u: string, C: Bytes, a: nat, b: nat): Put
    requires a < b <= |C|
  {
    Put(u, Some(PrintContentRange(ContentRange(a, b - 1, Some(|C|)))), C[a..b])
  }

  /** The slices between the cuts from the i-th on. */
  function SlicesFrom(u: string, C: Bytes, cuts: seq<nat>, i: nat): seq<Put>
    requires Cuts(cuts, C) && i < |cuts|
    decreases |cuts| - i
  {
    if i + 1 == |cuts| then []
    else
      [SlicePut(u, C, cuts[i], cuts[i + 1])] + SlicesFrom(u, C, cuts, i + 1)
  }

  lemma SlicePutIsTrue(u: string, C: Bytes, a: nat, b: nat, expected: Option<nat>)
    requires a < b <= |C| < U64
    ensures var p := SlicePut(u, C, a, b); TrueSlice(p, C, expected) && HeaderOf(p).value.start == a
    ensures Extend(u, SlicePut(u, C, a, b), a) == b
  {
    hide ParseContentRange, PrintContentRange;
    ContentRangeRoundTrip(ContentRange(a, b - 1, Some(|C|)));
  }

  lemma {:induction false} SlicesReach(u: string, C: Bytes, cuts: seq<nat>, i: nat, expected: Option<nat>)
    requires Cuts(cuts, C) && i < |cuts| && |C| < U64
    ensures Reach(u, SlicesFrom(u, C, cuts, i), C, cuts[i]) == |C|
    ensures forall p :: p in SlicesFrom(u, C, cuts, i) ==> p.uploadId == u && Honest(p, C, expected)
    decreases |cuts| - i
  {
    hide TrueSlice, HeaderOf, Extend;
    if i + 1 < |cuts| {
      SlicePutIsTrue(u, C, cuts[i], cuts[i + 1], expected);
      SlicesReach(u, C, cuts, i + 1, expected);
      var puts := SlicesFrom(u, C, cuts, i);
      assert puts[0] == SlicePut(u, C, cuts[i], cuts[i + 1]) && puts[1..] == SlicesFrom(u, C, cuts, i + 1);
    }
  }

  /** Sent slice by slice in order, with printed headers, C is uploaded exactly
      once, and the session closes. */
  lemma SlicesDeliver(sessions: Sessions, u: string, initial: Session, C: Bytes, cuts: seq<nat>)
    requires u in sessions && sessions[u] == initial && initial.data == []
    requires Cuts(cuts, C) && |C| < U64
    ensures var puts := SlicesFrom(u, C, cuts, 0); var (s', replies) := Run(sessions, puts);
      && |replies| == |puts| && u !in s'
      && IssuedFor(u, puts, replies)
         == [UploadContent(initial.actor, initial.parent, initial.name, initial.mimeType, C, initial.properties)]
  {
    hide Chunk, Honest, Extend, HeaderOf, Run, Reach, IssuedFor;
    SlicesReach(u, C, cuts, 0, initial.expected);
    assert cuts[0] < cuts[|cuts| - 1];
    assert C[..0] == [] && initial.(data := C[..0]) == initial;
    ResumableDelivers(sessions, SlicesFrom(u, C, cuts, 0), u, initial, C, 0);
  }
}
