/** The multipart/related parser of the upload route, and its round trip with
    the framing of section 5.1.1 of RFC 2046. */
module Multipart {
  import opened Wrappers

  type Byte = bv8
  type Bytes = seq<Byte>

  const CR: Byte := 13
  const LF: Byte := 10
  const DASH: Byte := 45
  const CRLF: Bytes := [CR, LF]
  const BLANK: Bytes := [CR, LF, CR, LF]
  const DASHES: Bytes := [DASH, DASH]

  /** A part: its header block as raw bytes, and its body. */
  datatype Part = Part(header: Bytes, body: Bytes)

  // ---------------------------------------------------------------------
  // Searching
  // ---------------------------------------------------------------------

  predicate At(hay: Bytes, i: nat, needle: Bytes) {
    i + |needle| <= |hay| && hay[i..i + |needle|] == needle
  }

  ghost predicate Occurs(needle: Bytes, hay: Bytes) {
    exists i: nat :: At(hay, i, needle)
  }

  /** The first position from `start` on at which a non-empty needle occurs. */
  function FindBytes(hay: Bytes, needle: Bytes, start: nat): (r: Option<nat>)
    ensures r.Some? ==> start <= r.value && At(hay, r.value, needle)
    ensures r.Some? ==> forall j: nat :: start <= j < r.value ==> !At(hay, j, needle)
    ensures r.None? && needle != [] ==> forall j: nat :: start <= j ==> !At(hay, j, needle)
    decreases |hay| - start
  {
    if needle == [] || start + |needle| > |hay| then None
    else if hay[start..start + |needle|] == needle then Some(start)
    else FindBytes(hay, needle, start + 1)
  }

  // ---------------------------------------------------------------------
  // The parser
  // ---------------------------------------------------------------------

  function TrimNewline(body: Bytes): Bytes {
    if |body| >= 2 && body[|body| - 2..] == CRLF then body[..|body| - 2]
    else if body != [] && body[|body| - 1] == LF then body[..|body| - 1]
    else body
  }

  function SplitHeadersBody(data: Bytes): Part {
    match FindBytes(data, BLANK, 0)
    case Some(i) => Part(data[..i], TrimNewline(data[i + 4..]))
    case None =>
      match FindBytes(data, [LF, LF], 0)
      case Some(i) => Part(data[..i], TrimNewline(data[i + 2..]))
      case None => Part([], data)
  }

  function SkipNewline(body: Bytes, pos: nat): nat {
    if At(body, pos, CRLF) then pos + 2 else if At(body, pos, [LF]) then pos + 1 else pos
  }

  /** The parts found from just after a delimiter on. */
  function PartsFrom(body: Bytes, delim: Bytes, pos: nat): seq<Part>
    requires delim != []
    decreases |body| - pos
  {
    var p := SkipNewline(body, pos);
    if p >= |body| then []
    else
      var next := FindBytes(body, delim, p);
      var end := if next.Some? then next.value else |body|;
      [SplitHeadersBody(body[p..end])]
      + if next.None? || At(body, end, delim + DASHES) then [] else PartsFrom(body, delim, end + |delim|)
  }

  function Delimiter(boundary: Bytes): Bytes {
    DASHES + boundary
  }

  function Parsed(body: Bytes, boundary: Bytes): Result<seq<Part>> {
    match FindBytes(body, Delimiter(boundary), 0)
    case None => Err("no multipart boundary found in body")
    case Some(start) => Ok(PartsFrom(body, Delimiter(boundary), start + |Delimiter(boundary)|))
  }

  /** The parser's loop. On any bytes it ends, and every slice it takes is in range. */
  method ParseMultipartRelated(body: Bytes, boundary: Bytes) returns (r: Result<seq<Part>>)
    ensures r == Parsed(body, boundary)
  {
    hide FindBytes, SplitHeadersBody, At, PartsFrom;
    var delim := DASHES + boundary;
    var close := delim + DASHES;
    var parts: seq<Part> := [];
    var pos := 0;
    var first := FindBytes(body, delim, pos);
    if first.None? {
      return Err("no multipart boundary found in body");
    }
    pos := first.value + |delim|;
    ghost var all := PartsFrom(body, delim, pos);
    ghost var left := all;
    while true
      invariant left == PartsFrom(body, delim, pos) && all == parts + left
      decreases |body| - pos
    {
      PartsUnfold(body, delim, pos);
      if At(body, pos, CRLF) {
        pos := pos + 2;
      } else if At(body, pos, [LF]) {
        pos := pos + 1;
      }
      if pos >= |body| {
        break;
      }
      var next := FindBytes(body, delim, pos);
      var end := if next.Some? then next.value else |body|;
      FoundInRange(body, delim, pos);
      var part := SplitHeadersBody(body[pos..end]);
      assert left[0] == part;
      parts := parts + [part];
      left := left[1..];
      if next.None? || At(body, next.value, close) {
        break;
      }
      pos := next.value + |delim|;
    }
    assert left == [] && all == parts;
    return Ok(parts);
  }

  lemma PartsUnfold(body: Bytes, delim: Bytes, pos: nat)
    requires delim != []
    ensures var p := if At(body, pos, CRLF) then pos + 2 else if At(body, pos, [LF]) then pos + 1 else pos;
            var ps := PartsFrom(body, delim, pos);
      if p >= |body| then ps == []
      else
        var next := FindBytes(body, delim, p);
        var end := if next.Some? then next.value else |body|;
        && p <= end <= |body| && ps != [] && ps[0] == SplitHeadersBody(body[p..end])
        && ps[1..] == if next.None? || At(body, end, delim + DASHES) then [] else PartsFrom(body, delim, end + |delim|)
  {
    hide FindBytes, SplitHeadersBody, At;
    FoundInRange(body, delim, SkipNewline(body, pos));
  }

  lemma FoundInRange(hay: Bytes, needle: Bytes, start: nat)
    ensures var r := FindBytes(hay, needle, start); r.Some? ==> start <= r.value && r.value + |needle| <= |hay|
  {
  }

  // ---------------------------------------------------------------------
  // Framing
  // ---------------------------------------------------------------------

  /** Line breaks are CRLF, as the standard has it, or single line feeds. */
  predicate IsBreak(br: Bytes) {
    br == [CR, LF] || br == [LF]
  }

  function Data(part: Part, br: Bytes): Bytes {
    part.header + (br + br) + part.body
  }

  /** Parts framed with line breaks br, up to and including the close delimiter. */
  function Encode(parts: seq<Part>, boundary: Bytes, br: Bytes): Bytes {
    if parts == [] then Delimiter(boundary) + DASHES
    else Delimiter(boundary) + (br + Data(parts[0], br) + br + Encode(parts[1..], boundary, br))
  }

  predicate NoNewline(s: Bytes) {
    forall i :: 0 <= i < |s| ==> s[i] != CR && s[i] != LF
  }

  ghost predicate NoDelimiter(part: Part, boundary: Bytes) {
    !Occurs(Delimiter(boundary), part.header) && !Occurs(Delimiter(boundary), part.body)
  }

  /** Between single line feeds, a body may not look like a CRLF one: it has no
      blank line of that kind and does not end in a carriage return. */
  ghost predicate Unambiguous(part: Part, br: Bytes) {
    br == [LF] ==> !Occurs([CR, LF, CR, LF], part.body) && (part.body == [] || part.body[|part.body| - 1] != CR)
  }

  /** A one-line header, no delimiter inside, and nothing ambiguous. */
  ghost predicate Framable(part: Part, boundary: Bytes, br: Bytes) {
    NoNewline(part.header) && NoDelimiter(part, boundary) && Unambiguous(part, br)
  }

  /** Text before the first delimiter: nothing, or lines without a delimiter. */
  ghost predicate Preamble(pre: Bytes, boundary: Bytes, br: Bytes) {
    pre == [] ||
    (|pre| >= |br| && pre[|pre| - |br|..] == br && !Occurs(Delimiter(boundary), pre[..|pre| - |br|]))
  }

  lemma AtShifted(x: Bytes, y: Bytes, i: nat, needle: Bytes)
    ensures At(x + y, |x| + i, needle) <==> At(y, i, needle)
  {
    if i + |needle| <= |y| {
      assert (x + y)[|x| + i..|x| + i + |needle|] == y[i..i + |needle|];
    }
  }

  lemma AtPrefix(x: Bytes, y: Bytes, i: nat, needle: Bytes)
    requires i + |needle| <= |x|
    ensures At(x + y, i, needle) <==> At(x, i, needle)
  {
    assert (x + y)[i..i + |needle|] == x[i..i + |needle|];
  }

  lemma BreakInside(hay: Bytes, i: nat, needle: Bytes, k: nat)
    requires NoNewline(needle) && i <= k < i + |needle| && k < |hay| && (hay[k] == CR || hay[k] == LF)
    ensures !At(hay, i, needle)
  {
    if i + |needle| <= |hay| {
      assert hay[i..i + |needle|][k - i] == hay[k];
    }
  }

  /** Nothing but line-break bytes. */
  predicate OnlyBreaks(br: Bytes) {
    br != [] && forall j :: 0 <= j < |br| ==> br[j] == CR || br[j] == LF
  }

  lemma BreaksAreBreaks(br: Bytes)
    requires IsBreak(br)
    ensures OnlyBreaks(br) && OnlyBreaks(br + br) && 1 <= |br| <= 2
  {
  }

  /** A needle without line breaks does not occur across one. */
  lemma NotAcrossBreak(a: Bytes, br: Bytes, b: Bytes, needle: Bytes, i: nat)
    requires NoNewline(needle) && needle != [] && OnlyBreaks(br)
    requires !Occurs(needle, a) && i < |a| + |br|
    ensures !At(a + br + b, i, needle)
  {
    if i + |needle| <= |a| {
      AtPrefix(a, br + b, i, needle);
      assert a + (br + b) == a + br + b;
    } else {
      BreakInside(a + br + b, i, needle, if i < |a| then |a| else i);
    }
  }

  /** Searching framed data finds the delimiter that ends it. */
  lemma FindsEnd(x: Bytes, a: Bytes, br: Bytes, b: Bytes, needle: Bytes)
    requires NoNewline(needle) && needle != [] && !Occurs(needle, a) && OnlyBreaks(br)
    ensures FindBytes(x + (a + br + (needle + b)), needle, |x|) == Some(|x| + |a| + |br|)
  {
    hide FindBytes, At, Occurs, NoNewline, OnlyBreaks;
    var rest := a + br + (needle + b);
    AtStart(needle, b);
    AtShifted(a + br, needle + b, 0, needle);
    AtShifted(x, rest, |a| + |br|, needle);
    forall j: nat | |x| <= j < |x| + |a| + |br| ensures !At(x + rest, j, needle) {
      NotAcrossBreak(a, br, needle + b, needle, j - |x|);
      AtShifted(x, rest, j - |x|, needle);
    }
  }

  lemma AtStart(x: Bytes, y: Bytes)
    ensures At(x + y, 0, x)
  {
  }

  lemma NotInData(part: Part, boundary: Bytes, br: Bytes)
    requires NoNewline(boundary) && NoDelimiter(part, boundary) && IsBreak(br)
    ensures !Occurs(Delimiter(boundary), Data(part, br))
  {
    hide NoNewline;
    var needle, data := Delimiter(boundary), Data(part, br);
    DelimiterNoNewline(boundary);
    BreaksAreBreaks(br);
    forall i: nat ensures !At(data, i, needle) {
      if i < |part.header| + |br + br| {
        NotAcrossBreak(part.header, br + br, part.body, needle, i);
      } else {
        AtShifted(part.header + (br + br), part.body, i - |part.header| - |br + br|, needle);
      }
    }
  }

  // ---------------------------------------------------------------------
  // Splitting a part
  // ---------------------------------------------------------------------

  lemma NotAtFirst(hay: Bytes, j: nat, needle: Bytes)
    requires needle != [] && j < |hay| && hay[j] != needle[0]
    ensures !At(hay, j, needle)
  {
    if j + |needle| <= |hay| {
      assert hay[j..j + |needle|][0] == hay[j];
    }
  }

  lemma FirstFound(hay: Bytes, i: nat, needle: Bytes)
    requires needle != [] && At(hay, i, needle) && forall j: nat :: j < i ==> !At(hay, j, needle)
    ensures FindBytes(hay, needle, 0) == Some(i)
  {
  }

  /** The first blank line of a kind ends a one-line header. */
  lemma BlankFound(h: Bytes, br: Bytes, tail: Bytes)
    requires NoNewline(h) && IsBreak(br)
    ensures FindBytes(h + (br + br + tail), br + br, 0) == Some(|h|)
    ensures var data := h + (br + br + tail); data[|h| + |br + br|..] == tail && data[..|h|] == h
  {
    var data := h + (br + br + tail);
    forall j: nat | j < |h| ensures !At(data, j, br + br) {
      NotAtFirst(data, j, br + br);
    }
    hide FindBytes, At, NoNewline;
    AtStart(br + br, tail);
    AtShifted(h, br + br + tail, 0, br + br);
    FirstFound(data, |h|, br + br);
  }

  /** Behind a one-line header and line feeds, a CRLF blank line is one of the rest. */
  lemma BlankOnlyBehind(h: Bytes, tail: Bytes, j: nat)
    requires NoNewline(h)
    ensures At(h + ([LF] + [LF] + tail), j, BLANK) ==> j >= |h| + 2 && At(tail, j - |h| - 2, BLANK)
  {
    var data := h + ([LF] + [LF] + tail);
    if j < |h| + 2 {
      NotAtFirst(data, j, BLANK);
    } else {
      assert data == (h + ([LF] + [LF])) + tail;
      AtShifted(h + ([LF] + [LF]), tail, j - |h| - 2, BLANK);
    }
  }

  lemma BlankFoundBehind(h: Bytes, tail: Bytes)
    requires NoNewline(h)
    ensures var r := FindBytes(h + ([LF] + [LF] + tail), BLANK, 0);
      && (r.Some? ==> r.value >= |h| + 2)
      && (r.None? <==> !Occurs(BLANK, tail))
  {
    hide At, NoNewline;
    var data := h + ([LF] + [LF] + tail);
    var r := FindBytes(data, BLANK, 0);
    forall j: nat {
      BlankOnlyBehind(h, tail, j);
    }
    if r.Some? {
      BlankOnlyBehind(h, tail, r.value);
    } else {
      forall k: nat ensures !At(tail, k, BLANK) {
        assert data == (h + ([LF] + [LF])) + tail;
        AtShifted(h + ([LF] + [LF]), tail, k, BLANK);
      }
    }
  }

  /** What the parser makes of a one-line header, a blank line of line feeds and
      a tail: it splits there unless the tail has a CRLF blank line. */
  lemma SplitsAtLf(h: Bytes, tail: Bytes)
    requires NoNewline(h)
    ensures var p := SplitHeadersBody(h + ([LF] + [LF] + tail));
      if Occurs(BLANK, tail) then |p.header| >= |h| + 2 else p == Part(h, TrimNewline(tail))
  {
    hide FindBytes, At, NoNewline, TrimNewline;
    BlankFoundBehind(h, tail);
    BlankFound(h, [LF], tail);
    assert [LF] + [LF] == [LF, LF];
    InRangeIfFound(h + ([LF] + [LF] + tail), BLANK);
  }

  lemma InRangeIfFound(hay: Bytes, needle: Bytes)
    ensures FindBytes(hay, needle, 0).Some? ==> FindBytes(hay, needle, 0).value + |needle| <= |hay|
  {
  }

  lemma SplitsAtCrlf(h: Bytes, tail: Bytes)
    requires NoNewline(h)
    ensures SplitHeadersBody(h + (CRLF + CRLF + tail)) == Part(h, TrimNewline(tail))
  {
    hide At, NoNewline, TrimNewline;
    BlankFound(h, CRLF, tail);
    assert CRLF + CRLF == BLANK;
    hide FindBytes;
  }

  lemma Trims(body: Bytes, br: Bytes)
    requires IsBreak(br)
    ensures TrimNewline(body + br) == body
       <==> !(br == [LF] && body != [] && body[|body| - 1] == CR)
  {
    var all := body + br;
    assert all[|all| - 1] == LF;
    if br == [LF] && body != [] && body[|body| - 1] == CR {
      assert all[|all| - 2..] == CRLF;
    } else if br == [LF] && body != [] {
      assert all[|all| - 2..][0] == body[|body| - 1];
      assert all[..|all| - 1] == body;
    } else {
      assert br == CRLF ==> all[|all| - 2..] == CRLF;
      assert all[..|all| - |br|] == body;
    }
  }

  /** A CRLF blank line in a body with its final line feed is in the body, or the
      body ends in a carriage return. */
  lemma BlankAtEnd(body: Bytes)
    ensures Occurs(BLANK, body) ==> Occurs(BLANK, body + [LF])
    ensures Occurs(BLANK, body + [LF]) ==> Occurs(BLANK, body) || (body != [] && body[|body| - 1] == CR)
  {
    if Occurs(BLANK, body) {
      var i: nat :| At(body, i, BLANK);
      AtPrefix(body, [LF], i, BLANK);
    }
    if Occurs(BLANK, body + [LF]) {
      var i: nat :| At(body + [LF], i, BLANK);
      if i + 4 <= |body| {
        AtPrefix(body, [LF], i, BLANK);
      } else {
        assert (body + [LF])[i..i + 4][2] == body[|body| - 1];
      }
    }
  }

  /** Framed data with a one-line header splits back into its part exactly when
      it is not ambiguous. */
  lemma SplitsData(part: Part, br: Bytes)
    requires NoNewline(part.header) && IsBreak(br)
    ensures SplitHeadersBody(Data(part, br) + br) == part <==> Unambiguous(part, br)
  {
    hide SplitHeadersBody, TrimNewline, NoNewline, Occurs;
    var h, tail := part.header, part.body + br;
    assert Data(part, br) + br == h + (br + br + tail);
    Trims(part.body, br);
    if br == [LF] {
      SplitsAtLf(h, tail);
      BlankAtEnd(part.body);
    } else {
      SplitsAtCrlf(h, tail);
    }
  }

  // ---------------------------------------------------------------------
  // Reading on from a delimiter
  // ---------------------------------------------------------------------

  /** An encoded list without its first delimiter. */
  function AfterDelimiter(parts: seq<Part>, boundary: Bytes, br: Bytes): Bytes {
    if parts == [] then DASHES else br + (Data(parts[0], br) + br + Encode(parts[1..], boundary, br))
  }

  lemma EncodeSplit(parts: seq<Part>, boundary: Bytes, br: Bytes)
    ensures Encode(parts, boundary, br) == Delimiter(boundary) + AfterDelimiter(parts, boundary, br)
  {
    if parts != [] {
      hide Data, Encode;
      assert br + (Data(parts[0], br) + br + Encode(parts[1..], boundary, br))
          == br + Data(parts[0], br) + br + Encode(parts[1..], boundary, br);
    }
  }

  lemma FrameSlices(y: Bytes, data: Bytes, br: Bytes, d: Bytes, rest: Bytes)
    ensures var body := y + (data + br + (d + rest)); var end := |y| + |data| + |br|;
      && end + |d| <= |body|
      && body[|y|..end] == data + br
      && body == body[..end + |d|] + rest
      && body == (y + data + br) + (d + rest)
  {
    var body := y + (data + br + (d + rest));
    assert body == (y + data + br) + (d + rest);
    assert body == (y + data + br + d) + rest;
  }

  /** The first part of a framed text, seen from just after its first delimiter:
      where it ends, and whether the list ends there. */
  lemma FirstPart(y: Bytes, part: Part, others: seq<Part>, boundary: Bytes, br: Bytes, epilogue: Bytes)
    requires NoNewline(boundary) && NoDelimiter(part, boundary) && IsBreak(br)
    ensures var d, rest := Delimiter(boundary), AfterDelimiter(others, boundary, br) + epilogue;
            var body := y + (Data(part, br) + br + (d + rest));
            var end := |y| + |Data(part, br)| + |br|;
      && FindBytes(body, d, |y|) == Some(end)
      && (At(body, end, d + DASHES) <==> others == [])
  {
    hide *;
    var d, rest := Delimiter(boundary), AfterDelimiter(others, boundary, br) + epilogue;
    var data := Data(part, br);
    DelimiterNoNewline(boundary);
    BreaksAreBreaks(br);
    NotInData(part, boundary, br);
    FindsEnd(y, data, br, rest, d);
    FrameSlices(y, data, br, d, rest);
    AtShifted(y + data + br, d + rest, 0, d + DASHES);
    CloseOrNot(d, others, boundary, br, epilogue);
  }

  lemma DelimiterNoNewline(boundary: Bytes)
    requires NoNewline(boundary)
    ensures NoNewline(Delimiter(boundary)) && Delimiter(boundary) != []
  {
  }

  lemma CloseOrNot(d: Bytes, others: seq<Part>, boundary: Bytes, br: Bytes, epilogue: Bytes)
    requires IsBreak(br)
    ensures At(d + (AfterDelimiter(others, boundary, br) + epilogue), 0, d + DASHES) <==> others == []
  {
    var rest := AfterDelimiter(others, boundary, br) + epilogue;
    assert rest[0] == if others == [] then DASH else br[0];
    var n := |d| + 2;
    if others == [] {
      assert (d + rest)[..n] == d + DASHES;
    } else if n <= |d + rest| {
      assert (d + rest)[..n][|d|] == br[0] && (d + DASHES)[|d|] == DASH;
    }
  }

  /** A line break is skipped behind a delimiter. */
  lemma SkipsBreak(x: Bytes, br: Bytes, z: Bytes)
    requires IsBreak(br)
    ensures var body := x + br + z;
      if br == CRLF then At(body, |x|, CRLF) else !At(body, |x|, CRLF) && At(body, |x|, [LF])
  {
    var body := x + br + z;
    if br == CRLF {
      assert body[|x|..|x| + 2] == CRLF;
    } else {
      assert body[|x|..|x| + 1] == [LF];
      NotAtFirst(body, |x|, CRLF);
    }
  }

  lemma Unframe(x: Bytes, parts: seq<Part>, boundary: Bytes, br: Bytes, epilogue: Bytes)
    requires parts != []
    ensures x + (AfterDelimiter(parts, boundary, br) + epilogue)
         == x + br + (Data(parts[0], br) + br
                      + (Delimiter(boundary) + (AfterDelimiter(parts[1..], boundary, br) + epilogue)))
  {
    EncodeSplit(parts[1..], boundary, br);
    hide Data, Encode;
    Regroup(x, br, Data(parts[0], br) + br, Delimiter(boundary), AfterDelimiter(parts[1..], boundary, br), epilogue);
  }

  lemma Regroup(x: Bytes, br: Bytes, a: Bytes, d: Bytes, rest: Bytes, z: Bytes)
    ensures x + (br + (a + (d + rest)) + z) == x + br + (a + (d + (rest + z)))
  {
  }

  /** A first part without delimiter is read as it splits, and reading goes on behind it. */
  lemma CleanFirst(x: Bytes, parts: seq<Part>, boundary: Bytes, br: Bytes, epilogue: Bytes) returns (x': Bytes)
    requires parts != [] && NoNewline(boundary) && NoDelimiter(parts[0], boundary) && IsBreak(br)
    ensures var d := Delimiter(boundary);
      PartsFrom(x + (AfterDelimiter(parts, boundary, br) + epilogue), d, |x|)
      == [SplitHeadersBody(Data(parts[0], br) + br)]
         + if parts[1..] == [] then []
           else PartsFrom(x' + (AfterDelimiter(parts[1..], boundary, br) + epilogue), d, |x'|)
  {
    hide *;
    var d := Delimiter(boundary);
    var part, others := parts[0], parts[1..];
    var y, data, rest := x + br, Data(part, br), AfterDelimiter(others, boundary, br) + epilogue;
    var body := y + (data + br + (d + rest));
    Unframe(x, parts, boundary, br, epilogue);
    DelimiterNoNewline(boundary);
    SkipsBreak(x, br, data + br + (d + rest));
    BreakLength(br);
    FirstPart(y, part, others, boundary, br, epilogue);
    FrameSlices(y, data, br, d, rest);
    PartsUnfold(body, d, |x|);
    var end := |y| + |data| + |br|;
    x' := body[..end + |d|];
    assert PartsFrom(body, d, |x|) == [SplitHeadersBody(data + br)] + PartsFrom(body, d, |x|)[1..];
  }

  lemma BreakLength(br: Bytes)
    requires IsBreak(br)
    ensures |br| == if br == CRLF then 2 else 1
  {
  }

  lemma {:induction false} RoundTripFrom(x: Bytes, parts: seq<Part>, boundary: Bytes, br: Bytes, epilogue: Bytes)
    requires parts != [] && NoNewline(boundary) && IsBreak(br)
    requires forall p :: p in parts ==> Framable(p, boundary, br)
    ensures PartsFrom(x + (AfterDelimiter(parts, boundary, br) + epilogue), Delimiter(boundary), |x|) == parts
    decreases |parts|
  {
    hide *;
    assert parts[0] in parts && forall p :: p in parts[1..] ==> p in parts;
    assert parts == [parts[0]] + parts[1..];
    FramableParts(parts[0], boundary, br);
    var x' := CleanFirst(x, parts, boundary, br, epilogue);
    SplitsData(parts[0], br);
    if parts[1..] != [] {
      RoundTripFrom(x', parts[1..], boundary, br, epilogue);
    }
  }

  lemma FramableParts(part: Part, boundary: Bytes, br: Bytes)
    ensures Framable(part, boundary, br) <==>
              NoNewline(part.header) && NoDelimiter(part, boundary) && Unambiguous(part, br)
  {
  }

  /** Text before the first delimiter is skipped. */
  lemma FirstDelimiter(preamble: Bytes, rest: Bytes, boundary: Bytes, br: Bytes)
    requires NoNewline(boundary) && Preamble(preamble, boundary, br) && IsBreak(br)
    ensures FindBytes(preamble + (Delimiter(boundary) + rest), Delimiter(boundary), 0) == Some(|preamble|)
  {
    hide FindBytes, NoNewline, Delimiter, Occurs, IsBreak, OnlyBreaks;
    var d := Delimiter(boundary);
    DelimiterNoNewline(boundary);
    BreaksAreBreaks(br);
    if preamble == [] {
      assert preamble + (d + rest) == d + rest;
      FindsAtOnce(d, rest);
    } else {
      var lines := preamble[..|preamble| - |br|];
      assert preamble == lines + br;
      AfterLines(lines, br, rest, d);
    }
  }

  lemma AfterLines(lines: Bytes, br: Bytes, rest: Bytes, d: Bytes)
    requires NoNewline(d) && d != [] && !Occurs(d, lines) && OnlyBreaks(br)
    ensures FindBytes(lines + br + (d + rest), d, 0) == Some(|lines| + |br|)
  {
    hide FindBytes, NoNewline, Occurs, OnlyBreaks;
    FindsEnd([], lines, br, rest, d);
    assert [] + (lines + br + (d + rest)) == lines + br + (d + rest);
  }

  lemma FindsAtOnce(d: Bytes, rest: Bytes)
    requires d != []
    ensures FindBytes(d + rest, d, 0) == Some(0)
  {
  }

  // ---------------------------------------------------------------------
  // Parts with the delimiter inside
  // ---------------------------------------------------------------------

  lemma NoBreakAt(data: Bytes, n: nat, d: Bytes)
    requires NoNewline(d) && d != [] && At(data, n, d)
    ensures n < |data| && data[n] != CR && data[n] != LF
  {
    assert data[n..n + |d|][0] == data[n];
  }

  /** What the parser makes of a part that is cut short where a delimiter occurs in it. */
  lemma CutPart(part: Part, br: Bytes, d: Bytes, n: nat)
    requires NoNewline(part.header) && NoNewline(d) && d != [] && At(Data(part, br), n, d) && IsBreak(br)
    ensures SplitHeadersBody(Data(part, br)[..n]) != part
  {
    var h, data := part.header, Data(part, br);
    NoBreakAt(data, n, d);
    assert n < |h| || n >= |h| + |br + br|;
    if n < |h| {
      CutInHeader(data[..n]);
    } else {
      CutInBody(part, br, n);
    }
  }

  lemma CutInHeader(cut: Bytes)
    requires NoNewline(cut)
    ensures SplitHeadersBody(cut) == Part([], cut)
  {
    forall j: nat | j < |cut| ensures !At(cut, j, BLANK) && !At(cut, j, [LF, LF]) {
      NotAtFirst(cut, j, BLANK);
      NotAtFirst(cut, j, [LF, LF]);
    }
    assert FindBytes(cut, BLANK, 0) == None;
    assert FindBytes(cut, [LF, LF], 0) == None;
  }

  lemma CutInBody(part: Part, br: Bytes, n: nat)
    requires NoNewline(part.header) && |part.header| + |br + br| <= n < |Data(part, br)| && IsBreak(br)
    ensures SplitHeadersBody(Data(part, br)[..n]) != part
  {
    hide SplitHeadersBody, NoNewline, Occurs;
    var h, cut := part.header, Data(part, br)[..n];
    var tail := part.body[..n - |h| - |br + br|];
    assert cut == h + (br + br + tail);
    TrimIsShorter(tail);
    if br == [LF] {
      SplitsAtLf(h, tail);
    } else {
      SplitsAtCrlf(h, tail);
    }
  }

  lemma TrimIsShorter(body: Bytes)
    ensures |TrimNewline(body)| <= |body|
  {
  }

  /** A part with a delimiter in its header or body has one in its data. */
  lemma DirtyData(part: Part, boundary: Bytes, br: Bytes) returns (i: nat)
    requires !NoDelimiter(part, boundary)
    ensures At(Data(part, br), i, Delimiter(boundary))
  {
    var d, h := Delimiter(boundary), part.header;
    if Occurs(d, h) {
      i :| At(h, i, d);
      AtPrefix(h, br + br + part.body, i, d);
      assert h + (br + br + part.body) == Data(part, br);
    } else {
      var k: nat :| At(part.body, k, d);
      i := |h| + |br + br| + k;
      AtShifted(h + (br + br), part.body, k, d);
    }
  }

  /** A search in framed data stops at the first occurrence inside the data. */
  lemma StopsInside(y: Bytes, data: Bytes, z: Bytes, d: Bytes, i: nat) returns (n: nat)
    requires d != [] && At(data, i, d)
    ensures FindBytes(y + (data + z), d, |y|) == Some(|y| + n) && At(data, n, d)
    ensures (y + (data + z))[|y|..|y| + n] == data[..n]
  {
    hide At;
    var body := y + (data + z);
    AtInRange(data, i, d);
    AtPrefix(data, z, i, d);
    AtShifted(y, data + z, i, d);
    var r := FindBytes(body, d, |y|);
    n := r.value - |y|;
    AtShifted(y, data + z, n, d);
    AtPrefix(data, z, n, d);
  }

  lemma AtInRange(hay: Bytes, i: nat, needle: Bytes)
    requires At(hay, i, needle)
    ensures i + |needle| <= |hay|
  {
  }

  /** A delimiter inside the first part makes the parser see another part. */
  lemma DirtyFirst(x: Bytes, parts: seq<Part>, boundary: Bytes, br: Bytes, epilogue: Bytes)
    requires parts != [] && NoNewline(boundary) && NoNewline(parts[0].header) && IsBreak(br)
    requires !NoDelimiter(parts[0], boundary)
    ensures PartsFrom(x + (AfterDelimiter(parts, boundary, br) + epilogue), Delimiter(boundary), |x|) != parts
  {
    hide *;
    var d, part := Delimiter(boundary), parts[0];
    var data := Data(part, br);
    var z := br + (d + (AfterDelimiter(parts[1..], boundary, br) + epilogue));
    var y := x + br;
    var body := y + (data + z);
    Unframe(x, parts, boundary, br, epilogue);
    assert x + (AfterDelimiter(parts, boundary, br) + epilogue) == body by {
      assert data + br + (d + (AfterDelimiter(parts[1..], boundary, br) + epilogue)) == data + z;
    }
    DelimiterNoNewline(boundary);
    SkipsBreak(x, br, data + z);
    BreakLength(br);
    var i := DirtyData(part, boundary, br);
    var n := StopsInside(y, data, z, d, i);
    NonEmptyAt(data, i, d);
    CutPart(part, br, d, n);
    PartsUnfold(body, d, |x|);
  }

  lemma NonEmptyAt(hay: Bytes, i: nat, needle: Bytes)
    requires needle != [] && At(hay, i, needle)
    ensures hay != []
  {
  }

  /** From just after a delimiter, parts with one-line headers are not read as
      framed if one of them has the delimiter inside or is ambiguous. */
  lemma {:induction false} RoundTripOnly(x: Bytes, parts: seq<Part>, boundary: Bytes, br: Bytes, epilogue: Bytes)
    requires NoNewline(boundary) && IsBreak(br) && forall p :: p in parts ==> NoNewline(p.header)
    requires exists p :: p in parts && !Framable(p, boundary, br)
    ensures PartsFrom(x + (AfterDelimiter(parts, boundary, br) + epilogue), Delimiter(boundary), |x|) != parts
    decreases |parts|
  {
    hide *;
    FramableParts(parts[0], boundary, br);
    if NoDelimiter(parts[0], boundary) {
      assert parts == [parts[0]] + parts[1..];
      var x' := CleanFirst(x, parts, boundary, br, epilogue);
      SplitsData(parts[0], br);
      if Framable(parts[0], boundary, br) {
        RoundTripOnly(x', parts[1..], boundary, br, epilogue);
      }
    } else {
      DirtyFirst(x, parts, boundary, br, epilogue);
    }
  }

  // ---------------------------------------------------------------------
  // The round trip
  // ---------------------------------------------------------------------

  /** Parsing a framed list of parts with one-line headers, with either kind of
      line break, between any preamble and any epilogue, returns exactly those
      parts in order if and only if there is a part, the delimiter occurs in no
      header and no body, and no body is ambiguous. */
  lemma MultipartRoundTrip(preamble: Bytes, parts: seq<Part>, boundary: Bytes, br: Bytes, epilogue: Bytes)
    requires NoNewline(boundary) && Preamble(preamble, boundary, br) && IsBreak(br)
    requires forall p :: p in parts ==> NoNewline(p.header)
    ensures Parsed(preamble + Encode(parts, boundary, br) + epilogue, boundary) == Ok(parts)
       <==> parts != [] && forall p :: p in parts ==> NoDelimiter(p, boundary) && Unambiguous(p, br)
  {
    hide FindBytes, At, PartsFrom, SplitHeadersBody, Framable, NoNewline, Preamble, AfterDelimiter, Encode,
         NoDelimiter, Unambiguous, IsBreak;
    var d := Delimiter(boundary);
    var rest := AfterDelimiter(parts, boundary, br) + epilogue;
    var body := preamble + Encode(parts, boundary, br) + epilogue;
    EncodeSplit(parts, boundary, br);
    assert body == preamble + (d + rest);
    FirstDelimiter(preamble, rest, boundary, br);
    assert body == (preamble + d) + rest;
    forall p | p in parts
      ensures Framable(p, boundary, br) <==> NoDelimiter(p, boundary) && Unambiguous(p, br)
    {
      FramableParts(p, boundary, br);
    }
    if parts == [] {
      EmptyListYieldsPart(preamble + d, boundary, br, epilogue);
    } else if forall p :: p in parts ==> Framable(p, boundary, br) {
      RoundTripFrom(preamble + d, parts, boundary, br, epilogue);
    } else {
      RoundTripOnly(preamble + d, parts, boundary, br, epilogue);
    }
  }

  lemma EmptyListYieldsPart(x: Bytes, boundary: Bytes, br: Bytes, epilogue: Bytes)
    ensures PartsFrom(x + (AfterDelimiter([], boundary, br) + epilogue), Delimiter(boundary), |x|) != []
  {
    var body := x + (AfterDelimiter([], boundary, br) + epilogue);
    assert body[|x|] == DASH;
    hide FindBytes, At, PartsFrom, SplitHeadersBody;
    NotAtFirst(body, |x|, CRLF);
    NotAtFirst(body, |x|, [LF]);
    PartsUnfold(body, Delimiter(boundary), |x|);
  }
}
