/** Dates in Gmail queries: the days-from-civil arithmetic on 64-bit words,
    against counting days one year and one month at a time. */
module Calendar {
  import opened Wrappers
  import opened Decimal

  const DAY_MS: nat := 86_400_000

  // ---------------------------------------------------------------------
  // The fast computation
  // ---------------------------------------------------------------------

  function Word(n: int): (w: nat)
    ensures w < U64
  {
    n % U64
  }

  predicate AcceptedDate(year: nat, month: nat, day: nat) {
    year >= 1970 && 1 <= month <= 12 && 1 <= day <= 31
  }

  /** The year that starts in March. */
  function MarchYear(year: nat, month: nat): nat
    requires year >= 1970
  {
    if month <= 2 then year - 1 else year
  }

  function DayOfMarchYear(month: nat, day: nat): nat
    requires 1 <= month <= 12 && day >= 1
  {
    (153 * (if month > 2 then month - 3 else month + 9) + 2) / 5 + day - 1
  }

  function DayOfEra(year: nat, month: nat, day: nat): nat
    requires AcceptedDate(year, month, day)
  {
    var yoe := MarchYear(year, month) % 400;
    yoe * 365 + yoe / 4 - yoe / 100 + DayOfMarchYear(month, day)
  }

  /** Every operation wraps at 64 bits. */
  function FastMs(year: nat, month: nat, day: nat): nat
    requires AcceptedDate(year, month, day)
  {
    var era := MarchYear(year, month) / 400;
    var days := Word(Word(Word(era * 146097) + DayOfEra(year, month, day)) - 719468);
    Word(days * DAY_MS)
  }

  // ---------------------------------------------------------------------
  // The naive computation
  // ---------------------------------------------------------------------

  predicate Leap(year: nat) {
    year % 4 == 0 && (year % 100 != 0 || year % 400 == 0)
  }

  function YearLength(year: nat): nat {
    if Leap(year) then 366 else 365
  }

  function MonthLength(year: nat, month: nat): nat {
    if month == 2 then (if Leap(year) then 29 else 28)
    else if month == 4 || month == 6 || month == 9 || month == 11 then 30
    else 31
  }

  function DaysBeforeYear(year: nat): nat {
    if year <= 1970 then 0 else DaysBeforeYear(year - 1) + YearLength(year - 1)
  }

  function DaysBeforeMonth(year: nat, month: nat): nat {
    if month <= 1 then 0 else DaysBeforeMonth(year, month - 1) + MonthLength(year, month - 1)
  }

  function NaiveDays(year: nat, month: nat, day: nat): nat
    requires day >= 1
  {
    DaysBeforeYear(year) + DaysBeforeMonth(year, month) + day - 1
  }

  // ---------------------------------------------------------------------
  // Agreement
  // ---------------------------------------------------------------------

  /** Leap years up to and including n. */
  function Leaps(n: nat): nat {
    n / 4 - n / 100 + n / 400
  }

  lemma DivStep(n: nat)
    requires n >= 1
    ensures n / 4 == (n - 1) / 4 + if n % 4 == 0 then 1 else 0
    ensures n / 100 == (n - 1) / 100 + if n % 100 == 0 then 1 else 0
    ensures n / 400 == (n - 1) / 400 + if n % 400 == 0 then 1 else 0
    ensures n % 400 == 0 ==> n % 100 == 0
    ensures n % 100 == 0 ==> n % 4 == 0
  {
    var q := n / 400;
    var h := n / 100;
    assert n == 400 * q + n % 400;
    assert n == 100 * h + n % 100;
  }

  lemma LeapsStep(year: nat)
    requires year >= 1
    ensures Leaps(year) == Leaps(year - 1) + if Leap(year) then 1 else 0
  {
    DivStep(year);
  }

  lemma {:induction false} DaysBeforeYearClosed(year: nat)
    requires year >= 1970
    ensures DaysBeforeYear(year) == 365 * (year - 1970) + Leaps(year - 1) - 477
    decreases year
  {
    if year > 1970 {
      DaysBeforeYearClosed(year - 1);
      LeapsStep(year - 1);
    }
  }

  lemma EraArithmetic(y: nat)
    ensures (y / 400) * 146097 + (y % 400) * 365 + (y % 400) / 4 - (y % 400) / 100 == 365 * y + Leaps(y)
  {
    var e, r := y / 400, y % 400;
    assert y == 400 * e + r;
    assert y / 4 == 100 * e + r / 4;
    assert y / 100 == 4 * e + r / 100;
  }

  lemma MonthTable(year: nat, month: nat)
    requires 1 <= month <= 12
    ensures DaysBeforeMonth(year, month) ==
      (if month == 1 then 0 else if month == 2 then 31
       else 59 + (if Leap(year) then 1 else 0) + (153 * (month - 3) + 2) / 5)
  {
    assert DaysBeforeMonth(year, 1) == 0;
    assert DaysBeforeMonth(year, 2) == 31;
    assert DaysBeforeMonth(year, 3) == 59 + if Leap(year) then 1 else 0;
    assert DaysBeforeMonth(year, 4) == DaysBeforeMonth(year, 3) + 31;
    assert DaysBeforeMonth(year, 5) == DaysBeforeMonth(year, 4) + 30;
    assert DaysBeforeMonth(year, 6) == DaysBeforeMonth(year, 5) + 31;
    assert DaysBeforeMonth(year, 7) == DaysBeforeMonth(year, 6) + 30;
    assert DaysBeforeMonth(year, 8) == DaysBeforeMonth(year, 7) + 31;
    assert DaysBeforeMonth(year, 9) == DaysBeforeMonth(year, 8) + 31;
    assert DaysBeforeMonth(year, 10) == DaysBeforeMonth(year, 9) + 30;
    assert DaysBeforeMonth(year, 11) == DaysBeforeMonth(year, 10) + 31;
    assert DaysBeforeMonth(year, 12) == DaysBeforeMonth(year, 11) + 30;
  }

  /** In exact arithmetic the fast day number is the naive one, and the final
      subtraction does not go below zero. */
  lemma ExactDays(year: nat, month: nat, day: nat)
    requires AcceptedDate(year, month, day)
    ensures MarchYear(year, month) / 400 * 146097 + DayOfEra(year, month, day) - 719468 == NaiveDays(year, month, day)
  {
    EraArithmetic(MarchYear(year, month));
    DaysBeforeYearClosed(year);
    LeapsStep(year);
    MonthTable(year, month);
  }

  lemma WordAdd(a: int, b: int)
    ensures Word(Word(a) + b) == Word(a + b)
  {
  }

  lemma WordFits(n: nat)
    ensures Word(n) == n <==> n < U64
  {
  }

  lemma WordMul(a: nat, c: nat)
    ensures Word(Word(a) * c) == Word(a * c)
  {
    var q := a / U64;
    assert a == q * U64 + Word(a);
    assert a * c == (q * c) * U64 + Word(a) * c;
    WordMultiple(q * c, Word(a) * c);
  }

  lemma {:induction false} WordMultiple(q: nat, r: int)
    ensures Word(q * U64 + r) == Word(r)
    decreases q
  {
    if q > 0 {
      WordMultiple(q - 1, r);
    }
  }

  /** For every accepted date the 64-bit result is the naive one modulo 2^64,
      hence equal to it exactly when the naive one fits a word. */
  lemma FastIsNaive(year: nat, month: nat, day: nat)
    requires AcceptedDate(year, month, day)
    ensures FastMs(year, month, day) == Word(NaiveDays(year, month, day) * DAY_MS)
    ensures FastMs(year, month, day) == NaiveDays(year, month, day) * DAY_MS
       <==> NaiveDays(year, month, day) * DAY_MS < U64
  {
    hide NaiveDays, DayOfEra, MarchYear, Word;
    ExactDays(year, month, day);
    var e := MarchYear(year, month) / 400 * 146097;
    var d := DayOfEra(year, month, day);
    WordFits(NaiveDays(year, month, day) * DAY_MS);
    WordAdd(e, d);
    WordAdd(e + d, -719468);
    WordMul(NaiveDays(year, month, day), DAY_MS);
  }

  /** Up to the year 584,000,000 no intermediate value leaves the 64-bit range. */
  lemma NoOverflow(year: nat, month: nat, day: nat)
    requires AcceptedDate(year, month, day) && year <= 584_000_000
    ensures var e := MarchYear(year, month) / 400 * 146097; var d := DayOfEra(year, month, day);
      719468 <= e + d < U64 && NaiveDays(year, month, day) * DAY_MS < U64
    ensures FastMs(year, month, day) == NaiveDays(year, month, day) * DAY_MS
  {
    ExactDays(year, month, day);
    DaysBeforeYearClosed(year);
    MonthTable(year, month);
    FastIsNaive(year, month, day);
    hide FastMs, DayOfEra, MarchYear;
    assert NaiveDays(year, month, day) <= 366 * (year - 1970) + 1000;
  }

  // ---------------------------------------------------------------------
  // Order
  // ---------------------------------------------------------------------

  predicate ValidDate(year: nat, month: nat, day: nat) {
    AcceptedDate(year, month, day) && day <= MonthLength(year, month)
  }

  predicate Before(y1: nat, m1: nat, d1: nat, y2: nat, m2: nat, d2: nat) {
    y1 < y2 || (y1 == y2 && (m1 < m2 || (m1 == m2 && d1 < d2)))
  }

  lemma {:induction false} YearsMonotone(y1: nat, y2: nat)
    requires 1970 <= y1 < y2
    ensures DaysBeforeYear(y1) + YearLength(y1) <= DaysBeforeYear(y2)
    decreases y2
  {
    if y1 + 1 < y2 {
      YearsMonotone(y1, y2 - 1);
    }
  }

  lemma {:induction false} MonthsMonotone(year: nat, m1: nat, m2: nat)
    requires 1 <= m1 < m2
    ensures DaysBeforeMonth(year, m1) + MonthLength(year, m1) <= DaysBeforeMonth(year, m2)
    decreases m2
  {
    if m1 + 1 < m2 {
      MonthsMonotone(year, m1, m2 - 1);
    }
  }

  lemma WithinYear(year: nat, month: nat, day: nat)
    requires ValidDate(year, month, day)
    ensures DaysBeforeMonth(year, month) + day <= YearLength(year)
  {
    MonthTable(year, month);
  }

  /** Later valid dates have later timestamps, below the year 584,000,000. */
  lemma DatesMonotone(y1: nat, m1: nat, d1: nat, y2: nat, m2: nat, d2: nat)
    requires ValidDate(y1, m1, d1) && ValidDate(y2, m2, d2) && y1 <= 584_000_000 && y2 <= 584_000_000
    ensures FastMs(y1, m1, d1) < FastMs(y2, m2, d2) <==> Before(y1, m1, d1, y2, m2, d2)
  {
    NoOverflow(y1, m1, d1);
    NoOverflow(y2, m2, d2);
    hide FastMs;
    if Before(y1, m1, d1, y2, m2, d2) {
      DaysMonotone(y1, m1, d1, y2, m2, d2);
    } else if Before(y2, m2, d2, y1, m1, d1) {
      DaysMonotone(y2, m2, d2, y1, m1, d1);
    }
  }

  lemma DaysMonotone(y1: nat, m1: nat, d1: nat, y2: nat, m2: nat, d2: nat)
    requires ValidDate(y1, m1, d1) && ValidDate(y2, m2, d2) && Before(y1, m1, d1, y2, m2, d2)
    ensures NaiveDays(y1, m1, d1) < NaiveDays(y2, m2, d2)
  {
    if y1 < y2 {
      YearsMonotone(y1, y2);
      WithinYear(y1, m1, d1);
    } else if m1 < m2 {
      MonthsMonotone(y1, m1, m2);
    }
  }

  // ---------------------------------------------------------------------
  // Reading a date
  // ---------------------------------------------------------------------

  /** The pieces of s between slashes and dashes; always at least one. */
  function DatePieces(s: string): (r: seq<string>)
    ensures r != []
  {
    if s == "" then [""]
    else
      var r := DatePieces(s[1..]);
      if s[0] == '/' || s[0] == '-' then [""] + r else [[s[0]] + r[0]] + r[1..]
  }

  function ParseDateToMs(s: string): Option<nat> {
    var parts := DatePieces(s);
    if |parts| != 3 then None
    else
      var y, m, d := Parse(parts[0], I64), Parse(parts[1], I64), Parse(parts[2], I64);
      if y.None? || m.None? || d.None? || !AcceptedDate(y.value, m.value, d.value) then None
      else Some(FastMs(y.value, m.value, d.value))
  }

  lemma {:induction false} PiecesAt(a: string, c: char, b: string)
    requires '/' !in a && '-' !in a && (c == '/' || c == '-')
    ensures DatePieces(a + [c] + b) == [a] + DatePieces(b)
  {
    var s := a + [c] + b;
    if a == "" {
      assert s[1..] == b;
    } else {
      assert s[1..] == a[1..] + [c] + b;
      PiecesAt(a[1..], c, b);
      assert [a[0]] + a[1..] == a && ([a[1..]] + DatePieces(b))[1..] == DatePieces(b);
    }
  }

  lemma {:induction false} PiecesNowhere(s: string)
    requires '/' !in s && '-' !in s
    ensures DatePieces(s) == [s]
  {
    if s != "" {
      PiecesNowhere(s[1..]);
      assert [s[0]] + s[1..] == s;
    }
  }

  /** A printed date, with slashes or dashes, is read as the naive timestamp in
      64-bit arithmetic; dates outside the accepted range are refused. */
  lemma PrintedDateIsRead(year: nat, month: nat, day: nat, sep: char)
    requires sep == '/' || sep == '-'
    ensures ParseDateToMs(Print(year) + [sep] + (Print(month) + [sep] + Print(day)))
         == if AcceptedDate(year, month, day) && year < I64 then Some(Word(NaiveDays(year, month, day) * DAY_MS))
            else None
  {
    var y, m, d := Print(year), Print(month), Print(day);
    PiecesAt(y, sep, m + [sep] + d);
    PiecesAt(m, sep, d);
    PiecesNowhere(d);
    ParsePrint(year, I64);
    ParsePrint(month, I64);
    ParsePrint(day, I64);
    hide DatePieces, Print, Parse, FastMs, NaiveDays, Word;
    if AcceptedDate(year, month, day) {
      FastIsNaive(year, month, day);
    }
  }

  predicate IsSeparator(c: char) {
    c == '/' || c == '-'
  }

  lemma {:induction false} OnePiece(s: string)
    requires |DatePieces(s)| == 1
    ensures s == DatePieces(s)[0]
    decreases |s|
  {
    if s != "" {
      assert s == [s[0]] + s[1..];
      OnePiece(s[1..]);
    }
  }

  /** More than one piece: the first ends at a separator. */
  lemma {:induction false} FirstPiece(s: string) returns (c: char, rest: string)
    requires |DatePieces(s)| > 1
    ensures IsSeparator(c) && s == DatePieces(s)[0] + [c] + rest && DatePieces(rest) == DatePieces(s)[1..]
    decreases |s|
  {
    assert s == [s[0]] + s[1..];
    var r := DatePieces(s[1..]);
    if IsSeparator(s[0]) {
      c, rest := s[0], s[1..];
      assert ([""] + r)[1..] == r && "" + [c] + rest == s;
    } else {
      c, rest := FirstPiece(s[1..]);
      assert DatePieces(s)[1..] == r[1..] && ([s[0]] + r[0]) + [c] + rest == [s[0]] + (r[0] + [c] + rest);
    }
  }

  lemma ThreePieces(s: string)
    requires |DatePieces(s)| == 3
    ensures exists a, b :: IsSeparator(a) && IsSeparator(b)
              && s == DatePieces(s)[0] + [a] + (DatePieces(s)[1] + [b] + DatePieces(s)[2])
  {
    hide DatePieces, IsSeparator;
    var r := DatePieces(s);
    var a, rest := FirstPiece(s);
    var b, last := FirstPiece(rest);
    OnePiece(last);
    assert s == r[0] + [a] + (r[1] + [b] + r[2]);
  }

  /** The text writes this date: three numbers with a slash or dash between them. */
  ghost predicate WritesDate(text: string, year: nat, month: nat, day: nat) {
    exists y, a, m, b, d ::
      && text == y + [a] + (m + [b] + d) && IsSeparator(a) && IsSeparator(b)
      && Writes(y, year) && Writes(m, month) && Writes(d, day)
  }

  lemma WrittenIsRead(text: string, year: nat, month: nat, day: nat)
    requires WritesDate(text, year, month, day)
    requires 1970 <= year < 0x8000_0000_0000_0000 && 1 <= month <= 12 && 1 <= day <= 31
    ensures ParseDateToMs(text) == Some(NaiveDays(year, month, day) * 86_400_000 % 0x1_0000_0000_0000_0000)
  {
    hide NaiveDays, Print, Parse, Writes, FastMs, DatePieces;
    var y, a, m, b, d :|
      && text == y + [a] + (m + [b] + d) && IsSeparator(a) && IsSeparator(b)
      && Writes(y, year) && Writes(m, month) && Writes(d, day);
    forall c | IsSeparator(c) ensures c !in y && c !in m && c !in d {
      WritesDigits(y, year, c);
      WritesDigits(m, month, c);
      WritesDigits(d, day, c);
    }
    PiecesAt(y, a, m + [b] + d);
    PiecesAt(m, b, d);
    PiecesNowhere(d);
    ParseMeaning(y, I64, year);
    ParseMeaning(m, I64, month);
    ParseMeaning(d, I64, day);
    FastIsNaive(year, month, day);
  }

  lemma ReadIsWritten(text: string)
    requires ParseDateToMs(text).Some?
    ensures exists year, month, day ::
              1970 <= year < 0x8000_0000_0000_0000 && 1 <= month <= 12 && 1 <= day <= 31
              && WritesDate(text, year, month, day)
  {
    hide Parse, Writes, FastMs, DatePieces;
    var parts := DatePieces(text);
    var y, m, d := Parse(parts[0], I64).value, Parse(parts[1], I64).value, Parse(parts[2], I64).value;
    ThreePieces(text);
    ParseMeaning(parts[0], I64, y);
    ParseMeaning(parts[1], I64, m);
    ParseMeaning(parts[2], I64, d);
    assert WritesDate(text, y, m, d);
  }

  /** A text is read as a date exactly if it writes one of a year from 1970 on,
      below 2^63, with a month up to 12 and a day up to 31; and then as the
      counted milliseconds of that date, in 64 bits. */
  lemma DateMeaning(text: string)
    ensures ParseDateToMs(text).Some? <==>
              exists year, month, day ::
                1970 <= year < 0x8000_0000_0000_0000 && 1 <= month <= 12 && 1 <= day <= 31
                && WritesDate(text, year, month, day)
    ensures forall year, month, day ::
              1970 <= year < 0x8000_0000_0000_0000 && 1 <= month <= 12 && 1 <= day <= 31
              && WritesDate(text, year, month, day) ==>
                ParseDateToMs(text) == Some(NaiveDays(year, month, day) * 86_400_000 % 0x1_0000_0000_0000_0000)
  {
    hide WritesDate, ParseDateToMs, NaiveDays;
    forall year, month, day |
      1970 <= year < 0x8000_0000_0000_0000 && 1 <= month <= 12 && 1 <= day <= 31
      && WritesDate(text, year, month, day)
      ensures ParseDateToMs(text) == Some(NaiveDays(year, month, day) * 86_400_000 % 0x1_0000_0000_0000_0000)
    {
      WrittenIsRead(text, year, month, day);
    }
    if ParseDateToMs(text).Some? {
      ReadIsWritten(text);
    }
  }
}
