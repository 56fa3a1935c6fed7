/** The `YYYY-MM-DD` date strings that key tasks, and the two conversions
    between them and JavaScript `Date` values that the task forms perform:
    `new Date('YYYY-MM-DD')` and `moment(date).format('YYYY-MM-DD')`. */
module IsoDate {
  import opened Wrappers
  import opened Dates

  function DigitChar(n: int): (c: char)
    requires 0 <= n < 10
    ensures '0' <= c <= '9'
  {
    (48 + n) as char
  }

  predicate IsDigit(c: char) {
    '0' <= c <= '9'
  }

  predicate AllDigits(s: string) {
    forall i :: 0 <= i < |s| ==> IsDigit(s[i])
  }

  function Pow10(w: nat): (p: nat)
    ensures p >= 1
  {
    if w == 0 then 1 else 10 * Pow10(w - 1)
  }

  /** The last `w` decimal digits of `n`, with leading zeros. */
  function Fixed(n: nat, w: nat): (s: string)
    ensures |s| == w && AllDigits(s)
  {
    if w == 0 then [] else Fixed(n / 10, w - 1) + [DigitChar(n % 10)]
  }

  /** The decimal digits of `n` without leading zeros. */
  function Digits(n: nat): string
  {
    if n < 10 then [DigitChar(n)] else Digits(n / 10) + [DigitChar(n % 10)]
  }

  /** The number a run of decimal digits denotes. */
  function Value(s: string): (v: nat)
    requires AllDigits(s)
  {
    if s == [] then 0 else 10 * Value(s[..|s| - 1]) + (s[|s| - 1] as int - 48)
  }

  lemma {:induction false} ValueOfFixed(n: nat, w: nat)
    requires n < Pow10(w)
    ensures Value(Fixed(n, w)) == n
  {
    if w > 0 {
      ValueOfFixed(n / 10, w - 1);
      assert Fixed(n, w)[..w - 1] == Fixed(n / 10, w - 1);
    }
  }

  lemma {:induction false} FixedOfValue(s: string)
    requires AllDigits(s)
    ensures Value(s) < Pow10(|s|)
    ensures Fixed(Value(s), |s|) == s
  {
    if s != [] {
      var t := s[..|s| - 1];
      FixedOfValue(t);
      assert s == t + [s[|s| - 1]];
    }
  }

  /** moment's `zeroFill` of the year: a sign for years before year 0, then
      at least four digits. */
  function YearText(y: int): string {
    var a := if y < 0 then -y else y;
    (if y < 0 then "-" else "") + (if a < 10000 then Fixed(a, 4) else Digits(a))
  }

  /** `moment(...).format('YYYY-MM-DD')` of a calendar date. */
  function FormatIso(d: Date): (s: string)
    requires ValidDate(d)
    ensures 0 <= d.year <= 9999 ==> |s| == 10 && s[4] == '-' && s[7] == '-'
  {
    YearText(d.year) + "-" + Fixed(d.month, 2) + "-" + Fixed(d.day, 2)
  }

  /** Reads a `YYYY-MM-DD` string naming a real calendar date. */
  function ParseIso(s: string): (r: Option<Date>)
    ensures r.Some? ==> ValidDate(r.value)
  {
    if |s| == 10 && s[4] == '-' && s[7] == '-' &&
       AllDigits(s[..4]) && AllDigits(s[5..7]) && AllDigits(s[8..]) then
      var d := Date(Value(s[..4]), Value(s[5..7]), Value(s[8..]));
      if ValidDate(d) then Some(d) else None
    else None
  }

  /** A parsed year has at most four digits. */
  lemma ParsedYear(s: string)
    requires ParseIso(s).Some?
    ensures 0 <= ParseIso(s).value.year <= 9999
  {
    FixedOfValue(s[..4]);
    assert Pow10(4) == 10000;
  }

  /** Formatting then parsing a four-digit-year date gives the date back. */
  lemma ParseFormat(d: Date)
    requires ValidDate(d) && 0 <= d.year <= 9999
    ensures ParseIso(FormatIso(d)) == Some(d)
  {
    var s := FormatIso(d);
    assert s[..4] == Fixed(d.year, 4);
    assert s[5..7] == Fixed(d.month, 2);
    assert s[8..] == Fixed(d.day, 2);
    ValueOfFixed(d.year, 4);
    ValueOfFixed(d.month, 2);
    ValueOfFixed(d.day, 2);
  }

  /** A four-digit year is written as its four digits. */
  lemma YearTextFourDigits(y: int)
    requires 0 <= y < 10000
    ensures YearText(y) == Fixed(y, 4)
  {
  }

  /** A ten-character string with dashes at 4 and 7 is its three fields joined by dashes. */
  lemma IsoFields(s: string)
    requires |s| == 10 && s[4] == '-' && s[7] == '-'
    ensures s == s[..4] + "-" + s[5..7] + "-" + s[8..]
  {
  }

  /** Parsing then formatting gives the string back. */
  lemma FormatParse(s: string)
    requires ParseIso(s).Some?
    ensures FormatIso(ParseIso(s).value) == s
  {
    var ys, ms, ds := s[..4], s[5..7], s[8..];
    FixedOfValue(ys);
    FixedOfValue(ms);
    FixedOfValue(ds);
    var d := ParseIso(s).value;
    assert d == Date(Value(ys), Value(ms), Value(ds));
    assert Pow10(4) == 10000;
    YearTextFourDigits(d.year);
    IsoFields(s);
  }

  /** For four-digit years, equal `YYYY-MM-DD` strings mean equal dates:
      comparing formatted strings compares calendar days. */
  lemma FormatInjective(a: Date, b: Date)
    requires ValidDate(a) && 0 <= a.year <= 9999
    requires ValidDate(b) && 0 <= b.year <= 9999
    ensures FormatIso(a) == FormatIso(b) <==> a == b
  {
    ParseFormat(a);
    ParseFormat(b);
  }

  // ---- JavaScript Date values ------------------------------------------

  /** A JavaScript `Date`: milliseconds since 1970-01-01T00:00Z, or Invalid Date. */
  datatype JsDate = Invalid | Instant(utcMs: int)

  /** `new Date(s)` for a date-only string. A well-formed `YYYY-MM-DD`
      string naming a valid date is read as midnight UTC of that day; every
      other string is taken as Invalid Date (engines parse some other forms
      their own way, which is not modelled). */
  function NewDateFromIso(s: string): (r: JsDate)
    ensures ParseIso(s).None? <==> r == Invalid
  {
    match ParseIso(s)
    case Some(d) => Instant(At(DayNumber(d), 0))
    case None => Invalid
  }

  /** The calendar date a `Date` shows in a time zone `offsetMs` ahead of UTC. */
  function LocalDate(t: JsDate, offsetMs: int): (r: Option<Date>)
    ensures r.Some? <==> t.Instant?
    ensures r.Some? ==> ValidDate(r.value)
  {
    match t
    case Instant(ms) => Some(DateOf(ms + offsetMs))
    case Invalid => None
  }

  /** `moment(date).format('YYYY-MM-DD')` in that time zone; moment writes
      "Invalid date" for an invalid Date. */
  function FormatLocalIso(t: JsDate, offsetMs: int): string {
    match LocalDate(t, offsetMs)
    case Some(d) => FormatIso(d)
    case None => "Invalid date"
  }

  /** The local date of an instant is the date of its local time. */
  lemma LocalDateOf(ms: int, offsetMs: int)
    ensures LocalDate(Instant(ms), offsetMs) == Some(DateOf(ms + offsetMs))
  {
  }

  /** An instant within a day of midnight of day `n` falls on day `n` when
      it is later than that midnight, and on day `n - 1` when earlier. */
  lemma NearMidnight(n: int, offsetMs: int)
    requires -DayMs < offsetMs < DayMs
    ensures (At(n, 0) + offsetMs) / DayMs == if offsetMs < 0 then n - 1 else n
  {
  }

  /** Midnight UTC of day `n`, seen from a zone `offsetMs` ahead of UTC, is
      on day `n` east of UTC (or on it) and on day `n - 1` west of it. */
  lemma MidnightSeenFrom(n: int, offsetMs: int)
    requires -DayMs < offsetMs < DayMs
    ensures LocalDate(Instant(At(n, 0)), offsetMs) == Some(FromDayNumber(if offsetMs < 0 then n - 1 else n))
  {
    NearMidnight(n, offsetMs);
    LocalDateOf(At(n, 0), offsetMs);
    DateOfDay(At(n, 0) + offsetMs, if offsetMs < 0 then n - 1 else n);
  }

  /** Midnight UTC of `d`, seen from a zone west of UTC, is on the day before. */
  lemma MidnightSeenWest(d: Date, offsetMs: int)
    requires ValidDate(d)
    requires -DayMs < offsetMs < 0
    ensures LocalDate(Instant(At(DayNumber(d), 0)), offsetMs) == Some(AddDays(d, -1))
  {
    MidnightSeenFrom(DayNumber(d), offsetMs);
    assert AddDays(d, -1) == FromDayNumber(DayNumber(d) - 1);
  }

  /** Midnight UTC of `d`, seen from a zone on or east of UTC, is still on `d`. */
  lemma MidnightSeenEast(d: Date, offsetMs: int)
    requires ValidDate(d)
    requires 0 <= offsetMs < DayMs
    ensures LocalDate(Instant(At(DayNumber(d), 0)), offsetMs) == Some(d)
  {
    MidnightSeenFrom(DayNumber(d), offsetMs);
    DateRoundTrip(d);
  }

  /** West of UTC, a `YYYY-MM-DD` string read as midnight UTC shows the
      day before in local time. */
  lemma UtcMidnightWestward(s: string, offsetMs: int)
    requires ParseIso(s).Some?
    requires -DayMs < offsetMs < 0
    ensures LocalDate(NewDateFromIso(s), offsetMs) == Some(AddDays(ParseIso(s).value, -1))
  {
    var d := ParseIso(s).value;
    assert NewDateFromIso(s) == Instant(At(DayNumber(d), 0));
    MidnightSeenWest(d, offsetMs);
  }

  /** So formatting that `Date` back in local time gives the previous day's
      text, never the string that was read. */
  lemma UtcMidnightShiftsDay(s: string, offsetMs: int)
    requires ParseIso(s).Some? && 1 <= ParseIso(s).value.year
    requires -DayMs < offsetMs < 0
    ensures FormatLocalIso(NewDateFromIso(s), offsetMs) == FormatIso(AddDays(ParseIso(s).value, -1))
    ensures FormatLocalIso(NewDateFromIso(s), offsetMs) != s
  {
    UtcMidnightWestward(s, offsetMs);
    ParsedYear(s);
    PreviousDayText(ParseIso(s).value);
    FormatParse(s);
  }

  /** The day before `d` is the day whose next day is `d`, and (within four-digit
      years) its text differs from that of `d`. */
  lemma PreviousDayText(d: Date)
    requires ValidDate(d) && 1 <= d.year <= 9999
    ensures NextDay(AddDays(d, -1)) == d
    ensures FormatIso(AddDays(d, -1)) != FormatIso(d)
  {
    var e := AddDays(d, -1);
    AddOneDay(e);
    AddDaysAdds(d, -1, 1);
    NextDayYear(e);
    FormatInjective(e, d);
  }

  lemma NextDayYear(e: Date)
    requires ValidDate(e)
    ensures NextDay(e).year == e.year || NextDay(e).year == e.year + 1
  {
  }

  /** East of UTC (or on it) the same reading happens to keep the day. */
  lemma UtcMidnightEastward(s: string, offsetMs: int)
    requires ParseIso(s).Some?
    requires 0 <= offsetMs < DayMs
    ensures FormatLocalIso(NewDateFromIso(s), offsetMs) == s
  {
    var d := ParseIso(s).value;
    assert NewDateFromIso(s) == Instant(At(DayNumber(d), 0));
    MidnightSeenEast(d, offsetMs);
    FormatParse(s);
  }

  /** A `YYYY-MM-DD` string read as local midnight in a zone `offsetMs`
      ahead of UTC, the way `new Date(y, m - 1, d)` reads it. */
  function NewLocalDateFromIso(s: string, offsetMs: int): (r: JsDate)
    ensures ParseIso(s).None? <==> r == Invalid
  {
    match ParseIso(s)
    case Some(d) => Instant(At(DayNumber(d), 0) - offsetMs)
    case None => Invalid
  }

  /** Local midnight of day `n`, seen from its own zone, is on day `n`. */
  lemma LocalMidnightSeenFrom(n: int, offsetMs: int)
    ensures LocalDate(Instant(At(n, 0) - offsetMs), offsetMs) == Some(FromDayNumber(n))
  {
    assert At(n, 0) - offsetMs + offsetMs == At(n, 0);
    LocalDateOf(At(n, 0) - offsetMs, offsetMs);
    DateOfDay(At(n, 0), n);
  }

  /** Local midnight of `d`, seen from its own zone, is on `d`. */
  lemma LocalMidnightSeen(d: Date, offsetMs: int)
    requires ValidDate(d)
    ensures LocalDate(Instant(At(DayNumber(d), 0) - offsetMs), offsetMs) == Some(d)
  {
    LocalMidnightSeenFrom(DayNumber(d), offsetMs);
    DateRoundTrip(d);
  }

  /** Read as local midnight, a date string comes back unchanged in every zone. */
  lemma LocalMidnightRoundTrip(s: string, offsetMs: int)
    requires ParseIso(s).Some?
    ensures FormatLocalIso(NewLocalDateFromIso(s, offsetMs), offsetMs) == s
  {
    var d := ParseIso(s).value;
    assert NewLocalDateFromIso(s, offsetMs) == Instant(At(DayNumber(d), 0) - offsetMs);
    LocalMidnightSeen(d, offsetMs);
    FormatParse(s);
  }
}
