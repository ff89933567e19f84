/** Studio dates and slot timestamps as text: exact validators, the formatter, and the text order. */
module StudioTime {
  import opened Calendar
  import opened Text
  import opened Wrappers

  /** A studio wall-clock minute. */
  datatype Wall = Wall(date: Date, hour: int, minute: int)

  predicate WallOk(w: Wall) {
    Real(w.date) && 0 <= w.hour < 24 && 0 <= w.minute < 60
  }

  // --- text ------------------------------------------------------------------------------------

  function Two(n: int): (s: string)
    requires 0 <= n < 100
    ensures |s| == 2 && AllDigits(s)
  {
    [DigitChar(n / 10), DigitChar(n % 10)]
  }

  function Four(n: int): (s: string)
    requires 0 <= n < 10000
    ensures |s| == 4 && AllDigits(s)
  {
    Two(n / 100) + Two(n % 100)
  }

  function DateText(d: Date): (s: string)
    requires Real(d)
    ensures |s| == 10
  {
    Four(d.year) + ("-" + (Two(d.month) + ("-" + Two(d.day))))
  }

  const ZONE := ":00+05:00"

  /** `YYYY-MM-DDTHH:MM:00+05:00`. */
  function StartsAtText(w: Wall): (s: string)
    requires WallOk(w)
    ensures |s| == 25
  {
    DateText(w.date) + ("T" + (Two(w.hour) + (":" + (Two(w.minute) + ZONE))))
  }

  function Number2(s: string): (n: int)
    requires |s| == 2 && AllDigits(s)
    ensures 0 <= n < 100
  {
    DigitValue(s[0]) * 10 + DigitValue(s[1])
  }

  function Number4(s: string): (n: int)
    requires |s| == 4 && AllDigits(s)
    ensures 0 <= n < 10000
  {
    Number2(s[..2]) * 100 + Number2(s[2..])
  }

  /** The regular expressions of the source, with the fields they capture. */
  predicate DateShaped(s: string) {
    && |s| == 10 && AllDigits(s[..4]) && s[4] == '-' && AllDigits(s[5..7]) && s[7] == '-' && AllDigits(s[8..])
  }

  /** `require_calendar_date`. */
  function ParseDate(s: string): (r: Option<Date>)
    ensures r.Some? ==> Real(r.value)
  {
    if !DateShaped(s) then None else
    var d := Date(Number4(s[..4]), Number2(s[5..7]), Number2(s[8..]));
    if Real(d) then Some(d) else None
  }

  predicate StartsAtShaped(s: string) {
    && |s| == 25 && DateShaped(s[..10]) && s[10] == 'T' && AllDigits(s[11..13]) && s[13] == ':'
    && AllDigits(s[14..16]) && s[16..] == ZONE
  }

  /** `require_canonical_booking_starts_at`. */
  function ParseStartsAt(s: string): (r: Option<Wall>)
    ensures r.Some? ==> WallOk(r.value)
  {
    if !StartsAtShaped(s) || ParseDate(s[..10]).None? then None else
    var w := Wall(ParseDate(s[..10]).value, Number2(s[11..13]), Number2(s[14..16]));
    if w.hour > 23 || w.minute > 59 then None else Some(w)
  }

  lemma TwoOfNumber(s: string)
    requires |s| == 2 && AllDigits(s)
    ensures Two(Number2(s)) == s
  {
    DigitOfValue(s[0]);
    DigitOfValue(s[1]);
  }

  lemma NumberOfTwo(n: int)
    requires 0 <= n < 100
    ensures Number2(Two(n)) == n
  {
  }

  lemma FourOfNumber(s: string)
    requires |s| == 4 && AllDigits(s)
    ensures Four(Number4(s)) == s
  {
    TwoOfNumber(s[..2]);
    TwoOfNumber(s[2..]);
    assert Number4(s) / 100 == Number2(s[..2]) && Number4(s) % 100 == Number2(s[2..]);
  }

  lemma NumberOfFour(n: int)
    requires 0 <= n < 10000
    ensures Number4(Four(n)) == n
  {
    assert Four(n)[..2] == Two(n / 100) && Four(n)[2..] == Two(n % 100);
    NumberOfTwo(n / 100);
    NumberOfTwo(n % 100);
  }

  lemma DateTextFields(d: Date)
    requires Real(d)
    ensures var s := DateText(d);
            && s[..4] == Four(d.year) && s[4] == '-' && s[5..7] == Two(d.month) && s[7] == '-' && s[8..] == Two(d.day)
  {
  }

  lemma DateFieldsText(s: string, year: string, month: string, day: string)
    requires |s| == 10 && s[..4] == year && s[4] == '-' && s[5..7] == month && s[7] == '-' && s[8..] == day
    ensures s == year + ("-" + (month + ("-" + day)))
  {
    assert s == s[..4] + ([s[4]] + (s[5..7] + ([s[7]] + s[8..])));
  }

  /** A text is accepted as a calendar date iff it is that date's one canonical text. */
  lemma ParsesExactlyDateTexts(s: string, d: Date)
    ensures ParseDate(s) == Some(d) <==> Real(d) && s == DateText(d)
  {
    if ParseDate(s) == Some(d) {
      FourOfNumber(s[..4]);
      TwoOfNumber(s[5..7]);
      TwoOfNumber(s[8..]);
      DateFieldsText(s, Four(d.year), Two(d.month), Two(d.day));
    }
    if Real(d) && s == DateText(d) {
      DateTextFields(d);
      NumberOfFour(d.year);
      NumberOfTwo(d.month);
      NumberOfTwo(d.day);
    }
  }

  lemma StartsAtFields(w: Wall)
    requires WallOk(w)
    ensures var s := StartsAtText(w);
            && s[..10] == DateText(w.date) && s[10] == 'T' && s[11..13] == Two(w.hour) && s[13] == ':'
            && s[14..16] == Two(w.minute) && s[16..] == ZONE
  {
    hide DateText, Two;
  }

  lemma FieldsStartsAt(s: string, date: string, hour: string, minute: string)
    requires |s| == 25 && s[..10] == date && s[10] == 'T' && s[11..13] == hour && s[13] == ':'
    requires s[14..16] == minute && s[16..] == ZONE
    ensures s == date + ("T" + (hour + (":" + (minute + ZONE))))
  {
    assert s == s[..10] + ([s[10]] + (s[11..13] + ([s[13]] + (s[14..16] + s[16..]))));
  }

  /** A text is accepted as a slot timestamp iff it is the one canonical text of a studio minute. */
  lemma ParsesExactlyStartsAtTexts(s: string, w: Wall)
    ensures ParseStartsAt(s) == Some(w) <==> WallOk(w) && s == StartsAtText(w)
  {
    if ParseStartsAt(s) == Some(w) {
      ParsesExactlyDateTexts(s[..10], w.date);
      TwoOfNumber(s[11..13]);
      TwoOfNumber(s[14..16]);
      FieldsStartsAt(s, DateText(w.date), Two(w.hour), Two(w.minute));
    }
    if WallOk(w) && s == StartsAtText(w) {
      StartsAtFields(w);
      ParsesExactlyDateTexts(s[..10], w.date);
      NumberOfTwo(w.hour);
      NumberOfTwo(w.minute);
      hide DateText, Two, Real, Number2, StartsAtText;
    }
  }

  // --- instants --------------------------------------------------------------------------------

  /** Microseconds: an instant counts them from the start of year 1, UTC. */
  const MINUTE: int := 60_000_000
  const DAY_MINUTES: int := 1440
  const OFFSET_MINUTES: int := 300
  const END: int := DAYS * DAY_MINUTES * MINUTE

  datatype TimeError = StartsAtInvalid | OutOfRange

  /** The offset of the instants is the one the texts show. */
  lemma ZoneShowsOffset()
    ensures ZONE == ":00+" + Two(OFFSET_MINUTES / 60) + ":" + Two(OFFSET_MINUTES % 60)
  {
  }

  function WallMinutes(w: Wall): int
    requires WallOk(w)
  {
    Ordinal(w.date) * DAY_MINUTES + w.hour * 60 + w.minute
  }

  function WallOf(minutes: nat): Wall {
    Wall(DateOf(minutes / DAY_MINUTES), minutes % DAY_MINUTES / 60, minutes % DAY_MINUTES % 60)
  }

  /** The instant of a studio minute: the fixed UTC+5 offset. */
  function Instant(w: Wall): int
    requires WallOk(w)
  {
    (WallMinutes(w) - OFFSET_MINUTES) * MINUTE
  }

  /** An instant whose UTC and studio wall clock both fall into the years 1 to 9999, as datetime needs. */
  predicate InRange(t: int) {
    0 <= t && t + OFFSET_MINUTES * MINUTE < END
  }

  lemma QuotientAndRemainder(n: nat, q: int, r: int, d: int)
    requires 0 <= r < d && (d == 60 || d == 1440)
    ensures n == q * d + r <==> q == n / d && r == n % d
  {
    if d == 60 {
      assert n == 60 * (n / 60) + n % 60;
    } else {
      assert n == 1440 * (n / 1440) + n % 1440;
    }
  }

  lemma DaySplit(n: nat, day: int, hour: int, minute: int)
    requires 0 <= hour < 24 && 0 <= minute < 60
    ensures n == day * 1440 + hour * 60 + minute
            <==> day == n / 1440 && hour == n % 1440 / 60 && minute == n % 1440 % 60
  {
    QuotientAndRemainder(n, day, hour * 60 + minute, 1440);
    QuotientAndRemainder(n % 1440, hour, minute, 60);
    QuotientAndRemainder(n, n / 1440, n % 1440, 1440);
  }

  lemma MinutesOfWall(minutes: nat)
    requires minutes < DAYS * DAY_MINUTES
    ensures WallOk(WallOf(minutes)) && WallMinutes(WallOf(minutes)) == minutes
  {
    OrdinalOfDate(minutes / DAY_MINUTES);
    DaySplit(minutes, minutes / 1440, minutes % 1440 / 60, minutes % 1440 % 60);
    hide Real, Ordinal, DateOf;
  }

  lemma WallOfMinutes(w: Wall)
    requires WallOk(w)
    ensures 0 <= WallMinutes(w) < DAYS * DAY_MINUTES && WallOf(WallMinutes(w)) == w
  {
    DateOfOrdinal(w.date);
    hide Ordinal, DateOf, Real;
    DaySplit(WallMinutes(w), Ordinal(w.date), w.hour, w.minute);
  }

  /** `format_canonical_booking_starts_at` on an aware datetime; out of range, the conversion itself overflows. */
  function Format(t: int): (r: Result<string, TimeError>)
    ensures r.Ok? <==> InRange(t) && t % MINUTE == 0
    ensures r == Err(OutOfRange) <==> !InRange(t)
  {
    if !InRange(t) then Err(OutOfRange) else
    var studio := t + OFFSET_MINUTES * MINUTE;
    if studio % MINUTE != 0 then Err(StartsAtInvalid) else
    MinutesOfWall(studio / MINUTE);
    Ok(StartsAtText(WallOf(studio / MINUTE)))
  }

  /** Parsing what was formatted gives the same instant, across day, month and leap-year boundaries. */
  lemma ParseOfFormat(t: int)
    requires Format(t).Ok?
    ensures ParseStartsAt(Format(t).value).Some? && Instant(ParseStartsAt(Format(t).value).value) == t
  {
    var minutes := (t + OFFSET_MINUTES * MINUTE) / MINUTE;
    MinutesOfWall(minutes);
    ParsesExactlyStartsAtTexts(Format(t).value, WallOf(minutes));
  }

  /**
   * Formatting what was parsed gives the text back iff the instant is not before year 1 in UTC: the first five
   * studio hours of year 1 are accepted by the parser and overflow in the formatter.
   */
  lemma FormatOfParse(s: string)
    requires ParseStartsAt(s).Some?
    ensures var t := Instant(ParseStartsAt(s).value);
            && (Format(t) == Ok(s) <==> 0 <= t)
            && (0 > t <==> Format(t) == Err(OutOfRange))
  {
    var w := ParseStartsAt(s).value;
    ParsesExactlyStartsAtTexts(s, w);
    WallOfMinutes(w);
    FormatOfInstant(w);
  }

  lemma FormatOfInstant(w: Wall)
    requires WallOk(w) && 0 <= WallMinutes(w) < DAYS * DAY_MINUTES && WallOf(WallMinutes(w)) == w
    ensures Format(Instant(w)) == if Instant(w) >= 0 then Ok(StartsAtText(w)) else Err(OutOfRange)
  {
    hide Ordinal, DateOf, StartsAtText;
    var studio := Instant(w) + OFFSET_MINUTES * MINUTE;
    assert studio == WallMinutes(w) * MINUTE && studio / MINUTE == WallMinutes(w) && studio % MINUTE == 0;
  }

  lemma FirstHoursOverflow()
    ensures ParseStartsAt("0001-01-01T00:00:00+05:00").Some?
    ensures Format(Instant(ParseStartsAt("0001-01-01T00:00:00+05:00").value)) == Err(OutOfRange)
  {
    var w := Wall(Date(1, 1, 1), 0, 0);
    assert DateText(w.date) == "0001-01-01";
    assert StartsAtText(w) == "0001-01-01T00:00:00+05:00";
    ParsesExactlyStartsAtTexts("0001-01-01T00:00:00+05:00", w);
  }

  // --- text order --------------------------------------------------------------------------------

  lemma TwoOrder(a: int, b: int)
    requires 0 <= a < 100 && 0 <= b < 100
    ensures Less(Two(a), Two(b)) <==> a < b
    ensures Two(a) == Two(b) <==> a == b
  {
    NumberOfTwo(a);
    NumberOfTwo(b);
    LessByParts([DigitChar(a / 10)], [DigitChar(b / 10)], [DigitChar(a % 10)], [DigitChar(b % 10)]);
  }

  lemma FourOrder(a: int, b: int)
    requires 0 <= a < 10000 && 0 <= b < 10000
    ensures Less(Four(a), Four(b)) <==> a < b
    ensures Four(a) == Four(b) <==> a == b
  {
    NumberOfFour(a);
    NumberOfFour(b);
    TwoOrder(a / 100, b / 100);
    TwoOrder(a % 100, b % 100);
    LessByParts(Two(a / 100), Two(b / 100), Two(a % 100), Two(b % 100));
  }

  /** What the days parser's string comparison relies on: text order of canonical dates is calendar order. */
  lemma DateTextOrder(a: Date, b: Date)
    requires Real(a) && Real(b)
    ensures Less(DateText(a), DateText(b)) <==> Ordinal(a) < Ordinal(b)
    ensures DateText(a) == DateText(b) <==> a == b
  {
    OrdinalOrder(a, b);
    ParsesExactlyDateTexts(DateText(a), a);
    ParsesExactlyDateTexts(DateText(a), b);
    FourOrder(a.year, b.year);
    TwoOrder(a.month, b.month);
    TwoOrder(a.day, b.day);
    hide Two, Four, Ordinal;
    var (dayA, dayB) := ("-" + Two(a.day), "-" + Two(b.day));
    LessByParts("-", "-", Two(a.day), Two(b.day));
    LessByParts(Two(a.month), Two(b.month), dayA, dayB);
    LessByParts("-", "-", Two(a.month) + dayA, Two(b.month) + dayB);
    LessByParts(Four(a.year), Four(b.year), "-" + (Two(a.month) + dayA), "-" + (Two(b.month) + dayB));
    LessTotal("-", "-");
  }

  /** Text order of canonical timestamps is chronological order. */
  lemma StartsAtTextOrder(a: Wall, b: Wall)
    requires WallOk(a) && WallOk(b)
    ensures Less(StartsAtText(a), StartsAtText(b)) <==> Instant(a) < Instant(b)
    ensures StartsAtText(a) == StartsAtText(b) <==> a == b
  {
    ParsesExactlyStartsAtTexts(StartsAtText(a), a);
    ParsesExactlyStartsAtTexts(StartsAtText(a), b);
    DateTextOrder(a.date, b.date);
    TwoOrder(a.hour, b.hour);
    TwoOrder(a.minute, b.minute);
    hide Two, DateText, Ordinal;
    var (minuteA, minuteB) := (":" + (Two(a.minute) + ZONE), ":" + (Two(b.minute) + ZONE));
    LessTotal(ZONE, ZONE);
    LessTotal("T", "T");
    LessTotal(":", ":");
    LessByParts(Two(a.minute), Two(b.minute), ZONE, ZONE);
    LessByParts(":", ":", Two(a.minute) + ZONE, Two(b.minute) + ZONE);
    LessByParts(Two(a.hour), Two(b.hour), minuteA, minuteB);
    LessByParts("T", "T", Two(a.hour) + minuteA, Two(b.hour) + minuteB);
    LessByParts(DateText(a.date), DateText(b.date), "T" + (Two(a.hour) + minuteA), "T" + (Two(b.hour) + minuteB));
    InstantOrder(a, b);
  }

  lemma InstantOrder(a: Wall, b: Wall)
    requires WallOk(a) && WallOk(b)
    ensures Instant(a) < Instant(b)
            <==> Ordinal(a.date) < Ordinal(b.date)
                 || (a.date == b.date && (a.hour < b.hour || (a.hour == b.hour && a.minute < b.minute)))
  {
    OrdinalOrder(a.date, b.date);
    OrdinalOrder(b.date, a.date);
    hide Ordinal;
    assert Instant(a) < Instant(b) <==> WallMinutes(a) < WallMinutes(b);
  }
}
