/**
 * Expiration arithmetic of `lib/expiration.ts`. Timestamps are integer milliseconds since the
 * epoch and the clock reading `now` is a parameter. An absent `expires_at` (`null`, or the empty
 * string that `!expiresAt` also rejects) is `None`.
 */
module Expiration {
  import opened Wrappers
  import opened Text

  datatype ExpirationOption = OneHour | OneDay | OneWeek | Never | OneMonth | Custom

  /** The units offered for a custom duration. */
  datatype DurationUnit = Minutes | Hours | Days | Weeks | Months | Years

  const SecondMs := 1000
  const MinuteMs := 60 * SecondMs
  const HourMs := 60 * MinuteMs
  const DayMs := 24 * HourMs
  const WeekMs := 7 * DayMs

  /** The fixed options' offsets: an hour, a day, a week, and a month of 30 days. */
  function FixedOffset(option: ExpirationOption): (ms: int)
    requires option in {OneHour, OneDay, OneWeek, OneMonth}
    ensures option == OneHour ==> ms == 3_600_000
    ensures option == OneDay ==> ms == 86_400_000
    ensures option == OneWeek ==> ms == 604_800_000
    ensures option == OneMonth ==> ms == 2_592_000_000
  {
    match option
    case OneHour => 60 * 60 * 1000
    case OneDay => 24 * 60 * 60 * 1000
    case OneWeek => 7 * 24 * 60 * 60 * 1000
    case OneMonth => 30 * 24 * 60 * 60 * 1000
  }

  /** `calculateExpirationDate(option, customDate)` evaluated at `now`. */
  function CalculateExpirationDate(option: ExpirationOption, customDate: Option<int>, now: int): (r: Option<int>)
    ensures option == Never ==> r == None
    ensures option == Custom ==> r == customDate
    ensures option !in {Never, Custom} ==> r == Some(now + FixedOffset(option))
  {
    if option == Never then None
    else if option == Custom then customDate
    else
      match option
      case OneHour => Some(now + 60 * 60 * 1000)
      case OneDay => Some(now + 24 * 60 * 60 * 1000)
      case OneWeek => Some(now + 7 * 24 * 60 * 60 * 1000)
      case OneMonth => Some(now + 30 * 24 * 60 * 60 * 1000)
  }

  /** One unit of a custom duration: a month is 30 days and a year 365 days. */
  function UnitMs(unit: DurationUnit): (ms: int)
    ensures ms > 0
    ensures unit == Minutes ==> ms == 60_000
    ensures unit == Hours ==> ms == 3_600_000
    ensures unit == Days ==> ms == 86_400_000
    ensures unit == Weeks ==> ms == 604_800_000
    ensures unit == Months ==> ms == 30 * 86_400_000
    ensures unit == Years ==> ms == 365 * 86_400_000
  {
    match unit
    case Minutes => 60 * 1000
    case Hours => 60 * 60 * 1000
    case Days => 24 * 60 * 60 * 1000
    case Weeks => 7 * 24 * 60 * 60 * 1000
    case Months => 30 * 24 * 60 * 60 * 1000
    case Years => 365 * 24 * 60 * 60 * 1000
  }

  /** A `Date` holds at most 8.64e15 milliseconds either side of the epoch. */
  const MaxTimeMs := 8_640_000_000_000_000

  /** Instants a `Date` can hold; beyond them `new Date(t)` is an Invalid Date. */
  predicate InDateRange(t: int) {
    -MaxTimeMs <= t <= MaxTimeMs
  }

  /**
   * `calculateCustomExpiration(amount, unit)` evaluated at `now`; `None` is the Invalid Date the
   * source builds once the sum leaves the `Date` range.
   */
  function CalculateCustomExpiration(amount: int, unit: DurationUnit, now: int): (r: Option<int>)
    ensures r.Some? <==> InDateRange(now + amount * UnitMs(unit))
    ensures r.Some? ==> r.value == now + amount * UnitMs(unit) && InDateRange(r.value)
    ensures r.Some? && amount > 0 ==> r.value > now
  {
    var t := now + amount * UnitMs(unit);
    if InDateRange(t) then Some(t) else None
  }

  /** Custom durations add up: `b` units after the date `a` units from now is `a + b` units from now. */
  lemma CustomDurationsAdd(a: int, b: int, unit: DurationUnit, now: int)
    ensures CalculateCustomExpiration(a, unit, now).Some? ==>
      CalculateCustomExpiration(b, unit, CalculateCustomExpiration(a, unit, now).value)
        == CalculateCustomExpiration(a + b, unit, now)
  {
    var u := UnitMs(unit);
    assert now + a * u + b * u == now + (a + b) * u;
  }

  /** A duration the selector accepts, 300000 years, already gives an Invalid Date. */
  lemma CustomBeyondDateRange(now: int)
    requires 0 <= now <= MaxTimeMs
    ensures CalculateCustomExpiration(300_000, Years, now) == None
  {
  }

  /** `isExpired`: an absent date never expires; otherwise strictly before `now`. */
  function IsExpired(expiresAt: Option<int>, now: int): (r: bool)
    ensures expiresAt.None? ==> !r
    ensures expiresAt.Some? && expiresAt.value == now ==> !r
  {
    match expiresAt
    case None => false
    case Some(t) => t < now
  }

  /** `"Expires in <n> <unit>"`, with an `s` when `n` is above one. */
  function Phrase(n: nat, unit: string): (r: string)
    requires unit != [] && unit[|unit| - 1] != 's'
    ensures StartsWith(r, "Expires in ")
    ensures EndsWith(r, "s") <==> n > 1
  {
    var r := "Expires in " + NatToString(n) + " " + unit + (if n > 1 then "s" else "");
    assert r[|r| - 1..] == [if n > 1 then 's' else unit[|unit| - 1]];
    r
  }

  /** A phrase is the prefix, then the count, a space, and the unit with its plural ending. */
  lemma PhraseFields(n: nat, unit: string)
    requires unit != [] && unit[|unit| - 1] != 's'
    ensures Phrase(n, unit) == "Expires in " + (NatToString(n) + [' '] + (unit + (if n > 1 then "s" else "")))
  {
  }

  /** Different counts of one unit read differently. */
  lemma PhraseShowsCount(n: nat, m: nat, unit: string)
    requires unit != [] && unit[|unit| - 1] != 's'
    ensures Phrase(n, unit) == Phrase(m, unit) ==> n == m
  {
    if Phrase(n, unit) == Phrase(m, unit) {
      var x := NatToString(n) + [' '] + (unit + (if n > 1 then "s" else ""));
      var y := NatToString(m) + [' '] + (unit + (if m > 1 then "s" else ""));
      PhraseFields(n, unit);
      PhraseFields(m, unit);
      assert x == ("Expires in " + x)[11..] == ("Expires in " + y)[11..] == y;
      SameFieldBefore(NatToString(n), unit + (if n > 1 then "s" else ""), NatToString(m), unit + (if m > 1 then "s" else ""), ' ');
      NatToStringRoundTrip(n);
      NatToStringRoundTrip(m);
    }
  }

  /** The units of the countdown, largest first. Its month is 30 days and its year 12 such months. */
  datatype CountdownUnit = Year | Month | Day | Hour | Minute | Second

  function SpanMs(u: CountdownUnit): int {
    match u
    case Year => 31_104_000_000
    case Month => 2_592_000_000
    case Day => 86_400_000
    case Hour => 3_600_000
    case Minute => 60_000
    case Second => 1_000
  }

  function UnitName(u: CountdownUnit): (name: string)
    ensures name != [] && name[|name| - 1] != 's'
  {
    match u
    case Year => "year"
    case Month => "month"
    case Day => "day"
    case Hour => "hour"
    case Minute => "minute"
    case Second => "second"
  }

  /**
   * The floor-division chain of `formatExpirationTime` on a non-negative remaining time: the
   * first non-zero count from years down to seconds, with its unit, or nothing under a second.
   */
  function Countdown(diff: nat): Option<(nat, CountdownUnit)> {
    var seconds := diff / 1000;
    var minutes := seconds / 60;
    var hours := minutes / 60;
    var days := hours / 24;
    var months := days / 30;
    var years := months / 12;
    if years > 0 then Some((years, Year))
    else if months > 0 then Some((months, Month))
    else if days > 0 then Some((days, Day))
    else if hours > 0 then Some((hours, Hour))
    else if minutes > 0 then Some((minutes, Minute))
    else if seconds > 0 then Some((seconds, Second))
    else None
  }

  /** `formatExpirationTime(expiresAt)` evaluated at `now`. */
  function FormatExpirationTime(expiresAt: Option<int>, now: int): (r: string)
    ensures expiresAt.None? ==> r == "Never expires"
  {
    match expiresAt
    case None => "Never expires"
    case Some(date) =>
      var diff := date - now;
      if diff < 0 then "Expired"
      else
        match Countdown(diff)
        case None => "Expires soon"
        case Some((n, u)) => Phrase(n, UnitName(u))
  }

  /** The largest unit that fits in `diff` at least once, if any. */
  function LargestUnit(diff: nat): Option<CountdownUnit> {
    if diff >= SpanMs(Year) then Some(Year)
    else if diff >= SpanMs(Month) then Some(Month)
    else if diff >= SpanMs(Day) then Some(Day)
    else if diff >= SpanMs(Hour) then Some(Hour)
    else if diff >= SpanMs(Minute) then Some(Minute)
    else if diff >= SpanMs(Second) then Some(Second)
    else None
  }

  /** The chain of floor divisions in `formatExpirationTime` floors by each unit's span. */
  lemma FlooredChain(diff: nat)
    ensures diff / 1000 / 60 == diff / 60_000
    ensures diff / 60_000 / 60 == diff / 3_600_000
    ensures diff / 3_600_000 / 24 == diff / 86_400_000
    ensures diff / 86_400_000 / 30 == diff / 2_592_000_000
    ensures diff / 2_592_000_000 / 12 == diff / 31_104_000_000
    ensures forall u :: diff / SpanMs(u) > 0 <==> diff >= SpanMs(u)
  {
  }

  /** The chain's count is the remaining time floored by the span of the largest unit that fits. */
  lemma CountdownIsLargestUnit(diff: nat)
    ensures Countdown(diff) == match LargestUnit(diff)
      case None => None
      case Some(u) => Some((diff / SpanMs(u), u))
  {
    FlooredChain(diff);
  }

  /**
   * Countdown text for a non-negative remaining time of at least one second: the floored count
   * of the largest unit that fits.
   */
  lemma FormatNamesLargestUnit(date: int, now: int, u: CountdownUnit)
    requires date - now >= 0 && LargestUnit(date - now) == Some(u)
    ensures FormatExpirationTime(Some(date), now) == Phrase((date - now) / SpanMs(u), UnitName(u))
  {
    var diff := date - now;
    CountdownIsLargestUnit(diff);
    FormatShowsCountdown(date, now, diff / SpanMs(u), u);
  }

  lemma FormatShowsCountdown(date: int, now: int, n: nat, u: CountdownUnit)
    requires date - now >= 0 && Countdown(date - now) == Some((n, u))
    ensures FormatExpirationTime(Some(date), now) == Phrase(n, UnitName(u))
  {
  }

  /** Under one second left, and not yet past, the text is `"Expires soon"`. */
  lemma FormatUnderOneSecond(date: int, now: int)
    requires 0 <= date - now && LargestUnit(date - now) == None
    ensures FormatExpirationTime(Some(date), now) == "Expires soon"
  {
    CountdownIsLargestUnit(date - now);
  }

  /** `"Expired"` is shown exactly when `isExpired` holds. */
  lemma FormatAgreesWithIsExpired(expiresAt: Option<int>, now: int)
    ensures FormatExpirationTime(expiresAt, now) == "Expired" <==> IsExpired(expiresAt, now)
  {
    if expiresAt.Some? && expiresAt.value - now >= 0 {
      var diff := expiresAt.value - now;
      match LargestUnit(diff)
      case None =>
        FormatUnderOneSecond(expiresAt.value, now);
      case Some(u) =>
        FormatNamesLargestUnit(expiresAt.value, now, u);
        var p := Phrase(diff / SpanMs(u), UnitName(u));
        assert p != "Expired" by {
          assert p[..11] == "Expires in ";
          assert p[6] == 's' && "Expired"[6] == 'd';
        }
    }
  }

  /** A paste with a fixed option stays readable up to and including `now + offset`, and no longer. */
  lemma FixedOptionLifetime(option: ExpirationOption, now: int, later: int)
    requires option in {OneHour, OneDay, OneWeek, OneMonth}
    ensures IsExpired(CalculateExpirationDate(option, None, now), later) <==> later > now + FixedOffset(option)
  {
  }

  /** A paste created with `never` expires at no instant. */
  lemma NeverOptionNeverExpires(customDate: Option<int>, now: int, later: int)
    ensures !IsExpired(CalculateExpirationDate(Never, customDate, now), later)
  {
  }

  /** One custom unit equals the matching fixed option. */
  lemma CustomUnitsMatchFixedOptions(now: int)
    requires InDateRange(now) && InDateRange(now + FixedOffset(OneMonth))
    ensures CalculateCustomExpiration(1, Hours, now) == CalculateExpirationDate(OneHour, None, now)
    ensures CalculateCustomExpiration(1, Days, now) == CalculateExpirationDate(OneDay, None, now)
    ensures CalculateCustomExpiration(1, Weeks, now) == CalculateExpirationDate(OneWeek, None, now)
    ensures CalculateCustomExpiration(1, Months, now) == CalculateExpirationDate(OneMonth, None, now)
  {
  }

  /** The countdown a freshly created paste shows for each fixed option. */
  function FreshText(option: ExpirationOption): string
    requires option in {OneHour, OneDay, OneWeek, OneMonth}
  {
    match option
    case OneHour => "Expires in 1 hour"
    case OneDay => "Expires in 1 day"
    case OneWeek => "Expires in 7 days"
    case OneMonth => "Expires in 1 month"
  }

  /** A paste created now with a fixed option shows the option's whole lifetime as its countdown. */
  lemma FreshCountdowns(now: int, option: ExpirationOption)
    requires option in {OneHour, OneDay, OneWeek, OneMonth}
    ensures FormatExpirationTime(CalculateExpirationDate(option, None, now), now) == FreshText(option)
  {
    FreshPhrases();
    match option
    case OneHour => FreshCountdown(now, OneHour, Hour, 1);
    case OneDay => FreshCountdown(now, OneDay, Day, 1);
    case OneWeek => FreshCountdown(now, OneWeek, Day, 7);
    case OneMonth => FreshCountdown(now, OneMonth, Month, 1);
  }

  lemma FreshPhrases()
    ensures Phrase(1, UnitName(Hour)) == "Expires in 1 hour"
    ensures Phrase(1, UnitName(Day)) == "Expires in 1 day"
    ensures Phrase(7, UnitName(Day)) == "Expires in 7 days"
    ensures Phrase(1, UnitName(Month)) == "Expires in 1 month"
  {
    assert NatToString(1) == "1" && NatToString(7) == "7";
  }

  lemma FreshCountdown(now: int, option: ExpirationOption, u: CountdownUnit, n: nat)
    requires option in {OneHour, OneDay, OneWeek, OneMonth}
    requires LargestUnit(FixedOffset(option)) == Some(u) && FixedOffset(option) / SpanMs(u) == n
    ensures FormatExpirationTime(CalculateExpirationDate(option, None, now), now) == Phrase(n, UnitName(u))
  {
    FormatNamesLargestUnit(now + FixedOffset(option), now, u);
  }
}
