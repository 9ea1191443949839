/** The two text helpers of a target: how long it has been up, and its
    average latency over the successful ticks. Durations are nanoseconds;
    the breakdown into days, hours and minutes truncates toward zero like
    Go's float-to-int conversion. */
module TargetText {
  import opened Numeric
  import opened Uptime

  const Minute := 60_000_000_000
  const Hour := 3_600_000_000_000
  const Day := 86_400_000_000_000

  /** The shapes the uptime text can take. */
  datatype UptimeText =
    | NotAvailable
    | DaysHours(days: int, hours: int)
    | HoursMinutes(hours: int, minutes: int)
    | MinutesOnly(minutes: int)
    | JustNow

  /** GetUptime on the duration `now - firstUp`: "N/A" without a first-up
      time; otherwise the largest non-zero unit decides the shape, and
      anything under a minute is "Just now". */
  function UptimeOf(firstUp: NullTime, now: int): (u: UptimeText)
    ensures firstUp.Null? ==> u == NotAvailable
    ensures u.DaysHours? ==> u.days >= 1 && 0 <= u.hours < 24
    ensures u.HoursMinutes? ==> 1 <= u.hours < 24 && 0 <= u.minutes < 60
    ensures u.MinutesOnly? ==> 1 <= u.minutes < 60
    ensures u.JustNow? ==> firstUp.Valid? && now - firstUp.time < Minute
  {
    match firstUp
    case Null => NotAvailable
    case Valid(t) =>
      var d := now - t;
      var days := GoDiv(d, Day);
      var hours := GoMod(GoDiv(d, Hour), 24);
      var minutes := GoMod(GoDiv(d, Minute), 60);
      if days > 0 then DaysHours(days, hours)
      else if hours > 0 then HoursMinutes(hours, minutes)
      else if minutes > 0 then MinutesOnly(minutes)
      else if d < Minute then JustNow
      else NotAvailable
  }

  /** Each shape names the interval the duration lies in: whole days plus
      hours below 24, hours below 24 plus minutes below 60, minutes below
      60, or less than a minute. The final "N/A" is only ever reached
      without a first-up time. */
  lemma UptimeBreakdown(firstUp: NullTime, now: int)
    ensures var u := UptimeOf(firstUp, now);
            u == NotAvailable <==> firstUp.Null?
    ensures var u := UptimeOf(firstUp, now);
            firstUp.Valid? ==>
              var d := now - firstUp.time;
              && (u.DaysHours? ==>
                    u.days >= 1 && 0 <= u.hours < 24
                    && u.days * Day + u.hours * Hour <= d < u.days * Day + u.hours * Hour + Hour)
              && (u.HoursMinutes? ==>
                    1 <= u.hours < 24 && 0 <= u.minutes < 60
                    && u.hours * Hour + u.minutes * Minute <= d < u.hours * Hour + u.minutes * Minute + Minute)
              && (u.MinutesOnly? ==>
                    1 <= u.minutes < 60 && u.minutes * Minute <= d < u.minutes * Minute + Minute)
              && (u.JustNow? ==> d < Minute)
  {
    if firstUp.Valid? {
      var d := now - firstUp.time;
      if d >= 0 {
        PositiveBreakdown(d);
      } else {
        NegativeBreakdown(d);
      }
    }
  }

  /** For a non-negative duration the three truncated units are the digits
      of a mixed-radix expansion. */
  lemma PositiveBreakdown(d: int)
    requires d >= 0
    ensures var th := GoDiv(d, Hour);
            var days := GoDiv(d, Day);
            var hours := GoMod(th, 24);
            var minutes := GoMod(GoDiv(d, Minute), 60);
            && days >= 0 && 0 <= hours < 24 && 0 <= minutes < 60
            && days * Day + hours * Hour <= d < days * Day + hours * Hour + Hour
            && days * Day + hours * Hour + minutes * Minute <= d < days * Day + hours * Hour + minutes * Minute + Minute
  {
    var th := GoDiv(d, Hour);
    var tm := GoDiv(d, Minute);
    var days := GoDiv(d, Day);
    var hours := GoMod(th, 24);
    var minutes := GoMod(tm, 60);
    assert th >= 0 && tm >= 0 && days >= 0;
    var q := GoDiv(th, 24);
    assert q * Day + hours * Hour <= d < q * Day + hours * Hour + Hour;
    assert q == days;
    var a := GoDiv(tm, 60);
    assert a * Hour + minutes * Minute <= d < a * Hour + minutes * Minute + Minute;
    assert a == th;
    assert tm == 60 * th + minutes && th == 24 * days + hours;
    assert tm * Minute == days * Day + hours * Hour + minutes * Minute;
  }

  /** A negative duration (a first-up time in the future) has no positive
      unit; it reads as "Just now". */
  lemma NegativeBreakdown(d: int)
    requires d < 0
    ensures GoDiv(d, Day) <= 0 && GoMod(GoDiv(d, Hour), 24) <= 0 && GoMod(GoDiv(d, Minute), 60) <= 0
  {
  }

  /** The rendered text, as `fmt.Sprintf` prints it. */
  function RenderUptime(u: UptimeText): (s: string)
    ensures s == "N/A" <==> u == NotAvailable
    ensures s == "Just now" <==> u == JustNow
  {
    match u
    case NotAvailable => "N/A"
    case DaysHours(d, h) => IntToString(d) + " day, " + IntToString(h) + " hour"
    case HoursMinutes(h, m) => IntToString(h) + " hour, " + IntToString(m) + " minute"
    case MinutesOnly(m) =>
      var r := IntToString(m) + " minute";
      assert r[0] == IntToString(m)[0];
      r
    case JustNow => "Just now"
  }

  function GetUptime(firstUp: NullTime, now: int): (s: string)
    ensures s == "N/A" <==> firstUp.Null?
  {
    UptimeBreakdown(firstUp, now);
    RenderUptime(UptimeOf(firstUp, now))
  }

  /** GetAverageLatency: "N/A" before the first successful tick, otherwise
      the truncated mean latency followed by " ms". */
  function GetAverageLatency(totalProbeCount: int, totalLatencySum: int): (s: string)
    ensures s == "N/A" <==> totalProbeCount == 0
    ensures totalProbeCount != 0 ==>
              && |s| > 3 && s[|s| - 3..] == " ms"
              && var avg := GoQuot(totalLatencySum, totalProbeCount);
                 var digits := s[..|s| - 3];
                 && (avg >= 0 ==> IsDigits(digits) && ParseDigits(digits) == avg)
                 && (avg < 0 ==> |digits| >= 2 && digits[0] == '-' && IsDigits(digits[1..]) && ParseDigits(digits[1..]) == -avg)
  {
    if totalProbeCount == 0 then "N/A"
    else IntToString(GoQuot(totalLatencySum, totalProbeCount)) + " ms"
  }
}
