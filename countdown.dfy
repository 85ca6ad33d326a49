/**
 * The auction countdown (CountdownTimer.js): the remaining time split into
 * days, hours, minutes and seconds, the text shown for it, and the colour
 * class derived from the hours left. Times are whole milliseconds; the
 * clock reading is a parameter.
 */
module Countdown {
  import opened Text
  import opened Records

  const Second: int := 1000
  const Minute: int := 60 * Second
  const Hour: int := 60 * Minute
  const Day: int := 24 * Hour

  datatype Parts = Parts(days: nat, hours: nat, minutes: nat, seconds: nat)

  /** The component split of a positive difference, lines 24-27. */
  function Split(d: int): Parts
    requires d > 0
  {
    Parts(d / Day, (d / Hour) % 24, (d / Minute) % 60, (d / Second) % 60)
  }

  /** The text for a split: the largest non-zero unit decides how many units are shown. */
  function Format(p: Parts): string {
    if p.days > 0 then Decimal(p.days) + "d " + Decimal(p.hours) + "h " + Decimal(p.minutes) + "m"
    else if p.hours > 0 then Decimal(p.hours) + "h " + Decimal(p.minutes) + "m " + Decimal(p.seconds) + "s"
    else if p.minutes > 0 then Decimal(p.minutes) + "m " + Decimal(p.seconds) + "s"
    else Decimal(p.seconds) + "s"
  }

  /** What one run of calculateTimeLeft leaves in the component's state. */
  datatype Timer = Timer(timeLeft: string, isExpired: bool)

  datatype TickResult = TickResult(timer: Timer, firedExpire: bool)

  /**
   * calculateTimeLeft at clock `now`: a non-positive difference sets the
   * expired flag, shows "Ended" and calls onExpire (when given); otherwise
   * only the text changes.
   */
  function Tick(t: Timer, endTime: Time, now: Time, hasOnExpire: bool): TickResult {
    var d := endTime - now;
    if d <= 0 then TickResult(Timer("Ended", true), hasOnExpire)
    else TickResult(t.(timeLeft := Format(Split(d))), false)
  }

  datatype ColorClass = Red | RedBold | Orange | Gray

  /** getColorClass: `hoursLeft = (end - now) / 3600000` compared with 1 and 24, exactly. */
  function Color(isExpired: bool, endTime: Time, now: Time): ColorClass {
    if isExpired then Red
    else if endTime - now < Hour then RedBold
    else if endTime - now < 24 * Hour then Orange
    else Gray
  }

  // ---------------------------------------------------------------- reading

  /** The run of digits at the front of a string. */
  function LeadingDigits(s: string): (r: string)
    ensures |r| <= |s| && r == s[..|r|]
    ensures forall i :: 0 <= i < |r| ==> IsDigit(r[i])
  {
    if s == [] || !IsDigit(s[0]) then [] else [s[0]] + LeadingDigits(s[1..])
  }

  /** The number a display starts with. */
  function Lead(s: string): nat {
    Parse(LeadingDigits(s))
  }

  /** The unit letter after the leading number (a space when there is none). */
  function Unit(s: string): char {
    var k := |LeadingDigits(s)|;
    if k < |s| then s[k] else ' '
  }

  function UnitLength(u: char): int {
    match u
    case 'd' => Day
    case 'h' => Hour
    case 'm' => Minute
    case _ => Second
  }

  // ----------------------------------------------------------------- lemmas

  /**
   * The split is exact: the four components and a remainder under a second
   * add back up to the difference, and hours, minutes and seconds are in range.
   */
  lemma {:induction false} SplitExact(d: int)
    requires d > 0
    ensures var p := Split(d);
      && p.hours < 24 && p.minutes < 60 && p.seconds < 60
      && p.days * Day + p.hours * Hour + p.minutes * Minute + p.seconds * Second <= d
      && d < p.days * Day + p.hours * Hour + p.minutes * Minute + p.seconds * Second + Second
  {
    var p := Split(d);
    var s := d / Second;
    var m := d / Minute;
    var h := d / Hour;
    UnitsNest(d);
    assert s == m * 60 + p.seconds;
    assert m == h * 60 + p.minutes;
    assert h == p.days * 24 + p.hours;
    assert d == s * Second + d % Second;
    calc {
      p.days * Day + p.hours * Hour + p.minutes * Minute + p.seconds * Second;
      (p.days * 24 + p.hours) * Hour + p.minutes * Minute + p.seconds * Second;
      h * Hour + p.minutes * Minute + p.seconds * Second;
      (h * 60 + p.minutes) * Minute + p.seconds * Second;
      m * Minute + p.seconds * Second;
      (m * 60 + p.seconds) * Second;
      s * Second;
    }
  }

  /** Each unit's count is the next smaller unit's count divided by the ratio between them. */
  lemma UnitsNest(d: int)
    requires d >= 0
    ensures d / 60000 == (d / 1000) / 60
    ensures d / 3600000 == (d / 60000) / 60
    ensures d / 86400000 == (d / 3600000) / 24
  {
  }

  /** A difference of at most zero shows "Ended" and sets the expired flag. */
  lemma {:induction false} EndedIffNotPositive(t: Timer, endTime: Time, now: Time, hasOnExpire: bool)
    ensures Tick(t, endTime, now, hasOnExpire).timer.timeLeft == "Ended" <==> endTime <= now
    ensures endTime <= now ==> Tick(t, endTime, now, hasOnExpire).timer.isExpired
    ensures endTime > now ==> Tick(t, endTime, now, hasOnExpire).timer.isExpired == t.isExpired
  {
    if endTime > now {
      var s := Format(Split(endTime - now));
      assert IsDigit(s[0]);
      assert !IsDigit("Ended"[0]);
    }
  }

  /** Once the flag is set no later run of calculateTimeLeft clears it, even if the end time moves. */
  lemma {:induction false} ExpiredSticky(t: Timer, endTime: Time, now: Time, hasOnExpire: bool)
    requires t.isExpired
    ensures Tick(t, endTime, now, hasOnExpire).timer.isExpired
  {
  }

  lemma {:induction false} LeadingDigitsAppend(a: string, b: string)
    requires forall i :: 0 <= i < |a| ==> IsDigit(a[i])
    requires b != [] && !IsDigit(b[0])
    ensures LeadingDigits(a + b) == a
    decreases |a|
  {
    if a == [] {
      assert a + b == b;
    } else {
      assert (a + b)[1..] == a[1..] + b;
      LeadingDigitsAppend(a[1..], b);
    }
  }

  lemma {:induction false} LeadOf(n: nat, rest: string)
    requires rest != [] && !IsDigit(rest[0])
    ensures Lead(Decimal(n) + rest) == n && Unit(Decimal(n) + rest) == rest[0]
  {
    LeadingDigitsAppend(Decimal(n), rest);
    DecimalRoundTrip(n);
    assert (Decimal(n) + rest)[|Decimal(n)|] == rest[0];
  }

  /** Which unit leads, and with how many, in terms of the difference alone. */
  lemma {:induction false} SplitCases(d: int)
    requires d > 0
    ensures var p := Split(d);
      && (p.days > 0 <==> d >= Day)
      && p.days == d / Day
      && (d < Day ==> p.hours == d / Hour && (p.hours > 0 <==> d >= Hour))
      && (d < Hour ==> p.minutes == d / Minute && (p.minutes > 0 <==> d >= Minute))
      && (d < Minute ==> p.seconds == d / Second)
  {
    UnitsNest(d);
  }

  /** The leading number and unit of each of the four layouts. */
  lemma {:induction false} FormatLeads(p: Parts)
    ensures var s := Format(p);
      && (p.days > 0 ==> Unit(s) == 'd' && Lead(s) == p.days)
      && (p.days == 0 && p.hours > 0 ==> Unit(s) == 'h' && Lead(s) == p.hours)
      && (p.days == 0 && p.hours == 0 && p.minutes > 0 ==> Unit(s) == 'm' && Lead(s) == p.minutes)
      && (p.days == 0 && p.hours == 0 && p.minutes == 0 ==> Unit(s) == 's' && Lead(s) == p.seconds)
  {
    if p.days > 0 {
      DaysLead(p);
    } else if p.hours > 0 {
      HoursLead(p);
    } else if p.minutes > 0 {
      MinutesLead(p);
    } else {
      LeadOf(p.seconds, "s");
    }
  }

  lemma {:induction false} DaysLead(p: Parts)
    requires p.days > 0
    ensures Unit(Format(p)) == 'd' && Lead(Format(p)) == p.days
  {
    LeadOf(p.days, "d " + Decimal(p.hours) + "h " + Decimal(p.minutes) + "m");
    assert Format(p) == Decimal(p.days) + ("d " + Decimal(p.hours) + "h " + Decimal(p.minutes) + "m");
  }

  lemma {:induction false} MinutesLead(p: Parts)
    requires p.days == 0 && p.hours == 0 && p.minutes > 0
    ensures Unit(Format(p)) == 'm' && Lead(Format(p)) == p.minutes
  {
    LeadOf(p.minutes, "m " + Decimal(p.seconds) + "s");
    assert Format(p) == Decimal(p.minutes) + ("m " + Decimal(p.seconds) + "s");
  }

  lemma {:induction false} HoursLead(p: Parts)
    requires p.days == 0 && p.hours > 0
    ensures Unit(Format(p)) == 'h' && Lead(Format(p)) == p.hours
  {
    LeadOf(p.hours, "h " + Decimal(p.minutes) + "m " + Decimal(p.seconds) + "s");
    assert Format(p) == Decimal(p.hours) + ("h " + Decimal(p.minutes) + "m " + Decimal(p.seconds) + "s");
  }

  /**
   * The display opens with the largest unit of which at least one whole is
   * left, and with the number of whole such units left.
   */
  lemma {:induction false} DisplayLeads(d: int)
    requires d > 0
    ensures var s := Format(Split(d));
      && (Unit(s) == 'd' <==> d >= Day)
      && (Unit(s) == 'h' <==> Hour <= d < Day)
      && (Unit(s) == 'm' <==> Minute <= d < Hour)
      && (Unit(s) == 's' <==> d < Minute)
      && Lead(s) == d / UnitLength(Unit(s))
  {
    SplitCases(d);
    FormatLeads(Split(d));
  }

  /**
   * While the timer is running, the colour agrees with the display: gray
   * exactly when days are shown, orange when hours lead, bold red when
   * only minutes and seconds remain.
   */
  lemma {:induction false} ColorMatchesDisplay(endTime: Time, now: Time)
    requires endTime > now
    ensures var u := Unit(Format(Split(endTime - now)));
      && (Color(false, endTime, now) == Gray <==> u == 'd')
      && (Color(false, endTime, now) == Orange <==> u == 'h')
      && (Color(false, endTime, now) == RedBold <==> u == 'm' || u == 's')
  {
    DisplayLeads(endTime - now);
  }
}
