/**
  The planner's display formatters: `formatTimeSlot` (a fractional hour as a
  12-hour clock string), `formatPomodoroTime` (seconds as `MM:SS`) and
  `formatTime` (seconds as `Hh Mm`). JavaScript numbers are exact rationals
  here; `Math.floor` and `Math.round` are written out.
 */
module Format {
  import opened Wrappers
  import opened Text

  /** `Math.floor`. */
  function Floor(x: real): (r: int)
    ensures r as real <= x < r as real + 1.0
  {
    x.Floor
  }

  /** `Math.round`: the nearest integer, halves rounded up. */
  function Round(x: real): (r: int)
    ensures x - 0.5 < r as real <= x + 0.5
  {
    Floor(x + 0.5)
  }

  datatype Period = AM | PM

  /** What a time-slot string shows: the hour on the 12-hour dial, the minutes and the period. */
  datatype Clock = Clock(hour: int, minute: nat, period: Period)

  /** The parts `formatTimeSlot` computes from a fractional hour of the day. */
  function ClockOf(hour: real): (c: Clock)
    ensures c.minute <= 60
  {
    var h := Floor(hour);
    var m := Round((hour - h as real) * 60.0);
    Clock(if h > 12 then h - 12 else h, m, if h >= 12 then PM else AM)
  }

  function PeriodText(p: Period): string
  {
    match p
    case AM => "AM"
    case PM => "PM"
  }

  /** `${displayHour}:${minutes padded to two digits} ${period}`. */
  function Render(c: Clock): string
  {
    IntToString(c.hour) + ":" + PadTwo(NatToString(c.minute)) + " " + PeriodText(c.period)
  }

  /** `formatTimeSlot(hour)`: the string reads back as the clock computed from `hour`. */
  function FormatTimeSlot(hour: real): (r: string)
    ensures ParseClock(r) == Some(ClockOf(hour))
  {
    ParseRender(ClockOf(hour));
    Render(ClockOf(hour))
  }

  /**
    The fields of a clock string, read: the hour as `toString` writes an
    integer, the minutes as `padStart(2, '0')` leaves them, then the period.
    Anything else is refused, so each clock has one text.
   */
  function ClockFields(hs: string, ms: string, ps: string): Option<Clock>
  {
    if IntNumeral(hs) && PaddedNumeral(ms) && (ps == "AM" || ps == "PM") then
      match ParseInt(hs)
      case Some(h) => Some(Clock(h, DigitsValue(ms), if ps == "AM" then AM else PM))
      case None => None
    else None
  }

  /** Reads a clock string `H:MM AM` or `H:MM PM` back into its parts. */
  function ParseClock(s: string): Option<Clock>
  {
    match Split(s, ':')
    case None => None
    case Some((hs, rest)) =>
      match Split(rest, ' ')
      case None => None
      case Some((ms, ps)) => ClockFields(hs, ms, ps)
  }

  /** A clock string is cut into its fields at the first ':' and the first ' ' after it. */
  lemma ClockParts(hs: string, ms: string, ps: string)
    requires ':' !in hs && ' ' !in ms
    ensures ParseClock(hs + [':'] + ms + [' '] + ps) == ClockFields(hs, ms, ps)
  {
    var tail := ms + [' '] + ps;
    assert hs + [':'] + ms + [' '] + ps == hs + [':'] + tail;
    SplitJoin(hs, ':', tail);
    SplitJoin(ms, ' ', ps);
  }

  /** The fields a clock is rendered with read back as that clock. */
  lemma RenderedFields(c: Clock)
    ensures ClockFields(IntToString(c.hour), PadTwo(NatToString(c.minute)), PeriodText(c.period)) == Some(c)
  {
    ParseIntToString(c.hour);
    ParsePadTwo(c.minute);
  }

  /** Every clock string reads back as the clock it shows. */
  lemma ParseRender(c: Clock)
    ensures ParseClock(Render(c)) == Some(c)
  {
    var hs, ms, ps := IntToString(c.hour), PadTwo(NatToString(c.minute)), PeriodText(c.period);
    ParsePadTwo(c.minute);
    assert Render(c) == hs + [':'] + ms + [' '] + ps;
    ClockParts(hs, ms, ps);
    RenderedFields(c);
  }

  /** Fields that read as a clock are the fields that clock is rendered with. */
  lemma FieldsRender(hs: string, ms: string, ps: string)
    requires ClockFields(hs, ms, ps).Some?
    ensures hs + [':'] + ms + [' '] + ps == Render(ClockFields(hs, ms, ps).value)
  {
    IntNumeralIsIntToString(hs);
    PaddedNumeralIsPadTwo(ms);
  }

  /** Only the rendered text reads back as a clock: unpadded or zero-led fields are refused. */
  lemma ParseOnlyRender(s: string)
    requires ParseClock(s).Some?
    ensures s == Render(ParseClock(s).value)
  {
    var (hs, rest) := Split(s, ':').value;
    var (ms, ps) := Split(rest, ' ').value;
    assert s == hs + [':'] + ms + [' '] + ps;
    assert ParseClock(s) == ClockFields(hs, ms, ps);
    FieldsRender(hs, ms, ps);
  }

  /**
    The slot text is the one string that reads back as the slot's clock, so
    its minutes are padded to two digits and its hour has no leading zero.
   */
  lemma TimeSlotIsOnlyReading(hour: real, s: string)
    requires ParseClock(s) == Some(ClockOf(hour))
    ensures s == FormatTimeSlot(hour)
  {
    ParseOnlyRender(s);
  }

  /** An unpadded minute field and a zero-led hour are not clock texts. */
  lemma RefusesUnpaddedClock()
    ensures ParseClock("9:0 AM") == None
    ensures ParseClock("09:00 AM") == None
  {
    assert "9:0 AM" == "9" + [':'] + "0" + [' '] + "AM";
    assert !PaddedNumeral("0");
    ClockParts("9", "0", "AM");
    assert "09:00 AM" == "09" + [':'] + "00" + [' '] + "AM";
    assert "09"[0] == '0' && "09"[1..] == "9";
    assert !IntNumeral("09");
    ClockParts("09", "00", "AM");
  }

  /**
    What `formatTimeSlot(hour)` displays: the period is PM exactly when the
    whole hour is 12 or more; the hour shown is the whole hour less 12 exactly
    when the whole hour is past 12 (so noon shows as 12); the minutes are the
    fraction of the hour rounded to the nearest minute, at most 60, and since
    `ParseClock` reads only padded minutes they are written with at least two
    digits; and the time shown is within half a minute of `hour`.
   */
  lemma FormatTimeSlotShows(hour: real)
    ensures ParseClock(FormatTimeSlot(hour)).Some?
    ensures var c := ParseClock(FormatTimeSlot(hour)).value;
      && (c.period == PM <==> Floor(hour) >= 12)
      && (c.hour == Floor(hour) - 12 <==> Floor(hour) > 12)
      && (Floor(hour) <= 12 ==> c.hour == Floor(hour))
      && c.minute == Round((hour - Floor(hour) as real) * 60.0)
      && c.minute <= 60
      && -1.0 / 120.0 < Floor(hour) as real + c.minute as real / 60.0 - hour <= 1.0 / 120.0
  {
  }

  /** Between 1:00 and 24:59 the hour shown is on the 12-hour dial. */
  lemma TwelveHourDial(hour: real)
    requires 1.0 <= hour < 25.0
    ensures 1 <= ClockOf(hour).hour <= 12
    ensures ClockOf(hour).hour == 12 <==> Floor(hour) == 12 || Floor(hour) == 24
  {
  }

  /** 9 o'clock is rendered as "9:00 AM". */
  lemma RendersNine()
    ensures Render(ClockOf(9.0)) == "9:00 AM"
  {
    assert ClockOf(9.0) == Clock(9, 0, AM);
    assert PadTwo(NatToString(0)) == "00";
  }

  /** 11 o'clock is rendered as "11:00 AM". */
  lemma RendersEleven()
    ensures Render(ClockOf(11.0)) == "11:00 AM"
  {
    assert ClockOf(11.0) == Clock(11, 0, AM);
    assert NatToString(11) == "11";
    assert PadTwo(NatToString(0)) == "00";
  }

  /** Half past noon is rendered as "12:30 PM". */
  lemma RendersHalfPastNoon()
    ensures Render(ClockOf(12.5)) == "12:30 PM"
  {
    assert ClockOf(12.5) == Clock(12, 30, PM);
    assert NatToString(12) == "12";
    assert NatToString(30) == "30";
  }

  /** 13 o'clock is rendered as "1:00 PM". */
  lemma RendersOne()
    ensures Render(ClockOf(13.0)) == "1:00 PM"
  {
    assert ClockOf(13.0) == Clock(1, 0, PM);
    assert PadTwo(NatToString(0)) == "00";
  }

  /** The worked examples: 9, 11, 12:30 and 13 o'clock. */
  lemma TimeSlotExamples()
    ensures FormatTimeSlot(9.0) == "9:00 AM"
    ensures FormatTimeSlot(11.0) == "11:00 AM"
    ensures FormatTimeSlot(12.5) == "12:30 PM"
    ensures FormatTimeSlot(13.0) == "1:00 PM"
  {
    RendersNine();
    RendersEleven();
    RendersHalfPastNoon();
    RendersOne();
  }

  /** Minutes and seconds as the countdown shows them, each padded to two digits. */
  function MinutesSecondsText(m: nat, sec: nat): string
  {
    PadTwo(NatToString(m)) + ":" + PadTwo(NatToString(sec))
  }

  /**
    `formatPomodoroTime(seconds)`: whole minutes and left-over seconds, each
    two digits at least. The countdown display loses nothing: it reads back
    as the same number of seconds.
   */
  function FormatPomodoroTime(seconds: nat): (r: string)
    ensures ParseMinutesSeconds(r) == Some(seconds)
  {
    MinutesSecondsReadBack(seconds / 60, seconds % 60);
    MinutesSecondsText(seconds / 60, seconds % 60)
  }

  /** Minute and second fields, read: both padded as `padStart(2, '0')` pads them, seconds below 60. */
  function SecondsFields(ms: string, ss: string): Option<nat>
  {
    if PaddedNumeral(ms) && PaddedNumeral(ss) && DigitsValue(ss) < 60 then Some(DigitsValue(ms) * 60 + DigitsValue(ss))
    else None
  }

  /** Reads `MM:SS` back as a number of seconds. */
  function ParseMinutesSeconds(s: string): Option<nat>
  {
    match Split(s, ':')
    case None => None
    case Some((ms, ss)) => SecondsFields(ms, ss)
  }

  /** Minutes and seconds below 60, displayed, read back as the seconds they make up. */
  lemma MinutesSecondsReadBack(m: nat, sec: nat)
    requires sec < 60
    ensures ParseMinutesSeconds(MinutesSecondsText(m, sec)) == Some(m * 60 + sec)
  {
    var ms, ss := PadTwo(NatToString(m)), PadTwo(NatToString(sec));
    ParsePadTwo(m);
    ParsePadTwo(sec);
    assert MinutesSecondsText(m, sec) == ms + [':'] + ss;
    MinutesSecondsParts(ms, ss);
    SecondsFieldsOf(ms, ss, m, sec);
  }

  /** Padded fields with values `m` and `sec` below 60 read as `m * 60 + sec` seconds. */
  lemma SecondsFieldsOf(ms: string, ss: string, m: nat, sec: nat)
    requires PaddedNumeral(ms) && ParseNat(ms) == Some(m)
    requires PaddedNumeral(ss) && ParseNat(ss) == Some(sec) && sec < 60
    ensures SecondsFields(ms, ss) == Some(m * 60 + sec)
  {
  }

  /** A countdown string is cut into its fields at the first ':'. */
  lemma MinutesSecondsParts(ms: string, ss: string)
    requires ':' !in ms
    ensures ParseMinutesSeconds(ms + [':'] + ss) == SecondsFields(ms, ss)
  {
    SplitJoin(ms, ':', ss);
  }

  /** Fields that read as seconds are the padded minutes and seconds they stand for. */
  lemma FieldsMinutesSeconds(ms: string, ss: string)
    requires SecondsFields(ms, ss).Some?
    ensures ms + [':'] + ss == MinutesSecondsText(DigitsValue(ms), DigitsValue(ss))
  {
    PaddedNumeralIsPadTwo(ms);
    PaddedNumeralIsPadTwo(ss);
  }

  /** Minutes and seconds below 60 are recovered from the seconds they make up. */
  lemma MinutesSecondsOf(m: nat, sec: nat)
    requires sec < 60
    ensures (m * 60 + sec) / 60 == m && (m * 60 + sec) % 60 == sec
  {
  }

  /** Only the countdown display reads back as its seconds: unpadded or over-padded fields are refused. */
  lemma ParseOnlyPomodoroTime(s: string)
    requires ParseMinutesSeconds(s).Some?
    ensures s == FormatPomodoroTime(ParseMinutesSeconds(s).value)
  {
    var (ms, ss) := Split(s, ':').value;
    var m, sec := DigitsValue(ms), DigitsValue(ss);
    FieldsMinutesSeconds(ms, ss);
    MinutesSecondsOf(m, sec);
    assert FormatPomodoroTime(m * 60 + sec) == MinutesSecondsText(m, sec);
  }

  /** Unpadded and over-padded fields are not countdown texts. */
  lemma RefusesUnpaddedCountdown()
    ensures ParseMinutesSeconds("025:0") == None
    ensures ParseMinutesSeconds("25:5") == None
  {
    MinutesSecondsParts("025", "0");
    assert "025:0" == "025" + [':'] + "0";
    MinutesSecondsParts("25", "5");
    assert "25:5" == "25" + [':'] + "5";
  }

  /** Below 100 minutes the display is exactly `MM:SS`, five characters. */
  lemma PomodoroTimeWidth(seconds: nat)
    requires seconds < 6000
    ensures |FormatPomodoroTime(seconds)| == 5
  {
    var m := seconds / 60;
    assert m < 100;
    if m >= 10 {
      assert NatToString(m) == NatToString(m / 10) + [DigitChar(m % 10)];
    }
  }

  /** Hours and minutes as the study-time display shows them. */
  function HoursMinutesText(h: nat, m: nat): string
  {
    NatToString(h) + "h " + NatToString(m) + "m"
  }

  /**
    `formatTime(seconds)`: whole hours, then whole minutes of the rest;
    seconds are dropped. The display reads back as hours and minutes below
    60 that account for the seconds to within the dropped final minute.
   */
  function FormatTime(seconds: nat): (r: string)
    ensures ParseHoursMinutes(r).Some?
    ensures var (h, m) := ParseHoursMinutes(r).value;
      m < 60 && h * 3600 + m * 60 <= seconds < h * 3600 + m * 60 + 60
  {
    HoursMinutesReadBack(seconds / 3600, (seconds % 3600) / 60);
    HoursMinutesText(seconds / 3600, (seconds % 3600) / 60)
  }

  /** The hour field and the rest after 'h', read: ` Mm`, both numbers written as `toString` writes them. */
  function HoursMinutesFields(hs: string, rest: string): Option<(nat, nat)>
  {
    if |rest| >= 2 && rest[0] == ' ' && rest[|rest| - 1] == 'm' && Numeral(hs) && Numeral(rest[1..|rest| - 1]) then
      Some((DigitsValue(hs), DigitsValue(rest[1..|rest| - 1])))
    else None
  }

  /** Reads `Hh Mm` back as its hours and minutes. */
  function ParseHoursMinutes(s: string): Option<(nat, nat)>
  {
    match Split(s, 'h')
    case None => None
    case Some((hs, rest)) => HoursMinutesFields(hs, rest)
  }

  /** Displayed hours and minutes read back as themselves. */
  lemma HoursMinutesReadBack(h: nat, m: nat)
    ensures ParseHoursMinutes(HoursMinutesText(h, m)) == Some((h, m))
  {
    var hs, ms := NatToString(h), NatToString(m);
    assert 'h' !in hs by {
      assert AllDigits(hs);
    }
    var rest := " " + ms + "m";
    assert HoursMinutesText(h, m) == hs + ['h'] + rest;
    SplitJoin(hs, 'h', rest);
    assert rest[1..|rest| - 1] == ms;
    DigitsValueOfNatToString(h);
    DigitsValueOfNatToString(m);
  }

  /** Fields that read as hours and minutes are the display of those hours and minutes. */
  lemma FieldsHoursMinutes(hs: string, rest: string)
    requires HoursMinutesFields(hs, rest).Some?
    ensures hs + ['h'] + rest == HoursMinutesText(DigitsValue(hs), DigitsValue(rest[1..|rest| - 1]))
  {
    var ms := rest[1..|rest| - 1];
    NumeralIsNatToString(hs);
    NumeralIsNatToString(ms);
    assert rest == " " + ms + "m";
  }

  /** Whole hours and minutes below 60 are recovered from the seconds they make up. */
  lemma HoursMinutesOf(h: nat, m: nat)
    requires m < 60
    ensures (h * 3600 + m * 60) / 3600 == h && ((h * 3600 + m * 60) % 3600) / 60 == m
  {
    var t := h * 3600 + m * 60;
    assert 0 <= m * 60 < 3600;
    assert t / 3600 == h && t % 3600 == m * 60;
  }

  /** Only the study-time display reads back as its hours and minutes. */
  lemma ParseOnlyFormatTime(s: string)
    requires ParseHoursMinutes(s).Some? && ParseHoursMinutes(s).value.1 < 60
    ensures var (h, m) := ParseHoursMinutes(s).value;
      s == FormatTime(h * 3600 + m * 60)
  {
    var (hs, rest) := Split(s, 'h').value;
    var h, m := ParseHoursMinutes(s).value.0, ParseHoursMinutes(s).value.1;
    FieldsHoursMinutes(hs, rest);
    HoursMinutesOf(h, m);
    assert FormatTime(h * 3600 + m * 60) == HoursMinutesText(h, m);
  }
}
