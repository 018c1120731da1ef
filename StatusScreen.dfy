/** The text screens of the kiln display (display.py): temperature and time
    formatting, the five-line status layout drawn by `KilnDisplay.update`,
    and the one-line `show_message`. Every screen is the list of drawing calls
    made inside one drawing context; a display that failed to initialize
    draws nothing. */
module StatusScreen {
  import opened Wrappers
  import opened Text
  import opened Surface

  /** Height of one text line in pixels: line `k` is drawn at y = 12 * k. */
  const LineHeight: int := 12
  /** `show_message` draws at most this many characters (display.py:186). */
  const MessageWidth: nat := 21
  /** The profile name is cut to this many characters (display.py:129). */
  const ProfileWidth: nat := 12

  // ---------------------------------------------------------------------------
  // format_temperature

  /** `scale.lower() == "f"`: no character other than `F` lower-cases to `f`. */
  predicate IsFahrenheit(scale: string) { scale == "f" || scale == "F" }

  function UnitFor(scale: string): char { if IsFahrenheit(scale) then 'F' else 'C' }

  /** `format_temperature` (display.py:69-76) on a whole-number temperature. */
  function FormatTemperature(temp: Option<int>, scale: string): (s: string)
    ensures s == "---" <==> temp.None?
    ensures temp.Some? ==> |s| >= 3 && s[|s| - 2..] == ['°', if IsFahrenheit(scale) then 'F' else 'C']
  {
    match temp
    case None => "---"
    case Some(t) =>
      var s := IntToString(t) + ['°', UnitFor(scale)];
      assert s[|s| - 2] == '°';
      s
  }

  /** Reads a formatted temperature back: the number and the unit letter. */
  function ReadTemperature(s: string): Option<(int, char)> {
    if |s| >= 3 && s[|s| - 2] == '°' && ParseInt(s[..|s| - 2]).Some? then
      Some((ParseInt(s[..|s| - 2]).value, s[|s| - 1]))
    else None
  }

  /** A missing reading shows as `---`, which reads as no temperature; any
      reading shows its value followed by `°F` when the scale is `f` or `F`
      and by `°C` for every other scale, and reads back as exactly that. The
      number is the canonical decimal numeral `IntToString` gives, so no
      leading zero and no `-0`. */
  lemma FormatTemperatureReadsBack(temp: Option<int>, scale: string)
    ensures temp.None? ==> FormatTemperature(temp, scale) == "---"
    ensures temp.Some? ==>
      var s := FormatTemperature(temp, scale);
      |s| >= 2 && s[..|s| - 2] == IntToString(temp.value)
    ensures ReadTemperature(FormatTemperature(temp, scale)) ==
              if temp.None? then None else Some((temp.value, if IsFahrenheit(scale) then 'F' else 'C'))
  {
    var s := FormatTemperature(temp, scale);
    if temp.Some? {
      var digits := IntToString(temp.value);
      assert s[..|s| - 2] == digits;
    } else {
      assert s[|s| - 2] == '-';
    }
  }

  // ---------------------------------------------------------------------------
  // format_time

  /** `f"{n:02d}"`. */
  function Pad2(n: nat): string { ZeroPadded(n, 2, 10) }

  /** The number of seconds in `h` hours, `m` minutes and `s` seconds. */
  function Seconds(h: nat, m: nat, s: nat): nat { 3600 * h + 60 * m + s }

  /** A number of seconds as whole hours, minutes below 60 and seconds below 60. */
  function Clock(t: nat): (hms: (nat, nat, nat))
    ensures Seconds(hms.0, hms.1, hms.2) == t
    ensures hms.1 < 60 && hms.2 < 60
    ensures hms.0 > 0 <==> t >= 3600
  {
    var rest := t % 3600;
    assert t == 3600 * (t / 3600) + rest && rest < 3600;
    assert rest == 60 * (rest / 60) + rest % 60;
    (t / 3600, rest / 60, rest % 60)
  }

  /** Splitting a duration into fields gives back the fields it was built from. */
  lemma ClockOf(h: nat, m: nat, s: nat)
    requires m < 60 && s < 60
    ensures Clock(Seconds(h, m, s)) == (h, m, s)
  {
    var t := Seconds(h, m, s);
    assert t / 3600 == h && t % 3600 == 60 * m + s;
    assert (60 * m + s) / 60 == m && (60 * m + s) % 60 == s;
  }

  /** `format_time` (display.py:78-90) on a whole number of seconds. */
  function FormatTime(seconds: Option<int>): (s: string)
    ensures seconds.None? || seconds.value < 3600 ==> |s| == 5
    ensures seconds.Some? && seconds.value >= 3600 ==> |s| >= 8
  {
    if seconds.None? || seconds.value < 0 then "--:--"
    else
      var hms := Clock(seconds.value);
      TwoDigits(hms.1);
      TwoDigits(hms.2);
      if hms.0 > 0 then Pad2(hms.0) + ":" + Pad2(hms.1) + ":" + Pad2(hms.2)
      else Pad2(hms.1) + ":" + Pad2(hms.2)
  }

  /** The placeholder `--:--` is shown exactly for a missing or negative
      duration: every other duration starts with a digit. */
  lemma FormatTimeMissing(seconds: Option<int>)
    ensures FormatTime(seconds) == "--:--" <==> seconds.None? || seconds.value < 0
  {
    if seconds.Some? && seconds.value >= 0 {
      LeadsWithDigit(seconds.value);
      assert !InBase('-', 10);
    }
  }

  lemma LeadsWithDigit(t: nat)
    ensures |FormatTime(Some(t))| >= 1 && InBase(FormatTime(Some(t))[0], 10)
  {
    var hms := Clock(t);
    var lead := if hms.0 > 0 then Pad2(hms.0) else Pad2(hms.1);
    assert InBase(lead[0], 10);
    if hms.0 > 0 {
      LongFormat(t);
    } else {
      ShortFormat(t);
    }
    assert FormatTime(Some(t))[0] == lead[0];
  }

  /** A field of exactly two decimal digits whose value is below 60. */
  predicate IsSexagesimal(field: string) {
    |field| == 2 && DigitsIn(field, 10) && Value(field, 10) < 60
  }

  /** The number of seconds a clock reading denotes: `MM:SS` with both fields
      two digits below 60, or `HH:MM:SS` whose hour field has at least two
      digits, is not zero and has no leading zero beyond two digits.
      Anything else is not a reading. */
  function ClockValue(s: string): Option<nat> {
    var f := Split(s, ':');
    if |f| == 2 && IsSexagesimal(f[0]) && IsSexagesimal(f[1]) then
      Some(Seconds(0, Value(f[0], 10), Value(f[1], 10)))
    else if |f| == 3 && |f[0]| >= 2 && (|f[0]| == 2 || f[0][0] != '0')
            && DigitsIn(f[0], 10) && Value(f[0], 10) > 0
            && IsSexagesimal(f[1]) && IsSexagesimal(f[2]) then
      Some(Seconds(Value(f[0], 10), Value(f[1], 10), Value(f[2], 10)))
    else None
  }

  lemma TwoDigits(n: nat)
    requires n < 100
    ensures |Pad2(n)| == 2
  {
    if n >= 10 {
      assert |Render(n / 10, 10)| == 1;
    }
  }

  lemma TwoDigitPad(n: nat)
    requires 10 <= n < 100
    ensures Pad2(n) == [DigitChar(n / 10), DigitChar(n % 10)]
  {
    assert Render(n, 10) == Render(n / 10, 10) + [DigitChar(n % 10)];
    assert Render(n / 10, 10) == [DigitChar(n / 10)];
  }

  lemma NoColon(ds: string)
    requires DigitsIn(ds, 10)
    ensures ':' !in ds
  {
  }

  lemma MinutesSecondsReadBack(m: nat, s: nat)
    requires m < 60 && s < 60
    ensures Split(Pad2(m) + ":" + Pad2(s), ':') == [Pad2(m), Pad2(s)]
    ensures ClockValue(Pad2(m) + ":" + Pad2(s)) == Some(Seconds(0, m, s))
  {
    TwoDigits(m);
    TwoDigits(s);
    NoColon(Pad2(m));
    NoColon(Pad2(s));
    SplitAt(Pad2(m), ':', Pad2(s));
    SplitNoSeparator(Pad2(s), ':');
  }

  /** The hour field is two digits, or `str(h)` when that is longer, which
      does not start with `0`. */
  lemma HourField(h: nat)
    requires h > 0
    ensures |Pad2(h)| == 2 || Pad2(h)[0] != '0'
  {
    var r := Render(h, 10);
    if |r| > 2 {
      assert Zeros(0) == [];
      assert Pad2(h) == r;
      assert DigitValue(r[0]) != 0;
    }
  }

  lemma HoursMinutesSecondsReadBack(h: nat, m: nat, s: nat)
    requires h > 0 && m < 60 && s < 60
    ensures Split(Pad2(h) + ":" + Pad2(m) + ":" + Pad2(s), ':') == [Pad2(h), Pad2(m), Pad2(s)]
    ensures ClockValue(Pad2(h) + ":" + Pad2(m) + ":" + Pad2(s)) == Some(Seconds(h, m, s))
  {
    HourField(h);
    MinutesSecondsReadBack(m, s);
    NoColon(Pad2(h));
    var rest := Pad2(m) + ":" + Pad2(s);
    assert Pad2(h) + ":" + Pad2(m) + ":" + Pad2(s) == Pad2(h) + [':'] + rest;
    SplitAt(Pad2(h), ':', rest);
  }

  /** Every non-negative duration formats as a well-formed clock reading of
      the same number of seconds: minutes and seconds are two digits below
      60, hours are at least two digits and are not capped, and the hour
      field is there exactly when the duration is at least one hour. */
  lemma FormatTimeReadsBack(t: nat)
    ensures ClockValue(FormatTime(Some(t))) == Some(t)
    ensures |Split(FormatTime(Some(t)), ':')| == (if t >= 3600 then 3 else 2)
  {
    var hms := Clock(t);
    var text := FormatTime(Some(t));
    if hms.0 > 0 {
      assert text == Pad2(hms.0) + ":" + Pad2(hms.1) + ":" + Pad2(hms.2);
      HoursMinutesSecondsReadBack(hms.0, hms.1, hms.2);
    } else {
      assert text == Pad2(hms.1) + ":" + Pad2(hms.2);
      MinutesSecondsReadBack(hms.1, hms.2);
    }
  }

  lemma Pad2Digit(n: nat)
    requires n < 10
    ensures Pad2(n) == ['0', DigitChar(n)]
  {
  }

  /** An hour, a minute and a second past the hour (display.py:87-88). */
  lemma FormatTimeHour()
    ensures FormatTime(Some(3661)) == "01:01:01"
    ensures FormatTime(Some(3600)) == "01:00:00"
  {
    assert Clock(3661) == (1, 1, 1) && Clock(3600) == (1, 0, 0);
    Pad2Digit(0);
    Pad2Digit(1);
  }

  /** Under an hour the hour field is left out (display.py:89-90). */
  lemma FormatTimeMinute()
    ensures FormatTime(Some(59)) == "00:59"
  {
    assert Clock(59) == (0, 0, 59);
    ShortFormat(59);
    MinuteFields(Pad2(0), Pad2(59));
  }

  /** The two fields of 59 seconds, and the text they make. */
  lemma MinuteFields(m: string, sec: string)
    requires m == Pad2(0) && sec == Pad2(59)
    ensures m + ":" + sec == "00:59"
  {
    Pad2Digit(0);
    TwoDigitPad(59);
  }

  /** Under an hour, only the minute and second fields are written. */
  lemma ShortFormat(t: nat)
    requires Clock(t).0 == 0
    ensures FormatTime(Some(t)) == Pad2(Clock(t).1) + ":" + Pad2(Clock(t).2)
  {
  }

  /** From an hour on, all three fields are written. */
  lemma LongFormat(t: nat)
    requires Clock(t).0 > 0
    ensures FormatTime(Some(t)) == Pad2(Clock(t).0) + ":" + Pad2(Clock(t).1) + ":" + Pad2(Clock(t).2)
  {
  }

  // ---------------------------------------------------------------------------
  // update

  /** The dictionary `update` receives: a field is `None` when its key is
      absent, and then `dict.get` supplies the default. A temperature or
      target may itself be `None`. An absent profile and a `None` profile
      are the same to `update`, so `profile` has one level only. */
  datatype OvenState = OvenState(
    temperature: Option<Option<int>>,
    target: Option<Option<int>>,
    state: Option<string>,
    profile: Option<string>,
    runtime: Option<int>,
    totaltime: Option<int>,
    heatRate: Option<int>)
  {
    function Temperature(): Option<int> { temperature.GetOr(Some(0)) }
    function Target(): Option<int> { target.GetOr(Some(0)) }
    function State(): string { state.GetOr("IDLE") }
    function Runtime(): int { runtime.GetOr(0) }
    function TotalTime(): int { totaltime.GetOr(0) }
    function HeatRate(): int { heatRate.GetOr(0) }

    /** The time and remaining-time lines are shown. */
    predicate ShowsSchedule() {
      (State() == "RUNNING" || State() == "PAUSED") && TotalTime() > 0
    }
  }

  /** Line 1: the state, then ` - ` and at most 12 characters of the profile
      name when there is a non-empty one (display.py:126-130). */
  function StateLine(state: string, profile: Option<string>): (line: string)
    ensures StartsWith(line, state) && |line| <= |state| + 3 + ProfileWidth
  {
    if profile.Some? && profile.value != [] then state + " - " + Take(profile.value, ProfileWidth)
    else state
  }

  /** The state line begins with the state; it is the state alone exactly when
      there is no profile or the profile is empty; otherwise what follows is
      ` - ` and the first 12 characters of the profile, all of it when it is
      no longer than that. */
  lemma StateLineShape(state: string, profile: Option<string>)
    ensures StartsWith(StateLine(state, profile), state)
    ensures StateLine(state, profile) == state <==> profile.None? || profile.value == []
    ensures profile.Some? && profile.value != [] ==>
              var rest := StateLine(state, profile)[|state|..];
              StartsWith(rest, " - ") && StartsWith(profile.value, rest[3..]) &&
              |rest| == 3 + Min(ProfileWidth, |profile.value|)
  {
    var line := StateLine(state, profile);
    assert line[..|state|] == state;
    if profile.Some? && profile.value != [] {
      assert line[|state|..] == " - " + Take(profile.value, ProfileWidth);
      assert |line| > |state|;
    }
  }

  /** `" N°/hr"`-style text for a heating rate. */
  function RateText(rate: int): string { IntToString(rate) + "°/hr" }

  /** Line 2 or 3: a caption and a formatted temperature (display.py:135-140). */
  function TemperatureLine(caption: string, temp: Option<int>, scale: string): string {
    caption + ": " + FormatTemperature(temp, scale)
  }

  /** Line 4 of a running or paused schedule: elapsed and total time (display.py:144). */
  function TimeLine(runtime: int, totaltime: int): string {
    "Time: " + FormatTime(Some(runtime)) + " / " + FormatTime(Some(totaltime))
  }

  /** Line 5 of a running or paused schedule: the remaining time, then the
      heating rate when it is positive (display.py:147-152). */
  function RemainingLine(remaining: int, rate: int): string {
    "Rem: " + FormatTime(Some(remaining)) + (if rate > 0 then " " + RateText(rate) else "")
  }

  /** Line 4 when no schedule is shown and the rate is positive (display.py:153-157). */
  function RateLine(rate: int): string { "Rate: " + RateText(rate) }

  /** The lines shown after the temperature and the target. */
  function ScheduleLines(oven: OvenState): (lines: seq<string>)
    ensures |lines| == (if oven.ShowsSchedule() then 2 else if oven.HeatRate() > 0 then 1 else 0)
  {
    var runtime, totaltime, rate := oven.Runtime(), oven.TotalTime(), oven.HeatRate();
    if oven.ShowsSchedule() then [TimeLine(runtime, totaltime), RemainingLine(totaltime - runtime, rate)]
    else if rate > 0 then [RateLine(rate)]
    else []
  }

  /** The texts of `update`, top to bottom. */
  function StatusLines(oven: OvenState, scale: string): (lines: seq<string>)
    ensures 3 <= |lines| <= 5
    ensures |lines| == 3 + |ScheduleLines(oven)|
  {
    [ StateLine(oven.State(), oven.profile),
      TemperatureLine("Temp", oven.Temperature(), scale),
      TemperatureLine("Targ", oven.Target(), scale) ]
    + ScheduleLines(oven)
  }

  /** Text lines drawn top to bottom at the left edge, the first on text
      line `row`. */
  function TextLines(lines: seq<string>, row: nat): (ops: seq<DrawOp>)
    ensures |ops| == |lines|
    ensures forall k :: 0 <= k < |ops| ==> ops[k] == DrawText(0, LineHeight * (row + k), lines[k])
    decreases |lines|
  {
    if lines == [] then [] else [DrawText(0, LineHeight * row, lines[0])] + TextLines(lines[1..], row + 1)
  }

  /** `update` (display.py:92-157): nothing before the display is initialized;
      then three to five lines at the left edge, one every 12 pixels: five
      exactly when a running or paused schedule has a total time, four
      exactly when it has not but the heating rate is positive. */
  function Update(initialized: bool, oven: OvenState, scale: string): (ops: seq<DrawOp>)
    ensures !initialized ==> ops == []
    ensures initialized ==> 3 <= |ops| <= 5
    ensures forall k :: 0 <= k < |ops| ==> ops[k].DrawText? && ops[k].x == 0 && ops[k].y == LineHeight * k
    ensures |ops| == 5 <==> initialized && oven.ShowsSchedule()
    ensures |ops| == 4 <==> initialized && !oven.ShowsSchedule() && oven.HeatRate() > 0
  {
    if !initialized then [] else TextLines(StatusLines(oven, scale), 0)
  }

  /** The first three lines: the state line, then the temperature and the
      target. */
  lemma UpdateLines(oven: OvenState, scale: string)
    ensures Update(true, oven, scale)[0].text == StateLine(oven.State(), oven.profile)
    ensures Update(true, oven, scale)[1].text == TemperatureLine("Temp", oven.Temperature(), scale)
    ensures Update(true, oven, scale)[2].text == TemperatureLine("Targ", oven.Target(), scale)
  {
  }

  /** A running or paused schedule with a total time adds the elapsed and
      the total time on line 4 ... */
  lemma UpdateTimeLine(oven: OvenState, scale: string)
    requires oven.ShowsSchedule()
    ensures Update(true, oven, scale)[3].text == TimeLine(oven.Runtime(), oven.TotalTime())
  {
  }

  /** ... and the remaining time, total minus elapsed, on line 5. */
  lemma UpdateRemainingLine(oven: OvenState, scale: string)
    requires oven.ShowsSchedule()
    ensures Update(true, oven, scale)[4].text == RemainingLine(oven.TotalTime() - oven.Runtime(), oven.HeatRate())
  {
  }

  /** Otherwise a positive heating rate gets a line of its own. */
  lemma UpdateRateLine(oven: OvenState, scale: string)
    requires !oven.ShowsSchedule() && oven.HeatRate() > 0
    ensures Update(true, oven, scale)[3].text == RateLine(oven.HeatRate())
  {
  }

  /** The remaining-time line starts with the formatted remaining time, so a
      run past its schedule shows `Rem: --:--`; the rate follows exactly when
      it is positive. */
  lemma RemainingLineShape(remaining: int, rate: int)
    ensures StartsWith(RemainingLine(remaining, rate), "Rem: " + FormatTime(Some(remaining)))
    ensures remaining < 0 ==> StartsWith(RemainingLine(remaining, rate), "Rem: --:--")
    ensures rate > 0 <==> |RemainingLine(remaining, rate)| > |"Rem: " + FormatTime(Some(remaining))|
    ensures rate > 0 ==>
      RemainingLine(remaining, rate)[|"Rem: " + FormatTime(Some(remaining))|..] == " " + RateText(rate)
  {
    var head := "Rem: " + FormatTime(Some(remaining));
    assert RemainingLine(remaining, rate)[..|head|] == head;
    if rate > 0 {
      assert RemainingLine(remaining, rate)[|head|..] == " " + RateText(rate);
    }
  }

  lemma RenderDigit(n: nat)
    requires n < 10
    ensures Render(n, 10) == [DigitChar(n)]
  {
  }

  lemma RenderAppend(n: nat)
    requires n >= 10
    ensures Render(n, 10) == Render(n / 10, 10) + [DigitChar(n % 10)]
  {
  }

  lemma ExampleTemperatures()
    ensures IntToString(1250) == "1250" && IntToString(1300) == "1300" && IntToString(150) == "150"
  {
    RenderDigit(1);
    RenderAppend(12);
    RenderAppend(125);
    RenderAppend(1250);
    RenderAppend(13);
    RenderAppend(130);
    RenderAppend(1300);
    RenderAppend(15);
    RenderAppend(150);
  }

  lemma ExampleTimes()
    ensures FormatTime(Some(3600)) == "01:00:00" && FormatTime(Some(7200)) == "02:00:00"
  {
    FormatTimeHour();
    ClockOf(2, 0, 0);
    LongFormat(7200);
    var h, z := Pad2(2), Pad2(0);
    assert h == "02" by { Pad2Digit(2); }
    assert z == "00" by { Pad2Digit(0); }
    assert h + ":" + z + ":" + z == "02:00:00";
  }

  /** The example state of display.py:283-293 on a Fahrenheit display: the
      profile "Cone 6 Glaze" has exactly 12 characters and is shown whole,
      one hour of a two-hour schedule has run and one remains. */
  lemma UpdateExample()
    ensures Update(true, OvenState(Some(Some(1250)), Some(Some(1300)), Some("RUNNING"), Some("Cone 6 Glaze"),
                                   Some(3600), Some(7200), Some(150)), "f")
            == TextLines(["RUNNING - Cone 6 Glaze", "Temp: 1250°F", "Targ: 1300°F",
                          "Time: 01:00:00 / 02:00:00", "Rem: 01:00:00 150°/hr"], 0)
  {
    ExampleStatusLines();
  }

  lemma ExampleStatusLines()
    ensures StatusLines(OvenState(Some(Some(1250)), Some(Some(1300)), Some("RUNNING"), Some("Cone 6 Glaze"),
                                  Some(3600), Some(7200), Some(150)), "f")
            == ["RUNNING - Cone 6 Glaze", "Temp: 1250°F", "Targ: 1300°F",
                "Time: 01:00:00 / 02:00:00", "Rem: 01:00:00 150°/hr"]
  {
    var oven := OvenState(Some(Some(1250)), Some(Some(1300)), Some("RUNNING"), Some("Cone 6 Glaze"),
                          Some(3600), Some(7200), Some(150));
    ExampleStateLine();
    ExampleTemperatureLines();
    ExampleTimeLine();
    ExampleRemainingLine();
    assert oven.ShowsSchedule();
  }

  lemma ExampleStateLine()
    ensures StateLine("RUNNING", Some("Cone 6 Glaze")) == "RUNNING - Cone 6 Glaze"
  {
    assert Take("Cone 6 Glaze", ProfileWidth) == "Cone 6 Glaze";
  }

  lemma ExampleTemperatureLines()
    ensures TemperatureLine("Temp", Some(1250), "f") == "Temp: 1250°F"
    ensures TemperatureLine("Targ", Some(1300), "f") == "Targ: 1300°F"
  {
    ExampleTemperatures();
  }

  lemma ExampleTimeLine()
    ensures TimeLine(3600, 7200) == "Time: 01:00:00 / 02:00:00"
  {
    ExampleTimes();
    assert "Time: " + "01:00:00" + " / " + "02:00:00" == "Time: 01:00:00 / 02:00:00";
  }

  lemma ExampleRemainingLine()
    ensures RemainingLine(3600, 150) == "Rem: 01:00:00 150°/hr"
  {
    assert "Rem: " + "01:00:00" + (" " + "150°/hr") == "Rem: 01:00:00 150°/hr";
    FormatTimeHour();
    ExampleRate();
    assert RemainingLine(3600, 150) == "Rem: " + FormatTime(Some(3600)) + (" " + RateText(150));
  }

  lemma ExampleRate()
    ensures RateText(150) == "150°/hr"
  {
    ExampleTemperatures();
  }

  /** An empty state dictionary on a Celsius display: the defaults show the
      idle state and zero degrees, and no time or rate line. */
  lemma UpdateIdleExample()
    ensures Update(true, OvenState(None, None, None, None, None, None, None), "c")
            == TextLines(["IDLE", "Temp: 0°C", "Targ: 0°C"], 0)
  {
    RenderDigit(0);
    assert TemperatureLine("Temp", Some(0), "c") == "Temp: 0°C";
    assert TemperatureLine("Targ", Some(0), "c") == "Targ: 0°C";
  }

  // ---------------------------------------------------------------------------
  // show_message

  /** `show_message` (display.py:172-188): the first 21 characters of the
      message at the left edge of text line `line`. */
  function ShowMessage(initialized: bool, message: string, line: int): (ops: seq<DrawOp>)
    ensures !initialized ==> ops == []
    ensures initialized ==> |ops| == 1 && ops[0].DrawText? && ops[0].x == 0 && ops[0].y == LineHeight * line
    ensures initialized ==> StartsWith(message, ops[0].text) && |ops[0].text| == Min(MessageWidth, |message|)
  {
    if !initialized then [] else [DrawText(0, line * 12, Take(message, MessageWidth))]
  }
}
