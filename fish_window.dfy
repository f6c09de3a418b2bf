/** The catch windows of a fish. A fish bites between two times of day (offsets from the
    start of a sun, the window wrapping past midnight when its end offset precedes its
    start offset), and only in the weather period in which a weather of one set follows a
    weather of another. The next catch window from an instant is the overlap of that
    day's window with the next period showing the weather pattern, searched period by
    period. */
module FishWindow {
  import opened Primitives
  import opened EorzeaClock
  import opened Patterns
  import opened WeatherModel
  import opened WeatherExamples

  /** A region and its weather forecast. */
  datatype Region = Region(name: string, weather: WeatherForecast)

  datatype FishingHole = FishingHole(name: string, region: Region)

  /** A fish, with the part of its record the window search reads: where it lives, its
      daily window and the weather pattern it needs. */
  datatype Fish = Fish(name: string, location: FishingHole, windowStart: EorzeaDuration,
                       windowEnd: EorzeaDuration, previousWeatherSet: seq<Weather>,
                       weatherSet: seq<Weather>)
  {
    /** The fish with both window offsets reduced modulo one sun. */
    static function New(name: string, location: FishingHole, windowStart: EorzeaDuration,
                        windowEnd: EorzeaDuration, previousWeatherSet: seq<Weather>,
                        weatherSet: seq<Weather>): (fish: Fish)
      ensures fish.name == name && fish.location == location
      ensures fish.previousWeatherSet == previousWeatherSet && fish.weatherSet == weatherSet
      ensures fish.windowStart.esec < SUN_IN_ESEC && fish.windowEnd.esec < SUN_IN_ESEC
      ensures (windowStart.esec - fish.windowStart.esec) % SUN_IN_ESEC == 0
      ensures (windowEnd.esec - fish.windowEnd.esec) % SUN_IN_ESEC == 0
      ensures fish.WindowFits()
    {
      Fish(name, location, windowStart.Rem(EORZEA_SUN), windowEnd.Rem(EORZEA_SUN),
           previousWeatherSet, weatherSet)
    }

    /** The window's end offset is at most one sun before its start offset, so that the
        day's window is a well-formed span; `New` establishes it. */
    predicate WindowFits() {
      windowStart.esec <= windowEnd.esec + SUN_IN_ESEC
    }

    /** The window on the day holding `etime`: it opens `windowStart` after the start of
        that day and closes `windowEnd` after the start of that day, or of the next one
        when the end offset is before the start offset. */
    function DayWindow(etime: EorzeaTime): (w: EorzeaTimeSpan)
      requires WindowFits()
      ensures var day := w.start.timestamp - windowStart.esec;
              && day % 86400 == 0
              && day <= etime.timestamp < day + 86400
              && w.End().timestamp - day
                 == if windowEnd.esec < windowStart.esec then windowEnd.esec + 86400 else windowEnd.esec
    {
      var day := etime.timestamp - etime.timestamp % 86400;
      var length := if windowEnd.esec < windowStart.esec then windowEnd.esec + SUN_IN_ESEC - windowStart.esec
                    else windowEnd.esec - windowStart.esec;
      EorzeaTimeSpan(EorzeaTime(day + windowStart.esec), EorzeaDuration(length))
    }

    /** `window_on_day`: rounds a copy of `etime` down to its day, adds both offsets, and
        moves the end one sun later when it lies strictly before the start. Building the
        span cannot fail. */
    method WindowOnDay(etime: EorzeaTime) returns (w: EorzeaTimeSpan)
      requires WindowFits()
      ensures w == DayWindow(etime)
    {
      var day := etime;
      day := day.Round(EORZEA_SUN);
      var start := day.Add(windowStart);
      var end := day.Add(windowEnd);
      if end.timestamp < start.timestamp {
        end := end.Add(EORZEA_SUN);
      }
      var span := EorzeaTimeSpan.NewStartEnd(start, end);
      w := span.value;
    }

    /** `next_window`: the search of `limit` periods for the weather pattern from `time`;
        the overlap of that day's window with the 8-bell span from the instant found, or,
        when they do not meet, the same from one period later with one step fewer. The
        search always returns None with limit 0, so `limit - 1` never wraps. `weather`
        is the weather of the fish's region as a function of the instant. */
    function NextWindow(weather: EorzeaTime -> Weather, time: EorzeaTime, limit: u32): (r: Option<EorzeaTimeSpan>)
      requires location.region.weather.MaxScore() > 0 && location.region.weather.IsWeatherOf(weather)
      requires WindowFits()
      ensures limit == 0 ==> r.None?
      ensures r.Some? ==> r.value.duration.esec <= EORZEA_WEATHER_PERIOD.esec
      decreases limit
    {
      match PatternSearch(weather, time, previousWeatherSet, weatherSet, limit as nat)
      case None => None
      case Some(next) =>
        var weatherSpan := EorzeaTimeSpan(next, EORZEA_WEATHER_PERIOD);
        match DayWindow(time).Overlap(weatherSpan)
        case Ok(o) => Some(o)
        case Err(_) => NextWindow(weather, time.Add(EORZEA_WEATHER_PERIOD), limit - 1)
    }

    /** `next_window` with the aligned search: the span from the instant found then runs
        from one period boundary to the next. */
    function NextWindowAligned(weather: EorzeaTime -> Weather, time: EorzeaTime, limit: u32)
      : (r: Option<EorzeaTimeSpan>)
      requires location.region.weather.MaxScore() > 0 && location.region.weather.IsWeatherOf(weather)
      requires WindowFits()
      ensures limit == 0 ==> r.None?
      ensures r.Some? ==> r.value.duration.esec <= EORZEA_WEATHER_PERIOD.esec
      decreases limit
    {
      match AlignedPatternSearch(weather, time, previousWeatherSet, weatherSet, limit as nat)
      case None => None
      case Some(next) =>
        var weatherSpan := EorzeaTimeSpan(next, EORZEA_WEATHER_PERIOD);
        match DayWindow(time).Overlap(weatherSpan)
        case Ok(o) => Some(o)
        case Err(_) => NextWindowAligned(weather, time.Add(EORZEA_WEATHER_PERIOD), limit - 1)
    }
  }

  // ---------------------------------------------------------------------------
  // The window on a day

  /** Two instants of the same day have the same window. */
  lemma DayWindowSameDay(fish: Fish, t1: EorzeaTime, t2: EorzeaTime)
    requires fish.WindowFits()
    requires t1.timestamp / SUN_IN_ESEC == t2.timestamp / SUN_IN_ESEC
    ensures fish.DayWindow(t1) == fish.DayWindow(t2)
  {
    RoundSameBlock(t1, t2, EORZEA_SUN);
  }

  /** With both offsets within one sun (as `New` leaves them), a window is shorter than a
      sun; it is empty exactly when the offsets are equal, and it ends on the next day
      exactly when its end offset is before its start offset. */
  lemma DayWindowLength(fish: Fish, etime: EorzeaTime)
    requires fish.windowStart.esec < SUN_IN_ESEC && fish.windowEnd.esec < SUN_IN_ESEC
    ensures fish.WindowFits()
    ensures var w := fish.DayWindow(etime);
            && w.duration.esec < SUN_IN_ESEC
            && (w.duration.esec == 0 <==> fish.windowStart == fish.windowEnd)
            && (w.End().timestamp / SUN_IN_ESEC == etime.timestamp / SUN_IN_ESEC
                <==> fish.windowStart.esec <= fish.windowEnd.esec)
  {
    var w := fish.DayWindow(etime);
    var day := w.start.timestamp - fish.windowStart.esec;
    DivModUnique(etime.timestamp, SUN_IN_ESEC, day / SUN_IN_ESEC, etime.timestamp - day);
    if fish.windowStart.esec <= fish.windowEnd.esec {
      DivModUnique(w.End().timestamp, SUN_IN_ESEC, day / SUN_IN_ESEC, fish.windowEnd.esec);
    } else {
      DivModUnique(w.End().timestamp, SUN_IN_ESEC, day / SUN_IN_ESEC + 1, fish.windowEnd.esec);
    }
  }

  // ---------------------------------------------------------------------------
  // The window search

  /** One step of `NextWindow`. */
  lemma NextWindowUnfold(fish: Fish, weather: EorzeaTime -> Weather, time: EorzeaTime, limit: u32)
    requires fish.location.region.weather.MaxScore() > 0 && fish.location.region.weather.IsWeatherOf(weather)
    requires fish.WindowFits()
    ensures var s := PatternSearch(weather, time, fish.previousWeatherSet, fish.weatherSet, limit as nat);
            var r := fish.NextWindow(weather, time, limit);
            && (s.None? ==> r.None?)
            && (s.Some? ==> var o := fish.DayWindow(time).Overlap(EorzeaTimeSpan(s.value, EORZEA_WEATHER_PERIOD));
                            && (o.Ok? ==> r == Some(o.value))
                            && (o.Err? ==> limit > 0 && r == fish.NextWindow(weather, time.Add(EORZEA_WEATHER_PERIOD), limit - 1)))
  {
  }

  /** One step of `NextWindowAligned`. */
  lemma NextWindowAlignedUnfold(fish: Fish, weather: EorzeaTime -> Weather, time: EorzeaTime, limit: u32)
    requires fish.location.region.weather.MaxScore() > 0 && fish.location.region.weather.IsWeatherOf(weather)
    requires fish.WindowFits()
    ensures var s := AlignedPatternSearch(weather, time, fish.previousWeatherSet, fish.weatherSet, limit as nat);
            var r := fish.NextWindowAligned(weather, time, limit);
            && (s.None? ==> r.None?)
            && (s.Some? ==> var o := fish.DayWindow(time).Overlap(EorzeaTimeSpan(s.value, EORZEA_WEATHER_PERIOD));
                            && (o.Ok? ==> r == Some(o.value))
                            && (o.Err? ==> limit > 0 && r == fish.NextWindowAligned(weather, time.Add(EORZEA_WEATHER_PERIOD), limit - 1)))
  {
  }

  /** One period later, an instant keeps its phase within the period. */
  lemma NextPeriodPhase(t: EorzeaTime)
    ensures t.Add(EORZEA_WEATHER_PERIOD).timestamp % 28800 == t.timestamp % 28800
  {
    DivModUnique(t.timestamp + 28800, 28800, t.timestamp / 28800 + 1, t.timestamp % 28800);
  }

  /** `o` lies within the 8-bell span from `w`, at which the weather is in `weatherSet`
      while the weather one period earlier is in `previousWeatherSet`. */
  ghost predicate InPatternSpan(fish: Fish, weather: EorzeaTime -> Weather, w: EorzeaTime, o: EorzeaTimeSpan) {
    && 28800 <= w.timestamp <= o.start.timestamp
    && o.End().timestamp <= w.timestamp + 28800
    && weather(EorzeaTime(w.timestamp - 28800)) in fish.previousWeatherSet
    && weather(w) in fish.weatherSet
  }

  /** One attempt of `NextWindow`: the overlap of the day's window with the 8-bell span
      from the instant `w` the search returned lies within that span, at which the pattern
      holds; as written, `w` keeps the phase of `time` within its period. */
  lemma AttemptInSpan(fish: Fish, weather: EorzeaTime -> Weather, time: EorzeaTime, limit: u32,
                      w: EorzeaTime, o: EorzeaTimeSpan)
    requires fish.WindowFits()
    requires PatternSearch(weather, time, fish.previousWeatherSet, fish.weatherSet, limit as nat) == Some(w)
    requires fish.DayWindow(time).Overlap(EorzeaTimeSpan(w, EORZEA_WEATHER_PERIOD)) == Ok(o)
    ensures InPatternSpan(fish, weather, w, o)
    ensures time.timestamp >= 28800 ==> w.timestamp % 28800 == time.timestamp % 28800
  {
    SearchResultMatches(weather, time.Sub(EORZEA_WEATHER_PERIOD), fish.previousWeatherSet, fish.weatherSet,
                        limit as nat);
    if time.timestamp >= 28800 {
      PatternSearchKeepsPhase(weather, time, fish.previousWeatherSet, fish.weatherSet, limit as nat);
    }
  }

  /** One attempt of `NextWindowAligned`: the same, with the span found running from one
      period boundary to the next. */
  lemma AlignedAttemptInPeriod(fish: Fish, weather: EorzeaTime -> Weather, time: EorzeaTime, limit: u32,
                               w: EorzeaTime, o: EorzeaTimeSpan)
    requires fish.WindowFits()
    requires AlignedPatternSearch(weather, time, fish.previousWeatherSet, fish.weatherSet, limit as nat) == Some(w)
    requires fish.DayWindow(time).Overlap(EorzeaTimeSpan(w, EORZEA_WEATHER_PERIOD)) == Ok(o)
    ensures InPatternSpan(fish, weather, w, o)
    ensures w.timestamp % 28800 == 0
  {
    AlignedPatternSearchMatches(weather, time, fish.previousWeatherSet, fish.weatherSet, limit as nat);
  }

  /** A span found from one period later keeps the phase of `time` as well. */
  lemma InPatternSpanLater(fish: Fish, weather: EorzeaTime -> Weather, time: EorzeaTime, later: EorzeaTime,
                           o: EorzeaTimeSpan)
    requires later == time.Add(EORZEA_WEATHER_PERIOD)
    requires exists w: EorzeaTime ::
               && InPatternSpan(fish, weather, w, o)
               && (later.timestamp >= 28800 ==> w.timestamp % 28800 == later.timestamp % 28800)
    ensures exists w: EorzeaTime ::
              && InPatternSpan(fish, weather, w, o)
              && (time.timestamp >= 28800 ==> w.timestamp % 28800 == time.timestamp % 28800)
  {
    NextPeriodPhase(time);
    var w :| && InPatternSpan(fish, weather, w, o)
             && (later.timestamp >= 28800 ==> w.timestamp % 28800 == later.timestamp % 28800);
    assert InPatternSpan(fish, weather, w, o);
  }

  /** A window that `NextWindow` finds from `time` lies within the 8-bell span from an
      instant at which the search found the pattern; that instant keeps the phase of
      `time` within its period. */
  ghost predicate FoundInPatternSpan(fish: Fish, weather: EorzeaTime -> Weather, time: EorzeaTime, limit: u32)
    requires fish.location.region.weather.MaxScore() > 0 && fish.location.region.weather.IsWeatherOf(weather)
    requires fish.WindowFits()
  {
    var r := fish.NextWindow(weather, time, limit);
    r.Some? ==> InPhasedPatternSpan(fish, weather, time, r.value)
  }

  /** `o` lies within the 8-bell span from some instant at which the pattern holds, and
      that instant has the phase of `time` within its period once `time` is past the first. */
  ghost predicate InPhasedPatternSpan(fish: Fish, weather: EorzeaTime -> Weather, time: EorzeaTime, o: EorzeaTimeSpan) {
    exists w: EorzeaTime ::
      && InPatternSpan(fish, weather, w, o)
      && (time.timestamp >= 28800 ==> w.timestamp % 28800 == time.timestamp % 28800)
  }

  /** A window found lies within the 8-bell span from an instant at which the search
      found the pattern. As written, that span keeps the phase of `time` within its
      period: it straddles two weather periods unless `time` is a period boundary. */
  lemma {:induction false} NextWindowInPatternSpan(fish: Fish, weather: EorzeaTime -> Weather, time: EorzeaTime,
                                                   limit: u32)
    requires fish.location.region.weather.MaxScore() > 0 && fish.location.region.weather.IsWeatherOf(weather)
    requires fish.WindowFits()
    ensures FoundInPatternSpan(fish, weather, time, limit)
    decreases limit
  {
    var later := time.Add(EORZEA_WEATHER_PERIOD);
    if limit > 0 {
      NextWindowInPatternSpan(fish, weather, later, limit - 1);
      InPatternSpanStep(fish, weather, time, later, limit);
    }
  }

  /** One step of `NextWindowInPatternSpan`: the attempt at `time` either finds its window
      in the span from the instant searched, or the window comes from one period later. */
  lemma InPatternSpanStep(fish: Fish, weather: EorzeaTime -> Weather, time: EorzeaTime, later: EorzeaTime,
                          limit: u32)
    requires fish.location.region.weather.MaxScore() > 0 && fish.location.region.weather.IsWeatherOf(weather)
    requires fish.WindowFits()
    requires later == time.Add(EORZEA_WEATHER_PERIOD)
    requires limit > 0 && FoundInPatternSpan(fish, weather, later, limit - 1)
    ensures FoundInPatternSpan(fish, weather, time, limit)
  {
    NextWindowUnfold(fish, weather, time, limit);
    var r := fish.NextWindow(weather, time, limit);
    var s := PatternSearch(weather, time, fish.previousWeatherSet, fish.weatherSet, limit as nat);
    if r.Some? {
      var o := fish.DayWindow(time).Overlap(EorzeaTimeSpan(s.value, EORZEA_WEATHER_PERIOD));
      if o.Ok? {
        AttemptInSpan(fish, weather, time, limit, s.value, o.value);
      } else {
        InPatternSpanLater(fish, weather, time, later, r.value);
      }
    }
  }

  /** A window that `NextWindowAligned` finds from `time` lies between a period boundary and
      the next, where the weather sampled at that boundary is in `weatherSet` and the weather
      sampled one period earlier is in `previousWeatherSet`. Only those two instants are
      sampled: the real 1400-second period can turn a few esec before the next boundary. */
  ghost predicate FoundInPeriod(fish: Fish, weather: EorzeaTime -> Weather, time: EorzeaTime, limit: u32)
    requires fish.location.region.weather.MaxScore() > 0 && fish.location.region.weather.IsWeatherOf(weather)
    requires fish.WindowFits()
  {
    var r := fish.NextWindowAligned(weather, time, limit);
    r.Some? ==> InWholePeriod(fish, weather, r.value)
  }

  /** `o` lies between a period boundary and the next, and the weather sampled at that
      boundary and at the boundary before matches the pattern. */
  ghost predicate InWholePeriod(fish: Fish, weather: EorzeaTime -> Weather, o: EorzeaTimeSpan) {
    exists w: EorzeaTime :: w.timestamp % 28800 == 0 && InPatternSpan(fish, weather, w, o)
  }

  /** With the aligned search, a window found lies between two period boundaries, and the
      weather sampled at the first of them and one period before matches the pattern. */
  lemma {:induction false} NextWindowAlignedInPeriod(fish: Fish, weather: EorzeaTime -> Weather, time: EorzeaTime,
                                                     limit: u32)
    requires fish.location.region.weather.MaxScore() > 0 && fish.location.region.weather.IsWeatherOf(weather)
    requires fish.WindowFits()
    ensures FoundInPeriod(fish, weather, time, limit)
    decreases limit
  {
    var later := time.Add(EORZEA_WEATHER_PERIOD);
    if limit > 0 {
      NextWindowAlignedInPeriod(fish, weather, later, limit - 1);
      InPeriodStep(fish, weather, time, later, limit);
    }
  }

  /** One step of `NextWindowAlignedInPeriod`. */
  lemma InPeriodStep(fish: Fish, weather: EorzeaTime -> Weather, time: EorzeaTime, later: EorzeaTime, limit: u32)
    requires fish.location.region.weather.MaxScore() > 0 && fish.location.region.weather.IsWeatherOf(weather)
    requires fish.WindowFits()
    requires later == time.Add(EORZEA_WEATHER_PERIOD)
    requires limit > 0 && FoundInPeriod(fish, weather, later, limit - 1)
    ensures FoundInPeriod(fish, weather, time, limit)
  {
    NextWindowAlignedUnfold(fish, weather, time, limit);
    var r := fish.NextWindowAligned(weather, time, limit);
    var s := AlignedPatternSearch(weather, time, fish.previousWeatherSet, fish.weatherSet, limit as nat);
    if r.Some? {
      var o := fish.DayWindow(time).Overlap(EorzeaTimeSpan(s.value, EORZEA_WEATHER_PERIOD));
      if o.Ok? {
        AlignedAttemptInPeriod(fish, weather, time, limit, s.value, o.value);
      }
    }
  }

  /** The version of `next_window` that rounds to the weather period and the version as
      written return the same window when searched from `time` with `limit` attempts. */
  ghost predicate WindowsAgree(fish: Fish, weather: EorzeaTime -> Weather, time: EorzeaTime, limit: u32)
    requires fish.location.region.weather.MaxScore() > 0 && fish.location.region.weather.IsWeatherOf(weather)
    requires fish.WindowFits()
  {
    fish.NextWindowAligned(weather, time, limit) == fish.NextWindow(weather, time, limit)
  }

  /** Searched from a weather-period boundary, the two versions of `next_window` agree:
      every later start is then a boundary as well. */
  lemma {:induction false} NextWindowAgreeOnBoundary(fish: Fish, weather: EorzeaTime -> Weather, time: EorzeaTime,
                                                    limit: u32)
    requires fish.location.region.weather.MaxScore() > 0 && fish.location.region.weather.IsWeatherOf(weather)
    requires fish.WindowFits()
    requires time.timestamp % 28800 == 0
    ensures WindowsAgree(fish, weather, time, limit)
    decreases limit
  {
    var later := time.Add(EORZEA_WEATHER_PERIOD);
    AlignedPatternSearchOnBoundary(weather, time, fish.previousWeatherSet, fish.weatherSet, limit as nat);
    assert AttemptFrom(fish, weather, true, time, limit as nat) == AttemptFrom(fish, weather, false, time, limit as nat);
    if limit > 0 {
      NextPeriodPhase(time);
      var rest := limit - 1;
      NextWindowAgreeOnBoundary(fish, weather, later, rest);
      AgreeStep(fish, weather, time, later, limit, rest);
    }
  }

  /** One step of `NextWindowAgreeOnBoundary`: when both versions make the same attempt,
      they agree if their continuations from one period later agree. */
  lemma AgreeStep(fish: Fish, weather: EorzeaTime -> Weather, time: EorzeaTime, later: EorzeaTime, limit: u32,
                  rest: u32)
    requires fish.location.region.weather.MaxScore() > 0 && fish.location.region.weather.IsWeatherOf(weather)
    requires fish.WindowFits()
    requires AttemptFrom(fish, weather, true, time, limit as nat) == AttemptFrom(fish, weather, false, time, limit as nat)
    requires later == time.Add(EORZEA_WEATHER_PERIOD)
    requires limit as nat == rest as nat + 1 && WindowsAgree(fish, weather, later, rest)
    ensures WindowsAgree(fish, weather, time, limit)
  {
    StepByAttempt(fish, weather, time, limit);
    AlignedStepByAttempt(fish, weather, time, limit);
    SameSearch(fish, weather, later, time.Add(EORZEA_WEATHER_PERIOD), rest, limit - 1);
  }

  /** Both window searches depend on nothing but their arguments. */
  lemma SameSearch(fish: Fish, weather: EorzeaTime -> Weather, t1: EorzeaTime, t2: EorzeaTime, l1: u32, l2: u32)
    requires fish.location.region.weather.MaxScore() > 0 && fish.location.region.weather.IsWeatherOf(weather)
    requires fish.WindowFits()
    requires t1 == t2 && l1 == l2
    ensures fish.NextWindow(weather, t1, l1) == fish.NextWindow(weather, t2, l2)
    ensures fish.NextWindowAligned(weather, t1, l1) == fish.NextWindowAligned(weather, t2, l2)
  {
  }

  /** `NextWindow` in terms of its first attempt: no pattern gives None, a window met gives
      it, and a window missed leaves the search to go on one period later. */
  lemma StepByAttempt(fish: Fish, weather: EorzeaTime -> Weather, time: EorzeaTime, limit: u32)
    requires fish.location.region.weather.MaxScore() > 0 && fish.location.region.weather.IsWeatherOf(weather)
    requires fish.WindowFits()
    ensures var a := AttemptFrom(fish, weather, false, time, limit as nat);
            var r := fish.NextWindow(weather, time, limit);
            && (a.None? ==> r.None?)
            && (a.Some? && a.value.Ok? ==> r == Some(a.value.value))
            && (a.Some? && a.value.Err? ==>
                  limit > 0 && r == fish.NextWindow(weather, time.Add(EORZEA_WEATHER_PERIOD), limit - 1))
  {
    NextWindowUnfold(fish, weather, time, limit);
  }

  /** `NextWindowAligned` in terms of its first attempt, as `StepByAttempt`. */
  lemma AlignedStepByAttempt(fish: Fish, weather: EorzeaTime -> Weather, time: EorzeaTime, limit: u32)
    requires fish.location.region.weather.MaxScore() > 0 && fish.location.region.weather.IsWeatherOf(weather)
    requires fish.WindowFits()
    ensures var a := AttemptFrom(fish, weather, true, time, limit as nat);
            var r := fish.NextWindowAligned(weather, time, limit);
            && (a.None? ==> r.None?)
            && (a.Some? && a.value.Ok? ==> r == Some(a.value.value))
            && (a.Some? && a.value.Err? ==>
                  limit > 0 && r == fish.NextWindowAligned(weather, time.Add(EORZEA_WEATHER_PERIOD), limit - 1))
  {
    NextWindowAlignedUnfold(fish, weather, time, limit);
  }

  // ---------------------------------------------------------------------------
  // The window found is the first day window that meets a pattern span

  /** The instant `j` weather periods after `time`. */
  function PeriodsOn(time: EorzeaTime, j: nat): EorzeaTime {
    EorzeaTime(time.timestamp + j * 28800)
  }

  /** One attempt of the window search from `t` with `n` steps: the pattern search (aligned or
      as written), and the overlap of the day's window with the 8-bell span from the instant
      it finds; None when the search finds nothing. */
  function AttemptFrom(fish: Fish, weather: EorzeaTime -> Weather, aligned: bool, t: EorzeaTime, n: nat)
    : Option<Result<EorzeaTimeSpan, DurationError>>
    requires fish.WindowFits()
  {
    var prev, cur := fish.previousWeatherSet, fish.weatherSet;
    var s := if aligned then AlignedPatternSearch(weather, t, prev, cur, n) else PatternSearch(weather, t, prev, cur, n);
    if s.None? then None else Some(fish.DayWindow(t).Overlap(EorzeaTimeSpan(s.value, EORZEA_WEATHER_PERIOD)))
  }

  /** The `j`-th attempt of the window search from `time` with `limit` steps: the attempt
      from `j` periods on, with `j` steps fewer. */
  function Attempt(fish: Fish, weather: EorzeaTime -> Weather, aligned: bool, time: EorzeaTime, limit: u32,
                   j: nat): Option<Result<EorzeaTimeSpan, DurationError>>
    requires fish.WindowFits()
    requires j < limit as nat
  {
    AttemptFrom(fish, weather, aligned, PeriodsOn(time, j), limit as nat - j)
  }

  /** The `i`-th attempt found a span that its day window missed. */
  ghost predicate Missed(fish: Fish, weather: EorzeaTime -> Weather, aligned: bool, time: EorzeaTime, limit: u32,
                         i: nat)
    requires fish.WindowFits()
  {
    && i < limit as nat
    && var a := Attempt(fish, weather, aligned, time, limit, i);
       a.Some? && a.value.Err?
  }

  /** The `j`-th attempt makes the overlap `o`, and every earlier attempt missed. */
  ghost predicate HitAt(fish: Fish, weather: EorzeaTime -> Weather, aligned: bool, time: EorzeaTime, limit: u32,
                        j: nat, o: EorzeaTimeSpan)
    requires fish.WindowFits()
  {
    && j < limit as nat
    && Attempt(fish, weather, aligned, time, limit, j) == Some(Ok(o))
    && forall i: nat :: i < j ==> Missed(fish, weather, aligned, time, limit, i)
  }

  /** `o` is the overlap made by the first attempt whose day window meets the span found. */
  ghost predicate FirstHit(fish: Fish, weather: EorzeaTime -> Weather, aligned: bool, time: EorzeaTime, limit: u32,
                           o: EorzeaTimeSpan)
    requires fish.WindowFits()
  {
    exists j: nat :: HitAt(fish, weather, aligned, time, limit, j, o)
  }

  /** A window that `NextWindow` finds from `time` is its first hit. */
  ghost predicate FoundAsFirstHit(fish: Fish, weather: EorzeaTime -> Weather, time: EorzeaTime, limit: u32)
    requires fish.location.region.weather.MaxScore() > 0 && fish.location.region.weather.IsWeatherOf(weather)
    requires fish.WindowFits()
  {
    var r := fish.NextWindow(weather, time, limit);
    r.Some? ==> FirstHit(fish, weather, false, time, limit, r.value)
  }

  /** A window that `NextWindowAligned` finds from `time` is its first hit. */
  ghost predicate AlignedFoundAsFirstHit(fish: Fish, weather: EorzeaTime -> Weather, time: EorzeaTime, limit: u32)
    requires fish.location.region.weather.MaxScore() > 0 && fish.location.region.weather.IsWeatherOf(weather)
    requires fish.WindowFits()
  {
    var r := fish.NextWindowAligned(weather, time, limit);
    r.Some? ==> FirstHit(fish, weather, true, time, limit, r.value)
  }

  /** The window `NextWindow` returns is the overlap of the day window `j` periods after
      `time` with the span the search found from there, for the first `j < limit` at which
      the two meet. */
  lemma {:induction false} NextWindowIsFirstHit(fish: Fish, weather: EorzeaTime -> Weather, time: EorzeaTime,
                                                limit: u32)
    requires fish.location.region.weather.MaxScore() > 0 && fish.location.region.weather.IsWeatherOf(weather)
    requires fish.WindowFits()
    ensures FoundAsFirstHit(fish, weather, time, limit)
    decreases limit
  {
    var later := time.Add(EORZEA_WEATHER_PERIOD);
    if limit > 0 {
      NextWindowIsFirstHit(fish, weather, later, limit - 1);
      FirstHitStep(fish, weather, time, later, limit);
    }
  }

  /** One step of `NextWindowIsFirstHit`. */
  lemma FirstHitStep(fish: Fish, weather: EorzeaTime -> Weather, time: EorzeaTime, later: EorzeaTime, limit: u32)
    requires fish.location.region.weather.MaxScore() > 0 && fish.location.region.weather.IsWeatherOf(weather)
    requires fish.WindowFits()
    requires later == time.Add(EORZEA_WEATHER_PERIOD)
    requires limit > 0 && FoundAsFirstHit(fish, weather, later, limit - 1)
    ensures FoundAsFirstHit(fish, weather, time, limit)
  {
    NextWindowUnfold(fish, weather, time, limit);
    var r := fish.NextWindow(weather, time, limit);
    if r.Some? {
      var s := PatternSearch(weather, time, fish.previousWeatherSet, fish.weatherSet, limit as nat);
      var o := fish.DayWindow(time).Overlap(EorzeaTimeSpan(s.value, EORZEA_WEATHER_PERIOD));
      FirstAttempt(fish, weather, false, time, limit);
      if o.Ok? {
        HitNow(fish, weather, false, time, limit, r.value);
      } else {
        FirstHitLater(fish, weather, false, time, later, limit, limit - 1, r.value);
      }
    }
  }

  /** The window `NextWindowAligned` returns is, in the same way, its first hit. */
  lemma {:induction false} NextWindowAlignedIsFirstHit(fish: Fish, weather: EorzeaTime -> Weather,
                                                       time: EorzeaTime, limit: u32)
    requires fish.location.region.weather.MaxScore() > 0 && fish.location.region.weather.IsWeatherOf(weather)
    requires fish.WindowFits()
    ensures AlignedFoundAsFirstHit(fish, weather, time, limit)
    decreases limit
  {
    var later := time.Add(EORZEA_WEATHER_PERIOD);
    if limit > 0 {
      NextWindowAlignedIsFirstHit(fish, weather, later, limit - 1);
      AlignedFirstHitStep(fish, weather, time, later, limit);
    }
  }

  /** One step of `NextWindowAlignedIsFirstHit`. */
  lemma AlignedFirstHitStep(fish: Fish, weather: EorzeaTime -> Weather, time: EorzeaTime, later: EorzeaTime,
                            limit: u32)
    requires fish.location.region.weather.MaxScore() > 0 && fish.location.region.weather.IsWeatherOf(weather)
    requires fish.WindowFits()
    requires later == time.Add(EORZEA_WEATHER_PERIOD)
    requires limit > 0 && AlignedFoundAsFirstHit(fish, weather, later, limit - 1)
    ensures AlignedFoundAsFirstHit(fish, weather, time, limit)
  {
    NextWindowAlignedUnfold(fish, weather, time, limit);
    var r := fish.NextWindowAligned(weather, time, limit);
    if r.Some? {
      var s := AlignedPatternSearch(weather, time, fish.previousWeatherSet, fish.weatherSet, limit as nat);
      var o := fish.DayWindow(time).Overlap(EorzeaTimeSpan(s.value, EORZEA_WEATHER_PERIOD));
      FirstAttempt(fish, weather, true, time, limit);
      if o.Ok? {
        HitNow(fish, weather, true, time, limit, r.value);
      } else {
        FirstHitLater(fish, weather, true, time, later, limit, limit - 1, r.value);
      }
    }
  }

  /** The first attempt is the pattern search from `time` itself, with all `limit` steps. */
  lemma FirstAttempt(fish: Fish, weather: EorzeaTime -> Weather, aligned: bool, time: EorzeaTime, limit: u32)
    requires fish.WindowFits()
    requires limit > 0
    ensures Attempt(fish, weather, aligned, time, limit, 0) == AttemptFrom(fish, weather, aligned, time, limit as nat)
  {
    assert PeriodsOn(time, 0) == time;
  }

  /** An attempt at `time` that meets its span is the first hit. */
  lemma HitNow(fish: Fish, weather: EorzeaTime -> Weather, aligned: bool, time: EorzeaTime, limit: u32,
               o: EorzeaTimeSpan)
    requires fish.WindowFits()
    requires limit > 0
    requires Attempt(fish, weather, aligned, time, limit, 0) == Some(Ok(o))
    ensures FirstHit(fish, weather, aligned, time, limit, o)
  {
    assert HitAt(fish, weather, aligned, time, limit, 0, o);
  }

  /** A first hit from one period later, with one step fewer, after a miss at `time`, is the
      first hit from `time`. */
  lemma FirstHitLater(fish: Fish, weather: EorzeaTime -> Weather, aligned: bool, time: EorzeaTime,
                      later: EorzeaTime, limit: u32, rest: u32, o: EorzeaTimeSpan)
    requires fish.WindowFits()
    requires later == time.Add(EORZEA_WEATHER_PERIOD) && limit as nat == rest as nat + 1
    requires Missed(fish, weather, aligned, time, limit, 0)
    requires FirstHit(fish, weather, aligned, later, rest, o)
    ensures FirstHit(fish, weather, aligned, time, limit, o)
  {
    var jm: nat :| HitAt(fish, weather, aligned, later, rest, jm, o);
    var j := jm + 1;
    HitUnshift(fish, weather, aligned, time, later, limit, rest, j, jm, o);
  }

  /** A hit at attempt `jm` from one period later, after a miss at `time`, is a hit at
      attempt `j = jm + 1` from `time`. */
  lemma HitUnshift(fish: Fish, weather: EorzeaTime -> Weather, aligned: bool, time: EorzeaTime,
                   later: EorzeaTime, limit: u32, rest: u32, j: nat, jm: nat, o: EorzeaTimeSpan)
    requires fish.WindowFits()
    requires later == time.Add(EORZEA_WEATHER_PERIOD) && limit as nat == rest as nat + 1
    requires Missed(fish, weather, aligned, time, limit, 0)
    requires j == jm + 1 && HitAt(fish, weather, aligned, later, rest, jm, o)
    ensures HitAt(fish, weather, aligned, time, limit, j, o)
  {
    AttemptShift(fish, weather, aligned, time, later, limit, rest, j, jm);
    MissesUnshift(fish, weather, aligned, time, later, limit, rest, j, jm);
  }

  /** The misses before attempt `jm` from one period later, after a miss at `time`, are the
      misses before attempt `j = jm + 1` from `time`. */
  lemma MissesUnshift(fish: Fish, weather: EorzeaTime -> Weather, aligned: bool, time: EorzeaTime,
                      later: EorzeaTime, limit: u32, rest: u32, j: nat, jm: nat)
    requires fish.WindowFits()
    requires later == time.Add(EORZEA_WEATHER_PERIOD) && limit as nat == rest as nat + 1
    requires Missed(fish, weather, aligned, time, limit, 0)
    requires j == jm + 1 && forall i: nat :: i < jm ==> Missed(fish, weather, aligned, later, rest, i)
    ensures forall i: nat :: i < j ==> Missed(fish, weather, aligned, time, limit, i)
  {
    forall i: nat | i < j
      ensures Missed(fish, weather, aligned, time, limit, i)
    {
      if i > 0 {
        MissUnshift(fish, weather, aligned, time, later, limit, rest, i, i - 1);
      }
    }
  }

  /** The attempts from one period later, with one step fewer, are the attempts from `time`
      shifted by one. */
  lemma AttemptShift(fish: Fish, weather: EorzeaTime -> Weather, aligned: bool, time: EorzeaTime,
                     later: EorzeaTime, limit: u32, rest: u32, k: nat, km: nat)
    requires fish.WindowFits()
    requires later == time.Add(EORZEA_WEATHER_PERIOD) && limit as nat == rest as nat + 1
    requires k == km + 1 && km < rest as nat
    ensures Attempt(fish, weather, aligned, time, limit, k) == Attempt(fish, weather, aligned, later, rest, km)
  {
    assert PeriodsOn(later, km) == PeriodsOn(time, k);
  }

  /** A hit at attempt `j` is, from one period later with one step fewer, a hit at attempt
      `jm = j - 1`. */
  lemma HitShift(fish: Fish, weather: EorzeaTime -> Weather, aligned: bool, time: EorzeaTime,
                 later: EorzeaTime, limit: u32, rest: u32, j: nat, jm: nat, o: EorzeaTimeSpan)
    requires fish.WindowFits()
    requires later == time.Add(EORZEA_WEATHER_PERIOD) && limit as nat == rest as nat + 1
    requires j == jm + 1 && HitAt(fish, weather, aligned, time, limit, j, o)
    ensures HitAt(fish, weather, aligned, later, rest, jm, o)
  {
    AttemptShift(fish, weather, aligned, time, later, limit, rest, j, jm);
    forall i: nat | i < jm
      ensures Missed(fish, weather, aligned, later, rest, i)
    {
      MissShift(fish, weather, aligned, time, later, limit, rest, i + 1, i);
    }
  }

  /** A miss at attempt `km` from one period later is a miss at attempt `k = km + 1` from
      `time`. */
  lemma MissUnshift(fish: Fish, weather: EorzeaTime -> Weather, aligned: bool, time: EorzeaTime,
                    later: EorzeaTime, limit: u32, rest: u32, k: nat, km: nat)
    requires fish.WindowFits()
    requires later == time.Add(EORZEA_WEATHER_PERIOD) && limit as nat == rest as nat + 1
    requires k == km + 1 && Missed(fish, weather, aligned, later, rest, km)
    ensures Missed(fish, weather, aligned, time, limit, k)
  {
    AttemptShift(fish, weather, aligned, time, later, limit, rest, k, km);
  }

  /** A miss at attempt `k` is a miss at attempt `km = k - 1` from one period later. */
  lemma MissShift(fish: Fish, weather: EorzeaTime -> Weather, aligned: bool, time: EorzeaTime,
                  later: EorzeaTime, limit: u32, rest: u32, k: nat, km: nat)
    requires fish.WindowFits()
    requires later == time.Add(EORZEA_WEATHER_PERIOD) && limit as nat == rest as nat + 1
    requires k == km + 1 && Missed(fish, weather, aligned, time, limit, k)
    ensures Missed(fish, weather, aligned, later, rest, km)
  {
    AttemptShift(fish, weather, aligned, time, later, limit, rest, k, km);
  }

  /** Conversely, when attempt `j` is the first hit, `NextWindow` returns its overlap. */
  lemma {:induction false} FindsHitAt(fish: Fish, weather: EorzeaTime -> Weather, time: EorzeaTime, limit: u32,
                                      j: nat, o: EorzeaTimeSpan)
    requires fish.location.region.weather.MaxScore() > 0 && fish.location.region.weather.IsWeatherOf(weather)
    requires fish.WindowFits()
    requires HitAt(fish, weather, false, time, limit, j, o)
    ensures fish.NextWindow(weather, time, limit) == Some(o)
    decreases j
  {
    if j == 0 {
      FoundNow(fish, weather, false, time, limit, o);
    } else {
      assert Missed(fish, weather, false, time, limit, 0);
      var later, rest, jm := time.Add(EORZEA_WEATHER_PERIOD), limit - 1, j - 1;
      HitShift(fish, weather, false, time, later, limit, rest, j, jm, o);
      FindsHitAt(fish, weather, later, rest, jm, o);
      FoundLater(fish, weather, time, limit, o);
    }
  }

  /** When attempt `j` is the first hit, `NextWindowAligned` returns its overlap. */
  lemma {:induction false} AlignedFindsHitAt(fish: Fish, weather: EorzeaTime -> Weather, time: EorzeaTime,
                                             limit: u32, j: nat, o: EorzeaTimeSpan)
    requires fish.location.region.weather.MaxScore() > 0 && fish.location.region.weather.IsWeatherOf(weather)
    requires fish.WindowFits()
    requires HitAt(fish, weather, true, time, limit, j, o)
    ensures fish.NextWindowAligned(weather, time, limit) == Some(o)
    decreases j
  {
    if j == 0 {
      FoundNow(fish, weather, true, time, limit, o);
    } else {
      assert Missed(fish, weather, true, time, limit, 0);
      var later, rest, jm := time.Add(EORZEA_WEATHER_PERIOD), limit - 1, j - 1;
      HitShift(fish, weather, true, time, later, limit, rest, j, jm, o);
      AlignedFindsHitAt(fish, weather, later, rest, jm, o);
      AlignedFoundLater(fish, weather, time, limit, o);
    }
  }

  /** The search of either version that hits at its first attempt returns that overlap. */
  lemma FoundNow(fish: Fish, weather: EorzeaTime -> Weather, aligned: bool, time: EorzeaTime, limit: u32,
                 o: EorzeaTimeSpan)
    requires fish.location.region.weather.MaxScore() > 0 && fish.location.region.weather.IsWeatherOf(weather)
    requires fish.WindowFits()
    requires HitAt(fish, weather, aligned, time, limit, 0, o)
    ensures aligned ==> fish.NextWindowAligned(weather, time, limit) == Some(o)
    ensures !aligned ==> fish.NextWindow(weather, time, limit) == Some(o)
  {
    FirstAttempt(fish, weather, aligned, time, limit);
    if aligned {
      AlignedStepByAttempt(fish, weather, time, limit);
    } else {
      StepByAttempt(fish, weather, time, limit);
    }
  }

  /** `NextWindow` that misses at its first attempt returns what it returns from one period
      later with one step fewer. */
  lemma FoundLater(fish: Fish, weather: EorzeaTime -> Weather, time: EorzeaTime, limit: u32, o: EorzeaTimeSpan)
    requires fish.location.region.weather.MaxScore() > 0 && fish.location.region.weather.IsWeatherOf(weather)
    requires fish.WindowFits()
    requires limit > 0 && Missed(fish, weather, false, time, limit, 0)
    requires fish.NextWindow(weather, time.Add(EORZEA_WEATHER_PERIOD), limit - 1) == Some(o)
    ensures fish.NextWindow(weather, time, limit) == Some(o)
  {
    FirstAttempt(fish, weather, false, time, limit);
    StepByAttempt(fish, weather, time, limit);
  }


  /** `NextWindowAligned` that misses at its first attempt returns what it returns from one
      period later with one step fewer. */
  lemma AlignedFoundLater(fish: Fish, weather: EorzeaTime -> Weather, time: EorzeaTime, limit: u32, o: EorzeaTimeSpan)
    requires fish.location.region.weather.MaxScore() > 0 && fish.location.region.weather.IsWeatherOf(weather)
    requires fish.WindowFits()
    requires limit > 0 && Missed(fish, weather, true, time, limit, 0)
    requires fish.NextWindowAligned(weather, time.Add(EORZEA_WEATHER_PERIOD), limit - 1) == Some(o)
    ensures fish.NextWindowAligned(weather, time, limit) == Some(o)
  {
    FirstAttempt(fish, weather, true, time, limit);
    AlignedStepByAttempt(fish, weather, time, limit);
  }


  /** `next_window` returns a window exactly when some attempt below `limit` meets its day
      window, and then it returns the overlap made by the first such attempt: None means that
      every attempt either found no pattern or missed. */
  lemma NextWindowIffFirstHit(fish: Fish, weather: EorzeaTime -> Weather, time: EorzeaTime, limit: u32)
    requires fish.location.region.weather.MaxScore() > 0 && fish.location.region.weather.IsWeatherOf(weather)
    requires fish.WindowFits()
    ensures forall o :: fish.NextWindow(weather, time, limit) == Some(o) <==> FirstHit(fish, weather, false, time, limit, o)
    ensures fish.NextWindow(weather, time, limit).None? <==> forall o :: !FirstHit(fish, weather, false, time, limit, o)
  {
    NextWindowIsFirstHit(fish, weather, time, limit);
    forall o | FirstHit(fish, weather, false, time, limit, o)
      ensures fish.NextWindow(weather, time, limit) == Some(o)
    {
      var j: nat :| HitAt(fish, weather, false, time, limit, j, o);
      FindsHitAt(fish, weather, time, limit, j, o);
    }
  }

  /** The same characterisation for the corrected search. */
  lemma NextWindowAlignedIffFirstHit(fish: Fish, weather: EorzeaTime -> Weather, time: EorzeaTime, limit: u32)
    requires fish.location.region.weather.MaxScore() > 0 && fish.location.region.weather.IsWeatherOf(weather)
    requires fish.WindowFits()
    ensures forall o :: fish.NextWindowAligned(weather, time, limit) == Some(o)
                        <==> FirstHit(fish, weather, true, time, limit, o)
    ensures fish.NextWindowAligned(weather, time, limit).None?
            <==> forall o :: !FirstHit(fish, weather, true, time, limit, o)
  {
    NextWindowAlignedIsFirstHit(fish, weather, time, limit);
    forall o | FirstHit(fish, weather, true, time, limit, o)
      ensures fish.NextWindowAligned(weather, time, limit) == Some(o)
    {
      var j: nat :| HitAt(fish, weather, true, time, limit, j, o);
      AlignedFindsHitAt(fish, weather, time, limit, j, o);
    }
  }

  /** The fish's hours are kept: a window found, by either version, lies within the fish's
      window on a day at most `limit - 1` periods after `time`. */
  lemma NextWindowInDayWindow(fish: Fish, weather: EorzeaTime -> Weather, time: EorzeaTime, limit: u32)
    requires fish.location.region.weather.MaxScore() > 0 && fish.location.region.weather.IsWeatherOf(weather)
    requires fish.WindowFits()
    ensures var r := fish.NextWindow(weather, time, limit);
            r.Some? ==> exists j: nat :: && j < limit as nat
                                         && fish.DayWindow(PeriodsOn(time, j)).start.timestamp <= r.value.start.timestamp
                                         && r.value.End().timestamp <= fish.DayWindow(PeriodsOn(time, j)).End().timestamp
    ensures var r := fish.NextWindowAligned(weather, time, limit);
            r.Some? ==> exists j: nat :: && j < limit as nat
                                         && fish.DayWindow(PeriodsOn(time, j)).start.timestamp <= r.value.start.timestamp
                                         && r.value.End().timestamp <= fish.DayWindow(PeriodsOn(time, j)).End().timestamp
  {
    NextWindowIsFirstHit(fish, weather, time, limit);
    NextWindowAlignedIsFirstHit(fish, weather, time, limit);
    var r := fish.NextWindow(weather, time, limit);
    if r.Some? {
      FirstHitInDayWindow(fish, weather, false, time, limit, r.value);
    }
    var ra := fish.NextWindowAligned(weather, time, limit);
    if ra.Some? {
      FirstHitInDayWindow(fish, weather, true, time, limit, ra.value);
    }
  }

  /** A first hit lies within the day window of its attempt. */
  lemma FirstHitInDayWindow(fish: Fish, weather: EorzeaTime -> Weather, aligned: bool, time: EorzeaTime,
                            limit: u32, o: EorzeaTimeSpan)
    requires fish.WindowFits()
    requires FirstHit(fish, weather, aligned, time, limit, o)
    ensures exists j: nat :: && j < limit as nat
                             && fish.DayWindow(PeriodsOn(time, j)).start.timestamp <= o.start.timestamp
                             && o.End().timestamp <= fish.DayWindow(PeriodsOn(time, j)).End().timestamp
  {
    var j: nat :| HitAt(fish, weather, aligned, time, limit, j, o);
    var d := fish.DayWindow(PeriodsOn(time, j));
    assert d.start.timestamp <= o.start.timestamp && o.End().timestamp <= d.End().timestamp;
  }

  // ---------------------------------------------------------------------------
  // The two window tests

  /** A step of `NextWindow` at which the day's window closes before the span found opens:
      the search goes on from one period later. */
  lemma WindowMiss(fish: Fish, weather: EorzeaTime -> Weather, time: EorzeaTime, limit: u32, next: EorzeaTime)
    requires fish.location.region.weather.MaxScore() > 0 && fish.location.region.weather.IsWeatherOf(weather)
    requires fish.WindowFits()
    requires PatternSearch(weather, time, fish.previousWeatherSet, fish.weatherSet, limit as nat) == Some(next)
    requires fish.DayWindow(time).End().timestamp < next.timestamp
    ensures limit > 0
    ensures fish.NextWindow(weather, time, limit) == fish.NextWindow(weather, time.Add(EORZEA_WEATHER_PERIOD), limit - 1)
  {
    NextWindowUnfold(fish, weather, time, limit);
  }

  /** A step of `NextWindow` at which the day's window and the span found share the
      instants from `lo` to `hi`. */
  lemma WindowHit(fish: Fish, weather: EorzeaTime -> Weather, time: EorzeaTime, limit: u32, next: EorzeaTime,
                     lo: nat, hi: nat)
    requires fish.location.region.weather.MaxScore() > 0 && fish.location.region.weather.IsWeatherOf(weather)
    requires fish.WindowFits()
    requires PatternSearch(weather, time, fish.previousWeatherSet, fish.weatherSet, limit as nat) == Some(next)
    requires Later(fish.DayWindow(time).start, next).timestamp == lo
    requires Earlier(fish.DayWindow(time).End(), next.Add(EORZEA_WEATHER_PERIOD)).timestamp == hi
    requires lo <= hi
    ensures fish.NextWindow(weather, time, limit) == Some(EorzeaTimeSpan(EorzeaTime(lo), EorzeaDuration(hi - lo)))
  {
    NextWindowUnfold(fish, weather, time, limit);
    OverlapIs(fish.DayWindow(time), EorzeaTimeSpan(next, EORZEA_WEATHER_PERIOD), lo, hi);
  }

  /** A step of `NextWindowAligned` at which the day's window closes before the span found opens:
      the search goes on from one period later. */
  lemma AlignedWindowMiss(fish: Fish, weather: EorzeaTime -> Weather, time: EorzeaTime, limit: u32, next: EorzeaTime)
    requires fish.location.region.weather.MaxScore() > 0 && fish.location.region.weather.IsWeatherOf(weather)
    requires fish.WindowFits()
    requires AlignedPatternSearch(weather, time, fish.previousWeatherSet, fish.weatherSet, limit as nat) == Some(next)
    requires fish.DayWindow(time).End().timestamp < next.timestamp
    ensures limit > 0
    ensures fish.NextWindowAligned(weather, time, limit) == fish.NextWindowAligned(weather, time.Add(EORZEA_WEATHER_PERIOD), limit - 1)
  {
    NextWindowAlignedUnfold(fish, weather, time, limit);
  }

  /** A step of `NextWindowAligned` at which the day's window and the span found share the
      instants from `lo` to `hi`. */
  lemma AlignedWindowHit(fish: Fish, weather: EorzeaTime -> Weather, time: EorzeaTime, limit: u32, next: EorzeaTime,
                     lo: nat, hi: nat)
    requires fish.location.region.weather.MaxScore() > 0 && fish.location.region.weather.IsWeatherOf(weather)
    requires fish.WindowFits()
    requires AlignedPatternSearch(weather, time, fish.previousWeatherSet, fish.weatherSet, limit as nat) == Some(next)
    requires Later(fish.DayWindow(time).start, next).timestamp == lo
    requires Earlier(fish.DayWindow(time).End(), next.Add(EORZEA_WEATHER_PERIOD)).timestamp == hi
    requires lo <= hi
    ensures fish.NextWindowAligned(weather, time, limit) == Some(EorzeaTimeSpan(EorzeaTime(lo), EorzeaDuration(hi - lo)))
  {
    NextWindowAlignedUnfold(fish, weather, time, limit);
    OverlapIs(fish.DayWindow(time), EorzeaTimeSpan(next, EORZEA_WEATHER_PERIOD), lo, hi);
  }

  /** The fish of the tests: it lives in a region whose forecast is the two-rate
      Clouds-or-Sunny table and needs Clouds after Clouds. */
  ghost predicate TestFish(fish: Fish, weather: EorzeaTime -> Weather) {
    && CloudsOrSunny(fish.location.region.weather, weather)
    && fish.previousWeatherSet == [Clouds] && fish.weatherSet == [Clouds]
    && fish.WindowFits()
  }

  /** The first test as written: a window from 1 to 2 bells, searched from sun 2 02:00
      (93600 esec) with limit 1000. The searches from 93600, 122400 and 151200 all return
      151200, 2 bells into the Clouds period 144000-172800, after that day's window
      (90000-93600) has closed; the search from 180000 returns 180000, and the window of
      sun 3 (176400-180000) meets the span 180000-208800 only at its last instant. The
      result is the empty span at sun 3 02:00, where sun 3 01:00-02:00 is expected. */
  lemma NextWindowTestAsWritten(fish: Fish, weather: EorzeaTime -> Weather, time: EorzeaTime, limit: u32)
    requires TestFish(fish, weather)
    requires fish.windowStart.esec == 3600 && fish.windowEnd.esec == 7200
    requires time.timestamp == 93600 && limit == 1000
    ensures fish.location.region.weather.MaxScore() > 0
    ensures fish.NextWindow(weather, time, limit) == Some(EorzeaTimeSpan(EorzeaTime(180000), EorzeaDuration(0)))
  {
    var f := fish.location.region.weather;
    CloudsFrom64800(f, weather, 1000);
    WindowMiss(fish, weather, time, 1000, EorzeaTime(151200));
    CloudsFrom93600(f, weather, 999);
    WindowMiss(fish, weather, EorzeaTime(122400), 999, EorzeaTime(151200));
    CloudsFrom122400(f, weather, 998);
    WindowMiss(fish, weather, EorzeaTime(151200), 998, EorzeaTime(151200));
    CloudsFrom151200(f, weather, 997);
    WindowHit(fish, weather, EorzeaTime(180000), 997, EorzeaTime(180000), 180000, 180000);
  }

  /** The first test with the aligned search: the searches return the period boundary
      144000 until the search from 180000 returns 172800, and the window of sun 3 lies
      within that period: the result is sun 3 01:00-02:00 (176400-180000 esec). */
  lemma NextWindowTestAligned(fish: Fish, weather: EorzeaTime -> Weather, time: EorzeaTime, limit: u32)
    requires TestFish(fish, weather)
    requires fish.windowStart.esec == 3600 && fish.windowEnd.esec == 7200
    requires time.timestamp == 93600 && limit == 1000
    ensures fish.location.region.weather.MaxScore() > 0
    ensures fish.NextWindowAligned(weather, time, limit) == Some(EorzeaTimeSpan(EorzeaTime(176400), EorzeaDuration(3600)))
  {
    var f := fish.location.region.weather;
    CloudsFrom57600(f, weather, 1000);
    AlignedWindowMiss(fish, weather, time, 1000, EorzeaTime(144000));
    CloudsFrom86400(f, weather, 999);
    AlignedWindowMiss(fish, weather, EorzeaTime(122400), 999, EorzeaTime(144000));
    CloudsFrom115200(f, weather, 998);
    AlignedWindowMiss(fish, weather, EorzeaTime(151200), 998, EorzeaTime(144000));
    CloudsFrom144000(f, weather, 997);
    AlignedWindowHit(fish, weather, EorzeaTime(180000), 997, EorzeaTime(172800), 176400, 180000);
  }

  /** The first step of the second test: from 86400 the search returns 144000, after
      that day's window (113400-117000) has closed. */
  lemma BorderTestMiss1(fish: Fish, weather: EorzeaTime -> Weather, t: EorzeaTime)
    requires TestFish(fish, weather)
    requires fish.windowStart.esec == 27000 && fish.windowEnd.esec == 30600
    requires t.timestamp == 86400
    ensures fish.location.region.weather.MaxScore() > 0
    ensures fish.NextWindow(weather, t, 1000) == fish.NextWindow(weather, EorzeaTime(115200), 999)
  {
    CloudsFrom57600(fish.location.region.weather, weather, 1000);
    WindowMiss(fish, weather, t, 1000, EorzeaTime(144000));
  }

  /** The second and third steps of the second test: from 115200 and from 144000 the
      search returns 144000 again, still after the window of sun 2. */
  lemma BorderTestMiss23(fish: Fish, weather: EorzeaTime -> Weather, t: EorzeaTime)
    requires TestFish(fish, weather)
    requires fish.windowStart.esec == 27000 && fish.windowEnd.esec == 30600
    requires t.timestamp == 115200
    ensures fish.location.region.weather.MaxScore() > 0
    ensures fish.NextWindow(weather, t, 999) == fish.NextWindow(weather, EorzeaTime(172800), 997)
  {
    var f := fish.location.region.weather;
    CloudsFrom86400(f, weather, 999);
    WindowMiss(fish, weather, t, 999, EorzeaTime(144000));
    CloudsFrom115200(f, weather, 998);
    WindowMiss(fish, weather, EorzeaTime(144000), 998, EorzeaTime(144000));
  }

  /** The last step of the second test: from 172800 the search returns 172800, and the
      window of sun 3 (199800-203400) is clipped to its weather period. */
  lemma BorderTestHit(fish: Fish, weather: EorzeaTime -> Weather, t3: EorzeaTime)
    requires TestFish(fish, weather)
    requires fish.windowStart.esec == 27000 && fish.windowEnd.esec == 30600
    requires t3.timestamp == 172800
    ensures fish.location.region.weather.MaxScore() > 0
    ensures fish.NextWindow(weather, t3, 997) == Some(EorzeaTimeSpan(EorzeaTime(199800), EorzeaDuration(1800)))
  {
    CloudsFrom144000(fish.location.region.weather, weather, 997);
    WindowHit(fish, weather, t3, 997, EorzeaTime(172800), 199800, 201600);
  }

  /** The second test: a window from 7:30 to 8:30, searched from sun 2 00:00 (86400 esec,
      a period boundary) with limit 1000. The searches from 86400, 115200 and 144000 all
      return 144000 after that day's window has closed; the search from 172800 returns
      172800, and the weather period 172800-201600 clips the window of sun 3
      (199800-203400) to 199800-201600, sun 3 7:30-8:00. */
  lemma NextWindowBorderTest(fish: Fish, weather: EorzeaTime -> Weather, time: EorzeaTime, limit: u32)
    requires TestFish(fish, weather)
    requires fish.windowStart.esec == 27000 && fish.windowEnd.esec == 30600
    requires time.timestamp == 86400 && limit == 1000
    ensures fish.location.region.weather.MaxScore() > 0
    ensures fish.NextWindow(weather, time, limit) == Some(EorzeaTimeSpan(EorzeaTime(199800), EorzeaDuration(1800)))
  {
    BorderTestMiss1(fish, weather, time);
    BorderTestMiss23(fish, weather, EorzeaTime(115200));
    BorderTestHit(fish, weather, EorzeaTime(172800));
  }
}
