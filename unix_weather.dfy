/** The older revision of the weather model, on the real clock. Instants are whole
    seconds since the Unix epoch, negative before it. The score is the shared hash
    reduced modulo 100, the rate table is used in the order given, and the pattern
    search steps through 1440-second periods aligned to multiples of 1440. */
module UnixWeather {
  import opened Primitives
  import opened WeatherHash
  import opened Patterns

  datatype Weather = Unknown | Sunny | Cloudy

  datatype Rate = Rate(threshold: u8, weather: Weather)

  /** The length of one search period, in real seconds. */
  const EORZEA_WEATHER_PERIOD_IN_SEC: nat := 1440

  /** The error of an instant that lies before the epoch. */
  datatype SystemTimeError = SystemTimeError

  /** `time_to_eorzea_weather_score`: an instant before the epoch is an error; any other
      is scored by the shared hash reduced modulo 100. */
  function TimeToEorzeaWeatherScore(time: int): (r: Result<u8, SystemTimeError>)
    ensures r.Err? <==> time < 0
    ensures r.Ok? ==> r.value < 100
  {
    if time < 0 then Err(SystemTimeError) else Ok((RawScore(time) as int % 100) as u8)
  }

  /** The score `weather_at` uses: 0 for an instant before the epoch. */
  function ScoreOrZero(time: int): (s: u8)
    ensures s < 100
    ensures time < 0 ==> s == 0
  {
    match TimeToEorzeaWeatherScore(time)
    case Ok(s) => s
    case Err(_) => 0
  }

  /** The index of the first rate whose threshold is strictly above `score`, or the
      length of the table when there is none. */
  function FirstAbove(rates: seq<Rate>, score: u8): (k: nat)
    ensures k <= |rates|
    ensures forall i :: 0 <= i < k ==> rates[i].threshold <= score
    ensures k < |rates| ==> rates[k].threshold > score
  {
    if rates == [] then 0
    else if rates[0].threshold > score then 0
    else 1 + FirstAbove(rates[1..], score)
  }

  datatype WeatherForecast = WeatherForecast(region: string, weatherRates: seq<Rate>)
  {
    /** `weather_at`: the weather of the first rate, in table order, whose threshold is
        strictly above the instant's score. */
    function WeatherAt(time: int): Weather {
      var k := FirstAbove(weatherRates, ScoreOrZero(time));
      if k < |weatherRates| then weatherRates[k].weather else Unknown
    }

    /** `weather` gives this forecast's weather at every instant. */
    ghost predicate IsWeatherOf(weather: int -> Weather) {
      forall t {:trigger WeatherAt(t)} :: weather(t) == WeatherAt(t)
    }

    /** `find_pattern`: steps 1440-second periods forward from the period boundary one
        period before the boundary at or before `start`, and stops at the first instant
        whose weather is in `currentWeatherSet` while the weather one period earlier is in
        `previousWeatherSet`; at most `limit` steps are taken. An instant before the epoch
        panics in the source. The ghost `weather` is the forecast's weather as a function
        of the instant (`WeatherOf(this)` is one). */
    method FindPattern(start: int, previousWeatherSet: seq<Weather>, currentWeatherSet: seq<Weather>,
                       limit: u32, ghost weather: int -> Weather)
      returns (r: Option<int>)
      requires start >= 0
      requires IsWeatherOf(weather)
      ensures r == PatternSearch(weather, start, previousWeatherSet, currentWeatherSet, limit as nat)
    {
      var offset := start % EORZEA_WEATHER_PERIOD_IN_SEC;
      var time := start - (EORZEA_WEATHER_PERIOD_IN_SEC + offset);
      var prevWeather := WeatherAt(time);
      for i := 0 to limit as int
        invariant prevWeather == weather(time)
        invariant SearchFrom(weather, NextPeriod, time, prevWeather, previousWeatherSet, currentWeatherSet,
                             limit as int - i)
                  == PatternSearch(weather, start, previousWeatherSet, currentWeatherSet, limit as nat)
      {
        ghost var prevTime := time;
        time := time + EORZEA_WEATHER_PERIOD_IN_SEC;
        var currentWeather := WeatherAt(time);
        SearchFromStep(weather, NextPeriod, prevTime, prevWeather, previousWeatherSet, currentWeatherSet,
                       limit as int - i, currentWeather);
        if prevWeather in previousWeatherSet && currentWeather in currentWeatherSet {
          return Some(time);
        }
        prevWeather := currentWeather;
      }
      return None;
    }

    /** `find_next_n_patterns`: up to `n` successive pattern instants, each search
        starting one period after the previous result, until a search fails. */
    method FindNextNPatterns(n: u8, start: int, previousWeatherSet: seq<Weather>,
                             currentWeatherSet: seq<Weather>, limit: u32, ghost weather: int -> Weather)
      returns (result: seq<int>)
      requires start >= 0
      requires IsWeatherOf(weather)
      ensures result == NextPatterns(SearchOf(weather, previousWeatherSet, currentWeatherSet, limit as nat), NextPeriod,
                                     n as nat, start)
    {
      ghost var search := SearchAbstraction(weather, previousWeatherSet, currentWeatherSet, limit as nat);
      result := [];
      var time := start;
      for i := 0 to n as int
        invariant time >= 0
        invariant result + NextPatterns(search, NextPeriod, n as int - i, time) == NextPatterns(search, NextPeriod, n as nat, start)
      {
        var found := FindPattern(time, previousWeatherSet, currentWeatherSet, limit, weather);
        PatternSearchAligned(weather, time, previousWeatherSet, currentWeatherSet, limit as nat);
        NextPatternsStep(search, NextPeriod, n as int - i, time, result, NextPatterns(search, NextPeriod, n as nat, start));
        if found.Some? {
          result := result + [found.value];
          time := found.value;
        } else {
          break;
        }
        time := time + EORZEA_WEATHER_PERIOD_IN_SEC;
      }
    }
  }

  // ---------------------------------------------------------------------------
  // The score

  /** The score at an instant from its raw hash value. */
  lemma ScoreOfRaw(time: int, raw: int)
    requires time >= 0 && RawScore(time) as int == raw
    ensures TimeToEorzeaWeatherScore(time) == Ok((raw % 100) as u8)
  {
  }

  /** The score examples: the epoch scores 56, 100000 s scores 76 and 1741463853 s
      scores 94. */
  lemma ScoreAtEpoch(t: int)
    requires t == 0
    ensures TimeToEorzeaWeatherScore(t) == Ok(56)
  {
    RawScoreIs(t, 8, 16456);
    ScoreOfRaw(t, 16456);
  }

  lemma ScoreAt100000(t: int)
    requires t == 100000
    ensures TimeToEorzeaWeatherScore(t) == Ok(76)
  {
    RawScoreIs(t, 2300, 4697876);
    ScoreOfRaw(t, 4697876);
  }

  lemma ScoreAt1741463853(t: int)
    requires t == 1741463853
    ensures TimeToEorzeaWeatherScore(t) == Ok(94)
  {
    RawScoreIs(t, 41463408, 3352044894);
    ScoreOfRaw(t, 3352044894);
  }

  /** The weather is constant on each real 1400-second period. */
  lemma WeatherConstantOnRealPeriod(f: WeatherForecast, t1: int, t2: int)
    requires t1 >= 0 && t2 >= 0
    requires t1 / REAL_PERIOD == t2 / REAL_PERIOD
    ensures f.WeatherAt(t1) == f.WeatherAt(t2)
  {
    RawScoreConstantOnPeriod(t1, t2);
    assert ScoreOrZero(t1) == ScoreOrZero(t2);
  }

  // ---------------------------------------------------------------------------
  // The rate table

  /** The weather at an instant is that of the first rate, in table order, whose
      threshold is strictly above the score, or Unknown when every threshold is at most
      the score; an instant before the epoch is scored 0. */
  lemma WeatherAtIsFirstAbove(f: WeatherForecast, time: int)
    ensures var rates, score, w := f.weatherRates, ScoreOrZero(time), f.WeatherAt(time);
            && (time < 0 ==> score == 0)
            && (time >= 0 ==> TimeToEorzeaWeatherScore(time) == Ok(score))
            && (|| ((forall i :: 0 <= i < |rates| ==> rates[i].threshold <= score) && w == Unknown)
                || exists k :: 0 <= k < |rates| && rates[k].threshold > score && w == rates[k].weather
                               && forall i :: 0 <= i < k ==> rates[i].threshold <= score)
  {
    var k := FirstAbove(f.weatherRates, ScoreOrZero(time));
    if k < |f.weatherRates| {
      assert f.WeatherAt(time) == f.weatherRates[k].weather;
    } else {
      assert f.WeatherAt(time) == Unknown;
    }
  }

  /** A table that lists no Unknown weather and has a threshold of at least 100, above
      every score, never yields Unknown. */
  lemma WeatherAtNeverUnknown(f: WeatherForecast, time: int)
    requires forall i :: 0 <= i < |f.weatherRates| ==> f.weatherRates[i].weather != Unknown
    requires exists i :: 0 <= i < |f.weatherRates| && f.weatherRates[i].threshold >= 100
    ensures f.WeatherAt(time) != Unknown
  {
    var k := FirstAbove(f.weatherRates, ScoreOrZero(time));
    assert k < |f.weatherRates|;
  }

  // ---------------------------------------------------------------------------
  // Searching for a weather pattern

  /** The forecast's weather as a function of the instant. */
  function WeatherOf(f: WeatherForecast): int -> Weather {
    t => f.WeatherAt(t)
  }

  /** The instant one period later. */
  function NextPeriod(t: int): int {
    t + EORZEA_WEATHER_PERIOD_IN_SEC
  }

  /** What `FindPattern` returns, for the forecast whose weather is `weather`: the search
      of `limit` periods from the boundary one period before the boundary at or before
      `start`. */
  function PatternSearch(weather: int -> Weather, start: int, prevSet: seq<Weather>, curSet: seq<Weather>,
                         limit: nat): Option<int>
  {
    Search(weather, NextPeriod, start - (EORZEA_WEATHER_PERIOD_IN_SEC + start % EORZEA_WEATHER_PERIOD_IN_SEC),
           prevSet, curSet, limit)
  }

  /** The `k`-th instant after `first` lies `k` periods after it. */
  lemma {:induction false} StepIs(first: int, k: nat)
    ensures Step(NextPeriod, first, k) == first + k * 1440
  {
    if k > 0 {
      StepIs(first, k - 1);
    }
  }

  /** The search returns the first instant `first + k·1440`, for `k` in 1..limit, at
      which the weather one period earlier is in `prevSet` and the weather there is in
      `curSet`, where `first` is the boundary one period before the boundary at or
      before `start`; it returns None exactly when there is no such `k`, in particular
      when `limit` is 0. */
  lemma PatternSearchIsFirstMatch(weather: int -> Weather, start: int, prevSet: seq<Weather>,
                                  curSet: seq<Weather>, limit: nat)
    ensures var first := start - (1440 + start % 1440);
            var r := PatternSearch(weather, start, prevSet, curSet, limit);
            && (limit == 0 ==> r.None?)
            && (r.None? <==> NoMatchIn(weather, NextPeriod, first, prevSet, curSet, 0, limit))
            && (r.Some? ==> exists k :: 0 < k <= limit && r.value == first + k * 1440
                                        && weather(r.value - 1440) in prevSet && weather(r.value) in curSet
                                        && NoMatchIn(weather, NextPeriod, first, prevSet, curSet, 0, k - 1))
  {
    var first := start - (1440 + start % 1440);
    SearchIsFirstMatch(weather, NextPeriod, first, prevSet, curSet, limit);
    var r := PatternSearch(weather, start, prevSet, curSet, limit);
    if r.Some? {
      var k :| 0 < k <= limit && r.value == Step(NextPeriod, first, k)
               && Matches(weather, NextPeriod, first, prevSet, curSet, k)
               && NoMatchIn(weather, NextPeriod, first, prevSet, curSet, 0, k - 1);
      StepIs(first, k);
      StepIs(first, k - 1);
    }
  }

  /** Every result is a multiple of 1440, at or after the period boundary at or before
      `start` (so it may precede `start` by less than one period) and at most `limit - 1`
      periods after that boundary. */
  lemma PatternSearchAligned(weather: int -> Weather, start: int, prevSet: seq<Weather>,
                             curSet: seq<Weather>, limit: nat)
    ensures var r := PatternSearch(weather, start, prevSet, curSet, limit);
            r.Some? ==> && r.value % 1440 == 0
                        && start - start % 1440 <= r.value <= start - start % 1440 + (limit - 1) * 1440
                        && start - 1440 < r.value
  {
    PatternSearchIsFirstMatch(weather, start, prevSet, curSet, limit);
    var r := PatternSearch(weather, start, prevSet, curSet, limit);
    if r.Some? {
      var first := start - (1440 + start % 1440);
      var k :| 0 < k <= limit && r.value == first + k * 1440;
      DivModUnique(r.value, 1440, start / 1440 + k - 2 + 1, 0);
    }
  }

  /** With a table free of Unknown that has a threshold of at least 100, a pattern one of
      whose sets holds only Unknown is never found. */
  lemma PatternSearchUnknownOnly(f: WeatherForecast, start: int, prevSet: seq<Weather>,
                                 curSet: seq<Weather>, limit: nat)
    requires forall i :: 0 <= i < |f.weatherRates| ==> f.weatherRates[i].weather != Unknown
    requires exists i :: 0 <= i < |f.weatherRates| && f.weatherRates[i].threshold >= 100
    requires (forall i :: 0 <= i < |prevSet| ==> prevSet[i] == Unknown)
             || (forall i :: 0 <= i < |curSet| ==> curSet[i] == Unknown)
    ensures PatternSearch(WeatherOf(f), start, prevSet, curSet, limit) == None
  {
    var first := start - (1440 + start % 1440);
    PatternSearchIsFirstMatch(WeatherOf(f), start, prevSet, curSet, limit);
    forall k | 1 <= k <= limit
      ensures !Matches(WeatherOf(f), NextPeriod, first, prevSet, curSet, k)
    {
      WeatherAtNeverUnknown(f, Step(NextPeriod, first, k - 1));
      WeatherAtNeverUnknown(f, Step(NextPeriod, first, k));
    }
  }

  /** `FindPattern` with fixed sets and limit, as a function of the start. */
  function SearchOf(weather: int -> Weather, prevSet: seq<Weather>, curSet: seq<Weather>,
                    limit: nat): int -> Option<int>
  {
    t => PatternSearch(weather, t, prevSet, curSet, limit)
  }

  /** A stand-in for `SearchOf(weather, prevSet, curSet, limit)` whose link to it is
      stated, not unfolded, for the loop of `FindNextNPatterns`. */
  lemma SearchAbstraction(weather: int -> Weather, prevSet: seq<Weather>, curSet: seq<Weather>, limit: nat)
    returns (search: int -> Option<int>)
    ensures forall t {:trigger PatternSearch(weather, t, prevSet, curSet, limit)}
              :: search(t) == PatternSearch(weather, t, prevSet, curSet, limit)
    ensures forall n, start {:trigger NextPatterns(SearchOf(weather, prevSet, curSet, limit), NextPeriod, n, start)}
              :: NextPatterns(search, NextPeriod, n, start)
                 == NextPatterns(SearchOf(weather, prevSet, curSet, limit), NextPeriod, n, start)
  {
    search := SearchOf(weather, prevSet, curSet, limit);
  }

  /** The successive results of `FindNextNPatterns`: at most `n`; the first is the search
      result from `start` and each next one the search result from one period after the
      previous one; none earlier than one period before `start`; fewer than `n` only
      when the next search fails. */
  lemma NextPatternsChained(weather: int -> Weather, prevSet: seq<Weather>, curSet: seq<Weather>,
                            limit: nat, n: nat, start: int)
    ensures var search := SearchOf(weather, prevSet, curSet, limit);
            var r := NextPatterns(search, NextPeriod, n, start);
            && |r| <= n
            && (|r| > 0 ==> PatternSearch(weather, start, prevSet, curSet, limit) == Some(r[0]))
            && (forall i :: 0 <= i < |r| - 1 ==>
                  PatternSearch(weather, r[i] + 1440, prevSet, curSet, limit) == Some(r[i + 1]))
            && (|r| < n ==> PatternSearch(weather, if r == [] then start else r[|r| - 1] + 1440,
                                          prevSet, curSet, limit) == None)
            && (forall i :: 0 <= i < |r| ==> start - 1440 < r[i])
  {
    var search := SearchOf(weather, prevSet, curSet, limit);
    var key := (t: int) => t;
    forall t | search(t).Some?
      ensures key(t) - 1439 <= key(search(t).value)
    {
      PatternSearchAligned(weather, t, prevSet, curSet, limit);
    }
    assert forall t :: key(NextPeriod(t)) == key(t) + 1440;
    Patterns.NextPatternsChained(search, NextPeriod, key, 1440, 1439, n, start);
  }

  /** The results of `FindNextNPatterns` are multiples of 1440, each at least one period
      after the previous one. */
  lemma NextPatternsAligned(weather: int -> Weather, prevSet: seq<Weather>, curSet: seq<Weather>,
                            limit: nat, n: nat, start: int)
    ensures var r := NextPatterns(SearchOf(weather, prevSet, curSet, limit), NextPeriod, n, start);
            && (forall i :: 0 <= i < |r| ==> r[i] % 1440 == 0)
            && (forall i :: 0 <= i < |r| - 1 ==> r[i] + 1440 <= r[i + 1])
  {
    var search := SearchOf(weather, prevSet, curSet, limit);
    forall t | search(t).Some?
      ensures search(t).value % 1440 == 0 && t - 1440 < search(t).value
    {
      PatternSearchAligned(weather, t, prevSet, curSet, limit);
    }
    AlignedResults(search, n, start);
  }

  /** `r` holds multiples of 1440, all above `lo`, each at least one period after the
      previous one. */
  predicate AlignedAbove(r: seq<int>, lo: int) {
    && (forall i :: 0 <= i < |r| ==> r[i] % 1440 == 0 && lo < r[i])
    && (forall i :: 0 <= i < |r| - 1 ==> r[i] + 1440 <= r[i + 1])
  }

  /** For a search whose results are multiples of 1440 less than one period before its
      start, the successive results are aligned and above `start - 1440`. */
  lemma {:induction false} AlignedResults(search: int -> Option<int>, n: nat, start: int)
    requires forall t :: search(t).Some? ==> search(t).value % 1440 == 0 && t - 1440 < search(t).value
    ensures AlignedAbove(NextPatterns(search, NextPeriod, n, start), start - 1440)
    decreases n
  {
    if n > 0 && search(start).Some? {
      var t := search(start).value;
      AlignedResults(search, n - 1, NextPeriod(t));
      AlignedCons(t, NextPatterns(search, NextPeriod, n - 1, NextPeriod(t)), start - 1440);
    }
  }

  lemma AlignedCons(t: int, rest: seq<int>, lo: int)
    requires t % 1440 == 0 && lo < t
    requires AlignedAbove(rest, t)
    ensures AlignedAbove([t] + rest, lo)
  {
    var r := [t] + rest;
    assert forall i :: 1 <= i < |r| ==> r[i] == rest[i - 1];
    if rest != [] {
      AlignedGap(t, rest[0]);
    }
  }

  /** Two distinct multiples of 1440 lie at least 1440 apart. */
  lemma AlignedGap(a: int, b: int)
    requires a % 1440 == 0 && b % 1440 == 0 && a < b
    ensures a + 1440 <= b
  {
    DivModUnique(a, 1440, a / 1440, 0);
    DivModUnique(b, 1440, b / 1440, 0);
  }


  // ---------------------------------------------------------------------------
  // The search examples, on the table [(50, Cloudy), (100, Sunny)]

  /** The weather at an instant from the raw hash value there: Cloudy when the score is
      below 50, Sunny otherwise. */
  lemma SampleWeather(f: WeatherForecast, t: int, raw: int)
    requires f.weatherRates == [Rate(50, Cloudy), Rate(100, Sunny)]
    requires t >= 0 && RawScore(t) as int == raw
    ensures f.WeatherAt(t) == if raw % 100 < 50 then Cloudy else Sunny
  {
    ScoreOfRaw(t, raw);
    var score := ScoreOrZero(t);
    assert score as int == raw % 100;
    var rates := f.weatherRates;
    if score < 50 {
      assert FirstAbove(rates, score) == 0;
    } else {
      assert rates[1..] == [Rate(100, Sunny)];
      assert FirstAbove(rates[1..], score) == 0;
    }
  }

  /** The weather function at a sample instant, from the hash's intermediate values
      there. */
  lemma SampleAt(f: WeatherForecast, weather: int -> Weather, t: int, base: bv32, rawBits: bv32, raw: int)
    requires f.weatherRates == [Rate(50, Cloudy), Rate(100, Sunny)]
    requires f.IsWeatherOf(weather)
    requires t >= 0
    requires base as int == (t / REAL_DAY * 100 + Increment(t)) % 0x1_0000_0000
    requires Mix(base) == rawBits && rawBits as int == raw
    ensures weather(t) == if raw % 100 < 50 then Cloudy else Sunny
  {
    RawScoreIs(t, base, rawBits);
    SampleWeather(f, t, raw);
  }

  /** The weathers at the instants the searches of the examples examine, from 7200 s to
      33120 s in steps of one period. */
  lemma Samples7200To12960(f: WeatherForecast, weather: int -> Weather)
    requires f.weatherRates == [Rate(50, Cloudy), Rate(100, Sunny)]
    requires f.IsWeatherOf(weather)
    ensures weather(7200) == Cloudy && weather(8640) == Cloudy && weather(10080) == Cloudy
    ensures weather(11520) == Sunny && weather(12960) == Sunny
  {
    var t0, t1, t2, t3, t4 := 7200, 8640, 10080, 11520, 12960;
    SampleAt(f, weather, t0, 100, 205636, 205636);
    SampleAt(f, weather, t1, 208, 427600, 427600);
    SampleAt(f, weather, t2, 216, 443928, 443928);
    SampleAt(f, weather, t3, 200, 411272, 411272);
    SampleAt(f, weather, t4, 308, 632981, 632981);
  }

  lemma Samples14400To20160(f: WeatherForecast, weather: int -> Weather)
    requires f.weatherRates == [Rate(50, Cloudy), Rate(100, Sunny)]
    requires f.IsWeatherOf(weather)
    ensures weather(14400) == Cloudy && weather(15840) == Cloudy && weather(17280) == Cloudy
    ensures weather(18720) == Cloudy && weather(20160) == Cloudy
  {
    var t0, t1, t2, t3, t4 := 14400, 15840, 17280, 18720, 20160;
    SampleAt(f, weather, t0, 316, 649437, 649437);
    SampleAt(f, weather, t1, 300, 616525, 616525);
    SampleAt(f, weather, t2, 408, 839001, 839001);
    SampleAt(f, weather, t3, 416, 855201, 855201);
    SampleAt(f, weather, t4, 400, 822545, 822545);
  }

  lemma Samples21600To27360(f: WeatherForecast, weather: int -> Weather)
    requires f.weatherRates == [Rate(50, Cloudy), Rate(100, Sunny)]
    requires f.IsWeatherOf(weather)
    ensures weather(21600) == Sunny && weather(23040) == Cloudy && weather(24480) == Sunny
    ensures weather(25920) == Cloudy && weather(27360) == Sunny
  {
    var t0, t1, t2, t3, t4 := 21600, 23040, 24480, 25920, 27360;
    SampleAt(f, weather, t0, 508, 1043997, 1043997);
    SampleAt(f, weather, t1, 516, 1061414, 1061414);
    SampleAt(f, weather, t2, 500, 1027669, 1027669);
    SampleAt(f, weather, t3, 608, 1249634, 1249634);
    SampleAt(f, weather, t4, 616, 1265962, 1265962);
  }

  lemma Samples28800To33120(f: WeatherForecast, weather: int -> Weather)
    requires f.weatherRates == [Rate(50, Cloudy), Rate(100, Sunny)]
    requires f.IsWeatherOf(weather)
    ensures weather(28800) == Sunny && weather(30240) == Cloudy && weather(31680) == Sunny
    ensures weather(33120) == Sunny
  {
    var t0, t1, t2, t3 := 28800, 30240, 31680, 33120;
    SampleAt(f, weather, t0, 600, 1233050, 1233050);
    SampleAt(f, weather, t1, 708, 1455334, 1455334);
    SampleAt(f, weather, t2, 716, 1471662, 1471662);
    SampleAt(f, weather, t3, 700, 1439582, 1439582);
  }

  /** The search examples from 10000 s with limit 1000: Sunny after Sunny is first found
      at 12960, Cloudy after Cloudy at 8640 (before the start, in the period holding
      it). */
  lemma PatternSearchExamples(f: WeatherForecast, weather: int -> Weather, start: int, limit: nat)
    requires f.weatherRates == [Rate(50, Cloudy), Rate(100, Sunny)]
    requires f.IsWeatherOf(weather)
    requires start == 10000 && limit == 1000
    ensures PatternSearch(weather, start, [Sunny], [Sunny], limit) == Some(12960)
    ensures PatternSearch(weather, start, [Cloudy], [Cloudy], limit) == Some(8640)
  {
    Samples7200To12960(f, weather);
    var first := start - (1440 + start % 1440);
    assert first == 7200;
    StepIs(first, 0);
    StepIs(first, 1);
    StepIs(first, 2);
    StepIs(first, 3);
    StepIs(first, 4);
    SearchFinds(weather, NextPeriod, first, [Sunny], [Sunny], limit, 4);
    SearchFinds(weather, NextPeriod, first, [Cloudy], [Cloudy], limit, 1);
  }

  /** The second search of the n-patterns example examines 14400 to 28800 and finds
      Sunny after Sunny only at 28800; shown in stretches of a few periods each. */
  lemma SecondSearchStretch1(f: WeatherForecast, weather: int -> Weather, m: nat)
    requires f.weatherRates == [Rate(50, Cloudy), Rate(100, Sunny)]
    requires f.IsWeatherOf(weather)
    requires m >= 4
    ensures var p := [Sunny];
            SearchFrom(weather, NextPeriod, 12960, weather(12960), p, p, m)
            == SearchFrom(weather, NextPeriod, 18720, weather(18720), p, p, m - 4)
  {
    var p := [Sunny];
    Samples7200To12960(f, weather);
    Samples14400To20160(f, weather);
    SearchFromStep(weather, NextPeriod, 12960, weather(12960), p, p, m, weather(14400));
    SearchFromStep(weather, NextPeriod, 14400, weather(14400), p, p, m - 1, weather(15840));
    SearchFromStep(weather, NextPeriod, 15840, weather(15840), p, p, m - 2, weather(17280));
    SearchFromStep(weather, NextPeriod, 17280, weather(17280), p, p, m - 3, weather(18720));
  }

  lemma SecondSearchStretch2(f: WeatherForecast, weather: int -> Weather, m: nat)
    requires f.weatherRates == [Rate(50, Cloudy), Rate(100, Sunny)]
    requires f.IsWeatherOf(weather)
    requires m >= 4
    ensures var p := [Sunny];
            SearchFrom(weather, NextPeriod, 18720, weather(18720), p, p, m)
            == SearchFrom(weather, NextPeriod, 24480, weather(24480), p, p, m - 4)
  {
    var p := [Sunny];
    Samples14400To20160(f, weather);
    Samples21600To27360(f, weather);
    SearchFromStep(weather, NextPeriod, 18720, weather(18720), p, p, m, weather(20160));
    SearchFromStep(weather, NextPeriod, 20160, weather(20160), p, p, m - 1, weather(21600));
    SearchFromStep(weather, NextPeriod, 21600, weather(21600), p, p, m - 2, weather(23040));
    SearchFromStep(weather, NextPeriod, 23040, weather(23040), p, p, m - 3, weather(24480));
  }

  lemma SecondSearchStretch3(f: WeatherForecast, weather: int -> Weather, m: nat)
    requires f.weatherRates == [Rate(50, Cloudy), Rate(100, Sunny)]
    requires f.IsWeatherOf(weather)
    requires m >= 3
    ensures var p := [Sunny];
            SearchFrom(weather, NextPeriod, 24480, weather(24480), p, p, m) == Some(28800)
  {
    var p := [Sunny];
    Samples21600To27360(f, weather);
    Samples28800To33120(f, weather);
    SearchFromStep(weather, NextPeriod, 24480, weather(24480), p, p, m, weather(25920));
    SearchFromStep(weather, NextPeriod, 25920, weather(25920), p, p, m - 1, weather(27360));
    SearchFromStep(weather, NextPeriod, 27360, weather(27360), p, p, m - 2, weather(28800));
  }

  /** The third search of the n-patterns example examines 30240 to 33120 and finds Sunny
      after Sunny at 33120. */
  lemma ThirdSearch(f: WeatherForecast, weather: int -> Weather, m: nat)
    requires f.weatherRates == [Rate(50, Cloudy), Rate(100, Sunny)]
    requires f.IsWeatherOf(weather)
    requires m >= 3
    ensures var p := [Sunny];
            SearchFrom(weather, NextPeriod, 28800, weather(28800), p, p, m) == Some(33120)
  {
    var p := [Sunny];
    Samples28800To33120(f, weather);
    SearchFromStep(weather, NextPeriod, 28800, weather(28800), p, p, m, weather(30240));
    SearchFromStep(weather, NextPeriod, 30240, weather(30240), p, p, m - 1, weather(31680));
    SearchFromStep(weather, NextPeriod, 31680, weather(31680), p, p, m - 2, weather(33120));
  }

  /** The n-patterns example from 10000 s with limit 1000: three Sunny-after-Sunny
      instants, 12960, 28800 and 33120. The second search starts at 14400 and so
      examines from 12960; the third starts at 30240 and examines from 28800. */
  lemma NextPatternsExample(f: WeatherForecast, weather: int -> Weather, start: int, limit: nat, n: nat)
    requires f.weatherRates == [Rate(50, Cloudy), Rate(100, Sunny)]
    requires f.IsWeatherOf(weather)
    requires start == 10000 && limit == 1000 && n == 3
    ensures NextPatterns(SearchOf(weather, [Sunny], [Sunny], limit), NextPeriod, n, start) == [12960, 28800, 33120]
  {
    var p := [Sunny];
    var search := SearchOf(weather, p, p, limit);
    PatternSearchExamples(f, weather, start, limit);
    SecondSearchStretch1(f, weather, limit);
    SecondSearchStretch2(f, weather, limit - 4);
    SecondSearchStretch3(f, weather, limit - 8);
    assert search(14400) == Some(28800);
    ThirdSearch(f, weather, limit);
    assert search(30240) == Some(33120);
  }
}
