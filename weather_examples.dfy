/** The worked examples of the Eorzea-time weather model: the weather of the test tables
    at the instants their searches examine, and the searches themselves. Each weather is
    derived from the hash's intermediate values at the instant (the Unix second, the base
    before mixing and the mixed word), so that no large number is converted to a
    bit-vector inside a proof. */
module WeatherExamples {
  import opened Primitives
  import opened EorzeaClock
  import opened WeatherHash
  import opened Patterns
  import opened WeatherModel

  /** The two-rate table of the search tests: a score below 50 is Clouds, below 100 Sunny.
      It is already sorted, so `WeatherForecast.New` keeps it as it is. */
  const CLOUDS_OR_SUNNY: seq<Rate> := [Rate(50, Clouds), Rate(100, Sunny)]

  lemma CloudsOrSunnySorted()
    ensures StableSort(CLOUDS_OR_SUNNY) == CLOUDS_OR_SUNNY
  {
    StableSortOfSorted(CLOUDS_OR_SUNNY);
  }

  /** The score at instant `ts` from the hash's values at its Unix second `u`, where
      `ts * 7 + 72 == u * 144 + rem` is the rounded conversion. */
  lemma ScoreAt(f: WeatherForecast, ts: nat, u: nat, rem: nat, base: bv32, rawBits: bv32, raw: int)
    requires f.MaxScore() > 0
    requires ts * 7 + 72 == u * 144 + rem && rem < 144
    requires base as int == (u / REAL_DAY * 100 + Increment(u)) % 0x1_0000_0000
    requires Mix(base) == rawBits && rawBits as int == raw
    ensures f.Score(EorzeaTime(ts)) as int == raw % f.MaxScore() as int
  {
    DivModUnique(ts * 7 + 72, 144, u, rem);
    RawScoreIs(u, base, rawBits);
    ScoreOfRaw(EorzeaTime(ts), raw, f.MaxScore());
  }

  /** The weather of the two-rate table at instant `ts`. */
  lemma SampleAt(f: WeatherForecast, weather: EorzeaTime -> Weather, ts: nat, u: nat, rem: nat,
                 base: bv32, rawBits: bv32, raw: int)
    requires f.weatherRates == CLOUDS_OR_SUNNY
    requires f.MaxScore() == 100 && f.IsWeatherOf(weather)
    requires ts * 7 + 72 == u * 144 + rem && rem < 144
    requires base as int == (u / REAL_DAY * 100 + Increment(u)) % 0x1_0000_0000
    requires Mix(base) == rawBits && rawBits as int == raw
    ensures weather(EorzeaTime(ts)) == if raw % 100 < 50 then Clouds else Sunny
  {
    var t := EorzeaTime(ts);
    ScoreAt(f, ts, u, rem, base, rawBits, raw);
    var score := f.Score(t);
    var rates := f.weatherRates;
    if score < 50 {
      assert FirstAbove(rates, score) == 0;
    } else {
      assert rates[1..] == [Rate(100, Sunny)];
      assert FirstAbove(rates[1..], score) == 0;
    }
    assert weather(t) == f.WeatherAt(t);
  }

  /** The forecast of the search tests, with its weather as a function of the instant. */
  ghost predicate CloudsOrSunny(f: WeatherForecast, weather: EorzeaTime -> Weather) {
    && f.weatherRates == CLOUDS_OR_SUNNY
    && f.MaxScore() == 100
    && f.IsWeatherOf(weather)
  }

  lemma CloudsOrSunnyMaxScore(f: WeatherForecast)
    requires f.weatherRates == CLOUDS_OR_SUNNY
    ensures f.MaxScore() == 100
  {
    assert f.weatherRates[1..] == [Rate(100, Sunny)];
  }

  // The weathers at the period boundaries 0 to 23 (every 28800 esec), and at the instants
  // 2 bells after the boundaries 2 to 6.

  lemma Samples0To4(f: WeatherForecast, weather: EorzeaTime -> Weather)
    requires CloudsOrSunny(f, weather)
    ensures weather(EorzeaTime(0)) == Sunny && weather(EorzeaTime(28800)) == Clouds
    ensures weather(EorzeaTime(57600)) == Clouds && weather(EorzeaTime(86400)) == Sunny
    ensures weather(EorzeaTime(115200)) == Clouds
  {
    var t0, t1, t2, t3, t4 := 0, 28800, 57600, 86400, 115200;
    SampleAt(f, weather, t0, 0, 72, 8, 16456, 16456);
    SampleAt(f, weather, t1, 1400, 72, 16, 32912, 32912);
    SampleAt(f, weather, t2, 2800, 72, 0, 0, 0);
    SampleAt(f, weather, t3, 4200, 72, 108, 221964, 221964);
    SampleAt(f, weather, t4, 5600, 72, 116, 238548, 238548);
  }

  lemma Samples5To9(f: WeatherForecast, weather: EorzeaTime -> Weather)
    requires CloudsOrSunny(f, weather)
    ensures weather(EorzeaTime(144000)) == Clouds && weather(EorzeaTime(172800)) == Clouds
    ensures weather(EorzeaTime(201600)) == Clouds && weather(EorzeaTime(230400)) == Sunny
    ensures weather(EorzeaTime(259200)) == Sunny
  {
    var t0, t1, t2, t3, t4 := 144000, 172800, 201600, 230400, 259200;
    SampleAt(f, weather, t0, 7000, 72, 100, 205636, 205636);
    SampleAt(f, weather, t1, 8400, 72, 208, 427600, 427600);
    SampleAt(f, weather, t2, 9800, 72, 216, 443928, 443928);
    SampleAt(f, weather, t3, 11200, 72, 200, 411272, 411272);
    SampleAt(f, weather, t4, 12600, 72, 308, 632981, 632981);
  }

  lemma Samples10To14(f: WeatherForecast, weather: EorzeaTime -> Weather)
    requires CloudsOrSunny(f, weather)
    ensures weather(EorzeaTime(288000)) == Clouds && weather(EorzeaTime(316800)) == Clouds
    ensures weather(EorzeaTime(345600)) == Clouds && weather(EorzeaTime(374400)) == Clouds
    ensures weather(EorzeaTime(403200)) == Clouds
  {
    var t0, t1, t2, t3, t4 := 288000, 316800, 345600, 374400, 403200;
    SampleAt(f, weather, t0, 14000, 72, 316, 649437, 649437);
    SampleAt(f, weather, t1, 15400, 72, 300, 616525, 616525);
    SampleAt(f, weather, t2, 16800, 72, 408, 839001, 839001);
    SampleAt(f, weather, t3, 18200, 72, 416, 855201, 855201);
    SampleAt(f, weather, t4, 19600, 72, 400, 822545, 822545);
  }

  lemma Samples15To19(f: WeatherForecast, weather: EorzeaTime -> Weather)
    requires CloudsOrSunny(f, weather)
    ensures weather(EorzeaTime(432000)) == Sunny && weather(EorzeaTime(460800)) == Clouds
    ensures weather(EorzeaTime(489600)) == Sunny && weather(EorzeaTime(518400)) == Clouds
    ensures weather(EorzeaTime(547200)) == Sunny
  {
    var t0, t1, t2, t3, t4 := 432000, 460800, 489600, 518400, 547200;
    SampleAt(f, weather, t0, 21000, 72, 508, 1043997, 1043997);
    SampleAt(f, weather, t1, 22400, 72, 516, 1061414, 1061414);
    SampleAt(f, weather, t2, 23800, 72, 500, 1027669, 1027669);
    SampleAt(f, weather, t3, 25200, 72, 608, 1249634, 1249634);
    SampleAt(f, weather, t4, 26600, 72, 616, 1265962, 1265962);
  }

  lemma Samples20To23(f: WeatherForecast, weather: EorzeaTime -> Weather)
    requires CloudsOrSunny(f, weather)
    ensures weather(EorzeaTime(576000)) == Sunny && weather(EorzeaTime(604800)) == Clouds
    ensures weather(EorzeaTime(633600)) == Sunny && weather(EorzeaTime(662400)) == Sunny
  {
    var t0, t1, t2, t3 := 576000, 604800, 633600, 662400;
    SampleAt(f, weather, t0, 28000, 72, 600, 1233050, 1233050);
    SampleAt(f, weather, t1, 29400, 72, 708, 1455334, 1455334);
    SampleAt(f, weather, t2, 30800, 72, 716, 1471662, 1471662);
    SampleAt(f, weather, t3, 32200, 72, 700, 1439582, 1439582);
  }

  lemma SamplesOffBoundary(f: WeatherForecast, weather: EorzeaTime -> Weather)
    requires CloudsOrSunny(f, weather)
    ensures weather(EorzeaTime(64800)) == Clouds && weather(EorzeaTime(93600)) == Sunny
    ensures weather(EorzeaTime(122400)) == Clouds && weather(EorzeaTime(151200)) == Clouds
    ensures weather(EorzeaTime(180000)) == Clouds
  {
    var t0, t1, t2, t3, t4 := 64800, 93600, 122400, 151200, 180000;
    SampleAt(f, weather, t0, 3150, 72, 0, 0, 0);
    SampleAt(f, weather, t1, 4550, 72, 108, 221964, 221964);
    SampleAt(f, weather, t2, 5950, 72, 116, 238548, 238548);
    SampleAt(f, weather, t3, 7350, 72, 100, 205636, 205636);
    SampleAt(f, weather, t4, 8750, 72, 208, 427600, 427600);
  }

  // ---------------------------------------------------------------------------
  // weather_at on five-rate tables

  /** The first five-rate test table, already sorted; its largest threshold is 100. */
  const REAL_RATES: seq<Rate> :=
    [Rate(20, Clouds), Rate(50, ClearSkies), Rate(80, FairSkies), Rate(90, Fog), Rate(100, Wind)]

  /** The second five-rate test table, already sorted; its largest threshold is 90, so
      scores are reduced modulo 90. */
  const EMPYRIUM_RATES: seq<Rate> :=
    [Rate(5, Clouds), Rate(25, ClearSkies), Rate(65, FairSkies), Rate(80, Fog), Rate(90, Wind)]

  lemma RealRatesMaxScore(f: WeatherForecast)
    requires f.weatherRates == REAL_RATES
    ensures f.MaxScore() == 100
  {
    var r := f.weatherRates;
    assert r[1..][1..][1..][1..] == [Rate(100, Wind)];
  }

  lemma EmpyriumRatesMaxScore(f: WeatherForecast)
    requires f.weatherRates == EMPYRIUM_RATES
    ensures f.MaxScore() == 90
  {
    var r := f.weatherRates;
    assert r[1..][1..][1..][1..] == [Rate(90, Wind)];
  }

  /** The scores of the three instants of the five-rate examples: 100000 and 110000 esec
      (Unix seconds 4861 and 5347) share a real period, whose raw hash is 221964; 120000
      esec (Unix second 5833) falls in the next one, whose raw hash is 238548. */
  lemma FiveRateScores(f: WeatherForecast, t0: EorzeaTime, t1: EorzeaTime, t2: EorzeaTime)
    requires f.MaxScore() > 0
    requires t0.timestamp == 100000 && t1.timestamp == 110000 && t2.timestamp == 120000
    ensures f.Score(t0) as int == 221964 % f.MaxScore() as int
    ensures f.Score(t1) as int == 221964 % f.MaxScore() as int
    ensures f.Score(t2) as int == 238548 % f.MaxScore() as int
  {
    ScoreAt100000(f, t0);
    ScoreAt110000(f, t1);
    ScoreAt120000(f, t2);
  }

  lemma ScoreAt100000(f: WeatherForecast, t: EorzeaTime)
    requires f.MaxScore() > 0
    requires t.timestamp == 100000
    ensures f.Score(t) as int == 221964 % f.MaxScore() as int
  {
    ScoreAt(f, t.timestamp, 4861, 88, 108, 221964, 221964);
  }

  lemma ScoreAt110000(f: WeatherForecast, t: EorzeaTime)
    requires f.MaxScore() > 0
    requires t.timestamp == 110000
    ensures f.Score(t) as int == 221964 % f.MaxScore() as int
  {
    ScoreAt(f, t.timestamp, 5347, 104, 108, 221964, 221964);
  }

  lemma ScoreAt120000(f: WeatherForecast, t: EorzeaTime)
    requires f.MaxScore() > 0
    requires t.timestamp == 120000
    ensures f.Score(t) as int == 238548 % f.MaxScore() as int
  {
    ScoreAt(f, t.timestamp, 5833, 120, 116, 238548, 238548);
  }

  /** With the first table, the instants 100000 and 110000 esec (score 64) are FairSkies
      and 120000 esec (score 48) is ClearSkies. */
  lemma WeatherAtRealExamples(f: WeatherForecast, t0: EorzeaTime, t1: EorzeaTime, t2: EorzeaTime)
    requires f.weatherRates == REAL_RATES
    requires t0.timestamp == 100000 && t1.timestamp == 110000 && t2.timestamp == 120000
    ensures f.MaxScore() > 0
    ensures f.WeatherAt(t0) == FairSkies && f.WeatherAt(t1) == FairSkies
    ensures f.WeatherAt(t2) == ClearSkies
  {
    RealRatesMaxScore(f);
    FiveRateScores(f, t0, t1, t2);
    var r := f.weatherRates;
    assert FirstAbove(r[1..][1..], 64) == 0;
    assert FirstAbove(r[1..], 48) == 0;
  }

  /** With the second table (the one `WeatherForecast.New` keeps, as it is sorted), the
      instants 100000 and 110000 esec score 221964 mod 90 = 24 and are ClearSkies, and
      120000 esec scores 238548 mod 90 = 48 and is FairSkies. */
  lemma WeatherAtEmpyriumExamples(f: WeatherForecast, t0: EorzeaTime, t1: EorzeaTime, t2: EorzeaTime)
    requires f.weatherRates == EMPYRIUM_RATES
    requires t0.timestamp == 100000 && t1.timestamp == 110000 && t2.timestamp == 120000
    ensures StableSort(EMPYRIUM_RATES) == EMPYRIUM_RATES
    ensures f.MaxScore() > 0
    ensures f.WeatherAt(t0) == ClearSkies && f.WeatherAt(t1) == ClearSkies
    ensures f.WeatherAt(t2) == FairSkies
  {
    EmpyriumSorted();
    EmpyriumRatesMaxScore(f);
    FiveRateScores(f, t0, t1, t2);
    var r := f.weatherRates;
    assert FirstAbove(r[1..], 24) == 0;
    assert FirstAbove(r[1..][1..], 48) == 0;
  }

  lemma EmpyriumSorted()
    ensures StableSort(EMPYRIUM_RATES) == EMPYRIUM_RATES
  {
    StableSortOfSorted(EMPYRIUM_RATES);
  }

  // ---------------------------------------------------------------------------
  // Pattern searches with the two-rate table


  /** Sunny after Sunny, searched from the epoch: no match in the first four periods
      (Sunny, Clouds, Clouds, Sunny, Clouds)... */
  lemma SunnySearchFromEpoch1(f: WeatherForecast, weather: EorzeaTime -> Weather, m: nat)
    requires CloudsOrSunny(f, weather)
    requires m >= 4
    ensures var p := [Sunny];
            SearchFrom(weather, NextPeriod, EorzeaTime(0), weather(EorzeaTime(0)), p, p, m)
            == SearchFrom(weather, NextPeriod, EorzeaTime(115200), weather(EorzeaTime(115200)), p, p, m - 4)
  {
    var p := [Sunny];
    Samples0To4(f, weather);
    SearchFromStep(weather, NextPeriod, EorzeaTime(0), weather(EorzeaTime(0)), p, p, m, weather(EorzeaTime(28800)));
    SearchFromStep(weather, NextPeriod, EorzeaTime(28800), weather(EorzeaTime(28800)), p, p, m - 1, weather(EorzeaTime(57600)));
    SearchFromStep(weather, NextPeriod, EorzeaTime(57600), weather(EorzeaTime(57600)), p, p, m - 2, weather(EorzeaTime(86400)));
    SearchFromStep(weather, NextPeriod, EorzeaTime(86400), weather(EorzeaTime(86400)), p, p, m - 3, weather(EorzeaTime(115200)));
  }

  /** ...and the first match at 259200, after Clouds, Clouds, Clouds, Sunny, Sunny. */
  lemma SunnySearchFromEpoch2(f: WeatherForecast, weather: EorzeaTime -> Weather, m: nat)
    requires CloudsOrSunny(f, weather)
    requires m >= 5
    ensures var p := [Sunny];
            SearchFrom(weather, NextPeriod, EorzeaTime(115200), weather(EorzeaTime(115200)), p, p, m) == Some(EorzeaTime(259200))
  {
    var p := [Sunny];
    Samples0To4(f, weather);
    Samples5To9(f, weather);
    SearchFromStep(weather, NextPeriod, EorzeaTime(115200), weather(EorzeaTime(115200)), p, p, m, weather(EorzeaTime(144000)));
    SearchFromStep(weather, NextPeriod, EorzeaTime(144000), weather(EorzeaTime(144000)), p, p, m - 1, weather(EorzeaTime(172800)));
    SearchFromStep(weather, NextPeriod, EorzeaTime(172800), weather(EorzeaTime(172800)), p, p, m - 2, weather(EorzeaTime(201600)));
    SearchFromStep(weather, NextPeriod, EorzeaTime(201600), weather(EorzeaTime(201600)), p, p, m - 3, weather(EorzeaTime(230400)));
    SearchFromStep(weather, NextPeriod, EorzeaTime(230400), weather(EorzeaTime(230400)), p, p, m - 4, weather(EorzeaTime(259200)));
  }

  /** Sunny after Sunny, searched from 259200: a run of Clouds... */
  lemma SunnySearchFrom259200(f: WeatherForecast, weather: EorzeaTime -> Weather, m: nat)
    requires CloudsOrSunny(f, weather)
    requires m >= 4
    ensures var p := [Sunny];
            SearchFrom(weather, NextPeriod, EorzeaTime(259200), weather(EorzeaTime(259200)), p, p, m)
            == SearchFrom(weather, NextPeriod, EorzeaTime(374400), weather(EorzeaTime(374400)), p, p, m - 4)
  {
    var p := [Sunny];
    Samples5To9(f, weather);
    Samples10To14(f, weather);
    SearchFromStep(weather, NextPeriod, EorzeaTime(259200), weather(EorzeaTime(259200)), p, p, m, weather(EorzeaTime(288000)));
    SearchFromStep(weather, NextPeriod, EorzeaTime(288000), weather(EorzeaTime(288000)), p, p, m - 1, weather(EorzeaTime(316800)));
    SearchFromStep(weather, NextPeriod, EorzeaTime(316800), weather(EorzeaTime(316800)), p, p, m - 2, weather(EorzeaTime(345600)));
    SearchFromStep(weather, NextPeriod, EorzeaTime(345600), weather(EorzeaTime(345600)), p, p, m - 3, weather(EorzeaTime(374400)));
  }

  /** ...Sunny and Clouds alternating... */
  lemma SunnySearchFrom374400(f: WeatherForecast, weather: EorzeaTime -> Weather, m: nat)
    requires CloudsOrSunny(f, weather)
    requires m >= 5
    ensures var p := [Sunny];
            SearchFrom(weather, NextPeriod, EorzeaTime(374400), weather(EorzeaTime(374400)), p, p, m)
            == SearchFrom(weather, NextPeriod, EorzeaTime(518400), weather(EorzeaTime(518400)), p, p, m - 5)
  {
    var p := [Sunny];
    Samples10To14(f, weather);
    Samples15To19(f, weather);
    SearchFromStep(weather, NextPeriod, EorzeaTime(374400), weather(EorzeaTime(374400)), p, p, m, weather(EorzeaTime(403200)));
    SearchFromStep(weather, NextPeriod, EorzeaTime(403200), weather(EorzeaTime(403200)), p, p, m - 1, weather(EorzeaTime(432000)));
    SearchFromStep(weather, NextPeriod, EorzeaTime(432000), weather(EorzeaTime(432000)), p, p, m - 2, weather(EorzeaTime(460800)));
    SearchFromStep(weather, NextPeriod, EorzeaTime(460800), weather(EorzeaTime(460800)), p, p, m - 3, weather(EorzeaTime(489600)));
    SearchFromStep(weather, NextPeriod, EorzeaTime(489600), weather(EorzeaTime(489600)), p, p, m - 4, weather(EorzeaTime(518400)));
  }

  /** ...and the first match at 576000. */
  lemma SunnySearchFrom518400(f: WeatherForecast, weather: EorzeaTime -> Weather, m: nat)
    requires CloudsOrSunny(f, weather)
    requires m >= 2
    ensures var p := [Sunny];
            SearchFrom(weather, NextPeriod, EorzeaTime(518400), weather(EorzeaTime(518400)), p, p, m) == Some(EorzeaTime(576000))
  {
    var p := [Sunny];
    Samples15To19(f, weather);
    Samples20To23(f, weather);
    SearchFromStep(weather, NextPeriod, EorzeaTime(518400), weather(EorzeaTime(518400)), p, p, m, weather(EorzeaTime(547200)));
    SearchFromStep(weather, NextPeriod, EorzeaTime(547200), weather(EorzeaTime(547200)), p, p, m - 1, weather(EorzeaTime(576000)));
  }

  /** Sunny after Sunny, searched from 576000: Clouds, Sunny, Sunny, so 662400. */
  lemma SunnySearchFrom576000(f: WeatherForecast, weather: EorzeaTime -> Weather, m: nat)
    requires CloudsOrSunny(f, weather)
    requires m >= 3
    ensures var p := [Sunny];
            SearchFrom(weather, NextPeriod, EorzeaTime(576000), weather(EorzeaTime(576000)), p, p, m) == Some(EorzeaTime(662400))
  {
    var p := [Sunny];
    Samples20To23(f, weather);
    SearchFromStep(weather, NextPeriod, EorzeaTime(576000), weather(EorzeaTime(576000)), p, p, m, weather(EorzeaTime(604800)));
    SearchFromStep(weather, NextPeriod, EorzeaTime(604800), weather(EorzeaTime(604800)), p, p, m - 1, weather(EorzeaTime(633600)));
    SearchFromStep(weather, NextPeriod, EorzeaTime(633600), weather(EorzeaTime(633600)), p, p, m - 2, weather(EorzeaTime(662400)));
  }

  /** Clouds after Clouds, searched from the epoch: Sunny, Clouds, Clouds, so 57600. */
  lemma CloudsSearchFromEpoch(f: WeatherForecast, weather: EorzeaTime -> Weather, m: nat)
    requires CloudsOrSunny(f, weather)
    requires m >= 2
    ensures var p := [Clouds];
            SearchFrom(weather, NextPeriod, EorzeaTime(0), weather(EorzeaTime(0)), p, p, m) == Some(EorzeaTime(57600))
  {
    var p := [Clouds];
    Samples0To4(f, weather);
    SearchFromStep(weather, NextPeriod, EorzeaTime(0), weather(EorzeaTime(0)), p, p, m, weather(EorzeaTime(28800)));
    SearchFromStep(weather, NextPeriod, EorzeaTime(28800), weather(EorzeaTime(28800)), p, p, m - 1, weather(EorzeaTime(57600)));
  }

  /** The `pattern_search` examples with limit 1000: from the epoch (`new(1, 1, 1, 0, 0,
      0)`) Sunny after Sunny is first found at sun 4 00:00 (259200 esec); from sun 1
      01:01:01 (3661 esec) Clouds after Clouds is first found at sun 1 16:00 (57600
      esec). In both, `start ⊖ 8 bells` saturates at the epoch. */
  lemma PatternSearchExamples(f: WeatherForecast, weather: EorzeaTime -> Weather, s0: EorzeaTime,
                              s1: EorzeaTime, limit: nat)
    requires CloudsOrSunny(f, weather)
    requires s0.timestamp == 0 && s1.timestamp == 3661 && limit == 1000
    ensures PatternSearch(weather, s0, [Sunny], [Sunny], limit) == Some(EorzeaTime(259200))
    ensures PatternSearch(weather, s1, [Clouds], [Clouds], limit) == Some(EorzeaTime(57600))
  {
    SunnySearchFromEpoch1(f, weather, limit);
    SunnySearchFromEpoch2(f, weather, limit - 4);
    CloudsSearchFromEpoch(f, weather, limit);
  }

  /** The calendar instants of the `pattern_search` examples. */
  lemma PatternSearchExampleInstants()
    ensures EorzeaTime.New(1, 1, 1, 0, 0, 0) == Ok(EorzeaTime(0))
    ensures EorzeaTime.New(1, 1, 1, 1, 1, 1) == Ok(EorzeaTime(3661))
    ensures EorzeaTime.New(1, 1, 4, 0, 0, 0) == Ok(EorzeaTime(259200))
    ensures EorzeaTime.New(1, 1, 1, 16, 0, 0) == Ok(EorzeaTime(57600))
  {
  }

  /** The `pattern_search_n` example: three Sunny-after-Sunny instants from 10000 esec
      with limit 1000 are 259200, 576000 and 662400. The first search starts at the
      epoch (10000 esec is less than 8 bells), the second at 259200 and the third at
      576000, each one period before the start it is given. */
  lemma NextPatternsExample(f: WeatherForecast, weather: EorzeaTime -> Weather, start: EorzeaTime,
                            limit: nat, n: nat)
    requires CloudsOrSunny(f, weather)
    requires start.timestamp == 10000 && limit == 1000 && n == 3
    ensures NextPatterns(SearchOf(weather, [Sunny], [Sunny], limit), NextPeriod, n, start)
            == [EorzeaTime(259200), EorzeaTime(576000), EorzeaTime(662400)]
  {
    var p := [Sunny];
    var search := SearchOf(weather, p, p, limit);
    SunnySearchFromEpoch1(f, weather, limit);
    SunnySearchFromEpoch2(f, weather, limit - 4);
    assert search(start) == Some(EorzeaTime(259200));
    SunnySearchFrom259200(f, weather, limit);
    SunnySearchFrom374400(f, weather, limit - 4);
    SunnySearchFrom518400(f, weather, limit - 9);
    assert search(EorzeaTime(288000)) == Some(EorzeaTime(576000));
    SunnySearchFrom576000(f, weather, limit);
    assert search(EorzeaTime(604800)) == Some(EorzeaTime(662400));
  }

  /** The `pattern_search_not_found` example: with Unknown as both sets, nothing is
      found from 10000 esec. */
  lemma PatternSearchNotFoundExample(f: WeatherForecast, start: EorzeaTime, limit: nat)
    requires f.weatherRates == CLOUDS_OR_SUNNY
    requires start.timestamp == 10000 && limit == 1000
    ensures f.MaxScore() > 0
    ensures PatternSearch(WeatherOf(f), start, [Unknown], [Unknown], limit) == None
  {
    CloudsOrSunnyMaxScore(f);
    PatternSearchUnknownOnly(f, start, [Unknown], [Unknown], limit);
  }

  // ---------------------------------------------------------------------------
  // Clouds-after-Clouds searches behind the fish-window examples


  /** From the boundaries 57600, 86400 and 115200 the first Clouds after Clouds is at
      144000 (the weathers are Clouds, Sunny, Clouds, Clouds); from 144000 it is at
      172800. */
  lemma CloudsFrom115200(f: WeatherForecast, weather: EorzeaTime -> Weather, m: nat)
    requires CloudsOrSunny(f, weather)
    requires m >= 1
    ensures var c := [Clouds];
            SearchFrom(weather, NextPeriod, EorzeaTime(115200), weather(EorzeaTime(115200)), c, c, m) == Some(EorzeaTime(144000))
  {
    var c := [Clouds];
    Samples0To4(f, weather);
    Samples5To9(f, weather);
    SearchFromStep(weather, NextPeriod, EorzeaTime(115200), weather(EorzeaTime(115200)), c, c, m, weather(EorzeaTime(144000)));
  }

  lemma CloudsFrom86400(f: WeatherForecast, weather: EorzeaTime -> Weather, m: nat)
    requires CloudsOrSunny(f, weather)
    requires m >= 2
    ensures var c := [Clouds];
            SearchFrom(weather, NextPeriod, EorzeaTime(86400), weather(EorzeaTime(86400)), c, c, m) == Some(EorzeaTime(144000))
  {
    var c := [Clouds];
    Samples0To4(f, weather);
    SearchFromStep(weather, NextPeriod, EorzeaTime(86400), weather(EorzeaTime(86400)), c, c, m, weather(EorzeaTime(115200)));
    CloudsFrom115200(f, weather, m - 1);
  }

  lemma CloudsFrom57600(f: WeatherForecast, weather: EorzeaTime -> Weather, m: nat)
    requires CloudsOrSunny(f, weather)
    requires m >= 3
    ensures var c := [Clouds];
            SearchFrom(weather, NextPeriod, EorzeaTime(57600), weather(EorzeaTime(57600)), c, c, m) == Some(EorzeaTime(144000))
  {
    var c := [Clouds];
    Samples0To4(f, weather);
    SearchFromStep(weather, NextPeriod, EorzeaTime(57600), weather(EorzeaTime(57600)), c, c, m, weather(EorzeaTime(86400)));
    CloudsFrom86400(f, weather, m - 1);
  }

  lemma CloudsFrom144000(f: WeatherForecast, weather: EorzeaTime -> Weather, m: nat)
    requires CloudsOrSunny(f, weather)
    requires m >= 1
    ensures var c := [Clouds];
            SearchFrom(weather, NextPeriod, EorzeaTime(144000), weather(EorzeaTime(144000)), c, c, m) == Some(EorzeaTime(172800))
  {
    var c := [Clouds];
    Samples5To9(f, weather);
    SearchFromStep(weather, NextPeriod, EorzeaTime(144000), weather(EorzeaTime(144000)), c, c, m, weather(EorzeaTime(172800)));
  }

  /** From the instants 2 bells past the boundaries, 64800, 93600 and 122400, the first
      Clouds after Clouds is at 151200; from 151200 it is at 180000. */
  lemma CloudsFrom122400(f: WeatherForecast, weather: EorzeaTime -> Weather, m: nat)
    requires CloudsOrSunny(f, weather)
    requires m >= 1
    ensures var c := [Clouds];
            SearchFrom(weather, NextPeriod, EorzeaTime(122400), weather(EorzeaTime(122400)), c, c, m) == Some(EorzeaTime(151200))
  {
    var c := [Clouds];
    SamplesOffBoundary(f, weather);
    SearchFromStep(weather, NextPeriod, EorzeaTime(122400), weather(EorzeaTime(122400)), c, c, m, weather(EorzeaTime(151200)));
  }

  lemma CloudsFrom93600(f: WeatherForecast, weather: EorzeaTime -> Weather, m: nat)
    requires CloudsOrSunny(f, weather)
    requires m >= 2
    ensures var c := [Clouds];
            SearchFrom(weather, NextPeriod, EorzeaTime(93600), weather(EorzeaTime(93600)), c, c, m) == Some(EorzeaTime(151200))
  {
    var c := [Clouds];
    SamplesOffBoundary(f, weather);
    SearchFromStep(weather, NextPeriod, EorzeaTime(93600), weather(EorzeaTime(93600)), c, c, m, weather(EorzeaTime(122400)));
    CloudsFrom122400(f, weather, m - 1);
  }

  lemma CloudsFrom64800(f: WeatherForecast, weather: EorzeaTime -> Weather, m: nat)
    requires CloudsOrSunny(f, weather)
    requires m >= 3
    ensures var c := [Clouds];
            SearchFrom(weather, NextPeriod, EorzeaTime(64800), weather(EorzeaTime(64800)), c, c, m) == Some(EorzeaTime(151200))
  {
    var c := [Clouds];
    SamplesOffBoundary(f, weather);
    SearchFromStep(weather, NextPeriod, EorzeaTime(64800), weather(EorzeaTime(64800)), c, c, m, weather(EorzeaTime(93600)));
    CloudsFrom93600(f, weather, m - 1);
  }

  lemma CloudsFrom151200(f: WeatherForecast, weather: EorzeaTime -> Weather, m: nat)
    requires CloudsOrSunny(f, weather)
    requires m >= 1
    ensures var c := [Clouds];
            SearchFrom(weather, NextPeriod, EorzeaTime(151200), weather(EorzeaTime(151200)), c, c, m) == Some(EorzeaTime(180000))
  {
    var c := [Clouds];
    SamplesOffBoundary(f, weather);
    SearchFromStep(weather, NextPeriod, EorzeaTime(151200), weather(EorzeaTime(151200)), c, c, m, weather(EorzeaTime(180000)));
  }

  /** The search as written, started 2 bells past a period boundary, returns an instant
      2 bells past a boundary (151200 from 93600), where the aligned search returns the
      boundary 144000 of the same Clouds-after-Clouds period. */
  lemma OffBoundarySearchExample(f: WeatherForecast, weather: EorzeaTime -> Weather, start: EorzeaTime, limit: nat)
    requires CloudsOrSunny(f, weather)
    requires start.timestamp == 93600 && limit >= 3
    ensures PatternSearch(weather, start, [Clouds], [Clouds], limit) == Some(EorzeaTime(151200))
    ensures AlignedPatternSearch(weather, start, [Clouds], [Clouds], limit) == Some(EorzeaTime(144000))
    ensures 151200 % 28800 == 7200
  {
    CloudsFrom64800(f, weather, limit);
    CloudsFrom57600(f, weather, limit);
  }
}
