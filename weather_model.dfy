/** The weather forecast of one region, on Eorzea instants. A forecast is a table of
    (threshold, weather) rates sorted by threshold; the weather at an instant is the
    first rate whose threshold exceeds the instant's score, the score being the shared
    hash reduced modulo the largest threshold. Weather changes every 8 bells, and the
    forecast searches those periods for a pair of consecutive weathers. */
module WeatherModel {
  import opened Primitives
  import opened EorzeaClock
  import opened WeatherHash
  import opened Patterns

  datatype Weather = Unknown | Sunny | Clouds | ClearSkies | FairSkies | Fog | Wind

  datatype Rate = Rate(threshold: u8, weather: Weather)

  datatype WeatherForecast = WeatherForecast(region: string, weatherRates: seq<Rate>)
  {
    /** The forecast with its rate table sorted by threshold, stably: rates with equal
        thresholds keep their order. */
    static method New(region: string, weatherRates: seq<Rate>) returns (f: WeatherForecast)
      ensures f.region == region
      ensures f.weatherRates == StableSort(weatherRates)
      ensures SortedByThreshold(f.weatherRates)
      ensures multiset(f.weatherRates) == multiset(weatherRates)
      ensures forall k: u8 :: WithThreshold(f.weatherRates, k) == WithThreshold(weatherRates, k)
    {
      var a := new Rate[|weatherRates|](i requires 0 <= i < |weatherRates| => weatherRates[i]);
      assert a[..] == weatherRates;
      SortByThreshold(a);
      f := WeatherForecast(region, a[..]);
      StableSortSorted(weatherRates);
      StableSortPermutes(weatherRates);
      forall k: u8 {
        StableSortStable(weatherRates, k);
      }
    }

    /** The largest threshold of the table, or 1 when the table is empty. */
    function MaxScore(): (m: u8)
      ensures weatherRates == [] ==> m == 1
    {
      if weatherRates == [] then 1 else MaxThreshold(weatherRates)
    }

    /** The score of `time` against this table. The source falls back to 1 when the
        instant cannot be converted, which never happens for an instant after the epoch. */
    function Score(time: EorzeaTime): (s: u8)
      requires MaxScore() > 0
      ensures s < MaxScore()
    {
      EorzeaWeatherScore(time, MaxScore())
    }

    /** The weather of the first rate whose threshold is strictly above the score, or
        Unknown when there is none. */
    function WeatherAt(time: EorzeaTime): Weather
      requires MaxScore() > 0
    {
      var k := FirstAbove(weatherRates, Score(time));
      if k < |weatherRates| then weatherRates[k].weather else Unknown
    }

    /** `weather` gives this forecast's weather at every instant. */
    ghost predicate IsWeatherOf(weather: EorzeaTime -> Weather)
      requires MaxScore() > 0
    {
      forall t {:trigger WeatherAt(t)} :: weather(t) == WeatherAt(t)
    }

    /** `find_pattern`: steps 8-bell periods forward from 8 bells before `start` (the
        subtraction saturates at the epoch), and stops at the first instant whose weather
        is in `currentWeatherSet` while the weather one period earlier is in
        `previousWeatherSet`; at most `limit` steps are taken. The ghost `weather` is the
        forecast's weather as a function of the instant (`WeatherOf(this)` is one). */
    method FindPattern(start: EorzeaTime, previousWeatherSet: seq<Weather>,
                       currentWeatherSet: seq<Weather>, limit: u32, ghost weather: EorzeaTime -> Weather)
      returns (r: Option<EorzeaTime>)
      requires MaxScore() > 0
      requires IsWeatherOf(weather)
      ensures r == PatternSearch(weather, start, previousWeatherSet, currentWeatherSet, limit as nat)
    {
      var time := start.Sub(EorzeaDuration.New(8, 0, 0).value);
      var prevWeather := WeatherAt(time);
      for i := 0 to limit as int
        invariant prevWeather == weather(time)
        invariant SearchFrom(weather, NextPeriod, time, prevWeather, previousWeatherSet, currentWeatherSet, limit as int - i)
                  == PatternSearch(weather, start, previousWeatherSet, currentWeatherSet, limit as nat)
      {
        ghost var prevTime := time;
        time := time.Add(EORZEA_WEATHER_PERIOD);
        var currentWeather := WeatherAt(time);
        SearchFromStep(weather, NextPeriod, prevTime, prevWeather, previousWeatherSet, currentWeatherSet,
                       limit as int - i, currentWeather);
        if prevWeather in previousWeatherSet && currentWeather in currentWeatherSet {
          return Some(time);
        }
        prevWeather := currentWeather;
      }
      return None;
    }

    /** `find_next_n_patterns`: up to `n` successive pattern instants, each search
        starting one period after the previous result, until a search fails. */
    method FindNextNPatterns(n: u8, start: EorzeaTime, previousWeatherSet: seq<Weather>,
                             currentWeatherSet: seq<Weather>, limit: u32, ghost weather: EorzeaTime -> Weather)
      returns (result: seq<EorzeaTime>)
      requires MaxScore() > 0
      requires IsWeatherOf(weather)
      ensures result == NextPatterns(SearchOf(weather, previousWeatherSet, currentWeatherSet, limit as nat), NextPeriod,
                                     n as nat, start)
    {
      ghost var search := SearchAbstraction(weather, previousWeatherSet, currentWeatherSet, limit as nat);
      result := [];
      var time := start;
      for i := 0 to n as int
        invariant result + NextPatterns(search, NextPeriod, n as int - i, time) == NextPatterns(search, NextPeriod, n as nat, start)
      {
        var found := FindPattern(time, previousWeatherSet, currentWeatherSet, limit, weather);
        NextPatternsStep(search, NextPeriod, n as int - i, time, result, NextPatterns(search, NextPeriod, n as nat, start));
        if found.Some? {
          result := result + [found.value];
          time := found.value;
        } else {
          break;
        }
        time := time.Add(EORZEA_WEATHER_PERIOD);
      }
    }
  }

  // ---------------------------------------------------------------------------
  // The score

  /** `eorzea_weather_score`: the hash of the instant's Unix second, reduced modulo
      `maxScore` (a zero modulus panics in the source). The source's error case, an
      instant before the Unix epoch, cannot arise: every instant is at or after it. */
  function EorzeaWeatherScore(time: EorzeaTime, maxScore: u8): (score: u8)
    requires maxScore > 0
    ensures score < maxScore
  {
    (RawScore(time.ToUnixSeconds()) as int % maxScore as int) as u8
  }

  /** The score is the same at every instant whose Unix second falls in one real
      1400-second weather period. */
  lemma ScoreConstantOnRealPeriod(t1: EorzeaTime, t2: EorzeaTime, maxScore: u8)
    requires maxScore > 0
    requires t1.ToUnixSeconds() / REAL_PERIOD == t2.ToUnixSeconds() / REAL_PERIOD
    ensures EorzeaWeatherScore(t1, maxScore) == EorzeaWeatherScore(t2, maxScore)
  {
    RawScoreConstantOnPeriod(t1.ToUnixSeconds(), t2.ToUnixSeconds());
  }

  /** The score at an instant from the raw hash value of its Unix second. */
  lemma ScoreOfRaw(t: EorzeaTime, raw: int, maxScore: u8)
    requires maxScore > 0
    requires RawScore(t.ToUnixSeconds()) as int == raw
    ensures EorzeaWeatherScore(t, maxScore) as int == raw % maxScore as int
  {
  }

  /** The score examples with modulus 100: the first instant of year 1 (the epoch,
      Unix second 0) scores 56, sun 24 19:25:43 of year 1 (Unix second 100000) scores 76
      and the first instant of year 2 (Unix second 1612800) scores 78. */
  lemma ScoreAtEpoch(t: EorzeaTime)
    requires t.timestamp == 0
    ensures EorzeaWeatherScore(t, 100) == 56
  {
    DivModUnique(t.timestamp * 7 + 72, 144, 0, 72);
    RawScoreIs(t.ToUnixSeconds(), 8, 16456);
    ScoreOfRaw(t, 16456, 100);
  }

  lemma ScoreAtSun24(t: EorzeaTime)
    requires t.timestamp == 2057143
    ensures EorzeaWeatherScore(t, 100) == 76
  {
    DivModUnique(t.timestamp * 7 + 72, 144, 100000, 73);
    RawScoreIs(t.ToUnixSeconds(), 2300, 4697876);
    ScoreOfRaw(t, 4697876, 100);
  }

  lemma ScoreAtYear2(t: EorzeaTime)
    requires t.timestamp == 33177600
    ensures EorzeaWeatherScore(t, 100) == 78
  {
    DivModUnique(t.timestamp * 7 + 72, 144, 1612800, 72);
    RawScoreIs(t.ToUnixSeconds(), 38408, 78931678);
    ScoreOfRaw(t, 78931678, 100);
  }

  // ---------------------------------------------------------------------------
  // The rate table

  function MaxThreshold(rates: seq<Rate>): (m: u8)
    requires rates != []
    ensures forall i :: 0 <= i < |rates| ==> rates[i].threshold <= m
    ensures exists i :: 0 <= i < |rates| && rates[i].threshold == m
  {
    if |rates| == 1 then rates[0].threshold
    else
      var m := MaxThreshold(rates[1..]);
      assert forall i :: 1 <= i < |rates| ==> rates[i] == rates[1..][i - 1];
      if rates[0].threshold > m then rates[0].threshold else m
  }

  /** The index of the first rate whose threshold is strictly above `score`, or the
      length of the table when there is none. */
  function FirstAbove(rates: seq<Rate>, score: u8): (k: nat)
    ensures k <= |rates|
    ensures forall i :: 0 <= i < k ==> rates[i].threshold <= score
    ensures k < |rates| ==> rates[k].threshold > score
  {
    if rates == [] then 0
    else if rates[0].threshold > score then 0
    else 1 + FirstAbove(rates[1..], score)
  }

  /** The maximum is an upper bound of the thresholds and one of them. */
  lemma MaxScoreIsLargest(f: WeatherForecast)
    requires f.weatherRates != []
    ensures forall i :: 0 <= i < |f.weatherRates| ==> f.weatherRates[i].threshold <= f.MaxScore()
    ensures exists i :: 0 <= i < |f.weatherRates| && f.weatherRates[i].threshold == f.MaxScore()
  {
    assert f.MaxScore() == MaxThreshold(f.weatherRates);
  }

  /** The weather at an instant is that of the first rate whose threshold is strictly
      above the score, or Unknown when every threshold is at most the score. */
  lemma WeatherAtIsFirstAbove(f: WeatherForecast, time: EorzeaTime)
    requires f.MaxScore() > 0
    ensures var rates, score, w := f.weatherRates, f.Score(time), f.WeatherAt(time);
            || ((forall i :: 0 <= i < |rates| ==> rates[i].threshold <= score) && w == Unknown)
            || exists k :: 0 <= k < |rates| && rates[k].threshold > score && w == rates[k].weather
                           && forall i :: 0 <= i < k ==> rates[i].threshold <= score
  {
    var k := FirstAbove(f.weatherRates, f.Score(time));
    if k < |f.weatherRates| {
      assert f.WeatherAt(time) == f.weatherRates[k].weather;
    } else {
      assert f.WeatherAt(time) == Unknown;
    }
  }

  /** With a non-empty table the weather is one of the table's weathers, never the
      Unknown fallback: the score is below the largest threshold. */
  lemma WeatherAtFromTable(f: WeatherForecast, time: EorzeaTime)
    requires f.MaxScore() > 0
    requires f.weatherRates != []
    ensures exists i :: 0 <= i < |f.weatherRates| && f.WeatherAt(time) == f.weatherRates[i].weather
  {
    MaxScoreIsLargest(f);
    var k := FirstAbove(f.weatherRates, f.Score(time));
    var m :| 0 <= m < |f.weatherRates| && f.weatherRates[m].threshold == f.MaxScore();
    assert k < |f.weatherRates|;
  }

  /** A table that lists no Unknown weather never yields Unknown. */
  lemma WeatherAtNeverUnknown(f: WeatherForecast, time: EorzeaTime)
    requires f.MaxScore() > 0
    requires f.weatherRates != []
    requires forall i :: 0 <= i < |f.weatherRates| ==> f.weatherRates[i].weather != Unknown
    ensures f.WeatherAt(time) != Unknown
  {
    WeatherAtFromTable(f, time);
  }

  // ---------------------------------------------------------------------------
  // Sorting the rate table

  predicate SortedByThreshold(s: seq<Rate>) {
    forall i, j :: 0 <= i < j < |s| ==> s[i].threshold <= s[j].threshold
  }

  /** The rates of `s` with threshold `k`, in their order in `s`. */
  function WithThreshold(s: seq<Rate>, k: u8): seq<Rate> {
    if s == [] then []
    else (if s[0].threshold == k then [s[0]] else []) + WithThreshold(s[1..], k)
  }

  /** `x` placed after the last rate whose threshold is at most its own. */
  function InsertLast(s: seq<Rate>, x: Rate): seq<Rate> {
    if s == [] || s[|s| - 1].threshold <= x.threshold then s + [x]
    else InsertLast(s[..|s| - 1], x) + [s[|s| - 1]]
  }

  /** Stable sort by threshold, as `sort_by` on the threshold performs it. */
  function StableSort(s: seq<Rate>): seq<Rate> {
    if s == [] then [] else InsertLast(StableSort(s[..|s| - 1]), s[|s| - 1])
  }

  /** The in-place insertion sort: each rate in turn moves left past the larger
      thresholds before it. */
  method SortByThreshold(a: array<Rate>)
    modifies a
    ensures a[..] == StableSort(old(a[..]))
  {
    ghost var input := a[..];
    var i := 0;
    while i < a.Length
      invariant 0 <= i <= a.Length
      invariant a[..i] == StableSort(input[..i])
      invariant a[i..] == input[i..]
    {
      assert a[i] == input[i] by { assert a[i..][0] == input[i..][0]; }
      InsertAt(a, i);
      StableSortStep(input, i);
      i := i + 1;
    }
    assert input[..a.Length] == input;
  }

  /** Sorting one more rate of `s` inserts it into the sorted prefix. */
  lemma StableSortStep(s: seq<Rate>, i: nat)
    requires i < |s|
    ensures StableSort(s[..i + 1]) == InsertLast(StableSort(s[..i]), s[i])
  {
    assert s[..i + 1][..i] == s[..i];
  }

  /** One step of the insertion sort: the rate at `i` is inserted into the prefix
      before it; the rest of the array is untouched. */
  method InsertAt(a: array<Rate>, i: nat)
    requires i < a.Length
    modifies a
    ensures a[..i + 1] == InsertLast(old(a[..i]), old(a[i]))
    ensures a[i + 1..] == old(a[i + 1..])
  {
    var x := a[i];
    ghost var sorted := a[..i];
    var j := i;
    while j > 0 && a[j - 1].threshold > x.threshold
      invariant 0 <= j <= i
      invariant forall k :: 0 <= k < j ==> a[k] == sorted[k]
      invariant forall k :: j < k <= i ==> a[k] == sorted[k - 1]
      invariant forall k :: j <= k < i ==> sorted[k].threshold > x.threshold
      invariant forall k :: i < k < a.Length ==> a[k] == old(a[k])
    {
      a[j] := a[j - 1];
      j := j - 1;
    }
    a[j] := x;
    InsertLastAt(sorted, x, j);
    ghost var inserted := sorted[..j] + [x] + sorted[j..];
    forall k | 0 <= k <= i
      ensures a[k] == inserted[k]
    {
      if k > j {
        assert inserted[k] == sorted[k - 1];
      }
    }
    assert a[..i + 1] == inserted;
  }

  /** Inserting after the last rate at most `x` means inserting at the gap `j` that
      splits the smaller-or-equal prefix from the larger suffix. */
  lemma {:induction false} InsertLastAt(s: seq<Rate>, x: Rate, j: nat)
    requires j <= |s|
    requires j == 0 || s[j - 1].threshold <= x.threshold
    requires forall k :: j <= k < |s| ==> s[k].threshold > x.threshold
    ensures InsertLast(s, x) == s[..j] + [x] + s[j..]
    decreases |s|
  {
    if j < |s| {
      var t := s[..|s| - 1];
      InsertLastAt(t, x, j);
      assert t[..j] == s[..j];
      assert t[j..] + [s[|s| - 1]] == s[j..];
    }
  }

  lemma {:induction false} InsertLastPermutes(s: seq<Rate>, x: Rate)
    ensures multiset(InsertLast(s, x)) == multiset(s) + multiset{x}
    decreases |s|
  {
    if s != [] && s[|s| - 1].threshold > x.threshold {
      var t := s[..|s| - 1];
      InsertLastPermutes(t, x);
      assert s == t + [s[|s| - 1]];
    }
  }

  lemma {:induction false} InsertLastSorted(s: seq<Rate>, x: Rate)
    requires SortedByThreshold(s)
    ensures SortedByThreshold(InsertLast(s, x))
    decreases |s|
  {
    if s != [] && s[|s| - 1].threshold > x.threshold {
      var t, last := s[..|s| - 1], s[|s| - 1];
      InsertLastSorted(t, x);
      InsertLastPermutes(t, x);
      var r := InsertLast(t, x);
      forall i | 0 <= i < |r|
        ensures r[i].threshold <= last.threshold
      {
        assert r[i] in multiset(t) + multiset{x};
        if r[i] in multiset(t) {
          var m :| 0 <= m < |t| && t[m] == r[i];
          assert s[m] == t[m];
        }
      }
    }
  }

  lemma {:induction false} WithThresholdAppend(a: seq<Rate>, b: seq<Rate>, k: u8)
    ensures WithThreshold(a + b, k) == WithThreshold(a, k) + WithThreshold(b, k)
    decreases |a|
  {
    if a == [] {
      assert a + b == b;
    } else {
      var head := if a[0].threshold == k then [a[0]] else [];
      assert (a + b)[0] == a[0];
      assert (a + b)[1..] == a[1..] + b;
      WithThresholdAppend(a[1..], b, k);
      calc {
        WithThreshold(a + b, k);
        head + WithThreshold(a[1..] + b, k);
        head + (WithThreshold(a[1..], k) + WithThreshold(b, k));
        (head + WithThreshold(a[1..], k)) + WithThreshold(b, k);
      }
    }
  }

  lemma {:induction false} InsertLastStable(s: seq<Rate>, x: Rate, k: u8)
    ensures WithThreshold(InsertLast(s, x), k) == WithThreshold(s, k) + WithThreshold([x], k)
    decreases |s|
  {
    if s == [] || s[|s| - 1].threshold <= x.threshold {
      WithThresholdAppend(s, [x], k);
    } else {
      var t, last := s[..|s| - 1], s[|s| - 1];
      assert s == t + [last];
      InsertLastStable(t, x, k);
      WithThresholdAppend(InsertLast(t, x), [last], k);
      WithThresholdAppend(t, [last], k);
    }
  }

  lemma {:induction false} StableSortSorted(s: seq<Rate>)
    ensures SortedByThreshold(StableSort(s))
    decreases |s|
  {
    if s != [] {
      StableSortSorted(s[..|s| - 1]);
      InsertLastSorted(StableSort(s[..|s| - 1]), s[|s| - 1]);
    }
  }

  lemma {:induction false} StableSortPermutes(s: seq<Rate>)
    ensures multiset(StableSort(s)) == multiset(s)
    decreases |s|
  {
    if s != [] {
      StableSortPermutes(s[..|s| - 1]);
      InsertLastPermutes(StableSort(s[..|s| - 1]), s[|s| - 1]);
      assert s == s[..|s| - 1] + [s[|s| - 1]];
    }
  }

  /** A table already in threshold order is left as it is. */
  lemma {:induction false} StableSortOfSorted(s: seq<Rate>)
    requires SortedByThreshold(s)
    ensures StableSort(s) == s
    decreases |s|
  {
    if s != [] {
      var t, last := s[..|s| - 1], s[|s| - 1];
      forall i, j | 0 <= i < j < |t|
        ensures t[i].threshold <= t[j].threshold
      {
        assert t[i] == s[i] && t[j] == s[j];
      }
      StableSortOfSorted(t);
      if t != [] {
        assert t[|t| - 1] == s[|s| - 2];
      }
      assert InsertLast(t, last) == t + [last];
      assert s == t + [last];
    }
  }

  /** Sorting keeps the relative order of the rates of each threshold. */
  lemma {:induction false} StableSortStable(s: seq<Rate>, k: u8)
    ensures WithThreshold(StableSort(s), k) == WithThreshold(s, k)
    decreases |s|
  {
    if s != [] {
      var t := s[..|s| - 1];
      StableSortStable(t, k);
      InsertLastStable(StableSort(t), s[|s| - 1], k);
      assert s == t + [s[|s| - 1]];
      WithThresholdAppend(t, [s[|s| - 1]], k);
    }
  }

  // ---------------------------------------------------------------------------
  // Searching for a weather pattern

  /** The forecast's weather as a function of the instant. */
  function WeatherOf(f: WeatherForecast): EorzeaTime -> Weather
    requires f.MaxScore() > 0
  {
    t => f.WeatherAt(t)
  }

  /** The instant one weather period (8 bells) later. */
  function NextPeriod(t: EorzeaTime): EorzeaTime {
    t.Add(EORZEA_WEATHER_PERIOD)
  }

  /** What `FindPattern` returns, for the forecast whose weather is `weather`: the search
      of `limit` periods from 8 bells before `start`, saturated at the epoch. */
  function PatternSearch(weather: EorzeaTime -> Weather, start: EorzeaTime, prevSet: seq<Weather>,
                         curSet: seq<Weather>, limit: nat): Option<EorzeaTime>
  {
    Search(weather, NextPeriod, start.Sub(EORZEA_WEATHER_PERIOD), prevSet, curSet, limit)
  }

  /** The `k`-th instant after `first` lies `k` periods after it. */
  lemma {:induction false} StepTimestamp(first: EorzeaTime, k: nat)
    ensures Step(NextPeriod, first, k).timestamp == first.timestamp + k * 28800
  {
    if k > 0 {
      StepTimestamp(first, k - 1);
    }
  }

  /** The search returns the first instant `k` periods after `start ⊖ 8 bells`, for `k`
      in 1..limit, at which the weather one period earlier is in `prevSet` and the weather
      there is in `curSet`; it returns None exactly when there is no such `k`, in
      particular when `limit` is 0. */
  lemma PatternSearchIsFirstMatch(weather: EorzeaTime -> Weather, start: EorzeaTime, prevSet: seq<Weather>,
                                  curSet: seq<Weather>, limit: nat)
    ensures var first := start.Sub(EORZEA_WEATHER_PERIOD);
            var r := PatternSearch(weather, start, prevSet, curSet, limit);
            && (limit == 0 ==> r.None?)
            && (r.None? <==> NoMatchIn(weather, NextPeriod, first, prevSet, curSet, 0, limit))
            && (r.Some? ==> exists k :: 0 < k <= limit && r.value == Step(NextPeriod, first, k)
                                        && r.value.timestamp == first.timestamp + k * 28800
                                        && Matches(weather, NextPeriod, first, prevSet, curSet, k)
                                        && NoMatchIn(weather, NextPeriod, first, prevSet, curSet, 0, k - 1))
  {
    var first := start.Sub(EORZEA_WEATHER_PERIOD);
    SearchIsFirstMatch(weather, NextPeriod, first, prevSet, curSet, limit);
    var r := PatternSearch(weather, start, prevSet, curSet, limit);
    if r.Some? {
      var k :| 0 < k <= limit && r.value == Step(NextPeriod, first, k)
               && Matches(weather, NextPeriod, first, prevSet, curSet, k)
               && NoMatchIn(weather, NextPeriod, first, prevSet, curSet, 0, k - 1);
      StepTimestamp(first, k);
    }
  }

  /** A found instant lies at or after `start` and at most `limit` periods after it. */
  lemma PatternSearchBounds(weather: EorzeaTime -> Weather, start: EorzeaTime, prevSet: seq<Weather>,
                            curSet: seq<Weather>, limit: nat)
    ensures var r := PatternSearch(weather, start, prevSet, curSet, limit);
            r.Some? ==> start.timestamp <= r.value.timestamp <= start.timestamp + limit * 28800
  {
    PatternSearchIsFirstMatch(weather, start, prevSet, curSet, limit);
  }

  /** A result of the search from `first` lies a whole number of periods after `first`
      and at most `limit` of them; the weather one period before it is in `prevSet` and
      the weather there is in `curSet`. */
  lemma SearchResultMatches(weather: EorzeaTime -> Weather, first: EorzeaTime, prevSet: seq<Weather>,
                            curSet: seq<Weather>, limit: nat)
    ensures var r := Search(weather, NextPeriod, first, prevSet, curSet, limit);
            r.Some? ==> && first.timestamp + 28800 <= r.value.timestamp <= first.timestamp + limit * 28800
                        && (r.value.timestamp - first.timestamp) % 28800 == 0
                        && weather(EorzeaTime(r.value.timestamp - 28800)) in prevSet
                        && weather(r.value) in curSet
  {
    SearchIsFirstMatch(weather, NextPeriod, first, prevSet, curSet, limit);
    var r := Search(weather, NextPeriod, first, prevSet, curSet, limit);
    if r.Some? {
      var k :| 0 < k <= limit && r.value == Step(NextPeriod, first, k)
               && Matches(weather, NextPeriod, first, prevSet, curSet, k);
      StepTimestamp(first, k);
      StepTimestamp(first, k - 1);
      assert r.value.timestamp - first.timestamp == k * 28800;
    }
  }

  /** As written, the search keeps the phase of `start` within its period: once `start`
      is at least one period after the epoch, a result lies as far past a period boundary
      as `start` does, so it is a period boundary only when `start` is one. */
  lemma PatternSearchKeepsPhase(weather: EorzeaTime -> Weather, start: EorzeaTime, prevSet: seq<Weather>,
                                curSet: seq<Weather>, limit: nat)
    requires start.timestamp >= 28800
    ensures var r := PatternSearch(weather, start, prevSet, curSet, limit);
            r.Some? ==> r.value.timestamp % 28800 == start.timestamp % 28800
  {
    var first := start.Sub(EORZEA_WEATHER_PERIOD);
    SearchResultMatches(weather, first, prevSet, curSet, limit);
    var r := PatternSearch(weather, start, prevSet, curSet, limit);
    if r.Some? {
      var k := (r.value.timestamp - first.timestamp) / 28800;
      DivModUnique(r.value.timestamp, 28800, k + start.timestamp / 28800 - 1, start.timestamp % 28800);
    }
  }

  /** The search as the fish-window search needs it, and as the Unix-seconds revision
      performs it: it starts one period before the period boundary at or before `start`
      (saturating at the epoch), so every candidate is a period boundary. */
  function AlignedPatternSearch(weather: EorzeaTime -> Weather, start: EorzeaTime, prevSet: seq<Weather>,
                                curSet: seq<Weather>, limit: nat): Option<EorzeaTime>
  {
    Search(weather, NextPeriod, PeriodBoundary(start).Sub(EORZEA_WEATHER_PERIOD), prevSet, curSet, limit)
  }

  /** The period boundary at or before `t`. */
  function PeriodBoundary(t: EorzeaTime): EorzeaTime {
    EorzeaTime(t.timestamp - t.timestamp % 28800)
  }

  /** `PeriodBoundary` is `t.round(EORZEA_WEATHER_PERIOD)`. */
  lemma PeriodBoundaryIsRound(t: EorzeaTime)
    ensures PeriodBoundary(t) == t.Round(EORZEA_WEATHER_PERIOD)
    ensures PeriodBoundary(t).timestamp % 28800 == 0
    ensures PeriodBoundary(t).timestamp <= t.timestamp < PeriodBoundary(t).timestamp + 28800
  {
  }

  /** A result of the aligned search is a period boundary after the epoch; its period
      ends after `start` and starts at most `limit - 1` periods after the one holding
      `start`; the pattern holds there. */
  lemma AlignedPatternSearchMatches(weather: EorzeaTime -> Weather, start: EorzeaTime, prevSet: seq<Weather>,
                                    curSet: seq<Weather>, limit: nat)
    ensures var r := AlignedPatternSearch(weather, start, prevSet, curSet, limit);
            r.Some? ==> && r.value.timestamp % 28800 == 0
                        && 28800 <= r.value.timestamp
                        && start.timestamp < r.value.timestamp + 28800
                        && r.value.timestamp <= start.timestamp + limit * 28800
                        && weather(EorzeaTime(r.value.timestamp - 28800)) in prevSet
                        && weather(r.value) in curSet
  {
    var day := PeriodBoundary(start);
    PeriodBoundaryIsRound(start);
    var first := day.Sub(EORZEA_WEATHER_PERIOD);
    SearchResultMatches(weather, first, prevSet, curSet, limit);
    var r := AlignedPatternSearch(weather, start, prevSet, curSet, limit);
    if r.Some? {
      var j := (r.value.timestamp - first.timestamp) / 28800;
      assert r.value.timestamp == first.timestamp + 28800 * j;
      if day.timestamp >= 28800 {
        assert first.timestamp == day.timestamp + 28800 * -1;
        AlignedShift(day.timestamp, j - 1);
      } else {
        assert first.timestamp == 0;
        AlignedShift(0, j);
      }
    }
  }

  /** Whole periods added to a period boundary give a period boundary. */
  lemma AlignedShift(x: int, m: int)
    requires x % 28800 == 0
    ensures (x + 28800 * m) % 28800 == 0
  {
    DivModUnique(x + 28800 * m, 28800, x / 28800 + m, 0);
  }

  /** From a period boundary, the aligned search and the search as written coincide. */
  lemma AlignedPatternSearchOnBoundary(weather: EorzeaTime -> Weather, start: EorzeaTime, prevSet: seq<Weather>,
                                       curSet: seq<Weather>, limit: nat)
    requires start.timestamp % 28800 == 0
    ensures AlignedPatternSearch(weather, start, prevSet, curSet, limit)
            == PatternSearch(weather, start, prevSet, curSet, limit)
  {
    DivModUnique(start.timestamp, 28800, start.timestamp / 28800, 0);
    assert PeriodBoundary(start) == start;
  }

  /** With a table free of Unknown, a pattern one of whose sets holds only Unknown is
      never found. */
  lemma PatternSearchUnknownOnly(f: WeatherForecast, start: EorzeaTime, prevSet: seq<Weather>,
                                 curSet: seq<Weather>, limit: nat)
    requires f.MaxScore() > 0
    requires f.weatherRates != []
    requires forall i :: 0 <= i < |f.weatherRates| ==> f.weatherRates[i].weather != Unknown
    requires (forall i :: 0 <= i < |prevSet| ==> prevSet[i] == Unknown)
             || (forall i :: 0 <= i < |curSet| ==> curSet[i] == Unknown)
    ensures PatternSearch(WeatherOf(f), start, prevSet, curSet, limit) == None
  {
    var first := start.Sub(EORZEA_WEATHER_PERIOD);
    PatternSearchIsFirstMatch(WeatherOf(f), start, prevSet, curSet, limit);
    forall k | 1 <= k <= limit
      ensures !Matches(WeatherOf(f), NextPeriod, first, prevSet, curSet, k)
    {
      WeatherAtNeverUnknown(f, Step(NextPeriod, first, k - 1));
      WeatherAtNeverUnknown(f, Step(NextPeriod, first, k));
    }
  }

  /** `FindPattern` with fixed sets and limit, as a function of the start. */
  function SearchOf(weather: EorzeaTime -> Weather, prevSet: seq<Weather>, curSet: seq<Weather>,
                    limit: nat): EorzeaTime -> Option<EorzeaTime>
  {
    t => PatternSearch(weather, t, prevSet, curSet, limit)
  }

  /** A stand-in for `SearchOf(weather, prevSet, curSet, limit)` whose link to it is
      stated, not unfolded: the loop of `FindNextNPatterns` reasons about the stand-in
      and meets the pattern search only at the results `FindPattern` hands back. */
  lemma SearchAbstraction(weather: EorzeaTime -> Weather, prevSet: seq<Weather>, curSet: seq<Weather>, limit: nat)
    returns (search: EorzeaTime -> Option<EorzeaTime>)
    ensures forall t {:trigger PatternSearch(weather, t, prevSet, curSet, limit)}
              :: search(t) == PatternSearch(weather, t, prevSet, curSet, limit)
    ensures forall n, start {:trigger NextPatterns(SearchOf(weather, prevSet, curSet, limit), NextPeriod, n, start)}
              :: NextPatterns(search, NextPeriod, n, start)
                 == NextPatterns(SearchOf(weather, prevSet, curSet, limit), NextPeriod, n, start)
  {
    search := SearchOf(weather, prevSet, curSet, limit);
  }

  /** The successive results of `FindNextNPatterns`: at most `n`; the first is the search
      result from `start` and each next one the search result from one period after the
      previous one, so at least one period later; all at or after `start`; fewer than `n`
      only when the next search fails. */
  lemma NextPatternsChained(weather: EorzeaTime -> Weather, prevSet: seq<Weather>, curSet: seq<Weather>,
                            limit: nat, n: nat, start: EorzeaTime)
    ensures var search := SearchOf(weather, prevSet, curSet, limit);
            var r := NextPatterns(search, NextPeriod, n, start);
            && |r| <= n
            && (|r| > 0 ==> PatternSearch(weather, start, prevSet, curSet, limit) == Some(r[0]))
            && (forall i :: 0 <= i < |r| - 1 ==>
                  PatternSearch(weather, NextPeriod(r[i]), prevSet, curSet, limit) == Some(r[i + 1]))
            && (|r| < n ==> PatternSearch(weather, if r == [] then start else NextPeriod(r[|r| - 1]),
                                          prevSet, curSet, limit) == None)
            && (forall i :: 0 <= i < |r| ==> start.timestamp <= r[i].timestamp)
            && (forall i :: 0 <= i < |r| - 1 ==> r[i].timestamp + 28800 <= r[i + 1].timestamp)
  {
    var search := SearchOf(weather, prevSet, curSet, limit);
    forall t | search(t).Some?
      ensures t.timestamp - 0 <= search(t).value.timestamp
    {
      PatternSearchBounds(weather, t, prevSet, curSet, limit);
    }
    Patterns.NextPatternsChained(search, NextPeriod, (t: EorzeaTime) => t.timestamp, 28800, 0, n, start);
  }
}
