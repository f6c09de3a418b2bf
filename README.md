# ffxivfishing prediction core, in Dafny

This project models the prediction engine of `ffxivfishing`, a Final Fantasy XIV fishing helper,
and proves properties of the model. The engine has three parts.

- **The Eorzea calendar** (`EorzeaClock`). An instant is a count of Eorzea seconds (esec)
  since 0001-01-01 00:00:00. A minute is 60 esec, a bell 60 minutes, a sun 24 bells, a moon
  32 suns and a year 12 moons. The module covers:
  - validated construction of instants and durations from calendar fields, and their
    decomposition back into fields;
  - addition, saturating subtraction, subtract-assign and truncation to a multiple
    (`round`);
  - spans built from a start and a duration or from a start and an end, and the overlap of
    two spans.
- **The weather forecast of a region.** It exists in two revisions.
  - Both revisions share one 32-bit shift/xor hash (`WeatherHash`).
  - The current revision (`WeatherModel`) works on Eorzea instants:
    - its search period is 8 bells;
    - the hash is reduced modulo the largest threshold of the region's rate table;
    - the table is sorted by an in-place stable insertion sort (`SortByThreshold`).
  - The older revision (`UnixWeather`) works on whole Unix seconds:
    - its search period is 1440 s and its modulus is 100;
    - it aligns each search to a period boundary.
  - In both revisions:
    - the weather at an instant is that of the first rate whose threshold lies strictly
      above the score;
    - `FindPattern` is a bounded loop that steps from period to period looking for a
      (previous weather, current weather) pattern;
    - `FindNextNPatterns` collects up to `n` successive results of that loop.
  - The loop is stated once, generically, in `Patterns`, and each revision instantiates it.
- **The catch window of a fish** (`FishWindow`).
  - `WindowOnDay` turns the fish's time-of-day window into a span on the day of an instant.
    A window that passes midnight gets one sun added to its end.
  - `NextWindow` searches for the weather pattern the fish needs, intersects the span found
    with the day's window, and moves one weather period on when they do not meet.

Both pattern searches and the window search are stated against an arbitrary weather
function. A ghost predicate, `IsWeatherOf`, ties that function to the forecast.

Concrete values from the repository's own unit tests appear as example lemmas:
- the hash scores;
- the weather of the test tables at given instants;
- the instants returned by the searches;
- the two catch windows.

## Model

| member | source | states |
|---|---|---|
| EorzeaClock.EorzeaDuration.New | ffxivfishing/src/eorzea_time.rs:187-194 | fails exactly when bell ≥ 24, minute ≥ 60 or second ≥ 60; otherwise the duration is bell·3600 + minute·60 + second esec, which is less than one sun |
| EorzeaClock.EorzeaDuration.NewExt | ffxivfishing/src/eorzea_time.rs:175-185 | fails exactly when moon ≥ 12, sun ≥ 32, bell ≥ 24, minute ≥ 60 or second ≥ 60; otherwise the duration is the weighted sum of all six fields |
| EorzeaClock.EorzeaDuration.Rem | ffxivfishing/src/eorzea_time.rs:281-288 | for a non-zero divisor: the remainder is below the divisor, differs from the duration by a multiple of the divisor, and equals the duration when the duration is already smaller |
| EorzeaClock.EorzeaTime.Year | ffxivfishing/src/eorzea_time.rs:43-45 | the year is one more than the number of whole 12-moon years elapsed, truncated to 16 bits by the `as u16` cast; below year 65535 the instant lies within that year |
| EorzeaClock.EorzeaTime.Moon | ffxivfishing/src/eorzea_time.rs:46-48 | the moon of an instant is in 1..12 |
| EorzeaClock.EorzeaTime.Sun | ffxivfishing/src/eorzea_time.rs:49-51 | the sun of an instant is in 1..32 |
| EorzeaClock.EorzeaTime.Bell | ffxivfishing/src/eorzea_time.rs:52-54 | the bell of an instant is below 24 |
| EorzeaClock.EorzeaTime.Minute | ffxivfishing/src/eorzea_time.rs:55-57 | the minute of an instant is below 60 |
| EorzeaClock.EorzeaTime.Second | ffxivfishing/src/eorzea_time.rs:58-60 | the second of an instant is below 60 |
| EorzeaClock.EorzeaTime.New | ffxivfishing/src/eorzea_time.rs:62-90 | returns ValueOutOfBounds exactly when year is 0, moon is outside 1..12, sun is outside 1..32, bell ≥ 24, minute ≥ 60 or second ≥ 60; a success lies before year 65535 |
| EorzeaClock.NewRoundTrip | ffxivfishing/src/eorzea_time.rs:43-90 | the accessors of a successfully built instant give back the year, moon, sun, bell, minute and second it was built from |
| EorzeaClock.FieldsRoundTrip | ffxivfishing/src/eorzea_time.rs:43-90 | every instant before year 65535 is what `New` builds from its own accessors (the converse round trip) |
| EorzeaClock.NewLastSecondOfYear | ffxivfishing/src/eorzea_time.rs:337-342 | 0001-12-32 23:59:59 is one esec before year 2, and 0001-01-01 00:00:01 is 1 esec |
| EorzeaClock.NewExamples | ffxivfishing/src/weather.rs:112-122 | the calendar dates of the score examples are the instants 0, 2057143 and 33177600 |
| EorzeaClock.EorzeaTime.Sub | ffxivfishing/src/eorzea_time.rs:146-157 | subtraction never increases an instant; adding the duration back restores it when the duration fits, and the result is the epoch otherwise |
| EorzeaClock.EorzeaTime.SubAssign | ffxivfishing/src/eorzea_time.rs:165-172 | subtract-assign takes away a duration that fits and leaves the instant unchanged otherwise |
| EorzeaClock.SubThenAdd | ffxivfishing/src/eorzea_time.rs:136-172 | for a duration that fits, both subtractions are undone by adding the duration back |
| EorzeaClock.SubVersusSubAssign | ffxivfishing/src/eorzea_time.rs:146-172 | the two subtractions agree when the duration fits; otherwise `-` gives the epoch while `-=` keeps the instant |
| EorzeaClock.AddRoundTrip | ffxivfishing/src/eorzea_time.rs:136-163 | adding a duration (`+`, and `+=` on the value) never moves an instant back; either subtraction takes the duration off again, and the duration since the old instant is the one added |
| EorzeaClock.EorzeaTime.Round | ffxivfishing/src/eorzea_time.rs:108-110 | for a non-zero duration d the result is a multiple of d, at or before the instant and less than d before it |
| EorzeaClock.RoundIdempotent | ffxivfishing/src/eorzea_time.rs:108-110 | rounding a second time changes nothing |
| EorzeaClock.RoundSameBlock | ffxivfishing/src/eorzea_time.rs:108-110 | instants in the same d-aligned block round to the same instant |
| EorzeaClock.EorzeaTime.ToUnixSeconds | ffxivfishing/src/eorzea_time.rs:103-106 | the Unix second is the instant scaled by 175/3600, rounded to the nearest whole second |
| EorzeaClock.EorzeaTime.DurationSince | ffxivfishing/src/eorzea_time.rs:112-117 | fails exactly when the other instant is later; otherwise adding the result to the other instant gives this one |
| EorzeaClock.EorzeaTimeSpan.NewStartEnd | ffxivfishing/src/eorzea_time.rs:237-243 | fails exactly when end precedes start; otherwise the span starts at start and its `End()` is end |
| EorzeaClock.SpanEndRoundTrip | ffxivfishing/src/eorzea_time.rs:253-255 | a span's end is its start plus its duration: the span built from its start and its end is the span itself, the duration from start to end is its duration, and the span contains both ends |
| EorzeaClock.EorzeaTimeSpan.Overlap | ffxivfishing/src/eorzea_time.rs:257-261 | a success runs from the later start to the earlier end; it fails exactly when the earlier end precedes the later start |
| EorzeaClock.OverlapContains | ffxivfishing/src/eorzea_time.rs:253-261 | a successful overlap contains exactly the instants both spans contain; a failure means the spans share no instant |
| EorzeaClock.OverlapCommutes | ffxivfishing/src/eorzea_time.rs:257-261 | the overlap does not depend on the order of the two spans |
| EorzeaClock.OverlapIs | ffxivfishing/src/eorzea_time.rs:257-261 | spans whose later start is lo and whose earlier end is hi ≥ lo overlap in the span from lo to hi |
| EorzeaClock.OverlapExamples | ffxivfishing/src/eorzea_time.rs:400-420 | [0,1]∩[0,2] is [0,1]; touching spans [0,1] and [1,3] give the zero-length span at 1; disjoint spans give an error |
| WeatherHash.Increment | ffxivfishing/src/weather.rs:95-104 | the bell offset the hash adds is 8 bells past the current 8-bell block, modulo 24, so it is 0, 8 or 16 |
| WeatherHash.BellBlock | ffxivfishing/src/lib.rs:112-121 | the bell number divided by 8 is the index of the real 1400-second period, so the hash input is fixed within that period |
| WeatherHash.MixInvertible | ffxivfishing/src/weather.rs:100-101 | `Mix`: the wrapping shift/xor mix is injective: `Unmix` inverts it |
| WeatherHash.RawScoreDeterminedByBase | ffxivfishing/src/weather.rs:95-104 | two Unix seconds have the same raw hash exactly when their 32-bit bases `(days·100 + increment) as u32` are equal |
| WeatherHash.RawScoreConstantOnPeriod | ffxivfishing/src/lib.rs:112-121 | `RawScore`: the raw hash is the same for every second of one real 1400-second period |
| WeatherHash.RawScoreExamples | ffxivfishing/src/lib.rs:129-142 | the raw hashes behind the score examples of both revisions |
| WeatherModel.WeatherForecast.New | ffxivfishing/src/weather.rs:22-28 | the table is the stable sort of the given rates: sorted by threshold, the same multiset, and equal-threshold rates kept in their given order |
| WeatherModel.SortByThreshold | ffxivfishing/src/weather.rs:23 | the in-place insertion sort leaves the array equal to the stable sort of its old contents |
| WeatherModel.InsertAt | ffxivfishing/src/weather.rs:23 | one pass of the insertion sort inserts the next rate after the last sorted rate whose threshold is at most its own, and leaves the rest of the array as it was |
| WeatherModel.StableSortStep | ffxivfishing/src/weather.rs:23 | sorting one more rate inserts it into the sorted prefix |
| WeatherModel.StableSortSorted | ffxivfishing/src/weather.rs:23 | the sort's result is ascending by threshold |
| WeatherModel.StableSortPermutes | ffxivfishing/src/weather.rs:23 | the sort's result is a permutation of its input |
| WeatherModel.StableSortStable | ffxivfishing/src/weather.rs:23 | for every threshold, the sort keeps the rates of that threshold in their input order |
| WeatherModel.StableSortOfSorted | ffxivfishing/src/weather.rs:23 | a table already in threshold order is left unchanged |
| WeatherModel.InsertLastPermutes | ffxivfishing/src/weather.rs:23 | insertion adds exactly one rate to the multiset |
| WeatherModel.InsertLastSorted | ffxivfishing/src/weather.rs:23 | insertion into a sorted table keeps it sorted |
| WeatherModel.InsertLastStable | ffxivfishing/src/weather.rs:23 | insertion places the new rate after every rate of its threshold |
| WeatherModel.EorzeaWeatherScore | ffxivfishing/src/weather.rs:95-104 | for a positive modulus, the score is below the modulus |
| WeatherModel.ScoreConstantOnRealPeriod | ffxivfishing/src/weather.rs:95-104 | instants whose Unix seconds fall in the same real 1400-second period get the same score |
| WeatherModel.ScoreAtEpoch | ffxivfishing/src/weather.rs:112-122 | with modulus 100, the epoch scores 56 |
| WeatherModel.ScoreAtSun24 | ffxivfishing/src/weather.rs:112-122 | with modulus 100, 0001-01-24 19:25:43 scores 76 |
| WeatherModel.ScoreAtYear2 | ffxivfishing/src/weather.rs:112-122 | with modulus 100, the first instant of year 2 scores 78 |
| WeatherModel.WeatherForecast.MaxScore | ffxivfishing/src/weather.rs:30-35 | the modulus falls back to 1 for an empty table |
| WeatherModel.MaxScoreIsLargest | ffxivfishing/src/weather.rs:30-35 | for a non-empty table the modulus is one of the thresholds, and no threshold exceeds it |
| WeatherModel.WeatherForecast.Score | ffxivfishing/src/weather.rs:29-44 | the score used by `weather_at` is below the modulus |
| WeatherModel.FirstAbove | ffxivfishing/src/weather.rs:36-43 | the index found is the first whose threshold lies strictly above the score: every earlier threshold is at most the score |
| WeatherModel.WeatherAtIsFirstAbove | ffxivfishing/src/weather.rs:29-44 | `WeatherForecast.WeatherAt`: the weather is that of the first rate whose threshold lies strictly above the score, and Unknown when there is none |
| WeatherModel.WeatherAtFromTable | ffxivfishing/src/weather.rs:29-44 | with a non-empty table the weather is always one of the table's weathers |
| WeatherModel.WeatherAtNeverUnknown | ffxivfishing/src/weather.rs:29-44 | a non-empty table that lists no Unknown never yields Unknown |
| WeatherModel.WeatherForecast.FindPattern | ffxivfishing/src/weather.rs:46-68 | the loop returns the value of `PatternSearch` |
| WeatherModel.PatternSearchIsFirstMatch | ffxivfishing/src/weather.rs:46-68 | `PatternSearch`: a result is `start ⊖ 8 bells` plus k periods for the least k in 1..limit at which the previous and the current weather are in their sets; None means no such k; limit 0 gives None |
| WeatherModel.PatternSearchBounds | ffxivfishing/src/weather.rs:46-68 | a result lies at or after `start` and at most `limit` periods after it |
| WeatherModel.SearchResultMatches | ffxivfishing/src/weather.rs:56-65 | a result lies a whole number of periods after the first instant, and its weather and that of the period before it are in their sets |
| WeatherModel.PatternSearchKeepsPhase | ffxivfishing/src/weather.rs:53 | as written, from a start at least one period after the epoch, a result has the same offset within its 8-bell period as the start |
| WeatherModel.AlignedPatternSearch | ffxivfishing/src/lib.rs:68-70 | the corrected search starts at the period boundary at or before `start`, as the older revision does |
| WeatherModel.PeriodBoundaryIsRound | ffxivfishing/src/eorzea_time.rs:108-110 | the boundary used by the aligned search is `round(EORZEA_WEATHER_PERIOD)`: a multiple of 8 bells within one period before the instant |
| WeatherModel.AlignedPatternSearchMatches | ffxivfishing/src/lib.rs:68-84 | a result of the aligned search is a period boundary after the epoch, and the weather of its period and of the period before are in their sets |
| WeatherModel.AlignedPatternSearchOnBoundary | ffxivfishing/src/weather.rs:46-68 | from a period boundary, the aligned search and the search as written give the same result |
| WeatherModel.PatternSearchUnknownOnly | ffxivfishing/src/weather.rs:200-215 | with a non-empty table that lists no Unknown, a pattern whose previous set holds only Unknown is never found |
| WeatherModel.WeatherForecast.FindNextNPatterns | ffxivfishing/src/weather.rs:70-92 | the loop returns `NextPatterns` over the search, with each search restarted one period after the previous result |
| WeatherModel.NextPatternsChained | ffxivfishing/src/weather.rs:70-92 | at most n results; the first is the search from `start`, each later one is at least one period after its predecessor, and a failed search ends the list |
| Patterns.SearchIsFirstMatch | ffxivfishing/src/weather.rs:53-67 | the generic loop returns the first of the `limit` instants at which the pattern holds, and None when it holds at none of them |
| Patterns.SearchFinds | ffxivfishing/src/lib.rs:72-84 | conversely, the first instant at which the pattern holds is the loop's result |
| Patterns.SearchFromFirstMatch | ffxivfishing/src/weather.rs:56-65 | the loop from the m-th instant finds the first match among the remaining ones |
| Patterns.NextPatternsChained | ffxivfishing/src/lib.rs:87-109 | the generic n-patterns loop yields at most n results, chained in increasing order, and stops at the first failed search |
| WeatherExamples.CloudsOrSunnySorted | ffxivfishing/src/weather.rs:22-28 | the two-rate test table is already sorted, so `New` keeps it |
| WeatherExamples.EmpyriumSorted | ffxivfishing/src/weather.rs:22-28 | the Empyrium test table is already sorted, so `New` keeps it |
| WeatherExamples.FiveRateScores | ffxivfishing/src/weather.rs:148-198 | the scores of the three instants of the five-rate examples, from their raw hashes |
| WeatherExamples.WeatherAtRealExamples | ffxivfishing/src/weather.rs:148-172 | with the first five-rate table, 100000 and 110000 esec are FairSkies and 120000 esec is ClearSkies |
| WeatherExamples.WeatherAtEmpyriumExamples | ffxivfishing/src/weather.rs:174-198 | with the Empyrium table, 100000 and 110000 esec are ClearSkies and 120000 esec is FairSkies |
| WeatherExamples.PatternSearchExamples | ffxivfishing/src/weather.rs:124-147 | Sunny after Sunny from the epoch is found at 259200; Clouds after Clouds from 01:01:01 is found at 57600 |
| WeatherExamples.PatternSearchExampleInstants | ffxivfishing/src/weather.rs:124-147 | the calendar dates of the search examples are the instants 0, 3661, 259200 and 57600 |
| WeatherExamples.NextPatternsExample | ffxivfishing/src/weather.rs:217-239 | three Sunny-after-Sunny searches from 10000 esec give 259200, 576000 and 662400 |
| WeatherExamples.PatternSearchNotFoundExample | ffxivfishing/src/weather.rs:200-215 | searching for Unknown after Unknown finds nothing |
| WeatherExamples.OffBoundarySearchExample | ffxivfishing/src/weather.rs:53 | from 93600 esec, 2 bells past a boundary, the search as written returns 151200, 2 bells into its period, while the aligned search returns the boundary 144000 |
| UnixWeather.TimeToEorzeaWeatherScore | ffxivfishing/src/lib.rs:112-121 | fails exactly for an instant before the Unix epoch; otherwise the score is below 100 |
| UnixWeather.ScoreAtEpoch | ffxivfishing/src/lib.rs:129-142 | the Unix epoch scores 56 |
| UnixWeather.ScoreAt100000 | ffxivfishing/src/lib.rs:129-142 | 100000 s scores 76 |
| UnixWeather.ScoreAt1741463853 | ffxivfishing/src/lib.rs:129-142 | 1741463853 s scores 94 |
| UnixWeather.ScoreOrZero | ffxivfishing/src/lib.rs:51-53 | `weather_at` scores an instant before the epoch as 0; every score is below 100 |
| UnixWeather.FirstAbove | ffxivfishing/src/lib.rs:53-58 | the index found is the first whose threshold lies strictly above the score |
| UnixWeather.WeatherAtIsFirstAbove | ffxivfishing/src/lib.rs:51-59 | `WeatherForecast.WeatherAt`: the weather is that of the first rate, in unsorted table order, whose threshold lies strictly above the score, and Unknown when there is none |
| UnixWeather.WeatherAtNeverUnknown | ffxivfishing/src/lib.rs:51-59 | a table that lists no Unknown and has a threshold of at least 100 never yields Unknown |
| UnixWeather.WeatherConstantOnRealPeriod | ffxivfishing/src/lib.rs:51-59 | the weather is the same throughout one real 1400-second period |
| UnixWeather.WeatherForecast.FindPattern | ffxivfishing/src/lib.rs:61-85 | the loop returns the value of `PatternSearch` |
| UnixWeather.PatternSearchIsFirstMatch | ffxivfishing/src/lib.rs:68-84 | `PatternSearch`: a result is the period boundary at or before start, less one period, plus k·1440 for the least k in 1..limit at which the pattern holds; None means no such k; limit 0 gives None |
| UnixWeather.PatternSearchAligned | ffxivfishing/src/lib.rs:68-75 | every result is a multiple of 1440 from the period boundary at or before start to limit − 1 periods after it, so it may precede start by less than one period |
| UnixWeather.PatternSearchUnknownOnly | ffxivfishing/src/lib.rs:176-191 | with a table free of Unknown that reaches threshold 100, a pattern whose previous set holds only Unknown is never found |
| UnixWeather.WeatherForecast.FindNextNPatterns | ffxivfishing/src/lib.rs:87-109 | the loop returns `NextPatterns` over the search, with each search restarted one period after the previous result |
| UnixWeather.NextPatternsChained | ffxivfishing/src/lib.rs:87-109 | at most n results; the first is the search from start; each later one is at least one period after its predecessor; a failed search ends the list |
| UnixWeather.NextPatternsAligned | ffxivfishing/src/lib.rs:87-109 | the results are multiples of 1440, strictly increasing by at least one period, and later than one period before start |
| UnixWeather.PatternSearchExamples | ffxivfishing/src/lib.rs:144-174 | from 10000 s, Sunny after Sunny is found at 12960 and Cloudy after Cloudy at 8640, before the start |
| UnixWeather.NextPatternsExample | ffxivfishing/src/lib.rs:193-215 | three Sunny-after-Sunny searches from 10000 s give 12960, 28800 and 33120 |
| FishWindow.Fish.New | ffxivfishing/src/fish.rs:66-106 | both window offsets are reduced modulo one sun: each is below 86400 and congruent to the given offset; the other fields are stored as given |
| FishWindow.Fish.DayWindow | ffxivfishing/src/fish.rs:108-117 | the window opens `windowStart` after the start of the day holding the instant; it closes `windowEnd` after that day start, or one sun later when `windowEnd` < `windowStart` |
| FishWindow.Fish.WindowOnDay | ffxivfishing/src/fish.rs:108-117 | the step-by-step computation never fails and gives `DayWindow` |
| FishWindow.DayWindowSameDay | ffxivfishing/src/fish.rs:108-117 | the window depends only on the day holding the instant |
| FishWindow.DayWindowLength | ffxivfishing/src/fish.rs:108-117 | with both offsets below one sun, the window is shorter than a sun; it has length 0 exactly when the offsets are equal; it ends on its own day unless the end offset is smaller |
| FishWindow.Fish.NextWindow | ffxivfishing/src/fish.rs:119-131 | limit 0 gives None; a window found is at most one weather period long; the recursion ends because limit decreases, and `limit - 1` is only taken when limit > 0 |
| FishWindow.NextWindowInPatternSpan | ffxivfishing/src/fish.rs:119-131 | a window found lies within the 8-bell span from an instant w at which the pattern holds; w ≥ 8 bells, and once `time` ≥ 8 bells, w has the same offset within its period as `time` |
| FishWindow.NextWindowIsFirstHit | ffxivfishing/src/fish.rs:119-131 | a window found is the overlap of the fish's day window j periods after `time` with the 8-bell span the pattern search found from there, for the first j below limit at which they meet; at every earlier j the search found a span that its day window missed |
| FishWindow.NextWindowInDayWindow | ffxivfishing/src/fish.rs:119-131 | a window found, by either search, lies within the fish's time-of-day window on the day j periods after `time`, for some j below limit |
| FishWindow.Fish.NextWindowAligned | ffxivfishing/src/fish.rs:119-131 | the corrected window search, using the aligned pattern search: limit 0 gives None, and a window found is at most one weather period long |
| FishWindow.NextWindowAlignedIsFirstHit | ffxivfishing/src/fish.rs:119-131 | the same first-hit characterisation for the corrected search, with the aligned pattern search |
| FishWindow.NextWindowIffFirstHit | ffxivfishing/src/fish.rs:119-131 | `next_window` returns `o` exactly when `o` is the overlap of the first attempt below limit that meets its day window, and returns None exactly when there is no such attempt, every attempt before it having found a span its day window missed (a pattern search that finds nothing ends the search) |
| FishWindow.NextWindowAlignedIffFirstHit | ffxivfishing/src/fish.rs:119-131 | the same if-and-only-if for the corrected search: a window is returned exactly when some attempt below limit hits, and it is the first hit |
| FishWindow.FindsHitAt | ffxivfishing/src/fish.rs:119-131 | if the attempt j periods after `time` (j below limit) meets its day window and every earlier attempt found a span that missed, `next_window` returns that overlap |
| FishWindow.AlignedFindsHitAt | ffxivfishing/src/fish.rs:119-131 | the same converse for the corrected search |
| FishWindow.NextWindowAlignedInPeriod | ffxivfishing/src/fish.rs:119-131 | with the aligned search, a window found lies between a period boundary and the next, and the weather sampled at that boundary, and at the boundary one period before, matches the pattern |
| FishWindow.NextWindowAgreeOnBoundary | ffxivfishing/src/fish.rs:119-131 | searched from a period boundary, the search as written and the corrected search give the same window |
| FishWindow.NextWindowTestAsWritten | ffxivfishing/src/fish.rs:138-175 | as written, the 1–2 bell Clouds window searched from 93600 esec gives the zero-length span at 180000 esec (sun 3 02:00) |
| FishWindow.NextWindowTestAligned | ffxivfishing/src/fish.rs:138-175 | with the aligned search, the same query gives sun 3 01:00–02:00 (176400–180000 esec), as the test expects |
| FishWindow.NextWindowBorderTest | ffxivfishing/src/fish.rs:177-214 | the 7:30–8:30 window searched from sun 2 00:00 is clipped by the period boundary to sun 3 7:30–8:00 (199800–201600 esec) |

## Left out

- EorzeaTime.from_time and the `SystemTime` plumbing: conversions from a real clock, which
  the model takes as an integer input.
- EorzeaClock.EorzeaTime.ToUnixSeconds: the f64 scaling by 3600/175 is idealised as
  exact rounding half up, `(ts·7 + 72) / 144`. Binary floating point can round the other way
  on exact ties; none of the cited examples is such a tie.
- Sub-second precision of `SystemTime`: the model counts whole seconds.
- EorzeaClock.EorzeaTime.Round, EorzeaClock.EorzeaTime.SubAssign, and `+=`: the source
  mutates a `Copy` value through `&mut self`. The model returns the new value, and the caller
  rebinds it.
- EorzeaClock.EorzeaDuration.Rem: a zero divisor panics in the source. Here it is a
  precondition.
- WeatherModel.WeatherForecast.Score: the modulus is the largest threshold. A table whose
  largest threshold is 0 makes the source panic on `% 0`. Here `MaxScore() > 0` is a
  precondition.
- UnixWeather.WeatherForecast.FindPattern: an instant before the epoch makes the source
  panic in `unwrap`. Here `start >= 0` is a precondition.
- EorzeaClock.EorzeaDuration.NewExt: the source computes in u64 after adding one to each of
  year, moon and sun as u16/u8. The preconditions year < 65535, moon < 255 and sun < 255
  exclude the inputs on which that addition overflows (a panic in debug builds).
- u64 overflow of timestamps and durations is not modelled: instants are unbounded naturals.
  `Year()` models the truncating cast to u16 explicitly.
- The weather function: the forecast's weather is passed to the searches as a ghost function
  of the instant, tied to the forecast by `IsWeatherOf`. The searches read the weather
  through it.
- `EorzeaTime::from_esecs` and `EorzeaDuration::from_esecs`: these are the datatype
  constructors. `EorzeaDuration`'s field accessors and `total_seconds` are left out; nothing
  in the search reads them.
- Display formatting of instants, durations and spans.
- The descriptive attributes of a fish: tug, hookset, lure, bait, intuition, patch and flags.
  `Fish` keeps only what the window search reads.
- The JSON game-data loader (carbuncledata.rs) and the terminal interface: both are
  parsing and I/O.

## Findings

| source | as written | input that shows it | evidently intended | confidence | as-written member | corrected member |
|---|---|---|---|---|---|---|
| ffxivfishing/src/weather.rs:53 | `find_pattern` starts 8 bells before `start` without rounding to the weather period, so its candidates keep the offset of `start` within the period (the older revision rounds first, lib.rs:68-70). `next_window` then intersects the day's window with a span that straddles two weather periods. | the first window test (fish.rs:138-175): Clouds-after-Clouds fish with a 1–2 bell window, searched from 93600 esec with limit 1000, gives the zero-length span at 180000 esec | candidates on period boundaries, giving sun 3 01:00–02:00 (176400–180000 esec) as the test expects | not executed | WeatherModel.PatternSearchKeepsPhase, WeatherExamples.OffBoundarySearchExample, FishWindow.NextWindowInPatternSpan, FishWindow.NextWindowTestAsWritten | WeatherModel.AlignedPatternSearchMatches, FishWindow.NextWindowAlignedInPeriod, FishWindow.NextWindowAgreeOnBoundary, FishWindow.NextWindowTestAligned |
