/** The Eorzea calendar: absolute instants, durations and spans, all counted in whole
    Eorzea seconds (esec). Calendar fields are derived by division and remainder with
    fixed unit sizes: 60 seconds, 60 minutes, 24 bells, 32 suns, 12 moons. */
module EorzeaClock {
  import opened Primitives

  const MINUTE_IN_ESEC: nat := 60
  const BELL_IN_ESEC: nat := 3600       // 60 minutes
  const SUN_IN_ESEC: nat := 86400       // 24 bells
  const MOON_IN_ESEC: nat := 2764800    // 32 suns
  const YEAR_IN_ESEC: nat := 33177600   // 12 moons

  /** Largest year a u16 holds; instants of later years wrap in `Year()`. */
  const MAX_YEAR: nat := 0xFFFF

  datatype CreationError = ValueOutOfBounds

  datatype DurationError = DurationError

  /** A non-negative offset in esec. */
  datatype EorzeaDuration = EorzeaDuration(esec: nat)
  {
    /** A duration of `bell` hours, `minute` minutes and `second` seconds, validated as the
        time of day of an instant is. */
    static function New(bell: u8, minute: u8, second: u8): (r: Result<EorzeaDuration, CreationError>)
      ensures r.Err? <==> bell >= 24 || minute >= 60 || second >= 60
      ensures r.Ok? ==> r.value.esec == bell as int * BELL_IN_ESEC + minute as int * MINUTE_IN_ESEC + second as int
      ensures r.Ok? ==> r.value.esec < SUN_IN_ESEC
    {
      match EorzeaTime.New(1, 1, 1, bell, minute, second)
      case Ok(et) => Ok(EorzeaDuration(et.timestamp))
      case Err(e) => Err(e)
    }

    /** A duration given as whole years, moons and suns plus a time of day. The source adds
        one to year, moon and sun in their own widths, which overflows (a panic) at the
        top of each range; callers never pass those values. */
    static function NewExt(year: u16, moon: u8, sun: u8, bell: u8, minute: u8, second: u8)
      : (r: Result<EorzeaDuration, CreationError>)
      requires year as int < 0xFFFF && moon as int < 0xFF && sun as int < 0xFF
      ensures r.Err? <==> moon >= 12 || sun >= 32 || bell >= 24 || minute >= 60 || second >= 60
      ensures r.Ok? ==> r.value.esec == year as int * YEAR_IN_ESEC + moon as int * MOON_IN_ESEC
                                        + sun as int * SUN_IN_ESEC + bell as int * BELL_IN_ESEC
                                        + minute as int * MINUTE_IN_ESEC + second as int
    {
      match EorzeaTime.New(year + 1, moon + 1, sun + 1, bell, minute, second)
      case Ok(et) => Ok(EorzeaDuration(et.timestamp))
      case Err(e) => Err(e)
    }

    /** The remainder of this duration modulo `rhs`; a zero `rhs` panics in the source. */
    function Rem(rhs: EorzeaDuration): (r: EorzeaDuration)
      requires rhs.esec > 0
      ensures r.esec < rhs.esec
      ensures (esec - r.esec) % rhs.esec == 0
      ensures esec < rhs.esec ==> r == this
    {
      DivModUnique(esec - esec % rhs.esec, rhs.esec, esec / rhs.esec, 0);
      EorzeaDuration(esec % rhs.esec)
    }
  }

  const EORZEA_WEATHER_PERIOD: EorzeaDuration := EorzeaDuration(28800)   // 8 bells
  const EORZEA_SUN: EorzeaDuration := EorzeaDuration(SUN_IN_ESEC)

  /** An absolute instant: esec elapsed since 0001-01-01 00:00:00. */
  datatype EorzeaTime = EorzeaTime(timestamp: nat)
  {
    /** The year, cast to u16 as the source does (it wraps past year 65535). */
    function Year(): (y: u16)
      ensures (1 + timestamp / YEAR_IN_ESEC - y as int) % 0x1_0000 == 0
      ensures timestamp < MAX_YEAR * YEAR_IN_ESEC ==> (y as int - 1) * YEAR_IN_ESEC <= timestamp < y as int * YEAR_IN_ESEC
    {
      ((1 + timestamp / YEAR_IN_ESEC) % 0x1_0000) as u16
    }

    function Moon(): (m: u8)
      ensures 1 <= m <= 12
    {
      (1 + timestamp / MOON_IN_ESEC % 12) as u8
    }

    function Sun(): (s: u8)
      ensures 1 <= s <= 32
    {
      (1 + timestamp / SUN_IN_ESEC % 32) as u8
    }

    function Bell(): (b: u8)
      ensures b < 24
    {
      (timestamp / BELL_IN_ESEC % 24) as u8
    }

    function Minute(): (m: u8)
      ensures m < 60
    {
      (timestamp / MINUTE_IN_ESEC % 60) as u8
    }

    function Second(): (s: u8)
      ensures s < 60
    {
      (timestamp % 60) as u8
    }

    /** The instant with the given calendar fields, or ValueOutOfBounds when one of them is
        outside its range. The guards are tried in the source's order. */
    static function New(year: u16, moon: u8, sun: u8, bell: u8, minute: u8, second: u8)
      : (r: Result<EorzeaTime, CreationError>)
      ensures r.Err? <==> year == 0 || moon == 0 || moon > 12 || sun == 0 || sun > 32
                          || bell >= 24 || minute >= 60 || second >= 60
      ensures r.Ok? ==> r.value.timestamp < MAX_YEAR * YEAR_IN_ESEC
    {
      if year == 0 then Err(ValueOutOfBounds)
      else if moon == 0 || moon > 12 then Err(ValueOutOfBounds)
      else if sun == 0 || sun > 32 then Err(ValueOutOfBounds)
      else if bell >= 24 then Err(ValueOutOfBounds)
      else if minute >= 60 then Err(ValueOutOfBounds)
      else if second >= 60 then Err(ValueOutOfBounds)
      else Ok(EorzeaTime((year as int - 1) * YEAR_IN_ESEC
                         + (moon as int - 1) * MOON_IN_ESEC
                         + (sun as int - 1) * SUN_IN_ESEC
                         + bell as int * BELL_IN_ESEC
                         + minute as int * MINUTE_IN_ESEC
                         + second as int))
    }

    /** `self + d` (and `self += d`, which rebinds the same value). */
    function Add(d: EorzeaDuration): EorzeaTime {
      EorzeaTime(timestamp + d.esec)
    }

    /** `self - d`, saturating at the epoch. */
    function Sub(d: EorzeaDuration): (r: EorzeaTime)
      ensures r.timestamp <= timestamp
      ensures d.esec <= timestamp ==> r.timestamp + d.esec == timestamp
      ensures d.esec > timestamp ==> r.timestamp == 0
    {
      if timestamp < d.esec then EorzeaTime(0) else EorzeaTime(timestamp - d.esec)
    }

    /** `self -= d`: the value left in the variable, which is untouched when `d` is larger. */
    function SubAssign(d: EorzeaDuration): (r: EorzeaTime)
      ensures d.esec <= timestamp ==> r.timestamp + d.esec == timestamp
      ensures d.esec > timestamp ==> r == this
    {
      if timestamp < d.esec then this else EorzeaTime(timestamp - d.esec)
    }

    /** `self.round(d)`: the value left in the variable, truncated down to a multiple of
        `d`; a zero `d` panics in the source. */
    function Round(d: EorzeaDuration): (r: EorzeaTime)
      requires d.esec > 0
      ensures r.timestamp % d.esec == 0
      ensures r.timestamp <= timestamp < r.timestamp + d.esec
    {
      DivModUnique(timestamp - timestamp % d.esec, d.esec, timestamp / d.esec, 0);
      EorzeaTime(timestamp - timestamp % d.esec)
    }

    /** `to_system_time`, as whole seconds after the Unix epoch: the instant scaled by
        175/3600 and rounded to the nearest second, halves upward. */
    function ToUnixSeconds(): (u: nat)
      ensures -72 <= timestamp * 7 - u * 144 < 72
    {
      (timestamp * 7 + 72) / 144
    }

    /** The duration from `other` to this instant; an error when `other` is later. */
    function DurationSince(other: EorzeaTime): (r: Result<EorzeaDuration, DurationError>)
      ensures r.Err? <==> other.timestamp > timestamp
      ensures r.Ok? ==> other.Add(r.value) == this
    {
      if other.timestamp > timestamp then Err(DurationError)
      else Ok(EorzeaDuration(timestamp - other.timestamp))
    }
  }

  /** `std::cmp::max` and `min` on instants (ordered by timestamp). */
  function Later(a: EorzeaTime, b: EorzeaTime): EorzeaTime {
    if a.timestamp <= b.timestamp then b else a
  }

  function Earlier(a: EorzeaTime, b: EorzeaTime): EorzeaTime {
    if a.timestamp <= b.timestamp then a else b
  }

  /** A closed interval of instants: `start` and `start + duration`. */
  datatype EorzeaTimeSpan = EorzeaTimeSpan(start: EorzeaTime, duration: EorzeaDuration)
  {
    function End(): EorzeaTime {
      start.Add(duration)
    }

    predicate Contains(t: EorzeaTime) {
      start.timestamp <= t.timestamp <= End().timestamp
    }

    /** The span from `start` to `end`; an error when `end` precedes `start`. */
    static function NewStartEnd(start: EorzeaTime, end: EorzeaTime): (r: Result<EorzeaTimeSpan, DurationError>)
      ensures r.Err? <==> end.timestamp < start.timestamp
      ensures r.Ok? ==> r.value.start == start && r.value.End() == end
    {
      match end.DurationSince(start)
      case Ok(d) => Ok(EorzeaTimeSpan(start, d))
      case Err(e) => Err(e)
    }

    /** The common part of two spans, from the later start to the earlier end; an error
        when the spans share no instant. Touching spans share one instant and give a
        zero-length span. */
    function Overlap(other: EorzeaTimeSpan): (r: Result<EorzeaTimeSpan, DurationError>)
      ensures r.Ok? ==> r.value.start == Later(start, other.start)
      ensures r.Ok? ==> r.value.End() == Earlier(End(), other.End())
      ensures r.Err? <==> Earlier(End(), other.End()).timestamp < Later(start, other.start).timestamp
    {
      NewStartEnd(Later(start, other.start), Earlier(End(), other.End()))
    }
  }

  /** The overlap holds exactly the instants both spans contain, and there is none
      exactly when the spans share no instant. */
  lemma OverlapContains(a: EorzeaTimeSpan, b: EorzeaTimeSpan)
    ensures var r := a.Overlap(b);
            && (r.Ok? ==> forall t :: r.value.Contains(t) <==> a.Contains(t) && b.Contains(t))
            && (r.Err? <==> forall t :: !(a.Contains(t) && b.Contains(t)))
  {
    var lo := Later(a.start, b.start);
    assert a.Overlap(b).Ok? ==> a.Contains(lo) && b.Contains(lo);
  }

  // ---------------------------------------------------------------------------
  // Properties of the calendar

  /** The calendar fields of a successfully built instant are the ones it was built from. */
  lemma {:induction false} NewRoundTrip(year: u16, moon: u8, sun: u8, bell: u8, minute: u8, second: u8)
    requires EorzeaTime.New(year, moon, sun, bell, minute, second).Ok?
    ensures var t := EorzeaTime.New(year, moon, sun, bell, minute, second).value;
            t.Year() == year && t.Moon() == moon && t.Sun() == sun
            && t.Bell() == bell && t.Minute() == minute && t.Second() == second
  {
    var t := EorzeaTime.New(year, moon, sun, bell, minute, second).value;
    var ts := t.timestamp;
    var y, m, s := year as int - 1, moon as int - 1, sun as int - 1;
    var b, mi, se := bell as int, minute as int, second as int;
    var q3 := y * 12 + m;
    var q2 := q3 * 32 + s;
    var q1 := q2 * 24 + b;
    var q0 := q1 * 60 + mi;
    assert ts == q0 * 60 + se;
    DivModUnique(ts, 60, q0, se);
    DivModUnique(q0, 60, q1, mi);
    DivModUnique(ts, BELL_IN_ESEC, q1, mi * 60 + se);
    DivModUnique(q1, 24, q2, b);
    DivModUnique(ts, SUN_IN_ESEC, q2, b * BELL_IN_ESEC + mi * 60 + se);
    DivModUnique(q2, 32, q3, s);
    DivModUnique(ts, MOON_IN_ESEC, q3, s * SUN_IN_ESEC + b * BELL_IN_ESEC + mi * 60 + se);
    DivModUnique(q3, 12, y, m);
    DivModUnique(ts, YEAR_IN_ESEC, y, m * MOON_IN_ESEC + s * SUN_IN_ESEC + b * BELL_IN_ESEC + mi * 60 + se);
  }

  /** Every instant before year 65535 is built by `New` from its own calendar fields. */
  lemma {:induction false} FieldsRoundTrip(t: EorzeaTime)
    requires t.timestamp < MAX_YEAR * YEAR_IN_ESEC
    ensures EorzeaTime.New(t.Year(), t.Moon(), t.Sun(), t.Bell(), t.Minute(), t.Second()) == Ok(t)
  {
    var ts := t.timestamp;
    var q5, r5 := ts / 60, ts % 60;
    var q4, r4 := q5 / 60, q5 % 60;
    var q3, r3 := q4 / 24, q4 % 24;
    var q2, r2 := q3 / 32, q3 % 32;
    var q1, r1 := q2 / 12, q2 % 12;
    assert ts == q1 * YEAR_IN_ESEC + r1 * MOON_IN_ESEC + r2 * SUN_IN_ESEC + r3 * BELL_IN_ESEC + r4 * 60 + r5;
    DivModUnique(ts, BELL_IN_ESEC, q4, r4 * 60 + r5);
    DivModUnique(ts, SUN_IN_ESEC, q3, r3 * BELL_IN_ESEC + r4 * 60 + r5);
    DivModUnique(ts, MOON_IN_ESEC, q2, r2 * SUN_IN_ESEC + r3 * BELL_IN_ESEC + r4 * 60 + r5);
    DivModUnique(ts, YEAR_IN_ESEC, q1, r1 * MOON_IN_ESEC + r2 * SUN_IN_ESEC + r3 * BELL_IN_ESEC + r4 * 60 + r5);
    assert q1 < MAX_YEAR;
    assert t.Year() as int == q1 + 1;
  }

  /** The last second of year 1 is one second before year 2. */
  lemma NewLastSecondOfYear()
    ensures EorzeaTime.New(1, 12, 32, 23, 59, 59) == Ok(EorzeaTime(YEAR_IN_ESEC - 1))
    ensures EorzeaTime.New(2, 1, 1, 0, 0, 0) == Ok(EorzeaTime(YEAR_IN_ESEC))
    ensures EorzeaTime.New(1, 1, 1, 0, 0, 1) == Ok(EorzeaTime(1))
  {
  }

  /** Truncating to a multiple of `d` a second time changes nothing. */
  lemma RoundIdempotent(t: EorzeaTime, d: EorzeaDuration)
    requires d.esec > 0
    ensures t.Round(d).Round(d) == t.Round(d)
  {
  }

  /** Two instants in the same `d`-aligned block round to the same instant. */
  lemma {:induction false} RoundSameBlock(t: EorzeaTime, u: EorzeaTime, d: EorzeaDuration)
    requires d.esec > 0
    requires t.timestamp / d.esec == u.timestamp / d.esec
    ensures t.Round(d) == u.Round(d)
  {
    DivModUnique(t.timestamp, d.esec, u.timestamp / d.esec, t.timestamp % d.esec);
    assert t.timestamp == (t.timestamp / d.esec) * d.esec + t.timestamp % d.esec;
    assert u.timestamp == (u.timestamp / d.esec) * d.esec + u.timestamp % d.esec;
  }

  /** Adding `d` back undoes both subtractions when `d` fits. */
  lemma SubThenAdd(t: EorzeaTime, d: EorzeaDuration)
    requires d.esec <= t.timestamp
    ensures t.Sub(d).Add(d) == t && t.SubAssign(d).Add(d) == t
  {
  }

  /** Adding a duration moves an instant forward by exactly that duration: both subtractions
      take it back off, and the duration since the old instant is the duration added. */
  lemma AddRoundTrip(t: EorzeaTime, d: EorzeaDuration)
    ensures t.timestamp <= t.Add(d).timestamp
    ensures t.Add(d).Sub(d) == t && t.Add(d).SubAssign(d) == t
    ensures t.Add(d).DurationSince(t) == Ok(d)
  {
  }

  /** A span's end is its start moved on by its duration: the span from its start to its end
      is the span itself, and it contains both. */
  lemma SpanEndRoundTrip(s: EorzeaTimeSpan)
    ensures EorzeaTimeSpan.NewStartEnd(s.start, s.End()) == Ok(s)
    ensures s.End().DurationSince(s.start) == Ok(s.duration)
    ensures s.Contains(s.start) && s.Contains(s.End())
  {
  }

  /** Subtraction saturates at zero while subtract-assign leaves the value as it was. */
  lemma SubVersusSubAssign(t: EorzeaTime, d: EorzeaDuration)
    ensures d.esec <= t.timestamp ==> t.Sub(d) == t.SubAssign(d)
    ensures d.esec > t.timestamp ==> t.Sub(d) == EorzeaTime(0) && t.SubAssign(d) == t
  {
  }

  /** Overlap is symmetric: both orders succeed or fail together, with the same span. */
  lemma OverlapCommutes(a: EorzeaTimeSpan, b: EorzeaTimeSpan)
    ensures a.Overlap(b) == b.Overlap(a)
  {
  }

  /** The overlap examples: [0,1] and [0,2] give [0,1]; [0,1] and [1,3] touch and give
      [1,1]; [0,1] and [2,3] are disjoint. */
  lemma OverlapExamples()
    ensures var s1 := EorzeaTimeSpan(EorzeaTime(0), EorzeaDuration(1));
            var s2 := EorzeaTimeSpan(EorzeaTime(0), EorzeaDuration(2));
            var s3 := EorzeaTimeSpan(EorzeaTime(1), EorzeaDuration(2));
            var s4 := EorzeaTimeSpan(EorzeaTime(2), EorzeaDuration(1));
            && s1.Overlap(s2) == Ok(EorzeaTimeSpan(EorzeaTime(0), EorzeaDuration(1)))
            && s1.Overlap(s3) == Ok(EorzeaTimeSpan(EorzeaTime(1), EorzeaDuration(0)))
            && s1.Overlap(s4).Err?
  {
    var s1 := EorzeaTimeSpan(EorzeaTime(0), EorzeaDuration(1));
    OverlapIs(s1, EorzeaTimeSpan(EorzeaTime(0), EorzeaDuration(2)), 0, 1);
    OverlapIs(s1, EorzeaTimeSpan(EorzeaTime(1), EorzeaDuration(2)), 1, 1);
    assert !(s1.Contains(EorzeaTime(2)));
  }

  /** The overlap of two spans that share the instants from `lo` to `hi`. */
  lemma OverlapIs(a: EorzeaTimeSpan, b: EorzeaTimeSpan, lo: nat, hi: nat)
    requires Later(a.start, b.start).timestamp == lo && Earlier(a.End(), b.End()).timestamp == hi
    requires lo <= hi
    ensures a.Overlap(b) == Ok(EorzeaTimeSpan(EorzeaTime(lo), EorzeaDuration(hi - lo)))
  {
  }

  /** Instants named by calendar date in the examples of the weather and fish models. */
  lemma NewExamples()
    ensures EorzeaTime.New(1, 1, 1, 0, 0, 0) == Ok(EorzeaTime(0))
    ensures EorzeaTime.New(1, 1, 24, 19, 25, 43) == Ok(EorzeaTime(2057143))
    ensures EorzeaTime.New(2, 1, 1, 0, 0, 0) == Ok(EorzeaTime(33177600))
  {
  }
}
