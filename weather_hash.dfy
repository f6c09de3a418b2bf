/** The weather score hash shared by both revisions of the weather model. It turns whole
    real (Unix) seconds into a 32-bit word by the game's own arithmetic: the
    Eorzea day number (4200 real seconds) times 100 plus the start bell of the next
    8-bell block, truncated to 32 bits and mixed with two xor-shifts in wrapping u32
    arithmetic. Each revision then reduces the word modulo its own maximum score. */
module WeatherHash {
  import opened Primitives

  /** Real seconds in one bell, one 8-bell weather period and one Eorzea day, as the
      game counts them. */
  const REAL_BELL: nat := 175
  const REAL_PERIOD: nat := 1400
  const REAL_DAY: nat := 4200

  /** `(bell + 8 - bell % 8) % 24` for `bell = u / 175`: the bell at which the 8-bell
      block after the one holding `u` starts, within its day. */
  function Increment(u: nat): (inc: nat)
    ensures inc == (8 * (u / REAL_PERIOD) + 8) % 24
    ensures inc == 0 || inc == 8 || inc == 16
  {
    var bell := u / REAL_BELL;
    BellBlock(u);
    (bell + 8 - bell % 8) % 24
  }

  /** The bell number, divided by 8, is the index of the real 1400-second period. */
  lemma {:induction false} BellBlock(u: nat)
    ensures (u / REAL_BELL) / 8 == u / REAL_PERIOD
    ensures u / REAL_BELL + 8 - (u / REAL_BELL) % 8 == 8 * (u / REAL_PERIOD) + 8
  {
    var p, r := u / REAL_PERIOD, u % REAL_PERIOD;
    DivModUnique(u, REAL_BELL, 8 * p + r / REAL_BELL, u % REAL_BELL);
    DivModUnique(u / REAL_BELL, 8, p, r / REAL_BELL);
  }

  /** `((days * 100) + inc) as u32`: the value before mixing, truncated to 32 bits. */
  function CalcBase(u: nat): bv32 {
    ((u / REAL_DAY * 100 + Increment(u)) % 0x1_0000_0000) as bv32
  }

  /** `step_1 = (b << 11) ^ b; step_2 = (step_1 >> 8) ^ step_1` in wrapping u32
      arithmetic, with `step_1` written out twice. */
  function Mix(base: bv32): bv32 {
    (((base << 11) ^ base) >> 8) ^ ((base << 11) ^ base)
  }

  /** The inverse of `Mix`: undoes the right xor-shift, then the left one. */
  function Unmix(h: bv32): bv32 {
    UnshiftLeft(UnshiftRight(h))
  }

  function UnshiftRight(h: bv32): bv32 {
    h ^ (h >> 8) ^ (h >> 16) ^ (h >> 24)
  }

  function UnshiftLeft(h: bv32): bv32 {
    h ^ (h << 11) ^ (h << 22)
  }

  /** The unreduced score of a real instant given in whole seconds since the Unix epoch. */
  function RawScore(u: nat): bv32 {
    Mix(CalcBase(u))
  }

  /** Evaluates `RawScore` at a concrete instant from the value of its base and of its
      mix, so that no large integer has to be converted to a bit-vector. */
  lemma RawScoreIs(u: nat, base: bv32, raw: bv32)
    requires base as int == (u / REAL_DAY * 100 + Increment(u)) % 0x1_0000_0000
    requires Mix(base) == raw
    ensures RawScore(u) == raw
  {
    Bv32RoundTrip(base);
  }

  lemma Bv32RoundTrip(b: bv32)
    ensures (b as int) as bv32 == b
  {
  }

  /** Mixing loses nothing: distinct bases give distinct raw scores. */
  lemma MixInvertible(b: bv32)
    ensures Unmix(Mix(b)) == b
  {
    UnshiftRightInverts((b << 11) ^ b);
    UnshiftLeftInverts(b);
  }

  lemma UnshiftRightInverts(x: bv32)
    ensures UnshiftRight((x >> 8) ^ x) == x
  {
    XorShiftRightCancels(x);
  }

  lemma UnshiftLeftInverts(x: bv32)
    ensures UnshiftLeft((x << 11) ^ x) == x
  {
    XorShiftLeftCancels(x);
  }

  // The two bit-level identities, stated without function calls so that the solver
  // decides them on bits alone.
  lemma XorShiftRightCancels(x: bv32)
    ensures ((x >> 8) ^ x) ^ (((x >> 8) ^ x) >> 8) ^ (((x >> 8) ^ x) >> 16) ^ (((x >> 8) ^ x) >> 24) == x
  {
  }

  lemma XorShiftLeftCancels(x: bv32)
    ensures ((x << 11) ^ x) ^ (((x << 11) ^ x) << 11) ^ (((x << 11) ^ x) << 22) == x
  {
  }

  /** Two instants have the same raw score exactly when they have the same base: the mix
      neither merges nor splits bases. */
  lemma RawScoreDeterminedByBase(u1: nat, u2: nat)
    ensures RawScore(u1) == RawScore(u2) <==> CalcBase(u1) == CalcBase(u2)
  {
    MixInvertible(CalcBase(u1));
    MixInvertible(CalcBase(u2));
  }

  /** The raw score depends only on the real 1400-second period holding the instant, so a
      weather condition lasts exactly one such period. */
  lemma {:induction false} RawScoreConstantOnPeriod(u1: nat, u2: nat)
    requires u1 / REAL_PERIOD == u2 / REAL_PERIOD
    ensures RawScore(u1) == RawScore(u2)
  {
    BaseConstantOnPeriod(u1, u2);
    assert CalcBase(u1) == CalcBase(u2);
  }

  lemma {:induction false} BaseConstantOnPeriod(u1: nat, u2: nat)
    requires u1 / REAL_PERIOD == u2 / REAL_PERIOD
    ensures u1 / REAL_DAY * 100 + Increment(u1) == u2 / REAL_DAY * 100 + Increment(u2)
  {
    var p := u1 / REAL_PERIOD;
    DivModUnique(u1, REAL_DAY, p / 3, p % 3 * REAL_PERIOD + u1 % REAL_PERIOD);
    DivModUnique(u2, REAL_DAY, p / 3, p % 3 * REAL_PERIOD + u2 % REAL_PERIOD);
  }

  /** The raw scores behind the score examples of both revisions. */
  lemma RawScoreExamples()
    ensures RawScore(0) == 16456
    ensures RawScore(100000) == 4697876
    ensures RawScore(1612800) == 78931678
    ensures RawScore(1741463853) == 3352044894
  {
    RawScoreIs(0, 8, 16456);
    RawScoreIs(100000, 2300, 4697876);
    RawScoreIs(1612800, 38408, 78931678);
    RawScoreIs(1741463853, 41463408, 3352044894);
  }
}
