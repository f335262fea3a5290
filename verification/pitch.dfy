/** The pitch-assignment policy of the spike sonifier: one MIDI pitch per
    unit, chosen by a mode. The module-level settings the converter reads
    (custom pitch table, default pitch, pitch range, unit cap) are an
    explicit `PitchConfig` here.

    The source computes `spread` and `firing_rate` in IEEE doubles; the model
    computes them over exact reals, so rounding in the division and the
    multiplication is abstracted away. */
module Pitch {
  import opened Results

  /** The pitch modes the converter recognises; any other label is `Other`. */
  datatype Mode = Custom | Spread | Octaves | FiringRate | Random | Other

  /** The labels the converter recognises. */
  const Labels: set<string> := {"custom", "spread", "octaves", "firing_rate", "random"}

  /** The label that selects each recognised mode. */
  function LabelOf(m: Mode): (name: string)
    requires m != Other
    ensures name in Labels
  {
    match m
    case Custom => "custom"
    case Spread => "spread"
    case Octaves => "octaves"
    case FiringRate => "firing_rate"
    case Random => "random"
  }

  /** The mode a label selects: the labels are compared as exact strings,
      and every other label falls through to `Other`. */
  function ModeOf(modeName: string): (m: Mode)
    ensures m == Other <==> modeName !in Labels
    ensures m != Other ==> LabelOf(m) == modeName
  {
    if modeName == "custom" then Custom
    else if modeName == "spread" then Spread
    else if modeName == "octaves" then Octaves
    else if modeName == "firing_rate" then FiringRate
    else if modeName == "random" then Random
    else Other
  }

  datatype PitchConfig = PitchConfig(
    customPitches: map<int, int>,  // unit position -> pitch, for `custom`
    defaultPitch: int,             // fallback pitch
    minPitch: int,                 // low end of the pitch range
    maxPitch: int,                 // high end of the pitch range
    maxUnits: int)                 // the module-wide unit cap `spread` divides by

  /** The values the script ships with. */
  const ShippedConfig := PitchConfig(
    map[0 := 60, 1 := 64, 2 := 67, 3 := 72, 4 := 55, 5 := 69],
    60, 48, 84, 16)

  /** The lowest pitch of `octaves` mode (C3). */
  const OctaveBase := 48

  /** The firing rate, in spikes per second, that maps to the top of the
      pitch range. */
  const RateCeiling: real := 50.0

  /** Python's `int(x)` on a float: truncation toward zero. */
  function Trunc(x: real): (r: int)
    ensures x >= 0.0 ==> r as real <= x < r as real + 1.0
    ensures x < 0.0 ==> r as real - 1.0 < x <= r as real
  {
    if x >= 0.0 then x.Floor else -((-x).Floor)
  }

  /** `int(lo + t * (hi - lo))`: position `t` of the way from `lo` to `hi`. */
  function Interpolate(lo: int, hi: int, t: real): int {
    Trunc(lo as real + t * (hi - lo) as real)
  }

  // ---------------------------------------------------------------------
  // The modes
  // ---------------------------------------------------------------------

  function CustomPitch(cfg: PitchConfig, idx: int): int {
    if idx in cfg.customPitches then cfg.customPitches[idx] else cfg.defaultPitch
  }

  /** `idx / max(MAX_UNITS - 1, 1)`, as a true division. */
  function SpreadPosition(cfg: PitchConfig, idx: int): real {
    idx as real / Max(cfg.maxUnits - 1, 1) as real
  }

  function SpreadPitch(cfg: PitchConfig, idx: int): int {
    Interpolate(cfg.minPitch, cfg.maxPitch, SpreadPosition(cfg, idx))
  }

  /** Python's `//` and `%` by 12 floor and take the divisor's sign; with a
      positive divisor they agree with Dafny's Euclidean `/` and `%`, so the
      pitch is the base plus the position, for every position. */
  function OctavesPitch(idx: int): (r: int)
    ensures r == OctaveBase + idx
  {
    var octave := (idx / 12) * 12;
    var noteInOctave := idx % 12;
    OctaveBase + octave + noteInOctave
  }

  /** Spikes per second between the first and the last spike, or 0 when
      that span is not positive. */
  function SpikeRate(spikes: seq<real>): (rate: real)
    requires |spikes| > 0
    ensures rate >= 0.0
  {
    var duration := spikes[|spikes| - 1] - spikes[0];
    if duration > 0.0 then |spikes| as real / duration else 0.0
  }

  /** `min(rate / 50.0, 1.0)`. */
  function RateFraction(spikes: seq<real>): (t: real)
    requires |spikes| > 0
    ensures 0.0 <= t <= 1.0
  {
    var x := SpikeRate(spikes) / RateCeiling;
    if x <= 1.0 then x else 1.0
  }

  function FiringRatePitch(cfg: PitchConfig, spikes: seq<real>): int {
    if |spikes| > 0 then Interpolate(cfg.minPitch, cfg.maxPitch, RateFraction(spikes))
    else cfg.defaultPitch
  }

  /** The pitch for the unit at position `idx` with identifier `unitId` and
      (unscaled) spike times `spikes`. `seededRandInt(seed, lo, hi)` stands
      for seeding NumPy's global generator with `seed` and drawing
      `randint(lo, hi)`; it is supplied by the caller. */
  function PitchForUnit(cfg: PitchConfig, mode: Mode, idx: int, unitId: int,
                        spikes: seq<real>, seededRandInt: (int, int, int) -> int): (p: int)
    ensures mode == Custom && idx in cfg.customPitches ==> p == cfg.customPitches[idx]
    ensures mode == Custom && idx !in cfg.customPitches ==> p == cfg.defaultPitch
    ensures mode == Spread && cfg.minPitch <= cfg.maxPitch && 0 <= idx <= Max(cfg.maxUnits - 1, 1)
      ==> cfg.minPitch <= p <= cfg.maxPitch
    ensures mode == Octaves ==> p == OctaveBase + idx
    ensures mode == FiringRate && |spikes| == 0 ==> p == cfg.defaultPitch
    ensures mode == FiringRate && |spikes| > 0 && cfg.minPitch <= cfg.maxPitch
      ==> cfg.minPitch <= p <= cfg.maxPitch
    ensures mode == Random ==> p == seededRandInt(unitId, cfg.minPitch, cfg.maxPitch + 1)
    ensures mode == Other ==> p == cfg.defaultPitch
  {
    match mode
    case Custom => CustomPitch(cfg, idx)
    case Spread =>
      if cfg.minPitch <= cfg.maxPitch && 0 <= idx <= Max(cfg.maxUnits - 1, 1) then
        SpreadBounds(cfg, idx);
        SpreadPitch(cfg, idx)
      else SpreadPitch(cfg, idx)
    case Octaves => OctavesPitch(idx)
    case FiringRate =>
      if |spikes| > 0 && cfg.minPitch <= cfg.maxPitch then
        InterpolateBounds(cfg.minPitch, cfg.maxPitch, RateFraction(spikes));
        FiringRatePitch(cfg, spikes)
      else FiringRatePitch(cfg, spikes)
    case Random => seededRandInt(unitId, cfg.minPitch, cfg.maxPitch + 1)
    case Other => cfg.defaultPitch
  }

  // ---------------------------------------------------------------------
  // Interpolation
  // ---------------------------------------------------------------------

  /** Truncation keeps the order of its arguments. */
  lemma TruncMonotone(x: real, y: real)
    requires x <= y
    ensures Trunc(x) <= Trunc(y)
  {
  }

  /** Truncating a value that lies between two integers stays between them. */
  lemma TruncBetween(lo: int, hi: int, x: real)
    requires lo as real <= x <= hi as real
    ensures lo <= Trunc(x) <= hi
  {
  }

  /** Scaling by a non-negative factor keeps order. */
  lemma ScaleMonotone(a: real, b: real, c: real)
    requires a <= b && c >= 0.0
    ensures a * c <= b * c
  {
    assert b * c - a * c == (b - a) * c;
  }

  /** Scaling by a non-negative factor and then shifting keeps order. */
  lemma OffsetScaleMonotone(base: real, a: real, b: real, c: real)
    requires a <= b && c >= 0.0
    ensures base + a * c <= base + b * c
  {
    ScaleMonotone(a, b, c);
  }

  /** A fraction in [0, 1] of a non-negative length stays within it. */
  lemma ScaleWithin(t: real, d: real)
    requires 0.0 <= t <= 1.0 && d >= 0.0
    ensures 0.0 <= t * d <= d
  {
    ScaleMonotone(0.0, t, d);
    assert 0.0 * d == 0.0;
    ScaleMonotone(t, 1.0, d);
    assert 1.0 * d == d;
  }

  /** A position in [0, 1] lands in the pitch range. */
  lemma InterpolateBounds(lo: int, hi: int, t: real)
    requires lo <= hi && 0.0 <= t <= 1.0
    ensures lo <= Interpolate(lo, hi, t) <= hi
  {
    InterpolateUnfold(lo, hi, t);
    var x := lo as real + t * (hi - lo) as real;
    OffsetWithin(x, lo, hi, t);
    TruncBetween(lo, hi, x);
  }

  /** Position `t` in [0, 1] of the way from `lo` to `hi` lies between them. */
  lemma OffsetWithin(x: real, lo: int, hi: int, t: real)
    requires x == lo as real + t * (hi - lo) as real
    requires lo <= hi && 0.0 <= t <= 1.0
    ensures lo as real <= x <= hi as real
  {
    ScaleWithin(t, (hi - lo) as real);
  }

  /** Truncation after an order-keeping scale and shift keeps order. */
  lemma TruncOffsetMonotone(base: real, a: real, b: real, c: real)
    requires a <= b && c >= 0.0
    ensures Trunc(base + a * c) <= Trunc(base + b * c)
  {
    var x, y := base + a * c, base + b * c;
    TruncOrdered(x, y, base, a, b, c);
  }

  /** Two values that are the same scale and shift of ordered positions
      truncate in order. */
  lemma TruncOrdered(x: real, y: real, base: real, a: real, b: real, c: real)
    requires x == base + a * c && y == base + b * c
    requires a <= b && c >= 0.0
    ensures Trunc(x) <= Trunc(y)
  {
    OffsetScaleMonotone(base, a, b, c);
    TruncMonotone(x, y);
  }

  /** A later position never gives a lower pitch. */
  lemma InterpolateMonotone(lo: int, hi: int, t1: real, t2: real)
    requires lo <= hi && t1 <= t2
    ensures Interpolate(lo, hi, t1) <= Interpolate(lo, hi, t2)
  {
    InterpolateUnfold(lo, hi, t1);
    InterpolateUnfold(lo, hi, t2);
    TruncOffsetMonotone(lo as real, t1, t2, (hi - lo) as real);
  }

  /** Names the truncated value, so callers need not unfold the definition. */
  lemma InterpolateUnfold(lo: int, hi: int, t: real)
    ensures Interpolate(lo, hi, t) == Trunc(lo as real + t * (hi - lo) as real)
  {
  }

  // ---------------------------------------------------------------------
  // Properties of the modes
  // ---------------------------------------------------------------------

  /** `custom` looks the position up and falls back to the default; the
      unit's identifier and spikes play no part. */
  lemma CustomIgnoresUnit(cfg: PitchConfig, idx: int, id1: int, id2: int,
                          s1: seq<real>, s2: seq<real>, g1: (int, int, int) -> int, g2: (int, int, int) -> int)
    ensures PitchForUnit(cfg, Custom, idx, id1, s1, g1) == PitchForUnit(cfg, Custom, idx, id2, s2, g2)
    ensures PitchForUnit(cfg, Custom, idx, id1, s1, g1)
      == (if idx in cfg.customPitches then cfg.customPitches[idx] else cfg.defaultPitch)
  {
  }

  /** For positions 0 .. max(MAX_UNITS - 1, 1), `spread` stays inside the
      pitch range. */
  lemma SpreadBounds(cfg: PitchConfig, idx: int)
    requires cfg.minPitch <= cfg.maxPitch
    requires 0 <= idx <= Max(cfg.maxUnits - 1, 1)
    ensures cfg.minPitch <= SpreadPitch(cfg, idx) <= cfg.maxPitch
  {
    var d := Max(cfg.maxUnits - 1, 1) as real;
    assert SpreadPosition(cfg, idx) <= 1.0 by {
      assert idx as real <= d;
    }
    InterpolateBounds(cfg.minPitch, cfg.maxPitch, SpreadPosition(cfg, idx));
  }

  /** `spread` never gives a later unit a lower pitch. */
  lemma SpreadMonotone(cfg: PitchConfig, i: int, j: int)
    requires cfg.minPitch <= cfg.maxPitch
    requires i <= j
    ensures SpreadPitch(cfg, i) <= SpreadPitch(cfg, j)
  {
    var d := Max(cfg.maxUnits - 1, 1) as real;
    assert i as real / d <= j as real / d;
    InterpolateMonotone(cfg.minPitch, cfg.maxPitch, SpreadPosition(cfg, i), SpreadPosition(cfg, j));
  }

  /** The first unit gets the bottom of the range, and the unit at position
      MAX_UNITS - 1 the top (position 1 when MAX_UNITS is below 2). */
  lemma SpreadEnds(cfg: PitchConfig)
    ensures SpreadPitch(cfg, 0) == cfg.minPitch
    ensures SpreadPitch(cfg, Max(cfg.maxUnits - 1, 1)) == cfg.maxPitch
    ensures cfg.maxUnits >= 2 ==> SpreadPitch(cfg, cfg.maxUnits - 1) == cfg.maxPitch
  {
    var d := Max(cfg.maxUnits - 1, 1);
    assert SpreadPosition(cfg, d) == 1.0;
    assert SpreadPosition(cfg, 0) == 0.0;
  }

  /** `octaves` starts at C3 and twelve positions on is one octave up. */
  lemma OctavesStep(idx: int)
    ensures OctavesPitch(0) == OctaveBase
    ensures OctavesPitch(idx + 12) == OctavesPitch(idx) + 12
  {
  }

  /** With spikes, `firing_rate` stays inside the pitch range; a rate at or
      above the ceiling gives the top of the range and a span that is not
      positive (one spike, or unsorted times) gives the bottom. */
  lemma FiringRateRange(cfg: PitchConfig, spikes: seq<real>)
    requires |spikes| > 0 && cfg.minPitch <= cfg.maxPitch
    ensures cfg.minPitch <= FiringRatePitch(cfg, spikes) <= cfg.maxPitch
    ensures spikes[|spikes| - 1] - spikes[0] <= 0.0 ==> FiringRatePitch(cfg, spikes) == cfg.minPitch
    ensures SpikeRate(spikes) >= RateCeiling ==> FiringRatePitch(cfg, spikes) == cfg.maxPitch
  {
    InterpolateBounds(cfg.minPitch, cfg.maxPitch, RateFraction(spikes));
  }

  /** Higher firing rate, higher pitch: with spikes on both sides, a rate
      no greater than another never gives a higher pitch. */
  lemma FiringRateMonotone(cfg: PitchConfig, a: seq<real>, b: seq<real>)
    requires |a| > 0 && |b| > 0 && cfg.minPitch <= cfg.maxPitch
    requires SpikeRate(a) <= SpikeRate(b)
    ensures FiringRatePitch(cfg, a) <= FiringRatePitch(cfg, b)
  {
    assert RateFraction(a) <= RateFraction(b);
    InterpolateMonotone(cfg.minPitch, cfg.maxPitch, RateFraction(a), RateFraction(b));
  }

  /** A recognised label and its mode determine each other. */
  lemma ModeOfLabel(m: Mode)
    requires m != Other
    ensures ModeOf(LabelOf(m)) == m
  {
    match m
    case Custom =>
    case Spread =>
    case Octaves =>
    case FiringRate =>
    case Random =>
  }

  /** The default pitch is what `firing_rate` gives a unit without spikes
      and what an unrecognised mode label gives any unit; neither fails. */
  lemma DefaultFallback(cfg: PitchConfig, modeName: string, idx: int, unitId: int,
                        spikes: seq<real>, g: (int, int, int) -> int)
    requires modeName !in Labels
    ensures PitchForUnit(cfg, FiringRate, idx, unitId, [], g) == cfg.defaultPitch
    ensures PitchForUnit(cfg, ModeOf(modeName), idx, unitId, spikes, g) == cfg.defaultPitch
  {
  }

  /** `random` draws from a generator seeded with the unit's identifier only:
      two units with the same identifier get the same pitch whatever their
      position and spikes. */
  lemma RandomDependsOnIdentifier(cfg: PitchConfig, i1: int, i2: int, unitId: int,
                                  s1: seq<real>, s2: seq<real>, g: (int, int, int) -> int)
    ensures PitchForUnit(cfg, Random, i1, unitId, s1, g) == PitchForUnit(cfg, Random, i2, unitId, s2, g)
  {
  }

  /** `spread` divides by the module-wide MAX_UNITS, not by the number of
      units converted, so a conversion allowed more units than that places
      the later ones above the range: with the shipped settings the unit at
      position 31 gets pitch 122, past the top of 84. */
  lemma SpreadOverrun()
    ensures SpreadPitch(ShippedConfig, 31) == 122
    ensures SpreadPitch(ShippedConfig, 31) > ShippedConfig.maxPitch
  {
    assert SpreadPosition(ShippedConfig, 31) == 31.0 / 15.0;
    assert 48.0 + (31.0 / 15.0) * 36.0 == 122.4;
  }

  /** `octaves` is unbounded: from position 80 on it gives pitches above
      127, outside MIDI's note range. Writing such a note makes the MIDI
      writer fail, which is not part of this model. */
  lemma OctavesLeaveMidiRange(idx: int)
    requires idx >= 80
    ensures OctavesPitch(idx) > 127
  {
  }
}
