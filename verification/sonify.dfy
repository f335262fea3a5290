/** Spike table to MIDI instruments: each processed row of the table (a unit
    with its identifier and its spike times as text) becomes one instrument
    with one note per spike, at the unit's pitch.

    Reading the table, building and writing the MIDI file are not modelled;
    `Note`, `Instrument` and `Document` are plain values standing for the
    MIDI library's objects. Parsing a spike-time token and NumPy's seeded
    random draw are supplied by the caller as `Foreign`. */
module Sonify {
  import opened Results
  import opened Text
  import opened Pitch

  datatype Note = Note(velocity: int, pitch: int, start: real, end: real)

  datatype Instrument = Instrument(program: int, name: string, notes: seq<Note>)

  datatype Document = Document(initialTempo: int, instruments: seq<Instrument>)

  /** One row of the input table. */
  datatype Row = Row(unitId: int, spikeTimes: string)

  /** The arguments of the conversion; `pitch` holds the module-level
      settings the pitch policy reads. */
  datatype Settings = Settings(
    timeScale: real,
    noteDuration: real,
    baseVelocity: int,
    unitsToSonify: Option<seq<int>>,  // row positions, or None for all rows
    maxUnits: int,
    pitchMode: string,
    pitch: PitchConfig)

  /** The keyword defaults of `create_midi_from_spikes`: unscaled time,
      50 ms notes, velocity 80, every row, at most 16 units, `custom`
      pitches, with the script's pitch configuration. */
  const DefaultSettings := Settings(1.0, 0.05, 80, None, 16, "custom", ShippedConfig)

  /** Calls into code outside the model: `float(token)`, which fails on a
      token that is not a number, and a draw from NumPy's generator seeded
      with a unit's identifier. */
  datatype Foreign = Foreign(
    parseFloat: string -> Option<real>,
    seededRandInt: (int, int, int) -> int)

  datatype Error =
    | RowOutOfRange(position: int)  // a selected position the table lacks
    | BadSpikeTimes(index: int)     // a processed row holds a token that is not a number

  const InitialTempo := 120

  const ProgramCount := 128

  const NamePrefix := "Unit_"

  // ---------------------------------------------------------------------
  // Spike-time text
  // ---------------------------------------------------------------------

  /** The pieces of a spike-time text: brackets stripped from both ends,
      then split on whitespace runs. */
  function Tokens(text: string): (toks: seq<string>)
    ensures Words(toks)
  {
    Split(StripBrackets(text))
  }

  /** `float` applied to every token in order; the first token that is not
      a number makes the whole parse fail. */
  function ParseAll(tokens: seq<string>, parseFloat: string -> Option<real>): (r: Option<seq<real>>)
    ensures r.Some? <==> forall k :: 0 <= k < |tokens| ==> parseFloat(tokens[k]).Some?
    ensures r.Some? ==> |r.value| == |tokens|
    ensures r.Some? ==> forall k :: 0 <= k < |tokens| ==> parseFloat(tokens[k]) == Some(r.value[k])
    decreases |tokens|
  {
    if |tokens| == 0 then Some([])
    else
      match parseFloat(tokens[0])
      case None => None
      case Some(x) =>
        match ParseAll(tokens[1..], parseFloat)
        case None => None
        case Some(xs) => Some([x] + xs)
  }

  /** Conversely, tokens that each parse give exactly their values. */
  lemma ParseAllOf(tokens: seq<string>, parseFloat: string -> Option<real>, xs: seq<real>)
    requires |xs| == |tokens|
    requires forall k :: 0 <= k < |tokens| ==> parseFloat(tokens[k]) == Some(xs[k])
    ensures ParseAll(tokens, parseFloat) == Some(xs)
  {
    var r := ParseAll(tokens, parseFloat);
    assert r.Some?;
    forall k | 0 <= k < |tokens|
      ensures r.value[k] == xs[k]
    {
      assert parseFloat(tokens[k]) == Some(r.value[k]);
    }
    assert r.value == xs;
  }

  /** The spike times of one row: one value per token, in order. */
  function ParseSpikeTimes(text: string, parseFloat: string -> Option<real>): (r: Option<seq<real>>)
    ensures var ts := Tokens(text);
      && (r.Some? <==> forall k :: 0 <= k < |ts| ==> parseFloat(ts[k]).Some?)
      && (r.Some? ==> |r.value| == |ts| && forall k :: 0 <= k < |ts| ==> parseFloat(ts[k]) == Some(r.value[k]))
  {
    ParseAll(Tokens(text), parseFloat)
  }

  /** The round trip of a printed array: values written as words in any
      bracketed layout, each of which `float` reads back as its value, parse
      to exactly those values in order. */
  lemma ParseSpikeTimesOfLayout(seps: seq<string>, ws: seq<string>,
                                parseFloat: string -> Option<real>, xs: seq<real>)
    requires WellSeparated(seps, ws)
    requires |ws| > 0 ==> !IsBracket(ws[0][0]) && !IsBracket(ws[|ws| - 1][|ws[|ws| - 1]| - 1])
    requires |xs| == |ws| && forall k :: 0 <= k < |ws| ==> parseFloat(ws[k]) == Some(xs[k])
    ensures ParseSpikeTimes(Enclosed(seps, ws), parseFloat) == Some(xs)
  {
    TokensOfLayout(seps, ws);
    ParseAllOf(ws, parseFloat, xs);
  }

  /** Brackets around a layout of words: the shape of a printed array of
      numbers, whatever whitespace separates and surrounds the values
      (padding to a common width, a sign column, wrapped lines). */
  function Enclosed(seps: seq<string>, ws: seq<string>): string
    requires |seps| == |ws| + 1
  {
    "[" + Interleave(seps, ws) + "]"
  }

  /** Reading a bracketed layout gives back exactly its words, provided the
      layout is well separated and its first word does not start, nor its
      last word end, with a bracket. */
  lemma TokensOfLayout(seps: seq<string>, ws: seq<string>)
    requires WellSeparated(seps, ws)
    requires |ws| > 0 ==> !IsBracket(ws[0][0]) && !IsBracket(ws[|ws| - 1][|ws[|ws| - 1]| - 1])
    ensures Tokens(Enclosed(seps, ws)) == ws
  {
    var inner := Interleave(seps, ws);
    LayoutFirst(seps, ws);
    LayoutLast(seps, ws);
    StripEnclosing(inner);
    SplitInterleave(seps, ws);
  }

  /** `[w0 w1 ... wn]`: words joined by single spaces inside one pair of
      brackets, the simplest bracketed layout. */
  function Bracketed(ws: seq<string>): string {
    Enclosed(SingleSpaces(|ws|), ws)
  }

  /** The separators of a single-space layout of `n` words. */
  function SingleSpaces(n: nat): (seps: seq<string>)
    ensures |seps| == n + 1
    ensures seps[0] == "" && seps[n] == ""
    ensures forall k :: 0 < k < n ==> seps[k] == " "
  {
    if n == 0 then [""] else [""] + seq(n - 1, _ => " ") + [""]
  }

  /** Single spaces between non-empty whitespace-free words make a
      well-separated layout. */
  lemma SingleSpacesSeparate(ws: seq<string>)
    requires Words(ws)
    ensures WellSeparated(SingleSpaces(|ws|), ws)
  {
    var seps := SingleSpaces(|ws|);
    forall k | 0 <= k < |seps|
      ensures AllSpace(seps[k])
    {
      if 0 < k < |ws| {
        assert seps[k] == " ";
      }
    }
  }

  /** Stripping one pair of enclosing brackets from text that neither
      starts nor ends with a bracket leaves that text. */
  lemma StripEnclosing(inner: string)
    requires |inner| > 0 ==> !IsBracket(inner[0]) && !IsBracket(inner[|inner| - 1])
    ensures StripBrackets("[" + inner + "]") == inner
  {
    var text := "[" + inner + "]";
    assert text[1..1 + |inner|] == inner;
    assert StrippedAt(text, 1, inner);
    StripBracketsUnique(text, 1, inner);
  }

  /** Words written in brackets with single spaces read back as the same
      words. */
  lemma TokensOfBracketed(ws: seq<string>)
    requires Words(ws)
    requires |ws| > 0 ==> !IsBracket(ws[0][0]) && !IsBracket(ws[|ws| - 1][|ws[|ws| - 1]| - 1])
    ensures Tokens(Bracketed(ws)) == ws
  {
    SingleSpacesSeparate(ws);
    TokensOfLayout(SingleSpaces(|ws|), ws);
  }

  /** A well-separated layout does not start with a bracket when its first
      word does not: it starts with whitespace or with that word. */
  lemma LayoutFirst(seps: seq<string>, ws: seq<string>)
    requires WellSeparated(seps, ws)
    requires |ws| > 0 ==> !IsBracket(ws[0][0])
    ensures var s := Interleave(seps, ws);
      |s| > 0 ==> !IsBracket(s[0])
  {
    var s := Interleave(seps, ws);
    if |ws| == 0 {
      assert s == seps[0];
    } else {
      var rest := Interleave(seps[1..], ws[1..]);
      assert s == seps[0] + (ws[0] + rest);
      if |seps[0]| > 0 {
        assert s[0] == seps[0][0];
      } else {
        assert s[0] == ws[0][0];
      }
    }
  }

  /** A well-separated layout does not end with a bracket when its last
      word does not: it ends with whitespace or with that word. */
  lemma {:induction false} LayoutLast(seps: seq<string>, ws: seq<string>)
    requires WellSeparated(seps, ws)
    requires |ws| > 0 ==> !IsBracket(ws[|ws| - 1][|ws[|ws| - 1]| - 1])
    ensures var s := Interleave(seps, ws);
      |s| > 0 ==> !IsBracket(s[|s| - 1])
    decreases |ws|
  {
    var s := Interleave(seps, ws);
    if |ws| == 0 {
      assert s == seps[0];
    } else {
      var rest := Interleave(seps[1..], ws[1..]);
      assert s == (seps[0] + ws[0]) + rest;
      WellSeparatedTail(seps, ws);
      if |ws| > 1 {
        assert ws[1..][|ws| - 2] == ws[|ws| - 1];
        assert rest == seps[1..][0] + ws[1..][0] + Interleave(seps[1..][1..], ws[1..][1..]);
      }
      LayoutLast(seps[1..], ws[1..]);
      if |rest| > 0 {
        assert s[|s| - 1] == rest[|rest| - 1];
      } else {
        assert s[|s| - 1] == ws[0][|ws[0]| - 1];
      }
    }
  }

  // ---------------------------------------------------------------------
  // Choosing the rows
  // ---------------------------------------------------------------------

  /** A position the table can be indexed with, counting from the end when
      negative as Python does. */
  predicate InRange(p: int, n: int) {
    -n <= p < n
  }

  function Resolve(p: int, n: int): (i: nat)
    requires InRange(p, n)
    ensures i < n
  {
    if p < 0 then p + n else p
  }

  /** The rows at the given positions, in the order the positions are
      listed (repeats allowed); a position outside the table is an error. */
  function Gather(rows: seq<Row>, positions: seq<int>): (r: Result<seq<Row>, Error>)
    ensures r.Ok? <==> forall k :: 0 <= k < |positions| ==> InRange(positions[k], |rows|)
    ensures r.Ok? ==> |r.value| == |positions|
    ensures r.Ok? ==> forall k :: 0 <= k < |positions| ==>
      InRange(positions[k], |rows|) && r.value[k] == rows[Resolve(positions[k], |rows|)]
    ensures r.Err? ==> r.error.RowOutOfRange? && !InRange(r.error.position, |rows|)
    decreases |positions|
  {
    if |positions| == 0 then Ok([])
    else if !InRange(positions[0], |rows|) then Err(RowOutOfRange(positions[0]))
    else
      match Gather(rows, positions[1..])
      case Err(e) => Err(e)
      case Ok(rest) => Ok([rows[Resolve(positions[0], |rows|)]] + rest)
  }

  /** Row selection: every row when no selection is given. */
  function SelectRows(rows: seq<Row>, selection: Option<seq<int>>): Result<seq<Row>, Error> {
    match selection
    case None => Ok(rows)
    case Some(positions) => Gather(rows, positions)
  }

  /** How many of `n` rows survive the cap `maxUnits`. */
  function Capped(n: nat, maxUnits: int): nat {
    if maxUnits >= 0 then Min(n, maxUnits) else Max(n + maxUnits, 0)
  }

  /** `df[:max_units]` when the table is longer than `max_units`, with
      Python's slice reading of a negative bound. The result is always a
      prefix of the rows. */
  function LimitUnits(rows: seq<Row>, maxUnits: int): (r: seq<Row>)
    ensures |r| <= |rows| && r == rows[..|r|]
    ensures |r| == Capped(|rows|, maxUnits)
  {
    if |rows| > maxUnits then
      if maxUnits >= 0 then rows[..maxUnits] else rows[..Max(|rows| + maxUnits, 0)]
    else rows
  }

  /** The rows that become instruments, in processing order. */
  function ProcessedRows(rows: seq<Row>, s: Settings): Result<seq<Row>, Error> {
    match SelectRows(rows, s.unitsToSonify)
    case Err(e) => Err(e)
    case Ok(selected) => Ok(LimitUnits(selected, s.maxUnits))
  }

  // ---------------------------------------------------------------------
  // Instruments and notes
  // ---------------------------------------------------------------------

  /** The notes of one unit: one per spike, in spike order, at the scaled
      spike time and lasting the note duration. */
  function SpikeNotes(spikes: seq<real>, s: Settings, pitch: int): (notes: seq<Note>)
    ensures |notes| == |spikes|
  {
    seq(|spikes|, j requires 0 <= j < |spikes| =>
      Note(s.baseVelocity, pitch, spikes[j] * s.timeScale, spikes[j] * s.timeScale + s.noteDuration))
  }

  /** The pitch of the unit at position `idx`; it is computed from the
      unscaled spike times. */
  function UnitPitch(idx: nat, row: Row, spikes: seq<real>, s: Settings, f: Foreign): int {
    PitchForUnit(s.pitch, ModeOf(s.pitchMode), idx, row.unitId, spikes, f.seededRandInt)
  }

  /** What the instrument for the unit at position `idx` must be. */
  ghost predicate Sonified(idx: nat, row: Row, spikes: seq<real>, s: Settings, f: Foreign, ins: Instrument) {
    var pitch := UnitPitch(idx, row, spikes, s, f);
    && ins.program == idx % ProgramCount
    && ins.name == NamePrefix + IntToString(row.unitId)
    && |ins.notes| == |spikes|
    && forall j :: 0 <= j < |spikes| ==>
         ins.notes[j] == Note(s.baseVelocity, pitch, spikes[j] * s.timeScale, spikes[j] * s.timeScale + s.noteDuration)
  }

  function UnitInstrument(idx: nat, row: Row, spikes: seq<real>, s: Settings, f: Foreign): (ins: Instrument)
    ensures Sonified(idx, row, spikes, s, f, ins)
  {
    var pitch := UnitPitch(idx, row, spikes, s, f);
    Instrument(idx % ProgramCount, NamePrefix + IntToString(row.unitId), SpikeNotes(spikes, s, pitch))
  }

  /** Whether the spike-time text of every row from `k` on parses. */
  ghost predicate AllParse(units: seq<Row>, k: nat, parse: string -> Option<seq<real>>) {
    forall j :: k <= j < |units| ==> parse(units[j].spikeTimes).Some?
  }

  /** The spike times of `units[k..]`, parsed row by row in order; the
      first row whose text does not parse stops the conversion and is
      reported by its position. */
  function ParseRows(units: seq<Row>, k: nat, parse: string -> Option<seq<real>>): (r: Result<seq<seq<real>>, Error>)
    requires k <= |units|
    ensures r.Ok? <==> AllParse(units, k, parse)
    ensures r.Ok? ==> |r.value| == |units| - k
    ensures r.Ok? ==> forall j :: 0 <= j < |r.value| ==> parse(units[k + j].spikeTimes) == Some(r.value[j])
    ensures r.Err? ==>
      && r.error.BadSpikeTimes? && k <= r.error.index < |units|
      && parse(units[r.error.index].spikeTimes).None?
      && forall j :: k <= j < r.error.index ==> parse(units[j].spikeTimes).Some?
    decreases |units| - k
  {
    if k == |units| then Ok([])
    else
      match parse(units[k].spikeTimes)
      case None => Err(BadSpikeTimes(k))
      case Some(spikes) =>
        match ParseRows(units, k + 1, parse)
        case Err(e) => Err(e)
        case Ok(rest) =>
          Ok([spikes] + rest)
  }

  /** The spike-time parser the conversion uses. */
  function SpikeParser(f: Foreign): string -> Option<seq<real>> {
    text => ParseSpikeTimes(text, f.parseFloat)
  }

  /** The whole conversion: choose the rows, cap their number, parse each
      row's spike times, then build one instrument per row in order. */
  function Convert(rows: seq<Row>, s: Settings, f: Foreign): (r: Result<Document, Error>)
    ensures ProcessedRows(rows, s).Err? ==> r == Err(ProcessedRows(rows, s).error)
    ensures r.Ok? ==> r.value.initialTempo == InitialTempo
    ensures ProcessedRows(rows, s).Ok? ==>
      var units := ProcessedRows(rows, s).value;
      && (r.Ok? <==> AllParse(units, 0, SpikeParser(f)))
      && (r.Ok? ==> |r.value.instruments| == |units|)
      && (r.Err? ==> r.error.BadSpikeTimes? && 0 <= r.error.index < |units|
                     && ParseSpikeTimes(units[r.error.index].spikeTimes, f.parseFloat).None?)
  {
    match ProcessedRows(rows, s)
    case Err(e) => Err(e)
    case Ok(units) =>
      match ParseRows(units, 0, SpikeParser(f))
      case Err(e) => Err(e)
      case Ok(spikes) =>
        Ok(Document(InitialTempo, Instruments(units, spikes, s, f)))
  }

  /** One instrument per unit, in order, each from that unit's spikes. */
  function Instruments(units: seq<Row>, parsed: seq<seq<real>>, s: Settings, f: Foreign): (ins: seq<Instrument>)
    requires |parsed| == |units|
    ensures |ins| == |units|
    ensures forall j :: 0 <= j < |units| ==> ins[j] == UnitInstrument(j, units[j], parsed[j], s, f)
  {
    seq(|units|, j requires 0 <= j < |units| => UnitInstrument(j, units[j], parsed[j], s, f))
  }

  /** A successful conversion holds, for the processed row at position
      `j`, the instrument `Sonified` describes for that row's parsed spike
      times. */
  lemma ConvertInstruments(rows: seq<Row>, s: Settings, f: Foreign)
    requires Convert(rows, s, f).Ok?
    ensures ProcessedRows(rows, s).Ok?
    ensures var units := ProcessedRows(rows, s).value;
      var ins := Convert(rows, s, f).value.instruments;
      && |ins| == |units|
      && forall j :: 0 <= j < |units| ==>
           ParseSpikeTimes(units[j].spikeTimes, f.parseFloat).Some? &&
           Sonified(j, units[j], ParseSpikeTimes(units[j].spikeTimes, f.parseFloat).value, s, f, ins[j])
  {
    var units := ProcessedRows(rows, s).value;
    var spikes := ParseRows(units, 0, SpikeParser(f)).value;
    var ins := Convert(rows, s, f).value.instruments;
    forall j | 0 <= j < |units|
      ensures ParseSpikeTimes(units[j].spikeTimes, f.parseFloat) == Some(spikes[j])
      ensures Sonified(j, units[j], spikes[j], s, f, ins[j])
    {
      assert SpikeParser(f)(units[0 + j].spikeTimes) == Some(spikes[j]);
      assert ins[j] == UnitInstrument(j, units[j], spikes[j], s, f);
    }
  }

  // ---------------------------------------------------------------------
  // Properties of the conversion
  // ---------------------------------------------------------------------

  /** The instruments follow the rows: without a selection the first rows
      of the table, with one the selected rows in the order listed, in both
      cases capped at `max_units`; instrument `j` is named after its row's
      unit and uses program `j % 128`. */
  lemma ConvertKeepsRowOrder(rows: seq<Row>, s: Settings, f: Foreign)
    requires Convert(rows, s, f).Ok?
    ensures var ins := Convert(rows, s, f).value.instruments;
      && (s.unitsToSonify.None? ==>
            && |ins| == Capped(|rows|, s.maxUnits)
            && forall j :: 0 <= j < |ins| ==>
                 ins[j].name == NamePrefix + IntToString(rows[j].unitId) && ins[j].program == j % ProgramCount)
      && (s.unitsToSonify.Some? ==>
            var ps := s.unitsToSonify.value;
            && |ins| == Capped(|ps|, s.maxUnits)
            && forall j :: 0 <= j < |ins| ==>
                 && InRange(ps[j], |rows|)
                 && ins[j].name == NamePrefix + IntToString(rows[Resolve(ps[j], |rows|)].unitId)
                 && ins[j].program == j % ProgramCount)
  {
    ConvertInstruments(rows, s, f);
    var units := ProcessedRows(rows, s).value;
    var selected := SelectRows(rows, s.unitsToSonify).value;
    assert units == selected[..|units|];
  }

  /** The time scale moves notes and nothing else: the same rows convert
      (or fail) alike, and every instrument keeps its program, name, note
      count, pitch, velocity and note length. */
  lemma TimeScaleMovesOnlyStarts(rows: seq<Row>, s: Settings, f: Foreign, timeScale: real)
    requires Convert(rows, s, f).Ok?
    ensures Convert(rows, s.(timeScale := timeScale), f).Ok?
    ensures var a := Convert(rows, s, f).value.instruments;
      var b := Convert(rows, s.(timeScale := timeScale), f).value.instruments;
      && |a| == |b|
      && forall j :: 0 <= j < |a| ==>
           && a[j].program == b[j].program && a[j].name == b[j].name
           && |a[j].notes| == |b[j].notes|
           && forall n :: 0 <= n < |a[j].notes| ==>
                && a[j].notes[n].pitch == b[j].notes[n].pitch
                && a[j].notes[n].velocity == b[j].notes[n].velocity
                && a[j].notes[n].end - a[j].notes[n].start == b[j].notes[n].end - b[j].notes[n].start
  {
    var s' := s.(timeScale := timeScale);
    assert ProcessedRows(rows, s') == ProcessedRows(rows, s);
    ConvertInstruments(rows, s, f);
    ConvertInstruments(rows, s', f);
    var units := ProcessedRows(rows, s).value;
    var a := Convert(rows, s, f).value.instruments;
    var b := Convert(rows, s', f).value.instruments;
    forall j | 0 <= j < |a|
      ensures a[j].program == b[j].program && a[j].name == b[j].name
      ensures |a[j].notes| == |b[j].notes|
      ensures forall n :: 0 <= n < |a[j].notes| ==>
                && a[j].notes[n].pitch == b[j].notes[n].pitch
                && a[j].notes[n].velocity == b[j].notes[n].velocity
                && a[j].notes[n].end - a[j].notes[n].start == b[j].notes[n].end - b[j].notes[n].start
    {
      var spikes := ParseSpikeTimes(units[j].spikeTimes, f.parseFloat).value;
      assert Sonified(j, units[j], spikes, s, f, a[j]);
      assert Sonified(j, units[j], spikes, s', f, b[j]);
      assert UnitPitch(j, units[j], spikes, s, f) == UnitPitch(j, units[j], spikes, s', f);
    }
  }

  /** A table whose every unit has exactly one spike at `times[j]` gives
      one instrument per unit, each with exactly one note starting at the
      scaled time and lasting the note duration. */
  lemma OneSpikePerUnit(rows: seq<Row>, s: Settings, f: Foreign, times: seq<real>)
    requires |times| == |rows|
    requires s.unitsToSonify.None? && s.maxUnits >= |rows|
    requires forall j :: 0 <= j < |rows| ==> ParseSpikeTimes(rows[j].spikeTimes, f.parseFloat) == Some([times[j]])
    ensures Convert(rows, s, f).Ok?
    ensures var ins := Convert(rows, s, f).value.instruments;
      && |ins| == |rows|
      && forall j :: 0 <= j < |rows| ==>
           && |ins[j].notes| == 1
           && ins[j].notes[0].start == times[j] * s.timeScale
           && ins[j].notes[0].end == ins[j].notes[0].start + s.noteDuration
  {
    assert ProcessedRows(rows, s) == Ok(rows);
    assert AllParse(rows, 0, SpikeParser(f));
    ConvertInstruments(rows, s, f);
    SingleSpikeNotes(rows, s, f, times, Convert(rows, s, f).value.instruments);
  }

  /** Instruments built from units with one spike each hold one note each. */
  lemma SingleSpikeNotes(rows: seq<Row>, s: Settings, f: Foreign, times: seq<real>, ins: seq<Instrument>)
    requires |times| == |rows| == |ins|
    requires forall j :: 0 <= j < |rows| ==> Sonified(j, rows[j], [times[j]], s, f, ins[j])
    ensures forall j :: 0 <= j < |rows| ==>
      && |ins[j].notes| == 1
      && ins[j].notes[0].start == times[j] * s.timeScale
      && ins[j].notes[0].end == ins[j].notes[0].start + s.noteDuration
  {
    forall j | 0 <= j < |rows|
      ensures |ins[j].notes| == 1
      ensures ins[j].notes[0].start == times[j] * s.timeScale
      ensures ins[j].notes[0].end == ins[j].notes[0].start + s.noteDuration
    {
      SingleSpikeNote(j, rows[j], times[j], s, f, ins[j]);
    }
  }

  /** The instrument of a unit with a single spike holds a single note. */
  lemma SingleSpikeNote(idx: nat, row: Row, t: real, s: Settings, f: Foreign, ins: Instrument)
    requires Sonified(idx, row, [t], s, f, ins)
    ensures |ins.notes| == 1
    ensures ins.notes[0].start == t * s.timeScale
    ensures ins.notes[0].end == ins.notes[0].start + s.noteDuration
  {
    assert [t][0] == t;
  }

  /** Every note lies inside its instrument's unit: it carries the base
      velocity and the unit's single pitch, and with a positive note
      duration it ends after it starts. */
  lemma NotesAreUniform(rows: seq<Row>, s: Settings, f: Foreign)
    requires Convert(rows, s, f).Ok?
    ensures var ins := Convert(rows, s, f).value.instruments;
      forall j, n, m :: 0 <= j < |ins| && 0 <= n < |ins[j].notes| && 0 <= m < |ins[j].notes| ==>
        && ins[j].notes[n].velocity == s.baseVelocity
        && ins[j].notes[n].pitch == ins[j].notes[m].pitch
        && (s.noteDuration > 0.0 ==> ins[j].notes[n].start < ins[j].notes[n].end)
  {
    ConvertInstruments(rows, s, f);
  }

  /** Scaling by a positive factor keeps and reflects order. */
  lemma ScaleOrder(a: real, b: real, c: real)
    requires c > 0.0
    ensures a * c <= b * c <==> a <= b
  {
    if a <= b {
      ScaleMonotone(a, b, c);
    } else {
      assert a * c - b * c == (a - b) * c;
      assert (a - b) * c > 0.0;
    }
  }

  /** With a positive time scale, the notes of a unit start in the order of
      its spikes: one starts no later than another exactly when its spike
      is no later. */
  lemma NotesFollowSpikeOrder(spikes: seq<real>, s: Settings, pitch: int, i: int, j: int)
    requires s.timeScale > 0.0
    requires 0 <= i < |spikes| && 0 <= j < |spikes|
    ensures var notes := SpikeNotes(spikes, s, pitch);
      notes[i].start <= notes[j].start <==> spikes[i] <= spikes[j]
  {
    var notes := SpikeNotes(spikes, s, pitch);
    var x, y := notes[i].start, notes[j].start;
    assert x == spikes[i] * s.timeScale by { NoteStart(spikes, s, pitch, i); }
    assert y == spikes[j] * s.timeScale by { NoteStart(spikes, s, pitch, j); }
    ScaledOrder(x, y, spikes[i], spikes[j], s.timeScale);
  }

  /** Two values obtained by scaling with the same positive factor are
      ordered as the values they were scaled from. */
  lemma ScaledOrder(x: real, y: real, a: real, b: real, c: real)
    requires c > 0.0 && x == a * c && y == b * c
    ensures x <= y <==> a <= b
  {
    ScaleOrder(a, b, c);
  }

  /** The note for spike `i` starts at that spike's scaled time. */
  lemma NoteStart(spikes: seq<real>, s: Settings, pitch: int, i: int)
    requires 0 <= i < |spikes|
    ensures SpikeNotes(spikes, s, pitch)[i].start == spikes[i] * s.timeScale
  {
  }

  /** A unit whose spike-time text holds no tokens (such as "[]") still
      gets its instrument, with no notes. */
  lemma EmptyUnitKeepsInstrument(rows: seq<Row>, s: Settings, f: Foreign, j: int)
    requires Convert(rows, s, f).Ok?
    requires ProcessedRows(rows, s).Ok? && 0 <= j < |ProcessedRows(rows, s).value|
    requires Tokens(ProcessedRows(rows, s).value[j].spikeTimes) == []
    ensures var ins := Convert(rows, s, f).value.instruments;
      j < |ins| && ins[j].notes == [] && ins[j].program == j % ProgramCount
  {
    ConvertInstruments(rows, s, f);
  }

  /** The text "[]" of an empty spike train has no tokens. */
  lemma EmptyBracketsHaveNoTokens()
    ensures Tokens("[]") == []
  {
    var text := "[]";
    assert forall k :: 0 <= k < |text| ==> IsBracket(text[k]);
    StripAllBrackets(text);
    SplitAllSpace([]);
  }

  /** A worked conversion: one unit whose spikes are written "[1.0 2.0]",
      a time scale of 0.1, notes of 0.05 s at velocity 80, and `custom`
      mode with pitch 60 for position 0. */
  lemma CustomModeExample(f: Foreign, unitId: int)
    requires f.parseFloat("1.0") == Some(1.0) && f.parseFloat("2.0") == Some(2.0)
    ensures var s := Settings(0.1, 0.05, 80, None, 16, "custom", PitchConfig(map[0 := 60], 60, 48, 84, 16));
      Convert([Row(unitId, "[1.0 2.0]")], s, f)
        == Ok(Document(120, [Instrument(0, "Unit_" + IntToString(unitId),
                                        [Note(80, 60, 0.1, 0.15), Note(80, 60, 0.2, 0.25)])]))
  {
    var s := Settings(0.1, 0.05, 80, None, 16, "custom", PitchConfig(map[0 := 60], 60, 48, 84, 16));
    var row := Row(unitId, "[1.0 2.0]");
    var spikes := [1.0, 2.0];
    var notes := [Note(80, 60, 0.1, 0.15), Note(80, 60, 0.2, 0.25)];
    assert UnitInstrument(0, row, spikes, s, f) == Instrument(0, "Unit_" + IntToString(unitId), notes) by {
      assert UnitPitch(0, row, spikes, s, f) == 60;
      ExampleNotes(s);
    }
    ExampleSpikes(f);
    ConvertOneRow(row, s, f, spikes);
  }

  lemma ExampleNotes(s: Settings)
    requires s.timeScale == 0.1 && s.noteDuration == 0.05 && s.baseVelocity == 80
    ensures SpikeNotes([1.0, 2.0], s, 60) == [Note(80, 60, 0.1, 0.15), Note(80, 60, 0.2, 0.25)]
  {
    var notes := SpikeNotes([1.0, 2.0], s, 60);
    assert notes[0] == Note(80, 60, 0.1, 0.15);
    assert notes[1] == Note(80, 60, 0.2, 0.25);
  }

  lemma ExampleSpikes(f: Foreign)
    requires f.parseFloat("1.0") == Some(1.0) && f.parseFloat("2.0") == Some(2.0)
    ensures ParseSpikeTimes("[1.0 2.0]", f.parseFloat) == Some([1.0, 2.0])
  {
    var tokens, xs := ["1.0", "2.0"], [1.0, 2.0];
    assert ParseAll(tokens, f.parseFloat) == Some(xs) by {
      forall k | 0 <= k < |tokens|
        ensures f.parseFloat(tokens[k]) == Some(xs[k])
      {
        if k == 0 {
          assert tokens[k] == "1.0";
        } else {
          assert tokens[k] == "2.0";
        }
      }
      ParseAllOf(tokens, f.parseFloat, xs);
    }
    ExampleTokens();
  }

  lemma ExampleTokens()
    ensures Tokens("[1.0 2.0]") == ["1.0", "2.0"]
  {
    var seps: seq<string>, ws: seq<string> := ["", " ", ""], ["1.0", "2.0"];
    assert Enclosed(seps, ws) == "[1.0 2.0]" by {
      assert Interleave(seps[1..], ws[1..]) == " 2.0" by {
        assert Interleave(seps[1..][1..], ws[1..][1..]) == "";
      }
    }
    assert WellSeparated(seps, ws) by {
      assert AllSpace(seps[1]) by { assert IsSpace(' '); }
    }
    TokensOfLayout(seps, ws);
  }

  /** A table of one row, converted whole, gives that row's instrument. */
  lemma ConvertOneRow(row: Row, s: Settings, f: Foreign, spikes: seq<real>)
    requires s.unitsToSonify.None? && s.maxUnits >= 1
    requires ParseSpikeTimes(row.spikeTimes, f.parseFloat) == Some(spikes)
    ensures Convert([row], s, f) == Ok(Document(InitialTempo, [UnitInstrument(0, row, spikes, s, f)]))
  {
    OneRowProcessed(row, s);
    assert SpikeParser(f)(row.spikeTimes) == Some(spikes);
    OneRowParsed(row, SpikeParser(f), spikes);
    ConvertOf([row], s, f, [row], [spikes]);
    OneInstrument(row, spikes, s, f);
  }

  /** One unit gives one instrument, at position 0. */
  lemma OneInstrument(row: Row, spikes: seq<real>, s: Settings, f: Foreign)
    ensures Instruments([row], [spikes], s, f) == [UnitInstrument(0, row, spikes, s, f)]
  {
    var ins := Instruments([row], [spikes], s, f);
    assert ins[0] == UnitInstrument(0, [row][0], [spikes][0], s, f);
  }

  /** The document `Convert` builds once the rows are processed and their
      spike times parsed. */
  lemma ConvertOf(rows: seq<Row>, s: Settings, f: Foreign, units: seq<Row>, parsed: seq<seq<real>>)
    requires ProcessedRows(rows, s) == Ok(units)
    requires ParseRows(units, 0, SpikeParser(f)) == Ok(parsed)
    ensures |parsed| == |units|
    ensures Convert(rows, s, f)
      == Ok(Document(InitialTempo, Instruments(units, parsed, s, f)))
  {
  }

  /** A single row survives selection and the cap when nothing is selected
      and at least one unit is allowed. */
  lemma OneRowProcessed(row: Row, s: Settings)
    requires s.unitsToSonify.None? && s.maxUnits >= 1
    ensures ProcessedRows([row], s) == Ok([row])
  {
  }

  /** A single row whose text parses gives that one spike train. */
  lemma OneRowParsed(row: Row, parse: string -> Option<seq<real>>, spikes: seq<real>)
    requires parse(row.spikeTimes) == Some(spikes)
    ensures ParseRows([row], 0, parse) == Ok([spikes])
  {
    var r := ParseRows([row], 0, parse);
    assert AllParse([row], 0, parse);
    assert parse([row][0 + 0].spikeTimes) == Some(r.value[0]);
    assert r.value == [spikes];
  }
}
