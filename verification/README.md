# Spike-train sonifier: a Dafny model

`parquet_to_midi.py` turns a table of neural units into a MIDI file. Each
row of the table holds a unit identifier and that unit's spike times,
written as text such as `[0.12 0.5 1.03]`. The converter:

- chooses the rows, optionally by position, and keeps at most `max_units`
  of them;
- parses each row's spike-time text;
- gives each unit one pitch, chosen by a pitch mode;
- emits one instrument per unit, with one note per spike.

This project models that conversion as pure functions over immutable
values, and proves what the code promises about it.

- `results.dfy` (`Results`): `Option`, `Result`, `Min` and `Max`.
- `text.dfy` (`Text`): the three string operations the converter relies
  on.
  - `str.strip("[]")` (`StripBrackets`).
  - `str.split()` with no separator (`Split`), over Python's full
    `isspace` character set.
  - `str(int)` for instrument names (`IntToString`).
- `pitch.dfy` (`Pitch`): `get_pitch_for_unit`.
  - The module-level settings it reads (`CUSTOM_PITCHES`, `DEFAULT_PITCH`,
    `PITCH_RANGE`, `MAX_UNITS`) are an explicit `PitchConfig`.
  - `ShippedConfig` holds the values the script ships with.
- `sonify.dfy` (`Sonify`): `parse_spike_times` and the row → instrument →
  note construction of `create_midi_from_spikes`, as `Convert`.
  - `DefaultSettings` holds the keyword defaults of
    `create_midi_from_spikes` (parquet_to_midi.py:117-122).

How the program's behaviour maps onto the model:

- **Float parsing.** `float(token)` is a caller-supplied function
  `parseFloat: string -> Option<real>`. A token it rejects makes the whole
  conversion fail with `BadSpikeTimes(index)`, where the source raises.
- **Random mode.** NumPy's seeded draw (`np.random.seed(unit_id)` followed
  by `randint(lo, hi + 1)`) is a caller-supplied function
  `seededRandInt(seed, lo, hi)`.
- **Arithmetic.** `spread` and `firing_rate` are computed over exact reals.
  Python's `int()` on a float is truncation toward zero (`Trunc`). Python's
  `//` and `%` by 12 agree with Dafny's Euclidean operators, because the
  divisor is positive.
- **Row selection.** `df[units_to_sonify]` is read as gathering rows by
  position, in the order listed, with repeats allowed.
  - Negative positions count from the end.
  - A position outside the table is an error (`RowOutOfRange`).
  - This is the model's reading of the table library's row indexing, which
    is not part of this model.
- **Row cap.** `df[:max_units]` is applied only when the table is longer,
  as in the source. It follows Python's slice rules, including a negative
  bound.
- **MIDI objects.** `Note`, `Instrument` and `Document` are plain records
  standing for the MIDI library's objects. `Document.initialTempo` is the
  tempo of 120 that the file is created with.

## Model

| member | source | states |
|---|---|---|
| Text.StripBrackets | parquet_to_midi.py:51 | the result is a slice of the text with only brackets outside it and no bracket at either of its ends, so every leading and every trailing `[`/`]` is removed, however many there are, while inner brackets stay |
| Text.StripBracketsUnique | parquet_to_midi.py:51 | any slice with only brackets outside it and bracket-free ends is exactly what `strip("[]")` returns |
| Text.StripAllBrackets | parquet_to_midi.py:51 | text made only of brackets strips to the empty string |
| Text.Split | parquet_to_midi.py:52 | every piece `split()` returns is non-empty and holds no whitespace |
| Text.SplitInterleave | parquet_to_midi.py:52 | words laid out with whitespace runs around them (non-empty between two words) split back into exactly those words, in order |
| Text.SplitDecomposes | parquet_to_midi.py:52 | every text is the pieces `split()` returns laid out with whitespace separators; with `SplitInterleave` this makes splitting the inverse of laying out words |
| Text.SplitAllSpace | parquet_to_midi.py:52 | text made only of whitespace, including the empty text, splits into no pieces |
| Text.IntToString | parquet_to_midi.py:164 | the decimal text of an identifier is non-empty and starts with `-` exactly when the identifier is negative |
| Text.IntToStringRoundTrip | parquet_to_midi.py:164 | reading back the decimal text of an identifier gives the identifier |
| Text.IntToStringInjective | parquet_to_midi.py:164 | different unit identifiers give different instrument names |
| Sonify.Tokens | parquet_to_midi.py:49-52 | the tokens of a spike-time text are non-empty and free of whitespace |
| Sonify.ParseAll | parquet_to_midi.py:53 | the parse succeeds exactly when every token is a number, and then it gives one value per token, in token order |
| Sonify.ParseAllOf | parquet_to_midi.py:53 | tokens that each read as a number give exactly those numbers, in order |
| Sonify.ParseSpikeTimes | parquet_to_midi.py:49-53 | the spike times of a row exist exactly when every token of its text is a number, and then there is one value per token, each the number its token reads as, in token order |
| Sonify.ParseSpikeTimesOfLayout | parquet_to_midi.py:49-53 | numbers written as words in any bracketed whitespace layout, each of which reads back as its number, parse to exactly those numbers in order |
| Sonify.TokensOfLayout | parquet_to_midi.py:49-53 | any whitespace layout of words inside brackets (leading or trailing blanks, runs of spaces for padding or a sign column, line breaks for wrapped lines) reads back as exactly those words, provided no word starts or ends with a bracket |
| Sonify.TokensOfBracketed | parquet_to_midi.py:49-53 | the simplest such layout, words separated by single spaces, reads back as exactly those words |
| Sonify.EmptyBracketsHaveNoTokens | parquet_to_midi.py:51-53 | the text `[]` of an empty spike train has no tokens |
| Pitch.Trunc | parquet_to_midi.py:84 | `int()` of a float truncates toward zero: it is the integer within distance less than 1 of the value on the zero side |
| Pitch.ModeOf | parquet_to_midi.py:76-111 | the five labels `custom`, `spread`, `octaves`, `firing_rate` and `random` select their modes by exact comparison, and exactly the other labels fall through to the default branch |
| Pitch.ModeOfLabel | parquet_to_midi.py:76-111 | each recognised mode is selected by its own label, so label and mode determine each other |
| Pitch.OctavesPitch | parquet_to_midi.py:86-91 | `48 + (idx // 12) * 12 + idx % 12` equals `48 + idx` for every position, including negative ones |
| Pitch.SpikeRate | parquet_to_midi.py:96-97 | the firing rate of a non-empty spike train is never negative |
| Pitch.RateFraction | parquet_to_midi.py:100 | the normalised rate lies in [0, 1] |
| Pitch.PitchForUnit | parquet_to_midi.py:56-111 | the pitch per mode. `custom`: the table entry, or the default for a position not in the table. `spread`: inside the pitch range for positions 0 to max(MAX_UNITS-1, 1). `octaves`: 48 plus the position. `firing_rate`: the default with no spikes and inside the range with spikes. `random`: the generator's draw seeded with the unit identifier over [min, max+1). Any other label: the default pitch |
| Pitch.CustomIgnoresUnit | parquet_to_midi.py:76-78 | `custom` gives the table entry for the position, or the default pitch, whatever the unit's identifier and spikes |
| Pitch.InterpolateBounds | parquet_to_midi.py:84 | `int(lo + t * (hi - lo))` lies in [lo, hi] for t in [0, 1] |
| Pitch.InterpolateMonotone | parquet_to_midi.py:84 | `int(lo + t * (hi - lo))` never decreases as t grows |
| Pitch.SpreadBounds | parquet_to_midi.py:80-84 | for positions 0 to max(MAX_UNITS-1, 1), `spread` stays inside the pitch range |
| Pitch.SpreadMonotone | parquet_to_midi.py:80-84 | `spread` never gives a later position a lower pitch |
| Pitch.SpreadEnds | parquet_to_midi.py:80-84 | position 0 gets the bottom of the range and position MAX_UNITS-1 the top (position 1 when MAX_UNITS is below 2) |
| Pitch.SpreadOverrun | parquet_to_midi.py:83 | `spread` divides by the module-wide MAX_UNITS, not by the conversion's `max_units`: with the shipped settings, position 31 gets pitch 122, above the top of 84 |
| Pitch.OctavesStep | parquet_to_midi.py:86-91 | `octaves` starts at 48, and twelve positions later is exactly one octave (12) higher |
| Pitch.OctavesLeaveMidiRange | parquet_to_midi.py:73 | `octaves` is unbounded: from position 80 on, its pitch exceeds 127, the top of the MIDI range the docstring names |
| Pitch.FiringRateRange | parquet_to_midi.py:93-101 | with spikes, `firing_rate` stays inside the pitch range; a rate at or above 50 Hz gives the top, and a non-positive span from first to last spike gives the bottom |
| Pitch.FiringRateMonotone | parquet_to_midi.py:94-101 | higher firing rate, higher pitch: for two units with spikes, a rate no greater than the other's never gives a higher `firing_rate` pitch |
| Pitch.DefaultFallback | parquet_to_midi.py:102-111 | `firing_rate` with no spikes, and any unrecognised mode label, both give the default pitch and do not fail |
| Pitch.RandomDependsOnIdentifier | parquet_to_midi.py:104-108 | `random` depends only on the unit identifier: two units with the same identifier get the same pitch, whatever their positions and spikes |
| Sonify.Gather | parquet_to_midi.py:134-135 | selecting by positions succeeds exactly when every position is in range (negative ones counting from the end); the result then has one row per position, in the listed order; otherwise it fails naming an out-of-range position |
| Sonify.LimitUnits | parquet_to_midi.py:139-141 | the capped rows are a prefix of the rows, of length min(n, max_units) for a non-negative cap and following Python's slice rule for a negative one |
| Sonify.UnitInstrument | parquet_to_midi.py:163-178 | an instrument has program `idx % 128` and name `"Unit_"` followed by the identifier, and one note per spike in spike order, each with the base velocity, the unit's pitch, start `t * time_scale` and end `start + note_duration` |
| Sonify.ParseRows | parquet_to_midi.py:149-154 | parsing every row succeeds exactly when each row's text parses, giving one spike train per row in order; otherwise it fails naming the first row that does not parse |
| Sonify.Convert | parquet_to_midi.py:133-180 | a selection error passes through. Otherwise the conversion succeeds exactly when every processed row parses, and then gives one instrument per processed row at tempo 120; a failure names a processed row whose spike times do not parse |
| Sonify.ConvertInstruments | parquet_to_midi.py:149-180 | after a successful conversion, instrument `j` is the one `UnitInstrument` describes for processed row `j` and its parsed spike times |
| Sonify.ConvertKeepsRowOrder | parquet_to_midi.py:134-141 | the instruments follow the rows: the first rows of the table, or the selected rows in the order listed, capped at `max_units`; instrument `j` is named after its row's unit and uses program `j % 128` |
| Sonify.TimeScaleMovesOnlyStarts | parquet_to_midi.py:157-160 | changing the time scale changes no program, name, note count, pitch, velocity or note length, because the pitch is computed from the unscaled spike times |
| Sonify.OneSpikePerUnit | parquet_to_midi.py:170-178 | units with one spike each give one instrument each, holding a single note that starts at the scaled spike time and lasts the note duration |
| Sonify.SingleSpikeNote | parquet_to_midi.py:171-178 | the instrument of a unit with a single spike holds a single note at the scaled time |
| Sonify.NotesAreUniform | parquet_to_midi.py:171-178 | every note carries the base velocity, all notes of an instrument share one pitch, and with a positive duration every note ends after it starts |
| Sonify.NotesFollowSpikeOrder | parquet_to_midi.py:157 | with a positive time scale, one note starts no later than another exactly when its spike is no later |
| Sonify.EmptyUnitKeepsInstrument | parquet_to_midi.py:149-180 | a unit whose spike text has no tokens still gets its instrument, with no notes and program `j % 128` |
| Sonify.CustomModeExample | parquet_to_midi.py:133-180 | a worked conversion: one unit `[1.0 2.0]`, time scale 0.1, duration 0.05, velocity 80 and `custom` pitch 60 give instrument `Unit_<id>`, program 0, with notes (0.1, 0.15) and (0.2, 0.25) at pitch 60 |
| Sonify.ConvertOneRow | parquet_to_midi.py:133-180 | a one-row table, with no selection and a cap of at least one, converts to exactly that row's instrument |

## Left out

- Reading the Parquet table, creating and writing the MIDI file, and `note_number_to_name` are file I/O and library calls. The rows arrive as a `seq<Row>`, and `Document` is the value the MIDI library would write.
- The progress messages, the configuration printing and the closing summary are console output.
- Sonify.Convert: the closing summary computes `max([])` (parquet_to_midi.py:187) over all note ends, which raises `ValueError` out of `create_midi_from_spikes` after the file is written whenever no instrument holds a note: an empty table, `units_to_sonify=[]`, a `max_units` that keeps no rows (0, or a negative bound at least the table length), or every kept row `[]`. The model returns `Ok` with the instruments in these cases, because the file is complete by then.
- `float()` on a token is supplied by the caller. Its treatment of `nan`, `inf`, underscores and surrounding text is not modelled.
- IEEE-754 rounding in the time scaling and in the `spread` and `firing_rate` arithmetic is not modelled: the model computes over exact reals.
- The `random` mode's generator is supplied by the caller. NumPy's Mersenne Twister, and so the range of the draw, is not modelled. `np.random.seed` also raises for an identifier outside [0, 2**32 - 1]; the supplied generator is total, so that error path is not modelled.
- Pitch.PitchForUnit: states no range for `random`, because the draw comes from the supplied generator.
- Row selection with forms other than a list of integer positions (slices, boolean masks, column names) is not modelled.
- The default `mode="custom"` of `get_pitch_for_unit` (parquet_to_midi.py:56) has no counterpart: the converter always passes its `pitch_mode`, and `PitchForUnit` takes the mode as an argument.
- `OCTAVE_SPREAD` is defined in the script but never read, so it has no counterpart.
- `midi_to_wave.py` and `midi_to_wave_suyee.py` are not part of this model. They delegate synthesis to the MIDI library, normalise with NumPy floats and write WAV files.
- The `__main__` block, which only passes the module-level settings to `create_midi_from_spikes`, is not modelled. `ShippedConfig` holds those settings.
- Sonify.Convert: where a token is not a number, the source raises partway through the loop, after printing the earlier units' progress lines and without writing a file. The model returns `BadSpikeTimes` for the first such row and nothing else.
- Sonify.Convert: `pm.write` (parquet_to_midi.py:184) rejects a note whose pitch or velocity lies outside 0..127. The model does not check this, so `Ok` can hold a document the writer would refuse: `octaves` at position 80 or more, a `custom` entry of 130, or a base velocity of 200.
