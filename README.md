# Beat position recalculator, modelled in Dafny

The script `recalculate_beat_positions.py` rewrites a lesson's note data. Every note record
carries a `bar` (1-based measure), a `beat` (a number, or a label such as `"3"` or `"3a"`,
where the trailing `a` marks the "and" half a beat later), an optional `note` duration tag and
a derived `beat_position`. The script recomputes `beat_position` from `bar` and `beat` for every
record, in a fixed 4/4 time signature with 4 beats per bar, 2 ticks per beat and 8 ticks per
bar. It counts and reports the records whose stored position differed (a missing position
counts as -1), overwrites the field in place, and writes the whole collection back.

The project has three modules:

- `Options` (`option.dfy`): the optional value used for absent fields and failed parses.
- `BeatPosition` (`beat_position.dfy`): the pure conversion `bar_beat_to_position`. A beat is
  counted in half-beats, so there is no floating point. Beat `"1"` is 2 half-beats, `"1a"` is 3
  and `"4a"` is 9. The tick arithmetic follows the script, including the float-to-int
  truncation toward zero for negative beats. The module proves the closed forms for whole and
  "and" beats and that the positions of one bar stay within its eight ticks. It also proves
  that positions follow musical order, and gives an inverse from ticks back to bar and beat
  label, with round trips in both directions.
- `Recalculate` (`recalculate.dfy`): the rewrite loop as a method over an `array` of note
  records, updated in place. Its contract ties the outcome and the new array contents to
  specification functions of the old contents. Lemmas about those functions give the
  properties: every record is current afterwards, only `beat_position` changes, the count
  equals the number of changed records and is bounded by the record count, and a second pass
  changes nothing. `RunScript` is the whole run: load, rewrite, and save only when the pass
  completed.

A record whose position cannot be computed stops the run. This happens when `bar` or `beat`
is missing, or when a beat label is neither digits nor digits followed by `a`. The script
raises an exception at that point, so nothing is written. The model returns `Aborted(i, log)`
for the first such record, where `log` reports the changes found before it (the lines the
script printed before it stopped). The records before it are already rewritten in memory, and
`RunScript` then saves nothing.

One edge case of the -1 sentinel is proved explicitly (`SentinelIsAPosition`). Beat `"0a"` of
bar 1 has position -1, so such a record without a stored position is not counted as a change,
yet its field is still written. For beats `"1"` to `"4a"` of bars from 1 on this cannot happen
(`MissingPositionIsChange`). The script does not check that `bar` is at least 1, so the model
accepts any integer bar; the in-bar properties state `bar >= 1` where they need it.

The helper functions in `Recalculate` carry the script's defaults and steps.
`NoteType` is the note type with its default `"quarter"` (line 52), and `OldPosition` is the
stored position with its default -1 (line 59). `Changed` is the comparison of line 60, and
`Refresh` is the overwrite of line 64. `CountChanges` and `ChangeLog` are the counter of line
62 and the report lines of line 61, accumulated over a prefix of the records.

## Model

| member | source | states |
|---|---|---|
| BeatPosition.ParseNat | recalculate_beat_positions.py:26 | a label or label prefix parses as an integer exactly when it is a non-empty run of decimal digits |
| BeatPosition.ParseDecimal | recalculate_beat_positions.py:26 | parsing the decimal spelling of any natural number gives that number back |
| BeatPosition.DecimalDigits | recalculate_beat_positions.py:26 | the decimal spelling of a number is a non-empty digit string whose value is the number |
| BeatPosition.ParseBeat | recalculate_beat_positions.py:20-31 | a number is taken as is; a label parses exactly when it is digits or digits plus 'a'; a parsed label is non-negative and odd (an "and") exactly when it ends in 'a' |
| BeatPosition.WholeBeat | recalculate_beat_positions.py:34 | the whole part of a beat is truncated toward zero: within half a beat below a non-negative beat, within half a beat above a negative one |
| BeatPosition.Position | recalculate_beat_positions.py:33-40 | a non-negative beat lies one tick per half-beat after beat 1 of its bar; a negative odd beat lies two ticks later than that line |
| BeatPosition.BarBeatToPosition | recalculate_beat_positions.py:18-40 | a number always converts and a label exactly when it is digits or digits plus 'a'; a label "D" lies at (bar-1)*8 + (D-1)*2 and "Da" one tick later, whatever leading zeros D has; a non-negative number of half-beats h lies at (bar-1)*8 + h - 2, and a negative odd one two ticks later |
| BeatPosition.NumberBeatPosition | recalculate_beat_positions.py:30-34 | a numeric whole beat b of bar x lies at (x-1)*8 + (b-1)*2 |
| BeatPosition.WholeLabelPosition | recalculate_beat_positions.py:28-34 | the label "N" of bar x lies at (x-1)*8 + (N-1)*2 |
| BeatPosition.AndLabelPosition | recalculate_beat_positions.py:24-38 | the label "Na" of bar x lies at (x-1)*8 + (N-1)*2 + 1, one tick after the label "N" of the same bar |
| BeatPosition.Examples | recalculate_beat_positions.py:18-40 | bar 1 "1" is 0, "1a" is 1, "3" is 4; bar 2 "1" is 8, "2a" is 11; leading zeros are ignored, so bar 1 "03" is 4 and "01a" is 1 |
| BeatPosition.PositionWithinBar | recalculate_beat_positions.py:14-38 | every beat from "1" to "4a" of bar x lies in [(x-1)*8, (x-1)*8 + 7] |
| BeatPosition.PositionOrder | recalculate_beat_positions.py:34-38 | for beats "1" to "4a", one position is smaller than another exactly when its bar is earlier, or the bar is the same and the beat earlier |
| BeatPosition.PositionInjective | recalculate_beat_positions.py:34-38 | two beats from "1" to "4a" with the same position have the same bar and beat, so bars never overlap |
| BeatPosition.MusicalOrder | recalculate_beat_positions.py:24-38 | for every N, beat N < "Na" < beat N+1 within a bar, and "4a" of bar x < beat 1 of bar x+1 |
| BeatPosition.FromPosition | recalculate_beat_positions.py:14-16 | the inverse of the conversion yields a bar from 1 on and a beat from "1" to "4a" |
| BeatPosition.ParseBeatLabel | recalculate_beat_positions.py:22-29 | every "N" or "Na" label spelled from a beat parses back to that beat |
| BeatPosition.FromPositionRoundTrip | recalculate_beat_positions.py:18-40 | every non-negative tick is the position of the bar and beat label the inverse gives |
| BeatPosition.PositionRoundTrip | recalculate_beat_positions.py:34-38 | the inverse recovers the bar and beat of every beat "1" to "4a" of a bar from 1 on |
| Recalculate.NewPosition | recalculate_beat_positions.py:50-56 | a record has a new position exactly when it has a bar and a beat that parses, and it is that bar and beat's position |
| Recalculate.FirstUnparsable | recalculate_beat_positions.py:49-56 | every record before the returned index has a position and the record at it, if any, has none |
| Recalculate.Recalculate | recalculate_beat_positions.py:47-64 | the outcome is the change count and report of the old records, or the first record that stops the pass with the report of the changes before it; the array afterwards holds the refreshed records up to that point and the old ones after it |
| Recalculate.RunScript | recalculate_beat_positions.py:42-71 | the saved records are all refreshed when the pass completes and are the stored records unchanged when it stops |
| Recalculate.PositionIgnoresOtherFields | recalculate_beat_positions.py:52-56 | the new position does not depend on the note type (defaulting to "quarter"), the old position or any other field |
| Recalculate.RefreshProperties | recalculate_beat_positions.py:64 | overwriting changes only the position field, which becomes the recomputed one, so the record is current and not a change |
| Recalculate.AfterPassFields | recalculate_beat_positions.py:49-64 | a pass keeps record count, order and every field but the position; records before the stopping point are refreshed and current, those from it on are unchanged |
| Recalculate.CompletedPassIsCurrent | recalculate_beat_positions.py:49-64 | after a completed pass every record's position equals the position of its own bar and beat |
| Recalculate.CountBounded | recalculate_beat_positions.py:59-62 | the change count is at most the record count and the report has one entry per counted change |
| Recalculate.CountZero | recalculate_beat_positions.py:59-62 | the change count is zero exactly when no record's old position (-1 if missing) differs from its new one |
| Recalculate.CountIsCardinality | recalculate_beat_positions.py:47-62 | the change count equals the number of records whose old position differs from the new one |
| Recalculate.Idempotent | recalculate_beat_positions.py:56-64 | a pass over the output of a completed pass reports zero changes and leaves every record as it is |
| Recalculate.MissingPositionIsChange | recalculate_beat_positions.py:59-60 | a record without a stored position and with a beat "1" to "4a" of a bar from 1 on is counted as changed |
| Recalculate.SentinelIsAPosition | recalculate_beat_positions.py:59-64 | bar 1 beat "0a" has position -1, so without a stored position it is not counted as changed although its field is written |

## Left out

- Reading and writing the JSON file, and JSON (de)serialization: I/O with a fixed path. The stored collection is a parameter of `RunScript` and the saved collection its result. The `{"notes": [...]}` container is not modelled either: a document without a `notes` key stops the script before any record is read, and its other top-level keys are saved unchanged.
- The printed per-change lines and the summary text: `Recalculate` returns a report of each change (bar, beat, note type, old and new position), and on completion the count, instead of formatted text. The total record count printed at the end is the length of the array.
- BeatPosition.ParseNat: accepts only ASCII decimal digits. Python's `int()` and `float()` also accept surrounding whitespace, a sign, underscores, other Unicode digits and (for `float`) forms such as `"2.5"` or `"1e0"`; those labels are failures here.
- BeatPosition.Beat: a numeric beat is limited to whole and half values, and other fractional numbers are not modelled. Floating-point rounding is not modelled either; the arithmetic is exact. For an odd n between 2^52 and 2^53, the script's `float(n) + 0.5` rounds to the even integer n + 1, so "Na" gets no "and" tick and lands one tick later than the model says. For n of 2^53 or more, `float(n)` itself can round.
- BeatPosition.BarBeatToPosition: values beyond the float range are not an error here. In the script, a label of more than about 309 digits, or a numeric beat above about 1.8e308, raises `OverflowError` and stops the run before anything is written; the model computes a position and continues.
- Values of the wrong JSON type (a non-integer `bar`, a non-integer `beat_position`, a `beat` that is neither a number nor a string) are not representable in the record type.
- Records having identity: each record is a value in the array, not a shared dictionary, so aliasing between records is not modelled.
- A whole-note offset policy that adds ticks for some note types belongs to a sibling script, which is not part of this model; the modelled script applies no offset to any note type.
