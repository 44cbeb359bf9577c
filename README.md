# Sheet music editor: the measure model

This project models the core of a one-measure sheet music editor
(`js/sheetMusicEditor.js`). The editor keeps a single measure as an ordered
list of rest and note entries. The beat lengths of the entries always add up
to the measure's length. The model covers four parts:

- the duration table and the greedy splitter that breaks a leftover length
  into rests, longest first;
- the reset, which fills the measure with rests;
- the insertion of a note at a beat, which replaces the entry containing that
  beat by leading rests, the note and trailing rests, or keeps the entry when
  the note would overflow it;
- the hover/click state: the pointer's beat is snapped and clamped, the
  closest of nine staff positions gives the pitch name, and a click inserts
  the note at the pending beat and pitch.

Beats are integers that count quarter-beats (sixteenth notes): whole 16,
half 8, quarter 4, eighth 2, sixteenth 1. A 4/4 measure is 16. Every length
the editor produces is a multiple of a quarter-beat, so the splitter's
floating-point tolerance and its rounding to four decimals
(`js/sheetMusicEditor.js:119`, `:122`) become exact integer comparison and
subtraction.

Modules:

- `Wrappers`: `Option`, used for the hover fields and for symbol lookup.
- `Durations`: the duration table, the reference decomposition `Split` and
  the splitter method `SplitDuration`, proved equal to it.
- `Measure`: entries as values, `ResetEntries`, and `Replace`, the reference
  definition of insertion, with the lemmas about it.
- `Placement`: snapping, clamping and the closest staff position.
- `Editor`: the class `SheetMusicEditor`. Its methods change the fields as
  the source does, and each is proved against the functions above. `Valid()`
  is the invariant every method keeps: the entries tile the measure, the
  running count equals the measure's length, and a pending placement has
  both a beat inside the measure and a staff pitch.

## Model

| member | source | states |
|---|---|---|
| Durations.Length | js/sheetMusicEditor.js:13-19 | each duration has a length between 1 and 16 quarter-beats that divides the whole note's 16 |
| Durations.Symbol | js/sheetMusicEditor.js:13-19 | each duration's symbol is one of the table keys w, h, q, 8, 16 |
| Durations.FromSymbol | js/sheetMusicEditor.js:13-19 | a found duration has the symbol looked up; no duration has a symbol that is not found |
| Durations.SymbolRoundTrip | js/sheetMusicEditor.js:13-19 | looking up the symbol of a duration gives back that duration |
| Durations.AllowedIsDivisibilityChain | js/sheetMusicEditor.js:110-116 | the splitter's table lists every duration exactly once, strictly longest to shortest, each length dividing the one before, ending at length 1 |
| Durations.Largest | js/sheetMusicEditor.js:118-119 | the greedy choice fits in a positive remainder and is more than half of it unless it is the whole |
| Durations.LargestIsLongestFitting | js/sheetMusicEditor.js:118-119 | no duration that fits is longer than the greedy choice |
| Durations.Split | js/sheetMusicEditor.js:117-125 | the reference definition of the splitter: the longest fitting duration, then the split of what is left; nothing for a remainder that is not positive (its properties are the lemmas below) |
| Durations.SplitSum | js/sheetMusicEditor.js:117-125 | the decomposition's lengths add up exactly to a non-negative remainder, and it is empty exactly when the remainder is not positive |
| Durations.SplitBoundedBy | js/sheetMusicEditor.js:118-124 | no duration of the decomposition is longer than the greedy choice for the remainder |
| Durations.SplitNonIncreasing | js/sheetMusicEditor.js:110-124 | the decomposition is non-increasing in length |
| Durations.SplitShortDurationsOnce | js/sheetMusicEditor.js:118-124 | a duration other than the whole occurs at most once in the decomposition |
| Durations.LargestAt | js/sheetMusicEditor.js:118-119 | while the remainder lies between the table entry before i and entry i, the greedy choice is entry i |
| Durations.SplitDuration | js/sheetMusicEditor.js:108-126 | the nested loop over the table returns exactly the decomposition `Split(remainder)` |
| Measure.Rests | js/sheetMusicEditor.js:253-258 | each duration becomes a rest entry, in order, one for one |
| Measure.ResetEntries | js/sheetMusicEditor.js:52-78 | the reference definition of a reset measure of a given length: the rests of its split |
| Measure.ResetEntriesStep | js/sheetMusicEditor.js:57-77 | the reset's first rest is the longest that fits, and the rest of the reset covers what is left |
| Measure.ResetEntriesTile | js/sheetMusicEditor.js:52-78 | a reset measure holds only rests, longest first, adding up to the measure's length; a 4-beat measure is one whole rest |
| Measure.Insert | js/sheetMusicEditor.js:245-276 | the reference definition of what the containing entry becomes: itself when the note overflows it, otherwise rests for the gap, the note, and rests for what is left |
| Measure.ScanFrom | js/sheetMusicEditor.js:238-281 | the reference definition of the scan: a running start beat, the entry whose span contains the target rewritten, every other entry carried over |
| Measure.Replace | js/sheetMusicEditor.js:234-284 | the reference definition of insertion: the scan from beat 0 with `Insert` as the rewrite |
| Measure.InsertKeepsLength | js/sheetMusicEditor.js:243-276 | what replaces the containing entry has exactly that entry's length, on both paths |
| Measure.ReplaceKeepsTotal | js/sheetMusicEditor.js:238-283 | insertion keeps the measure's total length |
| Measure.ScanOutside | js/sheetMusicEditor.js:238-281 | a target outside the entries' span leaves every entry as it was |
| Measure.StartIncreasing | js/sheetMusicEditor.js:280 | each entry starts at or after the end of every earlier entry |
| Measure.ContainingEntryUnique | js/sheetMusicEditor.js:243 | at most one entry's span contains the target |
| Measure.Locate | js/sheetMusicEditor.js:238-243 | a target inside the measure lies in the span of some entry |
| Measure.ContainingEntryExactlyOne | js/sheetMusicEditor.js:243 | a target inside the measure lies in the span of exactly one entry |
| Measure.ScanAt | js/sheetMusicEditor.js:238-281 | the scan rewrites only the entry whose span contains the target and carries the others over in order |
| Measure.InsertOutsideKeeps | js/sheetMusicEditor.js:238-283 | a target that is negative or at or past the measure's end leaves the measure unchanged |
| Measure.InsertOverflowKeeps | js/sheetMusicEditor.js:245-247 | a note that would overflow the containing entry leaves the whole measure unchanged |
| Measure.InsertReplacesEntry | js/sheetMusicEditor.js:238-283 | insertion equals the entries before the containing one, its replacement, and the entries after it |
| Measure.InsertFromParts | js/sheetMusicEditor.js:249-275 | leaving out the empty gap or the empty remainder gives the same replacement |
| Measure.InsertNoteAtGap | js/sheetMusicEditor.js:250-264 | within the replacement, the note follows the gap's rests and starts gap beats into the entry |
| Measure.InsertedNoteStartsAtTarget | js/sheetMusicEditor.js:250-275 | after a fitting insertion the new note is in the measure and starts exactly at the target beat |
| Measure.QuarterAtBeatOne | js/sheetMusicEditor.js:250-275 | a quarter note at beat 1 of a whole rest gives a quarter rest, the note and a half rest |
| Measure.CommonTimeScenario | js/sheetMusicEditor.js:234-284 | in 4/4: reset gives one whole rest; a quarter at beat 1, then an eighth at the downbeat, give the listed entries; a whole note at beat 3.75 changes nothing |
| Placement.NoteNameFor | js/sheetMusicEditor.js:178-179 | the name is a staff pitch, and it is the table's entry for an index the table covers |
| Placement.Snap | js/sheetMusicEditor.js:152 | the snapped quarter-beat is within half a quarter-beat of the raw beat, halves rounding up |
| Placement.Clamp | js/sheetMusicEditor.js:154 | the clamped beat lies between 0 and the measure's last quarter-beat, in-range beats are unchanged, and out-of-range beats go to the nearer end |
| Placement.ClosestCandidate | js/sheetMusicEditor.js:169-176 | the scan returns a position closest to the pointer, and the first such position |
| Placement.FirstClosestUnique | js/sheetMusicEditor.js:171-176 | the first closest position is unique, so the pitch chosen is determined |
| Editor.SheetMusicEditor.constructor | js/sheetMusicEditor.js:2-27 | a new editor is a valid 4/4 measure holding one whole rest, with no pending placement |
| Editor.SheetMusicEditor.InitializeWithRests | js/sheetMusicEditor.js:52-79 | the loop leaves the reset entries for the measure's length, only rests, and a running count equal to the measure's length |
| Editor.SheetMusicEditor.ResetMeasure | js/sheetMusicEditor.js:285-288 | the entries after a reset depend only on the measure's length, so two resets give the same entries; the invariant is kept |
| Editor.SheetMusicEditor.InsertIntoEntry | js/sheetMusicEditor.js:245-276 | the entry containing the target becomes exactly the replacement `Insert` defines |
| Editor.SheetMusicEditor.ReplaceNoteAtPosition | js/sheetMusicEditor.js:234-284 | the loop leaves exactly `Replace` of the old entries, and the measure still tiles |
| Editor.SheetMusicEditor.HandleMouseMove | js/sheetMusicEditor.js:128-200 | no score: nothing changes; outside the note area: both hover fields cleared; inside: the snapped and clamped beat and the first closest position's pitch are stored |
| Editor.SheetMusicEditor.HandleMouseLeave | js/sheetMusicEditor.js:202-206 | both hover fields are cleared |
| Editor.SheetMusicEditor.HandleClick | js/sheetMusicEditor.js:208-222 | without a pending placement nothing changes; otherwise the note is inserted at the pending beat and pitch and both hover fields are cleared |
| Editor.HoverThenClick | js/sheetMusicEditor.js:128-222 | a hover at beat 1 and the lowest staff position, then a click, places a quarter e/4 after a quarter rest; the next click without a hover changes nothing |

## Left out

- Rendering with the notation library (`init`, `drawScore`, the construction of staff-note objects, `js/sheetMusicEditor.js:29-50`, `:81-105`): foreign library calls. Entries are a plain datatype.
- The `note.duration.replace('r', '')` decoding (`js/sheetMusicEditor.js:239`): it depends on the notation library's representation. The model reads the entry's duration directly.
- DOM work: bounding rectangles, creating, moving and removing the placeholder marker, and reading the duration `<select>` (`js/sheetMusicEditor.js:129-135`, `:186-199`, `:212`, `:224-232`). Whether a score is rendered is the parameter `svgPresent` of `HandleMouseMove`; the chosen duration is the parameter `duration` of `HandleClick`.
- Pixel arithmetic in floating point:
  - the test whether the pointer is inside the note area (`js/sheetMusicEditor.js:142`) is the boolean parameter `inNoteArea`;
  - the raw beat (`js/sheetMusicEditor.js:150`) is a parameter, given in quarter-beats as the ratio `rawNum / rawDen`;
  - the placeholder position (`js/sheetMusicEditor.js:158`) is left out;
  - the nine staff-position heights (`js/sheetMusicEditor.js:162-168`) are the integer parameter `candidates`, and the pointer height is the integer `mouseY`.
- Unknown duration symbols, which make the table lookup undefined in the source (`js/sheetMusicEditor.js:213`): the click takes a known `Duration`. `FromSymbol` states which symbols are known.
- `js/main.js`: font loading and start-up only. It is not part of this model.
- The `beatValue` argument of `replaceNoteAtPosition` (`js/sheetMusicEditor.js:234`): every caller passes the table length of `duration`, so the model derives it from the duration.
- The number of beats per measure: the source fixes it at 4 beats (16 quarter-beats) in the constructor and never changes it. The constructor does the same, and every other method is proved for any positive length that satisfies `Valid()`.
- The `beatValue` field (the meter's denominator) is set by the constructor and read only by rendering.
