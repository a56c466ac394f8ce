# grooved: a verified model of the notation engine

grooved is a drum-notation editor. A composition is a list of notes, each at a
*position*: a bar, plus an offset on a grid of `measure` slots per whole note,
optionally scaled by a tuplet `p:q`. Meter changes and tempo changes are placed
at positions too. This project models the engine an editor and a renderer are
built on, and proves properties of that model:

- **Positions and grids** (`src/lib/Noted/types.ts`, `src/lib/Noted/Noted.ts`):
  - the decimal value of a position, and how positions are ordered;
  - rescaling a position to another subdivision or tuplet;
  - the integer `gcd`;
  - `findCommonMeasure`, the coarsest grid that holds a set of positions;
  - the bar count, and the meter and tempo in effect at a bar.
- **Time** (`Noted.ts`):
  - `createTimeKeys`, the breakpoints of the map from positions to seconds, built bar by bar;
  - `calculatePositionTime`, the time of a position: an exact key match, or a linear interpolation between the keys of its bar.
- **Text codec** (`Noted.ts`): the one-line text forms of positions, notes, meter changes and tempo changes, read and written. Reading a written record gives the record back, and each read rejects text that its pattern rejects.
- **ABC rendering** (`src/lib/Noted/AbcRenderer.ts`):
  - `buildAbcBar`: the notes of one part of a bar go onto a common grid, fill one bucket per tick, and are merged greedily with the silent ticks that follow them into ABC note tokens;
  - the note resolver `compositionToAbc` builds for each bar: the voice split, merged annotations, grace notes and decorations;
  - the compound-meter split of a bar into parts, written voice by voice;
  - `optimizeDirectives`, which drops redundant `%%` directive lines.
- **Editor grid** (`src/components/BarBlock/utils.ts`):
  - `calculatePartSize`;
  - `createParts`: the parts of a bar, each with its subdivision and tuplet and one tick per grid slot, and each tick holds the notes drawn on each line.

Code that works by loops is modelled as methods with loop invariants. Each
method is proved equal to a specification function, and the code's promises
are proved as lemmas about those functions. Examples are:
- the `findCommonMeasure` search;
- the time-key walk;
- the bar scan and note map of `buildAbcBar`;
- the directive filter;
- the part and tick loops of `createParts`.

Where the repository's tests and its code disagree, the model follows the code.
The test expectations for `createTimeKeys` leave out the final key. The code
pushes that key, `[[barCount, 0], time]`, after the last bar, and the model
includes it through `TimeKeysFacts.TimeKeysEnd`.

Some choices of representation:
- JavaScript numbers are `int` where the code keeps them integral (bars, offsets, measures, tuplets and meter beats) and `real` elsewhere (fractions, tempos, times).
- `Array.prototype.sort` is modelled as a stable insertion sort.
- Regular expressions are modelled as hand-written scanners over the same grammar.

## Model

| member | source | states |
|---|---|---|
| NotedTypes.MeasuresArePowersOfTwo | src/lib/Noted/types.ts:3-9 | MEASURES has eight entries, entry i is 2^i, they strictly ascend, and a number is a Measure exactly when it is one of 1, 2, 4, …, 128 |
| NotedTypes.MaxMeasureIsLargest | src/lib/Noted/types.ts:7-9 | MAX_MEASURE is a Measure, no Measure exceeds it, and doubling any smaller Measure gives a Measure |
| NotedTypes.DoubleMeasure | src/lib/Noted/types.ts:3-9 | 2·m is a Measure exactly when m < MAX_MEASURE, and every Measure divides MAX_MEASURE |
| NotedTypes.TupletsAreDistinct | src/lib/Noted/types.ts:5-8 | TUPLETS holds six distinct ratios with positive p and 0 < q ≤ 8, and every Tuplet value is one of them |
| Positions.TupletMultiplier | src/lib/Noted/Noted.ts:93-95 | the multiplier is positive, 1 without a tuplet, and times q gives p for a tuplet p:q |
| Positions.ToDecimal | src/lib/Noted/Noted.ts:96-98 | keeps the bar; the fraction is never negative and is 0 for a bar-only position |
| Positions.DecimalCountsTicks | src/lib/Noted/Noted.ts:96-98 | a regular position's fraction times the tick length measure·p/q is its offset |
| Positions.CompareDecimal | src/lib/Noted/Noted.ts:99-101 | negative exactly when a is before b (bar first, then fraction), positive exactly when b is before a, zero exactly when they are equal |
| Positions.ComparePositions | src/lib/Noted/Noted.ts:102-104 | zero exactly when the decimal positions are equal; its sign is the order of the decimal positions |
| Positions.BarStartEqualsZeroOffset | src/lib/Noted/Noted.ts:96-104 | `{bar}` compares equal to offset 0 of that bar on any grid |
| Positions.CompareDecimalIsOrder | src/lib/Noted/Noted.ts:99-101 | the comparison is antisymmetric in sign and transitive |
| Positions.SameGridOrder | src/lib/Noted/Noted.ts:96-104 | on one grid, positions order by bar, then by offset |
| Positions.ChangeMeasure | src/lib/Noted/Noted.ts:174-204 | bar-only stays bar-only; a regular position succeeds exactly when offset·m/measure is an integer, fails with the measure error otherwise; a result has the new measure, the same bar and tuplet and the same decimal value |
| Positions.ChangeTuplet | src/lib/Noted/Noted.ts:205-235 | bar-only stays bar-only; succeeds exactly when the offset rescaled by the tuplet multipliers is an integer, fails with the tuplet error otherwise; a result has the new tuplet, the same bar and measure and the same decimal value |
| Positions.ModifyPosition | src/lib/Noted/Noted.ts:166-173 | bar-only stays bar-only; a result has the requested measure and tuplet and the same decimal value |
| Positions.MeasureChangeKeepsDecimal | src/lib/Noted/Noted.ts:185-201 | when the rescaled offset is an integer, the new position has the old decimal value, so the check at 198-201 never fires |
| Positions.TupletChangeKeepsDecimal | src/lib/Noted/Noted.ts:217-232 | likewise for a tuplet change: the check at 229-232 never fires |
| Positions.ChangeMeasureOnGrid | src/lib/Noted/Noted.ts:174-204 | changing the measure succeeds exactly when the instant is a whole number of ticks of the new grid |
| Positions.ChangeTupletOnGrid | src/lib/Noted/Noted.ts:205-235 | changing the tuplet succeeds exactly when the instant is a whole number of ticks of the new tuplet grid |
| Positions.ModifyPositionOnGrid | src/lib/Noted/Noted.ts:166-173 | modifyPosition succeeds exactly when the instant lies on the intermediate grid (tuplet removed first when none is asked for, measure changed first otherwise) and on the final grid |
| Positions.ModifyPositionOrderMatters | src/lib/Noted/Noted.ts:166-173 | offset 7 of eighths 7:8 is the same instant as offset 7 of quarters 7:4, yet modifying it to quarters 7:4 fails on the intermediate grid |
| Positions.MoveToGrid | src/lib/Noted/Noted.ts:166-173 | the one-step rescale that modifyPosition stands for: bar-only stays bar-only, success exactly when the instant is on the requested grid, and then the requested measure and tuplet at the same decimal value |
| Divisors.JsRem | src/lib/Noted/Noted.ts:59 | JavaScript `%`: smaller in magnitude than the divisor and with the dividend's sign |
| Divisors.JsDivision | src/lib/Noted/Noted.ts:59 | dividend = quotient·divisor + JsRem |
| Divisors.NonZero | src/lib/Noted/Noted.ts:46 | the zeros are dropped and nothing else |
| Divisors.Dedupe | src/lib/Noted/Noted.ts:46 | `[...new Set(s)]`: the same members, each once |
| Divisors.Normalize | src/lib/Noted/Noted.ts:46 | the filtered set: exactly the non-zero members, each once |
| Divisors.NormalizeKeepsDivisors | src/lib/Noted/Noted.ts:46 | dropping zeros and duplicates keeps the common divisors |
| Divisors.FoldCase | src/lib/Noted/Noted.ts:54-57 | gcd(gcd(a0, a1), a2, …) is a greatest common divisor of the whole list |
| Divisors.StepCase | src/lib/Noted/Noted.ts:59 | gcd(a1 % a0, a0) is a greatest common divisor of [a0, a1] |
| Divisors.GcdIsGreatestCommonDivisor | src/lib/Noted/Noted.ts:38-60 | the recursion returns undefined exactly for all-zero lists, and otherwise a common divisor that every common divisor divides, positive for non-negative arguments |
| Divisors.Gcd | src/lib/Noted/Noted.ts:38-60 | throws exactly on a non-integer argument (that error first) or an empty list; otherwise its value is a greatest common divisor as above |
| Divisors.GcdIsDividingMember | src/lib/Noted/Noted.ts:38-60 | when a positive argument divides all the others, gcd returns it |
| CommonMeasure.ScaledOffsets | src/lib/Noted/Noted.ts:106-108 | one entry per position: its fraction times MAX_MEASURE |
| CommonMeasure.FirstPlainMeasure | src/lib/Noted/Noted.ts:118-122 | some Measure fits exactly when one is found; the one found fits and no smaller Measure does |
| CommonMeasure.TupletQ | src/lib/Noted/Noted.ts:137 | q is positive and multiplier·q = p |
| CommonMeasure.Numerators | src/lib/Noted/Noted.ts:126 | the gcd arguments: each scaled offset times p |
| CommonMeasure.RawOffsets | src/lib/Noted/Noted.ts:135 | each position's offset, 0 for a bar-only one |
| CommonMeasure.OffsetMultipliers | src/lib/Noted/Noted.ts:135 | starts with 1 and holds only positive numbers |
| CommonMeasure.AsMeasure | src/lib/Noted/Noted.ts:87-89 | isMeasure on a real number: a Measure exactly when the number is an integer in MEASURES (MeasureOf of its value), and then equal to it |
| CommonMeasure.FirstMeasureValue | src/lib/Noted/Noted.ts:136-143 | some multiplier turns the divisor into a Measure exactly when one is found, and the one found is such a value |
| CommonMeasure.TupletMeasures | src/lib/Noted/Noted.ts:124-147 | the outcome of every candidate (none, then TUPLETS in array order) |
| CommonMeasure.GcdIsNonZero | src/lib/Noted/Noted.ts:126-129 | a defined gcd is not 0, so the division at 137 is defined |
| CommonMeasureFacts.PlainFitIsOnGrid | src/lib/Noted/Noted.ts:118-122 | a plain measure passes the integer check exactly when every position is a whole number of its ticks |
| CommonMeasureFacts.TupletMeasureOnGrid | src/lib/Noted/Noted.ts:124-147 | the measure a candidate yields puts every position on that candidate's grid |
| CommonMeasureFacts.TupletMeasureSucceeds | src/lib/Noted/Noted.ts:125-126 | a non-empty list never makes gcd throw inside the second pass |
| CommonMeasureFacts.SecondPassOnGrid | src/lib/Noted/Noted.ts:124-162 | the second pass returns only candidates that hold every position |
| CommonMeasureFacts.SecondPassSucceeds | src/lib/Noted/Noted.ts:124-162 | the second pass throws only if a candidate's gcd throws |
| CommonMeasureFacts.CommonMeasureIsCommon | src/lib/Noted/Noted.ts:105-165 | never throws; undefined for an empty list; a result holds every position on its grid; if some plain Measure holds them all, the result is plain and no larger than it |
| CommonMeasure.CommonMeasureOf | src/lib/Noted/Noted.ts:105-165 | what findCommonMeasure returns; CommonMeasureIsCommon proves it never throws, is undefined for an empty list (and MixedTupletsHaveNoCommonMeasure shows it is also undefined for a non-empty list when no candidate holds every position), holds every position on its grid and prefers the smallest plain measure, and FindCommonMeasure proves the loops compute it |
| CommonMeasureFacts.SeptupletEighthsCommonMeasure | src/lib/Noted/Noted.ts:105-165 | eighths 0 and 1 of 7:8 get measure 4 with 7:4: 7:4 is found first with measure 4, and 7:8, the tuplet the input uses, is skipped for its larger measure 8 |
| CommonMeasureFacts.CommonGridUnreachable | src/lib/Noted/Noted.ts:166-173 | the grid findCommonMeasure answers for those eighths holds both of them, yet modifyPosition onto it throws for the second |
| CommonMeasureFacts.CommonGridIsReachable | src/lib/Noted/Noted.ts:105-173 | every position moves in one step onto the grid findCommonMeasure answers, at the same instant |
| CommonMeasureFacts.MixedTupletsHaveNoPlainMeasure | src/lib/Noted/Noted.ts:117-123 | an eighth of 3:2 and an eighth of 5:4 (fractions 1/12 and 1/10) fit no plain Measure |
| CommonMeasureFacts.MixedTupletsMiss | src/lib/Noted/Noted.ts:125-126 | no candidate, with or without a tuplet, holds both of those positions, so each candidate's outcome is nothing |
| CommonMeasureFacts.SecondPassOfMisses | src/lib/Noted/Noted.ts:125-162 | when every remaining candidate finds nothing, the second pass answers nothing |
| CommonMeasureFacts.MixedTupletsHaveNoCommonMeasure | src/lib/Noted/Noted.ts:105-165 | a non-empty list can get no answer: no candidate holds both mixed-tuplet eighths, and findCommonMeasure returns undefined for them |
| CommonMeasureFacts.EighthsNeedMeasureEight | src/lib/Noted/Noted.test.ts:232-256 | offsets 0, 3, 6 of eighths give (8, none) |
| CommonMeasureFacts.SeptupletSixteenthsKeepTheirGrid | src/lib/Noted/Noted.test.ts:232-256 | offsets 0 and 3 of sixteenths 7:4 give (16, 7:4), through the offset-multiplier correction and the early stop at 158 |
| CommonMeasureFacts.SeptupletSecondPass | src/lib/Noted/Noted.ts:149-160 | after four misses, 7:4 yields 16 and the pass stops because an input uses 7:4 |
| CommonMeasureSearch.FindPlainMeasure | src/lib/Noted/Noted.ts:118-122 | the first loop returns FirstPlainMeasure |
| CommonMeasureSearch.FindMeasureValue | src/lib/Noted/Noted.ts:136-143 | the multiplier loop with its break returns FirstMeasureValue |
| CommonMeasureSearch.FindTupletMeasure | src/lib/Noted/Noted.ts:125-147 | the body for one candidate computes that candidate's outcome |
| CommonMeasureSearch.KeepCandidate | src/lib/Noted/Noted.ts:149-160 | the tie-break (skip a larger measure, replace on an equal or smaller one) and the early break are one step of the second pass |
| CommonMeasureSearch.FindTupletCandidate | src/lib/Noted/Noted.ts:124-162 | the candidate loop computes the second pass |
| CommonMeasureSearch.FindCommonMeasure | src/lib/Noted/Noted.ts:105-165 | findCommonMeasure's loops compute CommonMeasureOf |
| Numerals.NatToString | src/lib/Noted/Noted.ts:477-485 | the printed numeral has no leading zero and denotes n |
| Numerals.DigitChar | src/lib/Noted/Noted.ts:477-485 | a digit character of value d |
| Numerals.ParseInteger | src/lib/Noted/Noted.ts:62-84 | succeeds exactly on a canonical digit string (non-empty, no leading zero), with its value; fails with the invalid-number error otherwise |
| Numerals.ParsePrinted | src/lib/Noted/Noted.ts:62-84 | every printed number parses back to itself |
| Numerals.ParsedPrintsBack | src/lib/Noted/Noted.ts:69 | whatever parses prints back to the same text |
| Numerals.LeadingZeroIsRefused | src/lib/Noted/Noted.ts:69 | a zero followed by more digits is refused |
| Numerals.CanonicalPrintsBack | src/lib/Noted/Noted.ts:69 | printing the value of a canonical digit string gives the string |
| Numerals.SplitDigits | src/lib/Noted/Noted.ts:395 | the greedy `\d*`: a digit prefix, and what follows does not start with a digit |
| Numerals.SplitDigitsOf | src/lib/Noted/Noted.ts:395 | digits followed by a non-digit split exactly there |
| Sorting.Insert | src/lib/Noted/Noted.ts:246 | one more element, the same multiset plus x |
| Sorting.InsertSorted | src/lib/Noted/Noted.ts:246 | insertion keeps a sorted list sorted |
| Sorting.Sort | src/lib/Noted/Noted.ts:246 | the stable sort: the same multiset, sorted by position |
| Sorting.LastOfSort | src/lib/Noted/Noted.ts:246-247 | `pop()` after the sort returns the latest element, the last one among equals |
| Sorting.LastOfInsert | src/lib/Noted/Noted.ts:246-247 | inserting keeps the last element unless the new one is not before it |
| Sorting.Filter | src/lib/Noted/Noted.ts:245 | keeps exactly the elements satisfying the test |
| Lookups.MaxBar | src/lib/Noted/Noted.ts:237 | the reduce with Math.max from 0: an upper bound of the bars that is 0 or one of them |
| Lookups.BarCount | src/lib/Noted/Noted.ts:236-242 | at least 1, above every bar of a note, meter change or tempo change, and 1 or one past a referenced bar |
| Lookups.BarMeterIsLatest | src/lib/Noted/Noted.ts:243-249 | the base meter when no change lies at or before the bar, otherwise the meter of the latest such change |
| Lookups.BarMeterComesFromLatestBar | src/lib/Noted/Noted.ts:243-249 | the meter in effect comes from a change at or before the bar that no other such change follows |
| Lookups.PositionBpmIsLatest | src/lib/Noted/Noted.ts:250-256 | the base tempo without changes up to the bar, otherwise the tempo of the latest such change |
| Lookups.BarMeter | src/lib/Noted/Noted.ts:243-249 | getBarMeterFromComposition; BarMeterIsLatest and BarMeterComesFromLatestBar prove it is the base meter or the meter of the latest change at or before the bar |
| Lookups.PositionBpm | src/lib/Noted/Noted.ts:250-256 | getPositionBpmFromComposition; PositionBpmIsLatest and LaterChangeInBarCounts prove it is the base tempo or the tempo of the latest change up to the position's bar, by bar only |
| Lookups.LaterChangeInBarCounts | src/lib/Noted/Noted.ts:250-256 | filtering by bar only: a change later in the same bar already applies at the bar's start |
| TimeKeys.SegmentTime | src/lib/Noted/Noted.ts:292 | the seconds a stretch of whole notes takes at a tempo are zero exactly when the stretch is empty, and are non-negative exactly when the stretch is, for a positive tempo |
| TimeKeys.BarLength | src/lib/Noted/Noted.ts:337 | a bar's length in whole notes (beats over measure) is never negative |
| TimeKeys.ChangeMap | src/lib/Noted/Noted.ts:294 | the Map built from the meter changes has a key for exactly the bars that carry a change, and a bar's entry is its last change |
| TimeKeys.BaseMeters | src/lib/Noted/Noted.ts:294-295 | bar 0 maps to the composition's own meter, overriding any change in bar 0; every other bar maps to its change, when it has one |
| TimeKeys.FilledMeter | src/lib/Noted/Noted.ts:299-303 | a filled-in meter is always one of the map's meters |
| TimeKeys.RawMarks | src/lib/Noted/Noted.ts:305-306 | one mark per tempo change, at the change's decimal position and with its bpm |
| TimeKeys.Marks | src/lib/Noted/Noted.ts:305-306 | the queue of tempo marks is sorted by decimal position |
| TimeKeys.MarkIsChange | src/lib/Noted/Noted.ts:305-306 | every mark in the queue is one of the composition's tempo changes, at its decimal position |
| TimeKeys.MarksAreNonZero | src/lib/Noted/Noted.ts:305-306 | with non-zero tempos every mark in the queue has a non-zero bpm |
| TimeKeys.DropLast | src/lib/Noted/Noted.ts:329-331 | `pop` removes exactly the last key, and leaves an empty list empty |
| TimeKeys.TempoStep | src/lib/Noted/Noted.ts:320-333 | one tempo change consumes exactly the head of the queue |
| TimeKeys.TempoChanges | src/lib/Noted/Noted.ts:319-334 | the inner loop stops with an empty queue or with a head outside the bar |
| TimeKeys.BarStart | src/lib/Noted/Noted.ts:317 | the bar's start key is pushed at decimal (i, 0) with the current time, and nothing else changes |
| TimeKeys.BarEnd | src/lib/Noted/Noted.ts:337-350 | closing a bar leaves the queue as it was and resets the offset to 0 |
| TimeKeys.Bar | src/lib/Noted/Noted.ts:314-351 | one bar of the walk keeps every tempo non-zero |
| TimeKeys.Bars | src/lib/Noted/Noted.ts:314-351 | the walk over the remaining bars keeps every tempo non-zero |
| TimeKeys.InitialWalk | src/lib/Noted/Noted.ts:290-313 | the walk starts with non-zero tempos |
| TimeKeys.CollectMeterChanges | src/lib/Noted/Noted.ts:294-295 | the loop over the changes builds exactly ChangeMap |
| TimeKeys.FillMeters | src/lib/Noted/Noted.ts:294-303 | after the filling loop every bar below the bar count holds its filled-in meter |
| TimeKeys.FillStep | src/lib/Noted/Noted.ts:299-303 | one pass of the filling loop fills bar i with its own meter or the carried one, and leaves the later bars as the changes gave them |
| TimeKeys.ConsumeTempoChanges | src/lib/Noted/Noted.ts:319-334 | the while loop over the queue computes TempoChanges |
| TimeKeys.BarStep | src/lib/Noted/Noted.ts:314-351 | one iteration of the bar loop computes Bar |
| TimeKeys.CreateTimeKeys | src/lib/Noted/Noted.ts:290-354 | createTimeKeys returns TimeKeysOf, the walk over the bars from the initial state |
| TimeKeys.TimeKeysOf | src/lib/Noted/Noted.ts:290-354 | what createTimeKeys returns; TimeKeysFacts proves the keys are ordered by position and by time and end with the key of the bar after the last one |
| TimeKeysFacts.PushKeepsOrder | src/lib/Noted/Noted.ts:317 | pushing a key that may follow the last one keeps times and positions sorted and bar lines instantaneous |
| TimeKeysFacts.SuffixKeepsMarks | src/lib/Noted/Noted.ts:319-334 | dropping the head of the queue keeps it positive, sorted and within the bar |
| TimeKeysFacts.SuffixWithin | src/lib/Noted/Noted.ts:319-334 | dropping the head of the queue keeps every mark inside its bar |
| TimeKeysFacts.TempoStepKeepsOrder | src/lib/Noted/Noted.ts:320-333 | a tempo change keeps the walk inside the bar and only adds keys |
| TimeKeysFacts.TempoChangesKeepOrder | src/lib/Noted/Noted.ts:319-334 | the inner loop keeps the walk inside the bar, only adds keys, and leaves a suffix of the queue holding only later bars |
| TimeKeysFacts.BarStartKeepsOrder | src/lib/Noted/Noted.ts:317 | the start key opens a well-ordered state inside the bar |
| TimeKeysFacts.BarEndKeepsOrder | src/lib/Noted/Noted.ts:337-350 | the end key (and after the last bar the next bar's start) keeps the keys ordered and only adds keys |
| TimeKeysFacts.MarksOfBarWithin | src/lib/Noted/Noted.ts:337 | the marks of one of the first bars lie inside the bar's length |
| TimeKeysFacts.BarKeepsOrder | src/lib/Noted/Noted.ts:314-351 | a whole bar keeps the keys well ordered and only adds keys |
| TimeKeysFacts.BarsKeepOrder | src/lib/Noted/Noted.ts:314-351 | the walk from any bar on yields well-ordered keys extending the ones before |
| TimeKeysFacts.InitialWalkIsOrdered | src/lib/Noted/Noted.ts:290-313 | with positive tempos and changes inside their bars the starting state is well ordered |
| TimeKeysFacts.TimeKeysAreOrdered | src/lib/Noted/Noted.ts:290-354 | with positive tempos and every tempo change inside its bar, the time keys never go back in time or in position, and consecutive keys in different bars share their time |
| TimeKeysFacts.BarsEndWithNextBar | src/lib/Noted/Noted.ts:337-350 | the walk ends with the last bar's end key followed by the next bar's start at the same time |
| TimeKeysFacts.TimeKeysEnd | src/lib/Noted/Noted.ts:337-350 | no bars give no keys; otherwise the keys end at the last bar's length and then at (n, 0) at the same time |
| TimeKeysExamples.PlainMetersAreFourFour | src/lib/Noted/Noted.ts:299-303 | without meter changes every bar is filled with the composition's meter |
| TimeKeysExamples.PlainTimeKeys | src/lib/Noted/Noted.test.ts:13-20 | three bars of 4/4 at 60 bpm give keys 4 seconds apart, plus the closing key of bar 3 |
| TimeKeysExamples.SixFourTimeKeys | src/lib/Noted/Noted.test.ts:36-43 | a 6/4 bar 1 lasts 6 seconds, plus the closing key of bar 3 |
| TimeKeysExamples.FasterMidBarMarks | src/lib/Noted/Noted.ts:305-306 | a 120 bpm change half way through bar 1 is the single mark (1, 0.5) |
| TimeKeysExamples.FasterMidBarKeysOfBarOne | src/lib/Noted/Noted.ts:314-344 | bar 1 gets a key at the change and ends 3 seconds after its start |
| TimeKeysExamples.FasterMidBarTimeKeys | src/lib/Noted/Noted.test.ts:82-90 | the mid-bar change gives the keys the repository test expects, plus the closing key of bar 3 |
| TimeKeysExamples.BarZeroChangeIsIgnored | src/lib/Noted/Noted.ts:294-295 | a 3/4 change in bar 0 is what barMeter reports, but the time keys still use the composition's 4/4 for bar 0 |
| TimeKeysExamples.FasterFromBarOneMarks | src/lib/Noted/Noted.ts:305-306 | a change at the start of bar 1 is the single mark (1, 0) |
| TimeKeysExamples.FasterFromBarOneKeysOfBarOne | src/lib/Noted/Noted.ts:314-344 | the start key of bar 1 is popped and replaced by the change's key, and bar 1 lasts 2 seconds |
| TimeKeysExamples.FasterFromBarOneTimeKeys | src/lib/Noted/Noted.test.ts:59-66 | a change at bar 1 gives the keys the repository test expects, plus the closing key of bar 3 |
| PositionTime.ExactKey | src/lib/Noted/Noted.ts:362-366 | a time is found exactly when some key lies at the decimal position, and it is the time of the first such key |
| PositionTime.BarKeys | src/lib/Noted/Noted.ts:368-369 | the bar's keys are exactly the keys of that bar, sorted by position |
| PositionTime.FirstAbove | src/lib/Noted/Noted.ts:373-379 | the scan stops at the first key whose fraction is past the position's, or at the end, and every key it passed is at or before it |
| PositionTime.FindExactKey | src/lib/Noted/Noted.ts:362-366 | the first loop computes ExactKey |
| PositionTime.ScanBarKeys | src/lib/Noted/Noted.ts:373-379 | the second loop computes FirstAbove from 0 |
| PositionTime.CalculatePositionTime | src/lib/Noted/Noted.ts:355-393 | calculatePositionTime returns or throws exactly what PositionTimeOf gives: the exact key, the out-of-bounds errors, the last key, or the interpolation |
| PositionTime.PositionTimeOf | src/lib/Noted/Noted.ts:355-393 | what calculatePositionTime returns; PositionTimeFacts proves the exact key's time, the two out-of-bounds errors, the last key's time past the end, and interpolation between the enclosing keys otherwise |
| PositionTime.TimeAtDecimal | src/lib/Noted/Noted.ts:360-393 | the body after the decimal conversion computes TimeAt |
| PositionTimeFacts.ExactKeyGivesItsTime | src/lib/Noted/Noted.ts:362-366 | a position that is exactly a key gets the time of the first such key |
| PositionTimeFacts.BarKeysAscend | src/lib/Noted/Noted.ts:368-369 | the sorted keys of a bar have non-decreasing fractions |
| PositionTimeFacts.EmptyBarIsOutOfBounds | src/lib/Noted/Noted.ts:368-371 | a bar without keys throws the out-of-bounds error |
| PositionTimeFacts.FilterOfNone | src/lib/Noted/Noted.ts:368 | a filter nothing passes is empty |
| PositionTimeFacts.FilterOfOne | src/lib/Noted/Noted.ts:368 | a filter only one index can pass keeps at most one element |
| PositionTimeFacts.SingleKeyBarIsOutOfBounds | src/lib/Noted/Noted.ts:368-371 | a bar with a single key, not at the position, throws the out-of-bounds error |
| PositionTimeFacts.BeforeFirstKeyIsOutOfMeterBounds | src/lib/Noted/Noted.ts:373-381 | without an exact key, the meter-bounds error is thrown exactly when every key of the bar lies after the position |
| PositionTimeFacts.PositiveFactor | src/lib/Noted/Noted.ts:388-392 | a positive product with a positive factor has a positive other factor |
| PositionTimeFacts.RatioBounds | src/lib/Noted/Noted.ts:388-392 | a ratio of a smaller positive number to a larger one is strictly between 0 and 1 |
| PositionTimeFacts.InterpolationIsBetween | src/lib/Noted/Noted.ts:388-392 | the interpolated time lies between the times of the two keys, whichever is larger |
| PositionTimeFacts.ScanStopsBetween | src/lib/Noted/Noted.ts:373-382 | with keys on both sides, the scan stops strictly inside the bar keys, with no key strictly between the two it stops at |
| PositionTimeFacts.TimeAtInterior | src/lib/Noted/Noted.ts:382-392 | a scan stopping inside the bar keys interpolates between the two keys around it |
| PositionTimeFacts.TimeAtPastEnd | src/lib/Noted/Noted.ts:382-386 | a scan past every bar key gives the time of the last one |
| PositionTimeFacts.SortedScanEncloses | src/lib/Noted/Noted.ts:373-382 | over sorted bar keys the scan stops at two keys enclosing the position |
| PositionTimeFacts.NoKeyOfBarAtFrac | src/lib/Noted/Noted.ts:362-366 | without an exact key no key of the bar sits at the position's fraction |
| PositionTimeFacts.ScanEncloses | src/lib/Noted/Noted.ts:368-382 | with keys of the bar on both sides, the scan stops at two keys enclosing the position |
| PositionTimeFacts.BetweenKeysIsInterpolated | src/lib/Noted/Noted.ts:355-393 | a position between two keys of its bar gets the interpolation between the enclosing keys, which lies between their times |
| PositionTimeFacts.TwoKeysOfBar | src/lib/Noted/Noted.ts:368-371 | two different keys of a bar make the bar keys long enough not to throw |
| PositionTimeFacts.LastBarKeyIsLatest | src/lib/Noted/Noted.ts:368-369 | the last sorted bar key is a key of the bar and is the latest one |
| PositionTimeFacts.ScanPassesAll | src/lib/Noted/Noted.ts:373-379 | when every bar key lies before the position the scan runs to the end |
| PositionTimeFacts.PastLastKeyGetsItsTime | src/lib/Noted/Noted.ts:382-386 | a position after every key of its bar gets the time of the bar's latest key |
| PositionTimeExamples.BarStartIsExact | src/lib/Noted/Noted.test.ts:103-107 | the start of bar 1 of plain 4/4 at 60 bpm is at 4 seconds |
| PositionTimeExamples.BarZeroKeys | src/lib/Noted/Noted.ts:368-369 | the plain keys of bar 0 are its start and its end |
| PositionTimeExamples.NoKeyAtSixth | src/lib/Noted/Noted.ts:362-366 | no plain key lies at a sixth of bar 0 |
| PositionTimeExamples.ScanStopsAtBarEnd | src/lib/Noted/Noted.ts:373-379 | the scan for a sixth of bar 0 stops at the bar's end key |
| PositionTimeExamples.SixthOfFourSeconds | src/lib/Noted/Noted.ts:388-392 | a sixth of the way through a 4-second bar is 2/3 of a second |
| PositionTimeExamples.SixthIntoBarZero | src/lib/Noted/Noted.ts:355-393 | a sixth of a whole note into bar 0 is at 2/3 of a second |
| PositionTimeExamples.TripletQuarterIsInterpolated | src/lib/Noted/Noted.test.ts:117-125 | one triplet quarter into bar 0 is at 2/3 of a second |
| PositionTimeExamples.KeylessBarIsOutOfBounds | src/lib/Noted/Noted.test.ts:131-133 | a bar past the keys throws the out-of-bounds error |
| PositionTimeExamples.WholeNoteIntoBarTwo | src/lib/Noted/Noted.test.ts:127-129 | a whole note into bar 2 is at 12 seconds |
| PositionCodec.MatchRendered | src/lib/Noted/Noted.ts:395-397 | the position scanner reads back the fields of every well-formed position text |
| PositionCodec.MatchedIsRendered | src/lib/Noted/Noted.ts:395-400 | whatever the scanner accepts is a well-formed text, and is exactly the text of the fields it returns |
| PositionCodec.MatchPosition | src/lib/Noted/Noted.ts:395-400 | POSITION_REGEX without the integer reads; MatchPositionIsPattern proves it matches a text with fields f exactly when f is well formed and the text spells f |
| PositionCodec.MatchPositionIsPattern | src/lib/Noted/Noted.ts:395-400 | the scanner matches s with fields f exactly when f is well formed and s spells f: bar digits, optional `.offset/measure` with optional `*p:q`, optional `~duration` |
| PositionCodec.MatchTupletRendered | src/lib/Noted/Noted.ts:395 | the `*p:q` group is read back as written, and so is its absence |
| PositionCodec.MatchGridRendered | src/lib/Noted/Noted.ts:395 | the `.offset/measure` group is read back as written, and so is its absence |
| PositionCodec.MatchDurationRendered | src/lib/Noted/Noted.ts:395 | the `~duration` group is read back as written and must end the text |
| PositionCodec.MatchedTuplet | src/lib/Noted/Noted.ts:395 | an accepted tuplet group has digit fields and is the text of what was read |
| PositionCodec.MatchedGrid | src/lib/Noted/Noted.ts:395 | an accepted grid group has digit fields and is the text of what was read |
| PositionCodec.MatchedDuration | src/lib/Noted/Noted.ts:395 | an accepted duration group has a digit field and is the text of what was read |
| PositionCodec.SplitAfterSep | src/lib/Noted/Noted.ts:395 | after a separator, a digit run followed by a non-digit is read as the field |
| NotedTypes.MeasureOf | src/lib/Noted/Noted.ts:87-89 | isMeasure on an integer: accepted exactly when it is a Measure, and then unchanged; the position and meter change readers use it for their subdivision (Noted.ts:404) |
| PositionCodec.AsTuplet | src/lib/Noted/Noted.ts:405 | a ratio is accepted exactly when it is one of the tuplets, and then unchanged |
| PositionCodec.TextOf | src/lib/Noted/Noted.ts:476-489 | positionToString writes well-formed fields and no duration |
| PositionCodec.ReadTextOf | src/lib/Noted/Noted.ts:402-424 | reading the printed fields of a position gives the position back |
| PositionCodec.PositionRoundTrip | src/lib/Noted/Noted.ts:394-489 | every position prints to a text that positionFromString reads back to it |
| PositionCodec.PositionFromString | src/lib/Noted/Noted.ts:394-425 | positionFromString; MatchPositionIsPattern proves the scanner accepts exactly the pattern's texts, PositionRoundTrip reads back every printed position, and ParsedPositionPrintsBack prints an accepted text back unchanged |
| PositionCodec.PositionToString | src/lib/Noted/Noted.ts:476-489 | positionToString; TextOf proves it writes well-formed fields, and PositionRoundTrip that positionFromString inverts it |
| PositionCodec.TupletTextOfParsed | src/lib/Noted/Noted.ts:422 | printing a parsed tuplet gives back the digits it was read from |
| PositionCodec.TextOfParsed | src/lib/Noted/Noted.ts:402-424 | the printed fields of a parsed position are the fields it was read from |
| PositionCodec.ParsedPositionPrintsBack | src/lib/Noted/Noted.ts:394-489 | every text without a duration that positionFromString accepts prints back unchanged, because leading zeros are refused |
| RecordCodec.SplitHead | src/lib/Noted/Noted.ts:427 | the lazy value group is never empty |
| RecordCodec.SplitPrintedHead | src/lib/Noted/Noted.ts:427 | the head of a printed note splits back into its value and its type at the first ':' |
| RecordCodec.SplitKindHead | src/lib/Noted/Noted.ts:427 | `value:type` splits at the ':' after the first character when no later ':' precedes it |
| RecordCodec.SplitPrintedNote | src/lib/Noted/Noted.ts:427 | the '@' the printer writes is the first '@' of a printed note |
| RecordCodec.AttributesReadBack | src/lib/Noted/Noted.ts:441 | sorted attributes joined with '&' split back into the sorted list |
| RecordCodec.JoinShape | src/lib/Noted/Noted.ts:504 | joining plain, non-empty attributes gives a non-empty text without line breaks |
| RecordCodec.SplitBodyOf | src/lib/Noted/Noted.ts:427 | a position text without '?' splits from the attribute text at the '?' the printer writes |
| RecordCodec.SplitPrintedBody | src/lib/Noted/Noted.ts:497-505 | the body of a printed note splits into its position text and its attribute text |
| RecordCodec.FieldsReadBack | src/lib/Noted/Noted.ts:439-440 | the position fields of a printed note scan and read back as its position, with a duration only after a subdivision |
| RecordCodec.DurationReadsBack | src/lib/Noted/Noted.ts:440 | the printed duration reads back as the duration the printer kept |
| RecordCodec.AttributeListReadsBack | src/lib/Noted/Noted.ts:441 | the printed attributes read back as the sorted list, and no attributes as none |
| RecordCodec.PartsReadBack | src/lib/Noted/Noted.ts:434-442 | the printed parts of a plain note read back as the note the printer described |
| RecordCodec.NoteRoundTrip | src/lib/Noted/Noted.ts:426-508 | every note whose texts avoid the separators prints to a text that noteFromString reads back to it, with the duration only on a subdivided position, the attributes sorted and an empty list as none |
| RecordCodec.NoteFromString | src/lib/Noted/Noted.ts:426-443 | noteFromString, splitting at the first '@' (where the pattern can backtrack to a later one, see "## Left out"); NoteRoundTrip reads back every printed note with plain texts, and the CodecExamples lemmas give the repository's accepted and refused texts |
| RecordCodec.NoteToString | src/lib/Noted/Noted.ts:490-508 | noteToString; SplitPrintedNote proves its first '@' ends the head, and NoteRoundTrip that noteFromString inverts it up to Normalized |
| RecordCodec.MatchDecimal | src/lib/Noted/Noted.ts:445 | a matched number has a digit whole part and, when present, a digit fractional part |
| RecordCodec.MatchKeywordRendered | src/lib/Noted/Noted.ts:445 | the keyword is read with or without its optional last letter |
| RecordCodec.BarTextIsBarPosition | src/lib/Noted/Noted.ts:458 | the bar of a meter change is read by positionFromString as a bar position, or fails as the integer read does |
| RecordCodec.BarPositionText | src/lib/Noted/Noted.ts:476-489 | a bar position prints as its bar number |
| RecordCodec.MatchMeterChange | src/lib/Noted/Noted.ts:445-450 | METER_CHANGE_REGEX; MatchMeterChangeRendered proves it splits every printed `beats/measure:meter@bar` (either keyword spelling) into its fields |
| RecordCodec.StrictDecimal | src/lib/Noted/Noted.ts:62-72 | parseNumber on a matched number: the text is accepted exactly when it is the text String(value) prints, that is with no leading zero and no trailing fractional zero; MeterChangeReadsBack and MeterChangeRoundTrip prove printed beats pass it |
| RecordCodec.MatchMeterChangeRendered | src/lib/Noted/Noted.ts:445-452 | the meter change scanner splits `beats/measure:meter@bar` into its fields |
| RecordCodec.MeterFieldsReadBack | src/lib/Noted/Noted.ts:452-459 | printed meter fields read back as that meter change |
| RecordCodec.MeterChangeReadsBack | src/lib/Noted/Noted.ts:444-516 | both spellings of the keyword the pattern allows read back the meter change |
| RecordCodec.MeterChangeRoundTrip | src/lib/Noted/Noted.ts:444-516 | every meter change prints to a text that meterChangeFromString reads back to it |
| RecordCodec.MeterChangeFromString | src/lib/Noted/Noted.ts:444-460 | meterChangeFromString; MeterChangeReadsBack reads both keyword spellings back, and MeterChangeRoundTrip inverts the printer |
| RecordCodec.MeterChangeToString | src/lib/Noted/Noted.ts:509-516 | meterChangeToString; MeterChangeRoundTrip proves meterChangeFromString reads it back |
| RecordCodec.Pow10 | src/lib/Noted/Noted.ts:472 | the scale of a fractional digit run is positive |
| RecordCodec.MatchBpmChange | src/lib/Noted/Noted.ts:462 | a matched tempo has digit parts |
| RecordCodec.MatchBpmChangeRendered | src/lib/Noted/Noted.ts:462-469 | the tempo change scanner splits `bpm:bpm@position` into the tempo and the position fields |
| RecordCodec.BpmChangeReadsBack | src/lib/Noted/Noted.ts:461-524 | both spellings of the keyword read back a tempo change with a whole tempo |
| RecordCodec.BpmChangeRoundTrip | src/lib/Noted/Noted.ts:461-524 | every tempo change with a whole tempo prints to a text that bpmChangeFromString reads back to it |
| RecordCodec.BpmChangeFromString | src/lib/Noted/Noted.ts:461-475 | bpmChangeFromString; BpmChangeReadsBack reads both keyword spellings of a whole tempo back, and BpmChangeRoundTrip inverts the printer |
| RecordCodec.BpmChangeToString | src/lib/Noted/Noted.ts:517-524 | bpmChangeToString for a whole tempo only (fractional tempos are left out); BpmChangeRoundTrip proves bpmChangeFromString reads it back |
| CodecExamples.ReadAtFirstAt | src/lib/Noted/Noted.ts:427 | a record is split at its first '@' |
| CodecExamples.BarOnlyNote | src/lib/Noted/Noted.test.ts:170-173 | `value@1?aaa&` reads as a bar position with the one attribute `aaa` |
| CodecExamples.FullNoteIsPlain | src/lib/Noted/Noted.test.ts:165-168 | the full note avoids the separators and is already in the printer's normal form |
| CodecExamples.FullNoteText | src/lib/Noted/Noted.test.ts:165-168 | the full note prints as `value:type@1.17/16*3:2~2?aaa&bbb` |
| CodecExamples.FullNoteReads | src/lib/Noted/Noted.test.ts:165-168 | `value:type@1.17/16*3:2~2?aaa&bbb` reads as the full note |
| CodecExamples.EmptyPositionIsRefused | src/lib/Noted/Noted.test.ts:219 | `value@` is an invalid record |
| CodecExamples.SecondAtIsRefused | src/lib/Noted/Noted.ts:427-432 | `a@b@1` is refused because the reader splits at the first '@' (where NOTE_REGEX would backtrack; see "## Left out") |
| CodecExamples.ColonAfterBarIsRefused | src/lib/Noted/Noted.test.ts:220 | `value@1:2` is an invalid record |
| CodecExamples.CaretAfterOffsetIsRefused | src/lib/Noted/Noted.test.ts:221 | `value:type@1.17^3:2` is an invalid record |
| CodecExamples.BarOnlyNotePrints | src/lib/Noted/Noted.test.ts:211-215 | the minimal note prints as `value@1`, and the one-attribute note without its trailing '&' |
| CodecExamples.LeadingZeroBarIsRefused | src/lib/Noted/Noted.ts:62-84 | a bar written `01` is refused as a number |
| CodecExamples.ThirdIsNoMeasure | src/lib/Noted/Noted.ts:404 | `1.1/3` is refused: 3 is not a subdivision |
| CodecExamples.DupletIsNoTuplet | src/lib/Noted/Noted.ts:405 | `1.1/4*2:1` is refused: 2:1 is not a tuplet |
| CodecExamples.SixFourMeter | src/lib/Noted/Noted.ts:444-516 | `6/4:meter@1` and `6/4:mete@1` both read as 6/4 at bar 1 |
| CodecExamples.DoubleTempo | src/lib/Noted/Noted.ts:461-524 | `120:bpm@1.2/4` and `120:bp@1.2/4` both read as 120 bpm at 1.2/4 |
| CodecExamples.PaddedTempoIsAccepted | src/lib/Noted/Noted.ts:472 | `060:bpm@0` is accepted: the tempo is read with parseFloat, not strictly |
| Texts.FirstIndex | src/lib/Noted/Noted.ts:427 | the index of the first occurrence of a character, or -1 exactly when it does not occur |
| Texts.FirstIndexAfter | src/lib/Noted/Noted.ts:427 | the first c of a + [c] + b, with no c in a, is at \|a\| |
| Texts.Split | src/lib/Noted/AbcRenderer.ts:146 | `split` never gives an empty list, and no piece holds the separator |
| Texts.SplitAfter | src/lib/Noted/AbcRenderer.ts:146 | a text splits at its first separator into the piece before it and the split of the rest |
| Texts.SplitJoin | src/lib/Noted/Noted.ts:441 | splitting a join gives the pieces back when none holds the separator |
| Texts.JoinSplit | src/lib/Noted/AbcRenderer.ts:146-166 | joining the pieces of a split gives the text back |
| Texts.NonEmpty | src/lib/Noted/Noted.ts:441 | `filter((v) => !!v)` keeps exactly the non-empty strings, and no more of them than there were |
| Texts.NonEmptyKeepsFull | src/lib/Noted/Noted.ts:441 | dropping empty strings keeps a list without them as it is |
| Texts.LexLeqTotal | src/lib/Noted/Noted.ts:504 | any two attributes are ordered one way or the other |
| Texts.LexLeqTransitive | src/lib/Noted/Noted.ts:504 | the attribute order is transitive |
| Texts.ConsecutiveGivesAscending | src/lib/Noted/Noted.ts:504 | neighbours in order make the whole list ascending |
| Texts.InsertString | src/lib/Noted/Noted.ts:504 | inserting adds exactly that string to the list |
| Texts.InsertStringAscending | src/lib/Noted/Noted.ts:504 | inserting into an ascending list keeps it ascending |
| Texts.SortStrings | src/lib/Noted/Noted.ts:504 | sorting the attributes gives an ascending permutation of them |
| Texts.SortedMembers | src/lib/Noted/Noted.ts:504 | every element of the sorted list is one of the attributes |
| Trimming.TrimStartCuts | src/lib/Noted/AbcRenderer.ts:146 | trimming the front removes a run of white space up to a character that is not white space |
| Trimming.TrimEndCuts | src/lib/Noted/AbcRenderer.ts:146 | trimming the back removes a run of white space down to a character that is not white space |
| Trimming.TrimIsTight | src/lib/Noted/AbcRenderer.ts:146 | neither end of a trimmed text is white space |
| Trimming.Trim | src/lib/Noted/AbcRenderer.ts:146 | String.trim; TrimStartCuts and TrimEndCuts prove it cuts only white space, TrimIsTight that no white space is left at either end, TrimOfTight and TrimIdempotent that it is a projection |
| Trimming.TrimOfTight | src/lib/Noted/AbcRenderer.ts:152 | a text without surrounding white space is its own trim |
| Trimming.TrimIdempotent | src/lib/Noted/AbcRenderer.ts:146 | trimming twice is trimming once |
| Directives.DirectiveName | src/lib/Noted/AbcRenderer.ts:151 | the directive is the prefix of the line before its first space |
| Directives.Classify | src/lib/Noted/AbcRenderer.ts:147-152 | a line is a setting exactly when it starts with `%%`, and then carries its directive and its trimmed value |
| Directives.ClassifyAll | src/lib/Noted/AbcRenderer.ts:146 | one classified line per line of the text |
| Directives.ClassifiedAt | src/lib/Noted/AbcRenderer.ts:146 | classified line k is line k classified |
| Directives.KeptPrefix | src/lib/Noted/AbcRenderer.ts:146-166 | the filter keeps no more lines than it reads |
| Directives.TextsOf | src/lib/Noted/AbcRenderer.ts:166 | the texts of the lines, one per line |
| Directives.TextsOfAppend | src/lib/Noted/AbcRenderer.ts:166 | the texts of a longer list extend those of the shorter one |
| Directives.FilterLine | src/lib/Noted/AbcRenderer.ts:146-166 | one call of the filter callback decides exactly Keeps for line i and updates lastDirective to LastSet after line i |
| Directives.KeptPrefixStep | src/lib/Noted/AbcRenderer.ts:146-166 | one line further, the kept lines grow by that line exactly when it is kept |
| Directives.LastSetStep | src/lib/Noted/AbcRenderer.ts:159-163 | one line further, lastDirective changes only by the value a kept directive line sets |
| Directives.OptimizeDirectives | src/lib/Noted/AbcRenderer.ts:143-167 | optimizeDirectives returns Optimized: the trimmed text's kept lines joined with line breaks |
| Directives.Optimized | src/lib/Noted/AbcRenderer.ts:143-167 | what optimizeDirectives returns; DropRule, KeptIsSubsequence, PlainLinesKept and LastSetIsLatestKept prove which lines it keeps |
| Directives.LastSetIsLatestKept | src/lib/Noted/AbcRenderer.ts:159-163 | lastDirective has a directive exactly when a kept line set it, and holds the value of the latest such line |
| Directives.LastSetHolds | src/lib/Noted/AbcRenderer.ts:159-163 | lastDirective has a directive exactly when a kept line set it |
| Directives.LastSetValue | src/lib/Noted/AbcRenderer.ts:159-163 | lastDirective holds the value of the latest kept line for the directive |
| Directives.LatestExists | src/lib/Noted/AbcRenderer.ts:159-163 | after a kept line for a directive there is a latest kept one |
| Directives.DropRule | src/lib/Noted/AbcRenderer.ts:147-165 | text lines are always kept; a directive line is dropped exactly when the next line starts with its directive or the latest kept line for it set the same value |
| Directives.KeptIsSubsequence | src/lib/Noted/AbcRenderer.ts:146 | the kept lines are the lines with some left out, in order |
| Directives.PlainLinesKept | src/lib/Noted/AbcRenderer.ts:147-149 | every line that is not a directive is kept, in order, and no other is added |
| Directives.KeptLineCounts | src/lib/Noted/AbcRenderer.ts:146 | a kept line stays in every longer prefix |
| Directives.SomeLineSurvives | src/lib/Noted/AbcRenderer.ts:154-165 | some line always survives: the last line has no next line to shadow it, and a line only drops for an earlier kept one |
| Directives.AllKept | src/lib/Noted/AbcRenderer.ts:147-149 | where no line is a directive every line is kept |
| Directives.WithoutDirectives | src/lib/Noted/AbcRenderer.ts:143-167 | a text without directive lines comes back trimmed and otherwise unchanged |
| DirectivesExamples.TrimAfterSpace | src/lib/Noted/AbcRenderer.ts:152 | a value after a single space is read without the space |
| DirectivesExamples.SettingLine | src/lib/Noted/AbcRenderer.ts:151-152 | a `%%name value` line reads as that directive and value |
| DirectivesExamples.OverriddenSlopeIsDropped | src/lib/Noted/AbcRenderer.ts:154-157 | a directive followed by the same directive is dropped |
| DirectivesExamples.RepeatedFontIsDropped | src/lib/Noted/AbcRenderer.ts:159-161 | the same annotation font set again after a kept one is written once |
| DirectivesExamples.FontLineReads | src/lib/Noted/AbcRenderer.ts:136 | the annotation font line reads as the directive `%%annotationfont` and value `* 12 nobox` |
| AbcBar.NotePositions | src/lib/Noted/AbcRenderer.ts:178 | one position per note, in order |
| AbcBar.AtLeastQuarter | src/lib/Noted/AbcRenderer.ts:186-187 | the subdivision is raised to at least a quarter, and a finer one is kept |
| AbcBar.NextMeasureIsDouble | src/lib/Noted/types.ts:3-9 | a larger Measure is at least twice as fine |
| AbcBar.Raised | src/lib/Noted/AbcRenderer.ts:189-193 | the loop stops at the first subdivision from the start on that fills the part with whole ticks, or where doubling leaves the Measures |
| AbcBar.AdjustedPositions | src/lib/Noted/AbcRenderer.ts:198-201 | the notes are moved to the common grid exactly when each of them can be, and then each is its own moved position |
| AbcBar.PartTicks | src/lib/Noted/AbcRenderer.ts:203 | the number of ticks in the part is never negative |
| AbcBar.PartGrid | src/lib/Noted/AbcRenderer.ts:172-206 | a grid that is found is at least a quarter fine, keeps the part's size and the bar's measure, has PartTicks ticks, and one moved position per note |
| AbcBar.Arrivals | src/lib/Noted/AbcRenderer.ts:210-222 | a tick receives some fragment exactly when a note landing on it resolves |
| AbcBar.Entries | src/lib/Noted/AbcRenderer.ts:217 | the pushed fragments, one entry each |
| AbcBar.RealEntries | src/lib/Noted/AbcRenderer.ts:213 | filtering out 'EMPTY' keeps exactly the fragments, and leaves something exactly when there was a fragment |
| AbcBar.Buckets | src/lib/Noted/AbcRenderer.ts:208-224 | one bucket per tick, each holding what the notes landing on it left |
| AbcBar.Multiplier | src/lib/Noted/AbcRenderer.ts:234 | the grouping always grows by at least 2 |
| AbcBar.NextGrouping | src/lib/Noted/AbcRenderer.ts:232-268 | a grouping step is taken only when the larger grouping fits the part, starts at a multiple of itself, covers no other note, and gives a note value that is a Measure and not coarser than a quarter unless it merges a tuplet |
| AbcBar.Grow | src/lib/Noted/AbcRenderer.ts:232-268 | the grouping the scan reaches never shrinks and stays inside the part |
| AbcBar.GroupAt | src/lib/Noted/AbcRenderer.ts:229-275 | the group written at tick i starts there, is at least one tick long and stays inside the part |
| AbcBar.Groups | src/lib/Noted/AbcRenderer.ts:227-331 | every group the scan writes from tick i on starts inside the part |
| AbcBar.GridTick | src/lib/Noted/AbcRenderer.ts:203 | a tick of the grid is a positive length |
| AbcBar.BeatLength | src/lib/Noted/AbcRenderer.ts:306-309 | a beat is a positive number of ticks |
| AbcBar.TickTexts | src/lib/Noted/AbcRenderer.ts:277-328 | one text per tick: the markers and token that a group starting there writes |
| AbcBarFacts.RealEntriesOfEntries | src/lib/Noted/AbcRenderer.ts:213 | filtering 'EMPTY' out of pushed fragments changes nothing |
| AbcBarFacts.RealEntriesOfBucket | src/lib/Noted/AbcRenderer.ts:210-222 | without the placeholder, a bucket is the fragments that arrived at its tick, in note order |
| AbcBarFacts.ArrivalsStep | src/lib/Noted/AbcRenderer.ts:210-222 | one note more adds its fragment to the tick it lands on, when it resolves, and to no other |
| AbcBarFacts.BucketStep | src/lib/Noted/AbcRenderer.ts:213-221 | one note more pushes onto the bucket of its tick and leaves the other buckets alone |
| AbcBarFacts.NoNotesNoBucket | src/lib/Noted/AbcRenderer.ts:208 | with no note placed every bucket is empty |
| AbcBarFacts.MixedTupletsHaveNoBar | src/lib/Noted/AbcRenderer.ts:174-185 | two notes on those mixed-tuplet eighths have no shared grid, and buildAbcBar throws the common measure error |
| AbcBarFacts.ArrivalsAreResolved | src/lib/Noted/AbcRenderer.ts:215-218 | every fragment in a bucket is the resolution of some note |
| AbcBarBuild.RaiseMeasure | src/lib/Noted/AbcRenderer.ts:189-193 | the doubling loop computes Raised |
| AbcBarBuild.PlaceNote | src/lib/Noted/AbcRenderer.ts:212-222 | placing a note changes only the bucket of the tick it lands on, by Push; an out-of-range tick changes nothing |
| AbcBarBuild.FillBuckets | src/lib/Noted/AbcRenderer.ts:208-224 | the note map the loop fills is a fresh array holding exactly Buckets |
| AbcBarBuild.SliceHoldsNotes | src/lib/Noted/AbcRenderer.ts:248 | the slice test is true exactly when a tick in the range holds a fragment |
| AbcBarBuild.MergeValue | src/lib/Noted/AbcRenderer.ts:252-256 | the merged note value is MergedMeasure |
| AbcBarBuild.GrowStep | src/lib/Noted/AbcRenderer.ts:234-267 | one pass of the inner loop takes the step NextGrouping allows, or breaks |
| AbcBarBuild.GrowGroup | src/lib/Noted/AbcRenderer.ts:229-268 | the inner loop ends at Grow from grouping 1 and the grid's subdivision |
| AbcBarBuild.RenderToken | src/lib/Noted/AbcRenderer.ts:284-321 | the if-chain over the distinct notes writes TokenText |
| AbcBarBuild.TupletOpening | src/lib/Noted/AbcRenderer.ts:279-282 | the beam-slope switch and `(p:q` before the first tick of each tuplet |
| AbcBarBuild.TupletClosing | src/lib/Noted/AbcRenderer.ts:326-328 | the beam-slope reset after the last tick of each tuplet |
| AbcBarBuild.ScanRound | src/lib/Noted/AbcRenderer.ts:227-331 | one round of the outer loop advances past tick i and keeps what the rest of the scan produces |
| AbcBarBuild.ScanFromStep | src/lib/Noted/AbcRenderer.ts:323-330 | the scan at tick i appends that tick's text and goes on after its group |
| AbcBarBuild.ScanBar | src/lib/Noted/AbcRenderer.ts:226-333 | the outer loop and the final replaceAll compute ScanText |
| AbcBarBuild.CommonGrid | src/lib/Noted/AbcRenderer.ts:172-185 | a single placed note gives its own grid, several the common measure or the error, none the bar's measure |
| AbcBarBuild.PlanPart | src/lib/Noted/AbcRenderer.ts:172-206 | the grid selection, the move to it, and the tick count check compute PartGrid |
| AbcBarBuild.BuildAbcBar | src/lib/Noted/AbcRenderer.ts:169-334 | buildAbcBar returns BarText: the grid, the note map and the scan, or the error it throws |
| AbcBar.BarText | src/lib/Noted/AbcRenderer.ts:169-334 | what buildAbcBar returns or throws; AbcBarGrouping proves the groups tile the part and BarFillsPart that the written tokens last exactly the part |
| AbcBarGrouping.GrowStops | src/lib/Noted/AbcRenderer.ts:232-268 | where the inner loop stops, the grouping divides the tick, covers no other note, cannot grow further, and carries its merged value |
| AbcBarGrouping.GroupAtStops | src/lib/Noted/AbcRenderer.ts:229-268 | each written group starts at a multiple of its size, covers no other note, is maximal, and is a quarter or finer unless it is a merged tuplet |
| AbcBarGrouping.GroupsTile | src/lib/Noted/AbcRenderer.ts:227-331 | the groups from tick i lie end to end up to the end of the part, each the group of its own first tick |
| AbcBarGrouping.TilesSize | src/lib/Noted/AbcRenderer.ts:227-331 | groups that lie end to end add up to the span |
| AbcBarGrouping.TilesCover | src/lib/Noted/AbcRenderer.ts:227-331 | every tick of a tiled span lies in some group |
| AbcBarGrouping.TilesOrdered | src/lib/Noted/AbcRenderer.ts:227-331 | an earlier group ends before a later one starts |
| AbcBarGrouping.TilesStart | src/lib/Noted/AbcRenderer.ts:227-331 | every group starts at or after the span's start |
| AbcBarGrouping.TilesDisjoint | src/lib/Noted/AbcRenderer.ts:227-331 | no tick lies in two groups |
| AbcBarGrouping.PartTiled | src/lib/Noted/AbcRenderer.ts:227-331 | the groups of the part cover every tick once, and their sizes add up to the tick count |
| AbcBarGrouping.ScanPicksGroups | src/lib/Noted/AbcRenderer.ts:227-331 | the scan appends, for each group it reaches, the table's text of that group's first tick |
| AbcBarGrouping.PickedGroupTexts | src/lib/Noted/AbcRenderer.ts:277-328 | picking from the table of tick texts gives the text of the groups |
| AbcBarGrouping.ScanWritesGroups | src/lib/Noted/AbcRenderer.ts:227-331 | the scan from tick i appends the text of each group it reaches, in order |
| AbcBarGrouping.ScanTextIsGroupsText | src/lib/Noted/AbcRenderer.ts:226-333 | the bar's text is the text of its groups in order, with blank lines collapsed |
| AbcBarGrouping.TupletTickLasts | src/lib/Noted/AbcRenderer.ts:271-282 | a single tuplet tick is written to last one tick |
| AbcBarGrouping.PlainTickLasts | src/lib/Noted/AbcRenderer.ts:297 | a single plain tick is written to last one tick |
| AbcBarGrouping.MergedRunLasts | src/lib/Noted/AbcRenderer.ts:252-256 | a merged run, dotted when q is a multiple of 3, is written to last the ticks it merges |
| AbcBarGrouping.WrittenLengthOfGroup | src/lib/Noted/AbcRenderer.ts:252-297 | a group is written to last exactly the ticks it covers |
| AbcBarGrouping.GroupLength | src/lib/Noted/AbcRenderer.ts:229-297 | the token of each written group lasts its ticks |
| AbcBarGrouping.GroupsLength | src/lib/Noted/AbcRenderer.ts:227-331 | the groups from tick i on last the rest of the part |
| AbcBarGrouping.PartTicksOf | src/lib/Noted/AbcRenderer.ts:203 | the tick count is subdivision times multiplier times part size over measure |
| AbcBarGrouping.GridTickOf | src/lib/Noted/AbcRenderer.ts:203 | a tick lasts one over subdivision times multiplier |
| AbcBarGrouping.GridSpan | src/lib/Noted/AbcRenderer.ts:203-206 | the part's ticks add up to partSize / measure whole notes |
| AbcBarGrouping.GridSpansPart | src/lib/Noted/AbcRenderer.ts:203-206 | the ticks of a part's grid add up to the part |
| AbcBarGrouping.AllGroupsLength | src/lib/Noted/AbcRenderer.ts:227-331 | the groups of the whole part last all its ticks |
| AbcBarGrouping.GridFillsPart | src/lib/Noted/AbcRenderer.ts:227-331 | the tokens over a grid last as long as the part it was made for |
| AbcBarGrouping.BarFillsPart | src/lib/Noted/AbcRenderer.ts:169-334 | the tokens of a built bar part last exactly partSize beats of 1/measure |
| AbcBarTokens.DistinctMembers | src/lib/Noted/AbcRenderer.ts:296 | `[...new Set(xs)]` keeps exactly the strings of xs |
| AbcBarTokens.DistinctIsUnique | src/lib/Noted/AbcRenderer.ts:296 | and holds each of them once |
| AbcBarTokens.DistinctOfUnique | src/lib/Noted/AbcRenderer.ts:296 | distinct strings are kept as they are, in order |
| AbcBarTokens.DistinctIsSingle | src/lib/Noted/AbcRenderer.ts:296-317 | there is one distinct string exactly when all are the first |
| AbcBarTokens.Bodies | src/lib/Noted/AbcRenderer.ts:297 | each fragment's note with the suffix, one per fragment |
| AbcBarTokens.EmptyTickIsRest | src/lib/Noted/AbcRenderer.ts:313-314 | a tick where no note landed is a rest |
| AbcBarTokens.PlaceholderTickIsBlank | src/lib/Noted/AbcRenderer.ts:315-316 | a tick holding only the placeholder is an invisible rest |
| AbcBarTokens.FragmentTickShape | src/lib/Noted/AbcRenderer.ts:317-321 | fragments with one note give that note, with several different ones a chord of the distinct notes |
| AbcBarTokens.BucketShape | src/lib/Noted/AbcRenderer.ts:208-321 | a tick no note lands on is a rest, one that only unresolved notes land on an invisible rest, and one a resolved note lands on a note or a chord |
| AbcBarTokens.SuffixReadsBack | src/lib/Noted/AbcRenderer.ts:297 | the written length `/m` or `3/2m` reads back as the note value it was written for |
| AbcBarTokens.TupletLabelReadsBack | src/lib/Noted/AbcRenderer.ts:281 | the ` (p:q` marker reads back as p and q |
| AbcBarTokens.TupletBounds | src/lib/Noted/types.ts:5-8 | every tuplet has p at least 3 and q at least 2 |
| AbcBarTokens.MarkersExclusive | src/lib/Noted/AbcRenderer.ts:279-328 | a single tuplet tick never both opens and closes its tuplet |
| AbcBarTokens.CollapseWithoutBlankLine | src/lib/Noted/AbcRenderer.ts:333 | a text without blank lines is left alone |
| AbcBarTokens.CollapseKeepsPrintable | src/lib/Noted/AbcRenderer.ts:333 | collapsing removes line breaks only: every other character stays, in order, and the text never grows |
| AbcResolver.Without | src/lib/Noted/AbcRenderer.ts:444 | the drum notes not in the lower names, and only those |
| AbcResolver.Typeless | src/lib/Noted/AbcRenderer.ts:446-447 | the voice's filter keeps no more notes than the bar has |
| AbcResolver.TypelessMembers | src/lib/Noted/AbcRenderer.ts:446-447 | a note is in a voice exactly when it is a typeless note of the bar whose value the voice names |
| AbcResolver.AnnotationsData | src/lib/Noted/AbcRenderer.ts:449-453 | one item per annotation of the bar, marked to merge exactly when a note of either voice sounds at its instant |
| AbcResolver.Unmerged | src/lib/Noted/AbcRenderer.ts:456 | every annotation put in the upper voice is an item that merges into no note |
| AbcResolver.UnmergedHolds | src/lib/Noted/AbcRenderer.ts:456 | every item that merges into no note is put in the upper voice |
| AbcResolver.UpperNotes | src/lib/Noted/AbcRenderer.ts:443-456 | the upper voice filter, then the push of the annotations that merge into no note; VoicesSplit proves a typeless note is in it exactly when it is a drum note outside the lower voice, and UnmergedHolds that every non-merging annotation is pushed |
| AbcResolver.LowerNotes | src/lib/Noted/AbcRenderer.ts:443-447 | the lower voice filter; VoicesSplit proves a typeless note is in it exactly when the lower voice is used and the note is in LOWER_NOTES, and NoLowerVoice that it is empty without the lower voice |
| AbcResolver.VoicesSplit | src/lib/Noted/AbcRenderer.ts:443-447 | a typeless note is in the lower voice exactly when the lower voice is used and it is a pedal or bass drum, and in the upper voice exactly when it is another drum note |
| AbcResolver.UnmergedAreAnnotations | src/lib/Noted/AbcRenderer.ts:456 | what the upper voice gains are annotations |
| AbcResolver.NoLowerVoice | src/lib/Noted/AbcRenderer.ts:443-447 | without the lower voice the lower staff has no notes and the upper voice names every drum note |
| AbcResolver.TypelessOfNoName | src/lib/Noted/AbcRenderer.ts:447 | a voice with no names has no notes |
| AbcResolver.WithoutNothing | src/lib/Noted/AbcRenderer.ts:444 | removing no names keeps the list |
| AbcResolver.AnnotationsPlaced | src/lib/Noted/AbcRenderer.ts:449-456 | every annotation of the bar is written: it merges into a note at its instant, or is a note of the upper voice |
| AbcResolver.Marked | src/lib/Noted/AbcRenderer.ts:491-496 | one flag per annotation |
| AbcResolver.MarkedUpTo | src/lib/Noted/AbcRenderer.ts:491-496 | one flag per annotation at every point of the loop |
| AbcResolver.MarkStep | src/lib/Noted/AbcRenderer.ts:491-496 | the loop flags item k exactly when it is waiting to merge at the note's instant |
| AbcResolver.MarkedAll | src/lib/Noted/AbcRenderer.ts:491-496 | the loop over every item gives Marked |
| AbcResolver.AnnotationTextCons | src/lib/Noted/AbcRenderer.ts:493 | each merged annotation is written on a line of its own before the text so far |
| AbcResolver.Resolved | src/lib/Noted/AbcRenderer.ts:458-499 | the resolver keeps one flag per annotation, and gives a text exactly when it gives a fragment |
| AbcResolver.NoteResolver.constructor | src/lib/Noted/AbcRenderer.ts:449-458 | a bar's resolver starts with every annotation unwritten |
| AbcResolver.NoteResolver.MergeAnnotations | src/lib/Noted/AbcRenderer.ts:491-496 | the loop writes, later ones first, the directives of the items waiting to merge at the note's instant before the text, and flags exactly those |
| AbcResolver.NoteResolver.Resolve | src/lib/Noted/AbcRenderer.ts:458-499 | one resolver call gives the text, the fragment and the new flags of Resolved |
| AbcResolverFacts.ResolveAll | src/lib/Noted/AbcRenderer.ts:458-499 | one result per note, and one flag per annotation |
| AbcResolverFacts.FlagsBefore | src/lib/Noted/AbcRenderer.ts:491-496 | one flag per annotation before each call |
| AbcResolverFacts.FlagsAfterCall | src/lib/Noted/AbcRenderer.ts:491-496 | one call sets exactly the flags of the items it writes and keeps all others |
| AbcResolverFacts.FlagsBeforeStep | src/lib/Noted/AbcRenderer.ts:491-496 | the flags before call i + 1 are those call i leaves |
| AbcResolverFacts.FlagStays | src/lib/Noted/AbcRenderer.ts:494 | a flag once set stays set for the rest of the calls |
| AbcResolverFacts.WrittenAtMostOnce | src/lib/Noted/AbcRenderer.ts:491-496 | no merged annotation is written by two calls |
| AbcResolverFacts.FlagHasWriter | src/lib/Noted/AbcRenderer.ts:491-496 | a flag set by the calls before note i was set by one of them writing that item |
| AbcResolverFacts.WrittenByFirstMatch | src/lib/Noted/AbcRenderer.ts:491-496 | a merging annotation is written by the first mapped note at its instant or by an earlier call |
| AbcResolverFacts.MergedMembers | src/lib/Noted/AbcRenderer.ts:491-496 | the annotations a note is written with are exactly the directives of the items that merge at its instant |
| AbcResolverFacts.MappedNoteLayout | src/lib/Noted/AbcRenderer.ts:463-496 | a mapped note is written as its annotations, drag and flam graces, ghost mark, accent and symbol, in that order, and its annotations are exactly the items its call writes |
| AbcResolverFacts.NothingToMerge | src/lib/Noted/AbcRenderer.ts:491-496 | a note with no annotation waiting at its instant is written without any and leaves the flags alone |
| AbcResolverFacts.MergedNone | src/lib/Noted/AbcRenderer.ts:491-496 | nothing waiting means nothing merged |
| AbcResolverFacts.OthersKeepFlags | src/lib/Noted/AbcRenderer.ts:459-468 | annotations give a rest and unknown notes nothing, and neither changes a flag |
| AbcResolverFacts.ResolutionIgnoresGrid | src/lib/Noted/AbcRenderer.ts:458-499 | the resolver gives the same result for a note moved to another grid at the same instant |
| AbcResolverFacts.MergedSame | src/lib/Noted/AbcRenderer.ts:491-496 | the annotations merged at two positions of the same instant are the same |
| AbcResolverFacts.MergesSame | src/lib/Noted/AbcRenderer.ts:492 | whether an item merges depends only on the note's instant |
| AbcParts.Rescaled | src/lib/Noted/AbcRenderer.ts:198-201 | the resolver sees each note of the part at its moved position |
| AbcParts.InVoice | src/lib/Noted/AbcRenderer.ts:518-524 | the `find` guarding noteResolver: some note of the voice has the note's value at its instant; PassResolvesItsVoice proves a note resolves exactly when it holds |
| AbcParts.VoiceStep | src/lib/Noted/AbcRenderer.ts:518-524 | the voice's find and its resolver call keep one flag per annotation |
| AbcParts.VoicePass | src/lib/Noted/AbcRenderer.ts:210-222 | one fragment per note of the part, and one flag per annotation |
| AbcParts.VoicePart | src/lib/Noted/AbcRenderer.ts:514-525 | one buildAbcBar call for a voice keeps one flag per annotation |
| AbcParts.PartStep | src/lib/Noted/AbcRenderer.ts:509-526 | one round of the part loop keeps one flag per annotation |
| AbcParts.BarUpTo | src/lib/Noted/AbcRenderer.ts:504-526 | the part loop keeps one flag per annotation |
| AbcParts.ResolvePass | src/lib/Noted/AbcRenderer.ts:210-222 | the resolver calls of one buildAbcBar, each behind the voice's find, compute VoicePass |
| AbcParts.BuildVoicePart | src/lib/Noted/AbcRenderer.ts:514-525 | one buildAbcBar call for a voice computes VoicePart, flags included |
| AbcParts.WritePart | src/lib/Noted/AbcRenderer.ts:509-526 | one round of the part loop appends part j for the upper then the lower voice, as PartStep, or throws its error |
| AbcParts.WriteBar | src/lib/Noted/AbcRenderer.ts:504-526 | the part loop computes BarUpTo over every part, or throws its error |
| AbcParts.BarToAbc | src/lib/Noted/AbcRenderer.ts:443-529 | one bar, from its notes to its two staves, is BarStaves |
| AbcParts.BarStaves | src/lib/Noted/AbcRenderer.ts:443-529 | one bar written part by part; AbcPartsFacts proves it is written exactly when every part fits, each pass resolves exactly its voice's notes, and the flags only grow |
| AbcParts.PartLength | src/lib/Noted/AbcRenderer.ts:508-517 | `meter[0] / partsCount` is the beats of one part |
| AbcParts.BarFailureStays | src/lib/Noted/AbcRenderer.ts:509-526 | once a part throws, the bar throws with that error |
| AbcPartsFacts.PassAt | src/lib/Noted/AbcRenderer.ts:210-222 | fragment k of a pass is the voice's step for note k with the flags the notes before it left |
| AbcPartsFacts.PassResolvesItsVoice | src/lib/Noted/AbcRenderer.ts:518 | a note of the part gets a fragment exactly when it has a grid position, its voice has it at that instant, and it is an annotation or a mapped note |
| AbcPartsFacts.EmptyVoicePass | src/lib/Noted/AbcRenderer.ts:524 | a voice with no notes resolves nothing and sets no flag |
| AbcPartsFacts.PassKeepsFlags | src/lib/Noted/AbcRenderer.ts:494 | a flag set before a pass is still set after it |
| AbcPartsFacts.VoicePartKeepsFlags | src/lib/Noted/AbcRenderer.ts:494 | a flag set before a voice of a part is still set after it |
| AbcPartsFacts.VoicePartSucceeds | src/lib/Noted/AbcRenderer.ts:514-525 | a voice of a part is written exactly when the part's grid can be built |
| AbcPartsFacts.PartStepSucceeds | src/lib/Noted/AbcRenderer.ts:509-526 | a round of the part loop succeeds exactly when the grid of that part fits |
| AbcPartsFacts.BarStepSucceeds | src/lib/Noted/AbcRenderer.ts:509-526 | k parts succeed exactly when k - 1 do and part k - 1 fits |
| AbcPartsFacts.Fitting | src/lib/Noted/AbcRenderer.ts:509-526 | one fit flag per part |
| AbcPartsFacts.FitsUpToStep | src/lib/Noted/AbcRenderer.ts:509-526 | the first k parts all fit exactly when the first k - 1 do and part k - 1 does |
| AbcPartsFacts.FittingAt | src/lib/Noted/AbcRenderer.ts:509-526 | entry j of the flags is whether part j fits |
| AbcPartsFacts.BarSucceedsStep | src/lib/Noted/AbcRenderer.ts:509-526 | for k > 0, the first k parts are written exactly when all of their grids fit |
| AbcPartsFacts.BarSucceedsAtStart | src/lib/Noted/AbcRenderer.ts:504-505 | no parts always succeed |
| AbcPartsFacts.BarSucceeds | src/lib/Noted/AbcRenderer.ts:504-526 | the first k parts are written exactly when the grid of every one of them can be built |
| AbcPartsFacts.PartStepExtends | src/lib/Noted/AbcRenderer.ts:514-526 | each part is appended to both staves and keeps every flag set before it |
| AbcPartsFacts.BarStep | src/lib/Noted/AbcRenderer.ts:509-526 | a bar written up to part k was written up to part k - 1, then part k - 1 was appended |
| AbcPartsFacts.NoLowerStaffNotes | src/lib/Noted/AbcRenderer.ts:520-525 | without the lower voice the lower staff resolves no note and keeps the flags as they are |
| BarParts.PartsTileTheBar | src/components/BarBlock/utils.ts:252-266 | the parts tile the bar: partsCount parts of a whole number of beats make up its beats and its length, and a bar with beats has parts |
| BarParts.PartSize | src/components/BarBlock/utils.ts:252-254 | calculatePartSize; PartsTileTheBar proves partsCount parts of this size make up the bar, and PartSizeScales that it scales with the subdivision |
| BarParts.PartsCount | src/components/BarBlock/utils.ts:266 | the number of parts; PartsTileTheBar proves the parts' beats add up to the meter's beats |
| BarParts.PartStart | src/components/BarBlock/utils.ts:287 | part i starts i parts of beats into the bar, in notes of the meter's measure |
| BarParts.DivisionBounds | src/components/BarBlock/utils.ts:271 | dividing by a positive part length preserves the bounds of a part's span |
| BarParts.FloorSpan | src/components/BarBlock/utils.ts:271 | a fraction rounds down to part j exactly when it lies in that part's span |
| BarParts.FloorBelow | src/components/BarBlock/utils.ts:271 | a non-negative fraction rounds down into the first n parts exactly when it lies before their end |
| BarParts.FloorAtOrPast | src/components/BarBlock/utils.ts:271 | a fraction in part n or later lies at or past the end of the first n parts |
| BarParts.FloorBefore | src/components/BarBlock/utils.ts:271 | a fraction in one of the first n parts lies before their end |
| BarParts.PartOf | src/components/BarBlock/utils.ts:271 | `Math.floor(fraction / calculatePartSize(meter, 1))`; PartOfSpan proves it is j exactly when the fraction lies in part j's span |
| BarParts.PartOfSpan | src/components/BarBlock/utils.ts:271 | a position is in part j exactly when its fraction of the bar lies in that part's span |
| BarParts.PartOfInsideBar | src/components/BarBlock/utils.ts:266-271 | a position inside the bar falls into one of its parts, one at or past its end into none |
| BarParts.PartNotes | src/components/BarBlock/utils.ts:269-271 | the part's notes are at most the bar's notes |
| BarParts.PartNotesMembers | src/components/BarBlock/utils.ts:269-271 | a note is in part i exactly when it is a note of the bar whose fraction rounds down to i |
| BarParts.NoteInOnePart | src/components/BarBlock/utils.ts:266-271 | every note inside the bar is in exactly one part, and one past its end is in none |
| BarParts.MaxMeasure | src/components/BarBlock/utils.ts:274-276 | the maxOf reduce from DEFAULT_MEASURE; MaxMeasureIsMaximum proves it is at least DEFAULT_MEASURE and every note's subdivision, and one of those |
| BarParts.MaxMeasureIsMaximum | src/components/BarBlock/utils.ts:257-276 | the detected subdivision is at least DEFAULT_MEASURE and every note's, and is one of those |
| BarParts.FirstTuplet | src/components/BarBlock/utils.ts:279-281 | the `r ??` reduce; FirstTupletIsFirst proves it is none exactly when no note has a tuplet, and otherwise the first note's tuplet |
| BarParts.FirstTupletIsFirst | src/components/BarBlock/utils.ts:279-281 | the detected tuplet is none exactly when no note has one, and otherwise that of the first note that has one |
| BarParts.FittingTuplet | src/components/BarBlock/utils.ts:283-285 | a tuplet whose q exceeds the part's length on its grid is dropped, and one that fits is kept |
| BarLines.LastWriteWins | src/components/BarBlock/utils.ts:298-313 | a line holds an entry exactly when it had one or was written, and then the last write to it |
| BarLines.ApplyAppend | src/components/BarBlock/utils.ts:300-313 | writing two runs of entries is writing the first, then the second |
| BarLines.TemplateWritesMembers | src/components/BarBlock/utils.ts:302-306 | a note's template writes are exactly those of the templates that match it |
| BarLines.WritesHoldTheNotes | src/components/BarBlock/utils.ts:300-313 | every write of a tick is of one of its notes |
| BarLines.NoteMapHoldsTheNotes | src/components/BarBlock/utils.ts:298-313 | every note on a line of a tick is one of the tick's notes |
| BarLines.LastTo | src/components/BarBlock/utils.ts:298-313 | the index of the last write to a line |
| BarLines.LastTemplateWins | src/components/BarBlock/utils.ts:302-306 | a line is drawn on exactly when it was or a matching template draws on it, and then by the last such template |
| BarLines.TemplateLineKept | src/components/BarBlock/utils.ts:302-306 | a line no template draws on keeps its entry |
| BarLines.TemplateLineEntry | src/components/BarBlock/utils.ts:302-306 | the line of the last template drawing the note holds that template's symbol |
| BarLines.TypelessNoteLines | src/components/BarBlock/utils.ts:300-307 | a tick with one typeless note draws it on each line of a matching template, with the last such template's symbol |
| BarLines.WritesOfOne | src/components/BarBlock/utils.ts:300-313 | the writes of a single note are that note's writes |
| BarLines.AnnotationLines | src/components/BarBlock/utils.ts:308-312 | a tick with one annotation draws it on the bottom line when it is marked below, on the top line otherwise, and nowhere else |
| BarLines.AnnotationWrites | src/components/BarBlock/utils.ts:308-312 | an annotation makes a single write, of its value on its line |
| BarLines.ApplyOne | src/components/BarBlock/utils.ts:304 | one write sets that line |
| BarLines.FillNoteMap | src/components/BarBlock/utils.ts:298-313 | the loop over the tick's notes and the templates builds NoteMapOf |
| BarLines.NoteMapOf | src/components/BarBlock/utils.ts:298-313 | the line map of a tick; LastTemplateWins, TypelessNoteLines, AnnotationLines and NoteMapHoldsTheNotes prove which line holds which note with which symbol |
| BarLines.TemplateStep | src/components/BarBlock/utils.ts:302-306 | one template further, the map changes by that template's write exactly when it matches |
| BarLines.TemplateStepAt | src/components/BarBlock/utils.ts:302-306 | one template further, one line changes only when that template draws on it |
| BarLines.NoteStep | src/components/BarBlock/utils.ts:300-313 | one note further, the map is the map of one more note |
| BarLines.OneNoteWrites | src/components/BarBlock/utils.ts:300-313 | drawing one note applies that note's writes |
| BarTicks.CeilNatCounts | src/components/BarBlock/utils.ts:293 | the loop runs for each j below the tick count, and no more |
| BarTicks.TickNotes | src/components/BarBlock/utils.ts:297 | the tick's notes are at most the part's |
| BarTicks.TickNotesMembers | src/components/BarBlock/utils.ts:297 | a note is in a tick exactly when it is a note of the part at the tick's instant |
| BarTicks.TicksUpTo | src/components/BarBlock/utils.ts:293-316 | k ticks, tick j at j slots after the first with its line map |
| BarTicks.PartResults | src/components/BarBlock/utils.ts:268-325 | one result per part |
| BarTicks.CreateParts | src/components/BarBlock/utils.ts:256-328 | createParts returns PartsUpTo over every part, or the first part's error |
| BarTicks.PartAtFrom | src/components/BarBlock/utils.ts:274-324 | the part built from the computed subdivision, tuplet and start position is PartAt, or its error |
| BarTicks.BuildTicks | src/components/BarBlock/utils.ts:291-316 | the tick loop builds TicksUpTo for the rounded-up tick count |
| BarTicks.PartsStep | src/components/BarBlock/utils.ts:268-325 | one part more appends it, or throws its error |
| BarTicks.CollectStep | src/components/BarBlock/utils.ts:268-325 | a throwing loop appends while no part has failed and keeps the first error |
| BarTicks.FailureStays | src/components/BarBlock/utils.ts:268-325 | once a part fails, every later prefix fails with the same error |
| BarTicks.PartResultsPrefix | src/components/BarBlock/utils.ts:268-325 | the results of the first k parts are a prefix of the results of more parts |
| BarTicks.PartResultsAt | src/components/BarBlock/utils.ts:268-325 | result i of the first k is the result of part i |
| BarTicks.CollectFailureStays | src/components/BarBlock/utils.ts:268-325 | a failure among the first results is the failure of every longer run |
| BarTicks.CollectAll | src/components/BarBlock/utils.ts:268-325 | the results are collected exactly when none fails, and then in order |
| BarTicksFacts.PartsInOrder | src/components/BarBlock/utils.ts:256-328 | all parts are built exactly when every part is, and then part i is PartAt(i) |
| BarTicks.PartAt | src/components/BarBlock/utils.ts:269-324 | part i of createParts; PartHeader, DetectedGrid, PartFails, TicksSpanThePart, TicksOnTheGrid and TicksHoldThePartNotes prove its index, grid, failure, ticks and notes |
| BarTicksFacts.PartHeader | src/components/BarBlock/utils.ts:274-322 | part i carries its index, the earlier part's subdivision and tuplet when there is one, and a tuplet only when it fits |
| BarTicksFacts.DetectedGrid | src/components/BarBlock/utils.ts:273-285 | without an earlier part the subdivision is at least DEFAULT_MEASURE and every note's, and the tuplet is the first of the part's notes when it fits |
| BarTicksFacts.PartFails | src/components/BarBlock/utils.ts:287 | a part fails exactly when moving its start to its grid fails |
| BarTicksFacts.TicksSpanThePart | src/components/BarBlock/utils.ts:289-293 | a part has one tick for each slot its length spans |
| BarTicksFacts.TicksOnTheGrid | src/components/BarBlock/utils.ts:287-295 | the ticks are consecutive slots of the part's grid, the first at the part's start |
| BarTicksFacts.TicksHoldThePartNotes | src/components/BarBlock/utils.ts:297-313 | every note drawn in a tick is a note of the part sounding at the tick's instant |
| BarTicksFacts.PartSizeScales | src/components/BarBlock/utils.ts:252-254 | a part's length in notes of 1/m is m times its length in whole notes |
| BarTicksFacts.ScaleQuotient | src/components/BarBlock/utils.ts:252-254 | scaling a quotient scales its numerator |
| BarTicksFacts.StartFraction | src/components/BarBlock/utils.ts:287 | part i starts i part lengths into the bar |

## Left out

- Floating point: JavaScript doubles are exact reals here. Rounding in fractions, times and tempos is not modelled, and neither are `Infinity` and `NaN`.
- TimeKeys.CreateTimeKeys: requires every tempo to be non-zero. With a zero tempo the code divides by zero and gets `Infinity`, which is not modelled. The ordering lemmas of TimeKeysFacts also assume positive tempos, because a negative tempo runs time backwards.
- TimeKeys.CreateTimeKeys: a meter change in bar 0 is overridden by the default meter the code sets for bar 0 (`meters.set(0, …)`). The model keeps that behaviour, while `Lookups.BarMeterIsLatest` reports the change.
- RecordCodec.MeterChangeFromString: refuses a meter change whose beat count is not a whole number (such as `6.5/8:meter@1`) with UnsupportedMeter. The code accepts it: the text passes METER_CHANGE_REGEX and parseNumber. The code then also uses it. compositionToAbc tests only the composition's own meter for an integer beat count (AbcRenderer.ts:350-352). With 6.5 beats the part loop runs seven parts without throwing. Meter beats are natural numbers in the model. So TimeKeys.CreateTimeKeys, Lookups.BarMeter, AbcParts.BarStaves and BarTicks.CreateParts never see such a meter, and what the code does with one is not modelled.
- RecordCodec.BpmChangeRoundTrip: proved for whole-number tempos only. `String(bpm)` for a fractional double, and `parseFloat` on arbitrary text, involve decimal-to-binary conversion, which is not modelled.
- RecordCodec.NoteFromString: the reader splits a note at its first '@', then at the first '?' after it. NOTE_REGEX can backtrack to a later '@' when the text after the first one is not a position. So "a@b@1" reads in the code as value "a@b" at bar 1, while the model refuses it. And "a:b@1?x@2" reads in the code as type "b@1?x" at bar 2 with no attributes, while the model gives type "b" at bar 1 with the attribute "x@2". With a type present, the greedy type group even prefers the last '@' that is followed by a position.
- RecordCodec.BpmChangeToString: defined only for whole-number tempos (requires WholeTempo). The code prints any tempo with `String(bpm)`, including fractional ones like the 120.5 that BpmChangeFromString reads from "120.5:bpm@1". Printing a fractional double is not modelled, so the printer is not defined on every value the reader returns.
- RecordCodec.NoteRoundTrip: proved for values, types and attributes that contain none of the separators `: @ ? &` and no line break. On other text the regular expressions can match in ways the scanner does not follow.
- Attribute sorting uses plain character-code order instead of `localeCompare`, which depends on the locale.
- AbcBarBuild.BuildAbcBar: a single note with a value that *contains* "EMPTY" is modelled as a value *equal* to "EMPTY". `includes` on arbitrary text is not modelled.
- AbcBarBuild.BuildAbcBar: a note whose rescaled offset falls outside the part's ticks is ignored. The code would write past the end of the note map array.
- Map insertion order of the editor's note map: a tick's line map is a Dafny `map`, so iteration order is not modelled.
- The note resolver's output string is modelled as a structured fragment: grace notes, annotation lines, accent flag and body. The regular-expression rewriting of that string is not modelled.
- Annotation font sizes are a parameter of the resolver model (a function from a note to a size). The floating-point font-size formula is not modelled.
- The staff style and layout maps that pick a drum's ABC symbol are a parameter (`symbols`). Their table contents are data, not logic.
- `compositionToAbc` outside the part split is not modelled:
  - the outer bar loop;
  - the meter and tempo directives written ahead of a bar (supplied as a `head` parameter);
  - stripping the first bar's `|`;
  - the "Play N×" repeat annotation.
- Repeat detection and hashing (`detectRepeats`, `getNotesHash`, `Part.hash`) are left out. They only decide when equal bars are folded into a repeat.
- The ABC header template and `generateRandomString` are left out. The header is fixed text and the identifier is random.
- abc2svg rendering, SVG output, `DrumPlayer` audio and `console.warn` are left out. They are input/output with no effect on the state modelled here.
- `renderedCursors` is left out. It is written but never read back by the core.
- BarTicksFacts.TicksOnTheGrid: proves that the ticks are consecutive grid slots from the part's start. It does not prove that the last tick lies inside the part, only the tick count that should make it so.
- Numerals.ParseInteger: accepts every canonical digit string with its exact value. The code goes through a double and refuses text whose value prints differently, such as integers above 2^53 or from 1e21 on. So ParsePrinted and the PositionCodec and RecordCodec round trips hold here for bar numbers, offsets and beats the code would refuse.
- `modifyPosition` throws when a position cannot be represented on the target grid. The model returns a `Result` failure instead.

## Findings

| source | as written | input that shows it | evidently intended | confidence | as-written member | corrected member |
|---|---|---|---|---|---|---|
| src/lib/Noted/Noted.ts:166-173 | with a tuplet requested, modifyPosition first changes the measure on the old tuplet's grid, so it can throw for a grid findCommonMeasure (Noted.ts:105-165) answered | eighths 0 and 1 of 7:8 (`0.0/8*7:8` and `0.1/8*7:8`): findCommonMeasure answers 4 with 7:4, both instants lie on that grid, and modifyPosition of the second needs the offset 1 * 4 / 8 = 0.5 | every position moves onto the grid findCommonMeasure answers for it, as a one-step rescale does | low, not executed | CommonMeasureFacts.CommonGridUnreachable | CommonMeasureFacts.CommonGridIsReachable |

The corrected half is `Positions.MoveToGrid`, which counts the instant in the requested grid's ticks in one step. `CommonMeasureFacts.CommonGridIsReachable` proves that it reaches findCommonMeasure's grid for every input. buildAbcBar is the only caller of findCommonMeasure (AbcRenderer.ts:178). It raises the measure before calling modifyPosition (AbcRenderer.ts:186-201); for these two eighths in a 4/4 part the measure becomes 16, and the call succeeds. This is why the confidence is low. `AbcBarBuild.BuildAbcBar` models modifyPosition as the code writes it.
