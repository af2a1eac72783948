# bwave verification model

`crates/bwave` stores digital waveforms and answers queries about them. Four parts of it trade an
obvious computation for a fast one. This project models both sides of each trade in Dafny and
proves where they agree. `dafny verify dfyconfig.toml` checks everything.

**Sampled queries.** Synchronous queries never walk clock cycles one by one. `ClockGrid` finds
rises, stopped stretches and cycle numbers; `SampledRuns` turns transitions into runs of cycles and
proves that they cover exactly the cycles of the query in which the event occurs; `Occupancy` counts
cycles per value; `PairSegments` pairs runs arithmetically and proves the expansion equal to the
naive pairing; `DistanceSummary` takes order statistics by bisection on ranks; `StoppedPairs` and
`StoppedCycles` count and remove stopped cycles in closed form. `DistanceQuery` composes them: a
whole distance query reports what one walk over the cycles of its window reports.

**Conversion.** `VcdText` reads VCD body text (value changes as in section 18.2 of IEEE 1364-2005).
`SerialConversion` is the line-by-line converter and the specification; `LineMeaning` says what each
line means by its bytes, and `BodyMeaning` what state and logs a body means. `ChunkSource` cuts a body
into chunks, `ChunkParsing` summarises a chunk without knowing the state it starts in, and
`Reconciliation` folds summaries into the state. `ChunkLogs` and `SectionEncoding` show which changes
a section is handed and at which ticks; `SignalStreams` and `SectionEncoder` model the streams and
frame slots that the encoder keeps for them; `StoredContent` compares an encoded section with the
serial writer's. `Coordination` is the coordinator under every interleaving of parser and encoder
completions, and `Conversion` puts everything together.

What is proved of the parallel converter is this. It ends in the serial state. Its sections are
handed, for every signal, the changes the serial converter records, at the same ticks, up to changes
that repeat the current value (`ChunkLogs.Normal`, `SameStored`). Entries after tick 0 and the start
values of later sections are then exactly the serial ones. The frame value of the first section is
the exception: a signal has one slot for all its changes at tick 0, and a fragment with more than one
of them can keep the wrong one or be refused. `SignalStreams.ApplyFragment` gives the exact
conditions, `SectionEncoder.FramesRight` carries them through a section, and read at any tick the
sections show the serial value of every signal whose first frame value is right.

The parallel parser recognises a repeated vector line by its text. That is right only while the text
still stands for the signal's value (`RawFresh`): `Reconciliation.FragmentModeIsRightExactlyWhen`
proves the condition exact. A body in which no signal mixes scalar and vector lines within a chunk
always meets it (`OneFormIsFresh`).

**Virtual signals.** `VirtualExpressions` evaluates expressions over signals and says what they mean;
`VirtualSignals` compiles them to minimal transition lists and proves these equal to pointwise
evaluation through chains of definitions. `BitSlices` covers the two ways a stored value is sliced,
`SliceMeaning` the characters of a sliced text.

**Values and reads.** `Radix`, `Matching`, `BitText` and `Packing` cover radix conversion, value
matching, the x/z normal form of left extension and the multiply-based bit packer. `SignalStore`
proves when cached reads agree with the uncached stream.

Ticks, cycles and counts are natural numbers; `U64_MAX` and `U128_MAX` appear where machine
arithmetic is checked, saturates or could overflow. Reads, parser and encoder completions, buffer
returns, cancellation and failures are nondeterministic choices inside the methods, so each method's
contract holds for all of them. Real values are opaque eight-byte texts, given by a function of
their token.

Results that correct an expectation, each with its input and its exact condition:

- The one-bit signal written b0, 1, b0 in one chunk after a timestamp: the last line is taken for a
  repeat of the first (`Reconciliation.MixedFormsLoseAChange`).
- The chunk `#0 0! #0 1! #5 0!` as a first section: the serial frame holds 1, the parallel one 0,
  because the slot takes the last change under the fragment's first timestamp line, not under its
  first tick (`FrameTime.SecondTimestampIsLost`). With `#0 0! 1! 0!` the conversion fails
  (`FrameTime.ThirdChangeFails`). Neither can happen when chunks that select fragments start with a
  positive timestamp (`Conversion.PositiveJobs`).
- A slice of 128 bits or more that does not start at bit 0, or a slice from bit 128 or above, shows
  different numbers to equality and to order tests (`BitSlices.SlicesAgreeExactlyWhen`). The shift
  distance is taken modulo 128, as a build without overflow checks does; with overflow checks such
  a shift aborts.
- A windowed read whose window starts more than one tick after its end depends on which memo serves
  it (`SignalStore.WindowsAgreeExactlyWhen`, `InvertedWindowDependsOnMemo`).
- `exclude_stopped` advances past a stop with a saturating step, so a stopped cycle with the largest
  64-bit number stays in the result (`StoppedCycles.ExcludeStoppedIsExactWhen`,
  `StoppedCycles.LastCycleIsKept`). Only a direct caller can meet this: stops that come from a clock
  analysis end earlier (`ClockGrid.StoppedCyclesEndEarly`), and then `SampledRuns.SampledEventRuns`
  is exact.

## Model

| member | source | states |
|---|---|---|
| `ClockGrid.TickToCycleIsEdgeInterval` | crates/bwave/src/cache.rs:4028-4033 | a tick is in cycle `c` if and only if it lies from the edge of `c` up to, not including, the next edge; in cycle 0 if and only if it precedes the base |
| `ClockGrid.CheckedCycleBaseIsLeast` | crates/bwave/src/cache.rs:4037-4053 | the base is the least grid tick at or after the start; an error means no such tick fits 64 bits; without a period it is the start |
| `ClockGrid.RisingTicks` | crates/bwave/src/clock.rs:43-53 | the loop returns the rises of the trace |
| `ClockGrid.RisesMeaning` | crates/bwave/src/clock.rs:43-53 | those are exactly the ticks of 0-to-1 steps, in trace order |
| `ClockGrid.Analyze` | crates/bwave/src/clock.rs:79-178 | read off the trace: the first rise that is before the first one or off the grid, the first value with an unknown bit strictly after a rise, none of either only if the trace has none, and stopped stretches that cover exactly the ticks at least a period away from both neighbouring rises, the later one trusted; pass and unavailable exactly when stated |
| `ClockGrid.TrustsIsBelowCutoff` | crates/bwave/src/clock.rs:104-108 | a tick is below the cutoff, the smaller of the two findings or the largest 64-bit tick, if and only if no off-grid rise and no unknown value comes up to it |
| `ClockGrid.StoppedStretches` | crates/bwave/src/clock.rs:147-156 | the loop over neighbouring rises, ended by the first untrusted one, returns the stretches |
| `ClockGrid.StoppedIsGaps` | crates/bwave/src/clock.rs:79-178 | the stopped stretches are exactly the gaps of the rises that skip grid ticks |
| `ClockGrid.GridTickRisesOrStops` | crates/bwave/src/clock.rs:79-178 | up to the last rise before the cutoff every grid tick is a rise or lies in a stopped stretch, never both; the stretches are ascending and disjoint |
| `ClockGrid.RangesMeaning` | crates/bwave/src/clock.rs:180-200 | the cycle ranges list exactly the cycles whose edge lies in a stopped stretch, ascending and disjoint |
| `ClockGrid.StoppedCyclesMissTheirEdge` | crates/bwave/src/clock.rs:79-200 | with the base of `checked_cycle_base`, a cycle is reported stopped if and only if no rise falls on its edge |
| `StoppedCycles.StoppedCountMeaning` | crates/bwave/src/clock.rs:213-229 | for disjoint stops the overlap sum is the number of stopped cycles of the window |
| `StoppedCycles.SubtractFromRun` | crates/bwave/src/clock.rs:232-257 | the inner loop: one run minus the stops from a carried index on |
| `StoppedCycles.ExcludeStopped` | crates/bwave/src/clock.rs:232-257 | ascending disjoint non-empty result covering the run cycles that are not stopped, with the exact effect of the saturating step at the last 64-bit cycle, and at most one piece per run and per stop |
| `StoppedCycles.ExcludeStoppedIsExactWhen` | crates/bwave/src/clock.rs:232-257 | the subtraction is exact if and only if the last 64-bit cycle is not both in a run and stopped |
| `StoppedCycles.LastCycleIsKept` | crates/bwave/src/clock.rs:232-257 | the failing input: runs and stops both hold just the last 64-bit cycle, and it is kept |
| `ClockGrid.StoppedCyclesEndEarly` | crates/bwave/src/clock.rs:79-200 | no range of an analysis of 64-bit ticks reaches that cycle, so no query meets the failing input |
| `Waveform.ValueAtTickMeaning` | crates/bwave/src/cache.rs:4171-4181 | lookup returns the last entry at or before the tick, the later of equal ticks winning, and "x" before the first |
| `Waveform.ValueHolds` | crates/bwave/src/cache.rs:4171-4181 | lookup is constant between transitions |
| `Waveform.LookupIsValueAtTick` | crates/bwave/src/virtual_signal.rs:1268-1274 | on strictly increasing ticks the binary-search lookup agrees with `value_at_tick` |
| `SampledRuns.WindowIsOnTrace` | crates/bwave/src/cache.rs:4124-4136 | every cycle of the query window has a representable edge inside the trace; the cycle count overflows for one clock only, given exactly |
| `SampledRuns.WindowMeaning` | crates/bwave/src/cache.rs:4124-4136 | the window holds exactly the cycles from 1 on whose edge is inside the trace and whose number is within the signed 64-bit bounds of the query, where given |
| `SampledRuns.SampleIsSeen` | crates/bwave/src/cache.rs:597-601 | a sample is the value in force at the cycle's edge, or one tick before it under pre-edge sampling |
| `SampledRuns.FiresOccurs` | crates/bwave/src/format.rs:795-830 | an event fires if and only if: rising or falling, a one-bit step against the cycle before; change, any difference from it; any other literal, a value that agrees with it |
| `SampledRuns.ObservedBetween` | crates/bwave/src/cache.rs:602-629 | the cycle computed for a transition is the first one whose observation sees it, pre-edge and post-edge, on-edge included |
| `SampledRuns.ObservationBoundaries` | crates/bwave/src/cache.rs:602-629 | sorted distinct boundaries: the window start and every later cycle that first observes a transition, no others, so at most one more than transitions |
| `SampledRuns.SampleRepeats` | crates/bwave/src/cache.rs:597-629 | a cycle that first observes no transition samples what the previous cycle sampled |
| `SampledRuns.SampleHolds` | crates/bwave/src/cache.rs:597-629 | between boundaries every cycle samples the value of the first |
| `SampledRuns.UnionCycleRuns` | crates/bwave/src/cache.rs:3004-3017 | merged runs are separated, no more than given, and cover the same cycles |
| `SampledRuns.SampledEventRuns` | crates/bwave/src/cache.rs:2967-3002 | the runs cover exactly the cycles the query looks at in which the event occurs (stated on window bounds, lookups and literals), minus stopped cycles for a level that is searched for or sampled at; exact for all stops of an analysis; their number is bounded by transitions and stops |
| `Occupancy.TallyRuns` | crates/bwave/src/cache.rs:1191-1217 | one entry per run of equal samples tallies every cycle of the window |
| `Occupancy.SampledOccupancy` | crates/bwave/src/cache.rs:1191-1217 | per value, clocked and stopped counts are the sizes of the sets of cycles in the query window that see it outside and inside the stops; all counts add up to the window length |
| `Occupancy.CountIsCardinality` | crates/bwave/src/cache.rs:1191-1217 | counting cycle by cycle gives the size of that set |
| `PairSegments.PairRun` | crates/bwave/src/cache.rs:3073-3094 | the inner loop pairs one run of A completely, and its segments are paid for by the runs of B it passes |
| `PairSegments.PairWith` | crates/bwave/src/cache.rs:3068-3095 | expansion is the naive pairing (each A with the first B strictly after it), with at most one segment per A run and two per B run |
| `PairSegments.PairNeighbours` | crates/bwave/src/cache.rs:3096-3118 | same-signal mode expands to consecutive events, with at most two segments per run |
| `PairSegments.SampledPairSegments` | crates/bwave/src/cache.rs:3068-3118 | both modes |
| `DistanceSummary.SegmentSumIsSum` | crates/bwave/src/cache.rs:3131-3147 | the closed-form sum of a segment is the sum of its expanded distances, the halving exact |
| `DistanceSummary.SegmentRankIsRank` | crates/bwave/src/cache.rs:3148-3157 | the closed-form rank counts exactly the expanded distances up to a value |
| `DistanceSummary.TotalsAreExpanded` | crates/bwave/src/cache.rs:3160-3182 | folded count, sum and rank are those of the expanded distances |
| `DistanceSummary.ExtremesAreExpanded` | crates/bwave/src/cache.rs:3160-3168 | folded minimum and maximum are those of the expanded distances |
| `DistanceSummary.KthSmallest` | crates/bwave/src/cache.rs:3169-3185 | the value at which the rank first reaches k is the k-th element of the sorted list |
| `DistanceSummary.Kth` | crates/bwave/src/cache.rs:3169-3184 | bisection on summed ranks terminates and returns the k-th smallest expanded distance for every k |
| `DistanceSummary.PairSummary` | crates/bwave/src/cache.rs:3160-3191 | count, minimum, maximum, exact sum and the median elements equal those of the sorted list (`distance_summary`, lines 3363-3379) |
| `DistanceSummary.SegmentsFit` | crates/bwave/src/cache.rs:3068-3118 | segments paired from 64-bit runs start after cycle 0 and end within 64 bits |
| `DistanceSummary.TotalsFit` | crates/bwave/src/cache.rs:3161-3166 | for segments paired from 64-bit cycle runs the 64-bit count and the 128-bit sum cannot overflow |
| `StoppedPairs.SumPrefixIsSum` | crates/bwave/src/cache.rs:3195-3209 | the ramp-and-plateau closed form is the sum of stopped prefixes over a consecutive sequence |
| `StoppedPairs.SegmentStopsIsWalk` | crates/bwave/src/cache.rs:3210-3231 | one segment against one range equals the walk over its pairs, and the subtraction is non-negative |
| `StoppedPairs.StoppedPairSumIsExact` | crates/bwave/src/cache.rs:3193-3231 | the closed form is the sum, over all expanded pairs, of the stopped counts of their intervals |
| `StoppedPairs.PairStopsCountCycles` | crates/bwave/src/clock.rs:213-229 | for disjoint stops that is the number of stopped cycles strictly after a and up to b |
| `StoppedPairs.StoppedSumFits` | crates/bwave/src/cache.rs:3193-3231 | for 64-bit runs and stops every product, partial sum and the total of the closed form fit 128 bits |
| `DistanceQuery.StoppedIsMissed` | crates/bwave/src/cache.rs:526-535 | the ranges a query works with cover exactly the cycles at whose edge the clock does not rise while it rises later and is still trusted then, with the base of `cycle_base`, saturated or not |
| `DistanceQuery.QueryStops` | crates/bwave/src/cache.rs:526-572 | analysis, ranges and window filter: inside the window the stops cover exactly the cycles that miss their edge, as the trace shows it |
| `DistanceQuery.EventRuns` | crates/bwave/src/cache.rs:2967-3002 | the runs of an event expand to the list of cycles found by visiting every cycle of the window |
| `DistanceQuery.ListPairs` | crates/bwave/src/cache.rs:3281-3297 | the listing loop yields the first pairs of the expansion, with their stopped counts, up to the limit |
| `DistanceQuery.DistanceFromRuns` | crates/bwave/src/cache.rs:3251-3306 | a whole distance query: count, statistics, stopped cycles, listed pairs and truncation are those of one walk over the cycles the query looks at; an error only for the one clock whose cycles cannot be counted |
| `Radix.HexToDecimal` | crates/bwave/src/format.rs:309-334 | the decimal numeral of the value, at any width; other text comes back trimmed |
| `Radix.DecimalToHex` | crates/bwave/src/format.rs:337-366 | the upper-case hexadecimal numeral of the value; other text comes back trimmed |
| `Radix.HexToBinary` | crates/bwave/src/format.rs:369-396 | the binary numeral of the value without leading zeros |
| `Radix.BinToHex` | crates/bwave/src/format.rs:422-461 | the hexadecimal numeral of a binary text, nothing for other text |
| `Radix.MultiplyAdd` | crates/bwave/src/format.rs:345-359 | digits times base plus addend, with every intermediate at most 159 |
| `Radix.DecimalRoundTrip` | crates/bwave/src/format.rs:309-366 | decimal to hexadecimal and back is the decimal text without leading zeros |
| `Radix.BinaryRoundTrip` | crates/bwave/src/format.rs:369-461 | hexadecimal to binary and back is the upper-case text without leading zeros |
| `Radix.RoundTrips` | crates/bwave/src/format.rs:309-461 | both round trips through the methods themselves |
| `Matching.HexEqIsValueEq` | crates/bwave/src/format.rs:665-669 | trimmed case-insensitive equality of hexadecimal texts is equality of their values, at any width |
| `Matching.ValuesMatchIsNumeric` | crates/bwave/src/format.rs:843-870 | a stored number matches a numeral target if and only if both denote the same number, with the binary reading of 0/1 targets made explicit |
| `Matching.ValuesMatchAgrees` | crates/bwave/src/format.rs:843-870 | for all texts: equal up to case; or a Z or X target and such a bit in the value; or no unknown bits and the same digits after leading zeros, targets of several 0s and 1s read in binary |
| `Matching.MatchesHappens` | crates/bwave/src/format.rs:795-830 | which literals name an edge or a change, and what each trigger waits for |
| `BitSlices.HexSliceIsSlice` | crates/bwave/src/format.rs:537-660 | slicing the text of a number gives its bits msb to lsb, at any width |
| `BitSlices.UnknownBitsShow` | crates/bwave/src/format.rs:548-660 | whatever the text, its slice shows x (or z) if and only if one lies inside the range; otherwise it is the numeral of those bits |
| `BitSlices.SlicesAgreeExactlyWhen` | crates/bwave/src/format.rs:510-660 | equality tests (sliced text) and order tests (sliced 128-bit number) see the same number of every stored value if and only if the slice starts at bit 0, or starts below bit 128 and has fewer than 128 bits |
| `BitSlices.HighSliceOfFour` | crates/bwave/src/format.rs:528-535 | the failing input "4" [140:130] in 200 bits: order tests see 1, equality tests 0 |
| `BitSlices.WideSliceOfFour` | crates/bwave/src/format.rs:528-535 | the failing input "4" [129:2] in 200 bits: order tests see 4, equality tests 1 |
| `SliceMeaning.ExpansionMeaning` | crates/bwave/src/format.rs:561-627 | bit by bit: a value with unknown bits that fits the signal has one character per bit, any other value four bits per character, missing bits are 0; nothing exactly for a text that is no number |
| `SliceMeaning.HexSliceShows` | crates/bwave/src/format.rs:548-660 | one character for every four bits of the slice: X if one of them is unknown, else Z if one floats, else their digit; "0" outside the signal and the whole text when it is no number |
| `BitText.CanonBitsAppend` | crates/bwave/src/fst.rs:932-949 | after what was there, `width` characters: the value's rightmost ones in lower case, its own x or z or else 0 in front of a short value; over-wide is reported if and only if the value did not fit whole |
| `BitText.MinimalXz` | crates/bwave/src/cache.rs:42-81 | the in-place collapse computes the minimal form |
| `BitText.MinimalKeepsValue` | crates/bwave/src/cache.rs:42-81 | extending the minimal form gives back the same value, at every width |
| `BitText.MinimalOfExtension` | crates/bwave/src/cache.rs:42-81 | minimising after any extension gives the same text |
| `BitText.MinimalIsNormalForm` | crates/bwave/src/cache.rs:42-81 | two unknown texts mean the same value if and only if they minimise to the same text, which is no longer than either |
| `Packing.MaskTest` | crates/bwave/src/fst.rs:963-967 | one mask accepts eight characters if and only if all are 0 or 1 |
| `Packing.MultiplyGathers` | crates/bwave/src/fst.rs:968-968 | one multiplication gathers the eight low bits, first character first |
| `Packing.PackEight` | crates/bwave/src/fst.rs:962-968 | the eight-character step equals the bit-by-bit meaning |
| `Packing.PackShort` | crates/bwave/src/fst.rs:969-979 | the bit-by-bit loop for a short group |
| `Packing.PackRegion` | crates/bwave/src/fst.rs:959-987 | ORing shifted groups into a zeroed region packs all characters at an offset |
| `Packing.TryPackBinaryBitsAppend` | crates/bwave/src/fst.rs:951-989 | succeeds if and only if the kept suffix is all 0 and 1; then appends the packed canonical value, otherwise leaves the buffer as it was |
| `Packing.UnpackBinaryBitsInto` | crates/bwave/src/fst.rs:991-996 | fills the output with the unpacked bits |
| `Packing.UnpackOfPack` | crates/bwave/src/fst.rs:951-996 | unpacking what was packed is the canonical value, for short, exact and over-wide values |
| `VcdText.LinesConcat` | crates/bwave/src/fst.rs:2433-2457 | cutting text after a newline cuts its lines |
| `VcdText.EventsConcat` | crates/bwave/src/fst.rs:2285-2351 | cutting text after a newline cuts its events |
| `VcdText.NextLine` | crates/bwave/src/fst.rs:2433-2450 | the scan to the next newline finds the next line of the text |
| `VcdText.ReadTimestamp` | crates/bwave/src/fst.rs:1692-1725 | the two loops over blanks and digits compute the timestamp of a line |
| `LineMeaning.LinesMeaning` | crates/bwave/src/fst.rs:2433-2457 | a text of newline-terminated pieces has exactly the non-empty pieces, without their carriage returns, as lines |
| `LineMeaning.TimestampMeaning` | crates/bwave/src/fst.rs:1692-1725 | a timestamp line is # and a decimal number of 64 bits between blanks, with that value; other lines that begin with # are malformed |
| `LineMeaning.VectorMeaning` | crates/bwave/src/fst.rs:1496-1507 | text and identifier of a vector line are what stands before and after its first blanks |
| `LineMeaning.LineSays` | crates/bwave/src/fst.rs:2285-2351 | from the bytes of a line alone: which lines set the clock and to what, which turn dumping off and on, which write which text to which signal, and that every other line does nothing |
| `BodyMeaning.LogNext` | crates/bwave/src/fst.rs:2245-2283 | a line adds a record of a signal if and only if it writes the signal while dumping is on, with the clock's value and the extended text |
| `BodyMeaning.RunMeans` | crates/bwave/src/fst.rs:2285-2351 | after any lines: dumping is off if and only if the last dump directive turned it off, the clock is the largest timestamp, and each log holds one record per adding line, in order |
| `BodyMeaning.BodyMeans` | crates/bwave/src/fst.rs:2433-2457 | the same of the lines of a body |
| `SerialConversion.RunConcat` | crates/bwave/src/fst.rs:2285-2351 | running two pieces one after the other is running their concatenation |
| `SerialConversion.FstBuildHandler.ApplyTimestamp` | crates/bwave/src/fst.rs:2129-2146 | the running maximum of timestamps and the time-seen flag |
| `SerialConversion.FstBuildHandler.EmitChange` | crates/bwave/src/fst.rs:2245-2283 | stores and records the canonical value at the current tick and counts over-wide values |
| `SerialConversion.FstBuildHandler.ProcessLine` | crates/bwave/src/fst.rs:2285-2351 | the branches of one line are one step of the serial specification (whose events `LineMeaning.LineSays` gives in bytes); an error only for a malformed timestamp, which changes nothing |
| `SerialConversion.FstBuildHandler.ProcessChunk` | crates/bwave/src/fst.rs:2433-2457 | all lines in order; after an error, exactly the lines before the first malformed one |
| `ChunkParsing.StoredIsSerialValue` | crates/bwave/src/fst.rs:1548-1592 | inline, packed or exact, a stored payload stands for the value the serial converter stores |
| `ChunkParsing.EncodeValue` | crates/bwave/src/fst.rs:1548-1592 | computes the payload with the packer and the canonicaliser |
| `ChunkParsing.UsesFragmentsFits` | crates/bwave/src/fst.rs:1333-1335 | a chunk that selects fragments has no dump event and starts with a timestamp |
| `ChunkParsing.UsesFragmentsExactlyWhen` | crates/bwave/src/fst.rs:1333-1336 | fragment mode is chosen if and only if the first byte is # and the letters of a dump directive occur nowhere |
| `ChunkParsing.ChunkParser.AddRecord` | crates/bwave/src/fst.rs:1613-1666 | in fragment mode the signal's fragment keeps what it had, ends with the record's value and never repeats a neighbour; otherwise the record joins the list and the chain points at it; other signals are left alone |
| `ChunkParsing.ParsedIsChronological` | crates/bwave/src/fst.rs:1386-1453 | changes and fragments of a summary come in time order and fragments repeat no neighbour |
| `ChunkParsing.ChunkParser.AddChange` | crates/bwave/src/fst.rs:1509-1610 | one change, with the two fragment-mode shortcuts |
| `ChunkParsing.ChunkParser.ParseLine` | crates/bwave/src/fst.rs:1455-1507 | the branches of one line, with the vector scan, parse the event of `LineMeaning.LineSays` |
| `ChunkParsing.ChunkParser.Parse` | crates/bwave/src/fst.rs:1386-1453 | a whole chunk gives the specified summary, an error if and only if a timestamp is malformed |
| `Reconciliation.Reconciler.ApplyLastChanges` | crates/bwave/src/fst.rs:2385-2411 | every signal of a chain takes its last prefix (or enabled) value, the others keep theirs |
| `Reconciliation.Reconciler.ApplyLastFragments` | crates/bwave/src/fst.rs:2413-2431 | every signal with a fragment takes its last value, the others keep theirs |
| `Reconciliation.Reconciler.ReconcileChunkEvents` | crates/bwave/src/fst.rs:2364-2383 | folds a summary into frame, time and dump state |
| `Reconciliation.OneFormIsFresh` | crates/bwave/src/fst.rs:1519-1537 | if no signal mixes scalar and vector lines in a chunk, repeated text still stands for the signal's value |
| `Reconciliation.FragmentsAreExactWhen` | crates/bwave/src/fst.rs:1519-1537 | fragments end with each signal's last value at every point of a chunk if and only if repeated text is fresh |
| `Reconciliation.ReconcileIsSerial` | crates/bwave/src/fst.rs:2364-2431 | a chunk parsed without its incoming state, then reconciled, leaves the frame, tick, time-seen flag and dump flag that its lines leave in the serial converter |
| `Reconciliation.ChunksComposeToSerial` | crates/bwave/src/fst.rs:2364-2431 | the same for any number of chunks in order |
| `Reconciliation.FragmentModeIsRightExactlyWhen` | crates/bwave/src/fst.rs:1519-1608 | with dumping on, fragment mode follows the serial converter at every point of the chunk if and only if repeated text is fresh |
| `Reconciliation.MixedFormsLoseAChange` | crates/bwave/src/fst.rs:1519-1537 | the concrete chunk b0, 1, b0 on a one-bit signal, for which the two converters end in different frames |
| `ChunkLogs.NormalConcat` | crates/bwave/src/fst.rs:1784-1840 | dropping repeats composes over concatenation |
| `ChunkLogs.NormalHasNoRepeats` | crates/bwave/src/fst.rs:1784-1840 | a log without repeats repeats no value and ends where the log ends |
| `ChunkLogs.FrameIsLastOf` | crates/bwave/src/fst.rs:2245-2283 | the serial frame holds each signal's last recorded value |
| `ChunkLogs.ClockIsRunningMax` | crates/bwave/src/fst.rs:1788-1799 | the timestamps of a summary carry the serial clock |
| `ChunkLogs.ChangesLogIsSerial` | crates/bwave/src/fst.rs:1805-1827 | without fragments a resolved summary records exactly the serial changes at the serial ticks |
| `ChunkLogs.FragmentLogIsSerial` | crates/bwave/src/fst.rs:1519-1537 | the changes fragment mode drops are repeats of the current value: repeats apart, the recorded changes are the serial ones |
| `ChunkLogs.ChunkLogIsSerial` | crates/bwave/src/fst.rs:1784-1840 | in either mode and any incoming dump state the resolved summary records, repeats apart, the serial changes for every signal |
| `SectionEncoding.AddTicksFits` | crates/bwave/src/fst.rs:1788-1799 | the tick table stays strictly increasing, ends with the current tick and only grows |
| `SectionEncoding.MappedTick` | crates/bwave/src/fst.rs:1786-1799 | a mapped timestamp index stands for the running maximum at that timestamp |
| `SectionEncoding.AffineKeepsDifferences` | crates/bwave/src/fst.rs:1801-1804 | in an affine map chunk time differences are section time differences, so encoded tails may be copied |
| `SectionEncoding.ApplyFits` | crates/bwave/src/fst.rs:1784-1840 | every time index is in the table, and only the first section has frame-time changes |
| `SectionEncoding.ApplyStores` | crates/bwave/src/fst.rs:1784-1840 | a section's log grows by exactly what the summary records under the section's dump state and clock |
| `SectionEncoding.ParsedIsUsable` | crates/bwave/src/fst.rs:1613-1643 | a parsed summary has changes or fragments, never both, and fragments follow a timestamp |
| `SectionEncoding.SectionIsSerial` | crates/bwave/src/fst.rs:1762-1840 | a section opened in the state before its first chunk is handed, repeats apart, the serial changes of its chunks for every signal, and stays in step with the serial time and dump state |
| `SignalStreams.ApplyRecords` | crates/bwave/vendor/fst-writer/src/buffer.rs:412-494 | a list of changes in time order is stored: frame, current value and relative-time stream are those of storing one change after the other; no error can arise |
| `SignalStreams.Push` | crates/bwave/vendor/fst-writer/src/buffer.rs:110-186 | a fragment is extended unless the value repeats, keeping its first two changes, its last one, the last one under its first timestamp and the encoded tail |
| `SignalStreams.RewriteTail` | crates/bwave/vendor/fst-writer/src/buffer.rs:526-583 | the tail moved entry by entry holds the mapped times; it fails if and only if its first change maps to frame time |
| `SignalStreams.CopiedTail` | crates/bwave/vendor/fst-writer/src/buffer.rs:585-655 | where chunk times map to consecutive entries, the tail copied unchanged holds the mapped times |
| `SignalStreams.ApplyFragment` | crates/bwave/vendor/fst-writer/src/buffer.rs:585-655 | succeeds if and only if at most two changes (none in a later section) map to frame time; stream and current value are right; the frame value is right if and only if fewer than two do, or both have the same timestamp |
| `SectionEncoder.StampsAreOrderly` | crates/bwave/src/fst.rs:1784-1827 | stamped changes are in time order, within the table, at frame time in the first section only |
| `SectionEncoder.StoreChanges` | crates/bwave/vendor/fst-writer/src/buffer.rs:899-949 | a summary in list form is stored for one signal |
| `SectionEncoder.StoreFragment` | crates/bwave/vendor/fst-writer/src/buffer.rs:950-1012 | a signal's fragment is stored, with the exact condition of failure and of a right frame value |
| `SectionEncoder.NoFrameTimeFits` | crates/bwave/src/fst.rs:1830-1838 | summaries in list form, those that start with a positive timestamp, and all summaries of later sections always fit and keep every frame value right |
| `SectionEncoder.ActiveSectionEncoder.AddTimestamp` | crates/bwave/src/fst.rs:1788-1799 | one timestamp advances the table; the encoder's time error cannot arise |
| `SectionEncoder.ActiveSectionEncoder.MapTimes` | crates/bwave/src/fst.rs:1787-1800 | the time map of a summary |
| `SectionEncoder.ActiveSectionEncoder.StoreSignals` | crates/bwave/src/fst.rs:1805-1838 | stores changes or fragments signal by signal; fails if and only if some signal has too many frame-time changes |
| `SectionEncoder.ActiveSectionEncoder.ApplyChunk` | crates/bwave/src/fst.rs:1784-1840 | one summary, as specified, keeping streams, table and dump state in step; fails exactly as above |
| `SectionEncoder.ActiveSectionEncoder.Finish` | crates/bwave/src/fst.rs:1858-1894 | hands over the table, the streams and the frame values, which are right for exactly the signals tracked as right |
| `SectionEncoder.EncodeWorker` | crates/bwave/src/fst.rs:1905-1944 | Start, summaries, Finish give the section; an error if and only if some summary has too many frame-time changes of a signal |
| `SectionEncoder.PositiveSectionsEncode` | crates/bwave/src/fst.rs:1905-1944 | later sections, and first sections of list summaries and summaries with positive first timestamps, always encode with every frame value right |
| `StoredContent.WriterHoldsContent` | crates/bwave/vendor/fst-writer/src/buffer.rs:1110-1215 | the serial writer keeps the last value at tick 0 as frame and the later changes without repeats |
| `StoredContent.SerialLogRises` | crates/bwave/src/fst.rs:2129-2146 | the serial converter never records an earlier tick after a later one |
| `StoredContent.FirstSectionIsSerial` | crates/bwave/src/fst.rs:1762-1894 | a first section holds the serial writer's entries, and its frame value if and only if `FramesRight` holds |
| `StoredContent.LaterSectionIsSerial` | crates/bwave/src/fst.rs:1762-1894 | a later section starts with the serial values and holds the serial changes without repeats |
| `StoredContent.ReadContent` | crates/bwave/vendor/fst-writer/src/buffer.rs:1110-1215 | frame and entries read, at every tick, as the whole log |
| `FrameTime.SecondTimestampIsLost` | crates/bwave/vendor/fst-writer/src/buffer.rs:585-655 | the lines #0 0! #0 1! #5 0!: they encode, and the frame value is wrong |
| `FrameTime.ThirdChangeFails` | crates/bwave/vendor/fst-writer/src/buffer.rs:526-583 | the lines #0 0! 1! 0!: encoding fails |
| `Coordination.PlanCovers` | crates/bwave/src/fst.rs:2717-2767 | sections partition the chunks in order, each starts from the state just before its first chunk, and the final state folds every chunk once |
| `Coordination.CoverIncreases` | crates/bwave/src/fst.rs:2353-2362 | sections are numbered by their first chunk, increasing |
| `Coordination.SectionsReachTarget` | crates/bwave/src/fst.rs:2740-2770 | a finished section holds just enough chunks for its stream bytes to reach the target; the open one does not reach it |
| `Coordination.ClosedGrows` | crates/bwave/src/fst.rs:2754-2767 | sections are only ever added |
| `Coordination.QueueAppends` | crates/bwave/src/fst.rs:2184-2198 | appending the completed front of the queue keeps the queue invariant |
| `Coordination.QueueEnds` | crates/bwave/src/fst.rs:2820-2847 | with no encoder at work and the front not completed, all sections have been appended |
| `Coordination.Coordinator.AcceptEncoded` | crates/bwave/src/fst.rs:2159-2198 | a worker's encoded section is appended with all that waited for it, in submission order; an encoding error is reported and changes nothing |
| `Coordination.Coordinator.AssignChunk` | crates/bwave/src/fst.rs:2732-2767 | opens a section if needed, reconciles with `Reconciler`, hands over, closes at the target |
| `Coordination.Coordinator.TakeNext` | crates/bwave/src/fst.rs:2720-2800 | takes the next chunk in order and then any sections that came back |
| `Coordination.Coordinator.OnParsed` | crates/bwave/src/fst.rs:2692-2720 | accepts a parsed chunk in any order, also one already taken, refusing only a second waiting copy |
| `Coordination.Coordinator.Finish` | crates/bwave/src/fst.rs:2803-2847 | closes the open section and waits for all encoders; reports missing chunks if and only if some chunk still waits |
| `Coordination.DeliverAll` | crates/bwave/src/fst.rs:2688-2800 | every order of arrivals and completions delivers all chunks, or a failure is reported |
| `Coordination.RunPipeline` | crates/bwave/src/fst.rs:2688-2854 | for every interleaving: what is appended are the encodings of the first sections in input order, all of them on success; encoding fails only if some section has more frame-time changes than fit |
| `ChunkSource.FirstCutMeaning` | crates/bwave/src/vcd_chunk.rs:149-173 | a chunk ends at the first line-starting # at or beyond the target, or at the end |
| `ChunkSource.VcdChunkSource.NextBoundary` | crates/bwave/src/vcd_chunk.rs:149-173 | a boundary found in the buffer is the cut of the whole remaining text; none at the end of input means there is none |
| `ChunkSource.VcdChunkSource.ReadBlock` | crates/bwave/src/vcd_chunk.rs:175-208 | a read of any size keeps the remaining text and the search position valid |
| `ChunkSource.VcdChunkSource.TakeChunk` | crates/bwave/src/vcd_chunk.rs:221-246 | hands out the head, keeps the rest, fails if and only if the offset exceeds 64 bits |
| `ChunkSource.VcdChunkSource.NextChunk` | crates/bwave/src/vcd_chunk.rs:104-119 | hands out the chunk the remaining text determines; ends if and only if nothing remains |
| `ChunkSource.VcdChunkSource.Recycle` | crates/bwave/src/vcd_chunk.rs:121-129 | buffer reuse changes no text, offset or number |
| `ChunkSource.ChunksConcatenate` | crates/bwave/src/vcd_chunk.rs:221-246 | the chunks concatenate to the body |
| `ChunkSource.ChunksAreInPlace` | crates/bwave/src/vcd_chunk.rs:104-246 | offsets are contiguous, chunks non-empty, all but the first start with #, all but the last reach the target and end a line |
| `ChunkSource.CollectChunks` | crates/bwave/src/vcd_chunk.rs:104-246 | the chunks depend on body and target only, whatever the reads and whenever buffers return; a failure has delivered a prefix |
| `Conversion.ChunksKeepEvents` | crates/bwave/src/vcd_chunk.rs:104-246 | cutting a body into chunks loses and repeats no event |
| `Conversion.FileIsSerial` | crates/bwave/src/fst.rs:2688-2854 | the sections of the file, one after the other, are handed, repeats apart, the serial changes of every signal |
| `Conversion.SectionHoldsSerially` | crates/bwave/src/fst.rs:2688-2854 | what each encoded section holds against the serial state before it |
| `Conversion.FileReadsSerially` | crates/bwave/src/fst.rs:2688-2854 | read at any tick, the sections show the serial value of a signal, if its first frame value is right |
| `Conversion.PositiveJobs` | crates/bwave/src/fst.rs:2688-2854 | if fragment chunks start with positive timestamps, all sections encode with all frame values right |
| `Conversion.OneFormChunksAreFresh` | crates/bwave/src/fst.rs:1519-1537 | a body in which no signal mixes forms within a chunk meets the hypothesis of the end-to-end theorem |
| `Conversion.ParseBytesParallel` | crates/bwave/src/fst.rs:2496-2925 | end to end, for every target, read fragmentation and interleaving: final state and handed-over changes are the serial ones, and the serial ones are those the lines of the body mean; the encoded sections read at every tick as the records of those lines for every signal whose first frame value is right, encoding fails only for a section with too many frame-time changes, and no success on a malformed body |
| `Conversion.ParseBytes` | crates/bwave/src/fst.rs:2460-2492 | the serial converter over chunks of any size is one run over the body, which leaves the dump state, clock, values and logs that the lines of the body mean; a parse error if and only if a line is misread |
| `VirtualSignals.EvaluateVirtualValues` | crates/bwave/src/virtual_signal.rs:1112-1129 | every definition comes out "1" if its expression holds of the values and of what the definitions before it came out as, else "0" |
| `VirtualExpressions.EvalIsMeaning` | crates/bwave/src/virtual_signal.rs:1074-1100 | evaluation is the meaning: and of all operands, or of some, exclusive or of an odd number of them |
| `VirtualExpressions.AtomIsMeaning` | crates/bwave/src/virtual_signal.rs:1023-1072 | non-zero, equality on texts and order on numbers, stated on characters and values, unknown bits and slices included |
| `VirtualExpressions.ReadsIsNumber` | crates/bwave/src/format.rs:509-525 | the number of a text: after leading zeros nothing, or at most 32 characters that are a hexadecimal numeral, optionally behind a plus sign |
| `VirtualExpressions.RelationsOnNumerals` | crates/bwave/src/virtual_signal.rs:1023-1072 | on two stored numbers every relation is the one on their values |
| `VirtualExpressions.NonZeroOnNumerals` | crates/bwave/src/virtual_signal.rs:1029-1037 | a stored number counts as true if and only if it is not 0 |
| `VirtualSignals.CollectExprTicks` | crates/bwave/src/virtual_signal.rs:1158-1211 | pushes exactly the in-range ticks of the referenced signals, in tree order |
| `VirtualSignals.EvalHolds` | crates/bwave/src/virtual_signal.rs:1023-1100 | an expression keeps its value between collected ticks |
| `VirtualSignals.KeepChanges` | crates/bwave/src/virtual_signal.rs:1238-1263 | evaluates at each tick and keeps the change points |
| `VirtualSignals.BuildVirtualTransitions` | crates/bwave/src/virtual_signal.rs:1213-1266 | the compiled list of one definition |
| `VirtualSignals.CompiledIsPointwise` | crates/bwave/src/virtual_signal.rs:1213-1274 | looking it up at any tick of the window gives the expression's value at that tick |
| `VirtualSignals.CompiledShape` | crates/bwave/src/virtual_signal.rs:1213-1266 | it starts at the window's first tick, is strictly ordered and alternates |
| `VirtualSignals.ChainIsPointwise` | crates/bwave/src/virtual_signal.rs:1102-1129 | through any chain of definitions, lookup equals evaluating the definitions in order at that tick |
| `VirtualSignals.BuildChain` | crates/bwave/src/virtual_signal.rs:1213-1274 | a whole chain: minimal lists, which read "1" at a tick of the window exactly where the expression holds of the values in force and of the earlier lists |
| `SignalStore.SplitWindow` | crates/bwave/src/fst.rs:412-429 | one pass with an early stop gives the last value before the window and the changes in it |
| `SignalStore.WindowShows` | crates/bwave/src/fst.rs:412-429 | the window is the contiguous stretch of changes from its first to its last tick, and the value of the change in front of it |
| `SignalStore.StreamSnoc` | crates/bwave/src/fst.rs:278-299 | a stream is the stored changes in order with the values that are readable, a real without text left out |
| `SignalStore.WindowOfPrefix` | crates/bwave/src/fst.rs:306-344 | a stream cut at or past the window's end shows the same window |
| `SignalStore.WindowsAgreeExactlyWhen` | crates/bwave/src/fst.rs:306-344 | cut-off and full streams show the same window for every stream if and only if the window starts at most one past its end |
| `SignalStore.CutAnswerIsWindow` | crates/bwave/src/fst.rs:306-344 | an answer from a stream cut at or past the window's end has the right changes, and for a window that starts at most one past its end the right value before it |
| `SignalStore.InvertedWindowDependsOnMemo` | crates/bwave/src/cache.rs:4707-4711 | one backing, one window from 10 to 3: the read before a prefetch to 20 and the read after it differ |
| `SignalStore.FstBacking.PrefetchTo` | crates/bwave/src/fst.rs:221-272 | replaces the prefix memo, covering the signals up to the tick, and keeps every memo a view of the full streams |
| `SignalStore.FstBacking.ReadAll` | crates/bwave/src/fst.rs:278-299 | the full stream, from the memo or the file |
| `SignalStore.FstBacking.ReadRange` | crates/bwave/src/fst.rs:306-344 | for any window, the window of the stream that serves it: prefix memo, probe memo or the file up to the window's end, each a cut of the full stream |
| `SignalStore.Session` | crates/bwave/src/fst.rs:221-344 | after any calls in any order every answer is the uncached one, also after the prefix memo was replaced by a shorter one; for windows that start more than one past their end, up to the value before them |

## Left out

- Reconciliation.ReconcileIsSerial: holds for chunks in fragment mode under the freshness condition only; without it the code differs from the serial converter, as `Reconciliation.MixedFormsLoseAChange` shows.
- Conversion.ParseBytesParallel: promises values read at every tick only for signals whose first frame value is right, because the code loses frame-time changes otherwise (`FrameTime.SecondTimestampIsLost`).
- Conversion.FileReadsSerially: one direction only; a later section that starts at tick 0 can hide a wrong first frame value.
- SignalStore.FstBacking.ReadRange: for a window that starts more than one tick after its end the value before it is that of whichever memo serves the read.
- SectionEncoder.EncodeWorker: one section at a time; the worker's loop over several sections and its errors for messages out of protocol, which the coordinator never sends, are not modelled.
- SerialConversion.FstBuildHandler.ApplyTimestamp: the section flush on a size threshold and recorded write errors are not modelled, so the serial log is one list.
- SerialConversion.FstBuildHandler.EmitChange: recorded write errors are not modelled.
- StoredContent.WriterHoldsContent: the serial writer's first section; its later sections start from the values at the flush.
- Coordination.RunPipeline: a parser failure is one error; which message reaches the coordinator and the text it carries are not modelled.
- ChunkSource.VcdChunkSource.ReadBlock: a blocked non-blocking read and its retry have no effect on the text and are not modelled.
- ClockGrid.Analyze: the first off-grid cycle number, the fractional-cadence finding and the verdict texts are not modelled.
- BitSlices.SlicesAgreeExactlyWhen: builds with overflow checks abort on a shift of 128 or more; the model gives the result without them.
- DistanceQuery.DistanceFromRuns: the pattern lookup before the runs and the text and JSON output after them are not modelled; a query without a clock period has no sampled cycles.
- Threads, channels, back-pressure, heartbeats, profiling, polling and file I/O: the pipeline is arrivals seen by one coordinator.
- The byte layout of FST sections (variable-length integers, compression, packed time tables): a stream is a list of relative time indices and values.
- Arena offsets, slot tables, identifier tables and their 32-bit limits: modelled by the values they lead to, per signal.
- The order in which one reader pass interleaves different signals, and reader errors, which the code ignores.
- The over-wide value counter of the parallel parser, which skips repeats before counting.
- Floating point: means and medians are kept as exact sums and elements; real values are opaque.
- Bytes against characters: query values are character strings, VCD text is bytes; non-UTF-8 values are a missing text.
- Parsing of virtual definitions, signal-name patterns, glob matching, scopes, aliases, command line, JSON and text output, and all Python and website files: schema checks, text and I/O.
- Asynchronous (unclocked) queries: they walk transitions directly.
