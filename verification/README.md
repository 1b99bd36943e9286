# Verified model of the Opus codec's bit accounting and of its Ogg container

This project models three parts of a Go implementation of Opus and proves what they promise.

**CELT bit accounting** (RFC 6716, sections 4.3.2 to 4.3.4). `Rate` gives the value of every stage of the
bit allocation; `RateMethods` are the loops that compute it in place; `RateLedger` accounts for every
eighth-bit; `RateLaws` says which bands are coded and what each gets; `RateLockstep` shows that the
decoder reaches the encoder's allocation. `Cwrs` is the bijection between pulse vectors and codeword
indices, `Laplace` and `Theta` are interval coders with their decoders, `TfSearch` is a Viterbi search,
`FineEnergy` the refinement of band energies, `Header` the part of a frame that is coded before the packet
may shrink, `Reservoir` constrained variable rate over whole runs, `Shrink` the two together, `PulseCache`
the pulse search. `RangeCoder` is the entropy coder as a queue of symbols.

**The container and seeking** (RFC 3533 section 6; RFC 7845 sections 4 to 7). `Crc`, `Page` and
`PageMethods` are pages as bytes; `Packets`, `Stream`, `Writer` and `ContainerReader` are packets across
pages, `Damage` what is left of them in streams cut, corrupted or with pages missing; `Playback` is
decoding as a function of the stream, for any codec; `Sequence` compares decoding to a target with
decoding everything, and `Samples` says which samples those are; `Scan`, `Landing` and `Jump` are the
searches of a seek and where they lead; `Decoder` and `Encoder` are the two classes with their methods.
`Duration` joins them end to end, `Roundtrip` follows the samples from the input to the player, `Seekable`
shows that what the encoder writes is a stream a seek can trust, and `Histories` compares seeks on one
stream after different calls.

**A recursive filter run in blocks.** `Comb` proves the blocked comb filter equal to the scalar one.

Where the source updates things step by step the model does too: classes with `modifies` clauses, loops
over arrays. Each such method is proved to compute a function, or to keep an invariant, and the main
results are lemmas about those functions and invariants, for all inputs and all runs.

Two places where the source does not do what its own comments say, modelled as the source is:

* `findForward` (oggopus/seek.go:119-121) is said to return the first page that starts in its range. A
  page that starts in the last two bytes before the bound is not seen when the window it reads ends inside
  the page's capture pattern: `Scan.Unseen` is a source where it happens, `Scan.MissesExactly` says when,
  `Scan.QuietMisses` says it before the call. The bisection of a seek never meets such a page
  (`Landing.NoMiss`).
* `SeekToSampleExact` (oggopus/seek.go:330-350) is said not to depend on earlier calls. For a target past
  the end trim it does: the decoder counts samples it skips but not samples it trims. `Histories.Remembers`
  is a stream on which it shows; `Histories.TwoHistories` says for which targets: those that are not heard,
  of streams of which more is decoded than heard. Everywhere else, from any state, the answer is told from
  the stream alone (`Decoder.Decoder.SeekToSampleExact`).

Two bounds are sharper than the source says. The VBR reservoir stays within one frame's bits on every run
exactly for rates of at least two bytes a frame (`Reservoir.BoundedExactly`). The two-byte margin that keeps
the decoder's room tests as they were (internal/celt/celt_encoder_encode.go:928-931) holds exactly when the
size cap of short frames, applied after it, does not cut into it (`Shrink.SentKeepsMargin`); frames of 20 ms
are never cut (`Shrink.LongFramesFit`).

Check everything with `dafny verify dfyconfig.toml`.

## Model

| member | source | states |
|---|---|---|
| `RateLedger.Ledger` | internal/celt/rate.go:195-406 | For every input, either direction, any flags and any skip policy: the budget is exactly the pulses and fine-energy bits of all bands, the balance handed on, one bit per skip flag coded, the intensity reserve as it ended, and the dual-stereo bit if it was coded; no output is negative, fine bits are at most 8, skipped bands have no pulses |
| `RateLedger.SkipLedger` | internal/celt/rate.go:200-266 | At the end of the skip loop psum does not pass total, and what is reserved, given and flagged adds up to the budget |
| `RateLedger.SkipBandKeeps` | internal/celt/rate.go:200-266 | So it does at every step of the loop: one band skipped or kept leaves psum within total and the account unchanged |
| `RateLedger.ChosenPointFits` | internal/celt/rate.go:159-198 | The row search and the six halvings settle on a point whose charge is within the budget and whose demands are not negative |
| `RateLedger.RowSearchBrackets` | internal/celt/rate.go:468-502 | The row found is affordable and the row above it is not, or does not exist |
| `RateLedger.MixSearchBrackets` | internal/celt/rate.go:159-180 | The halvings end on an affordable point of the line whose successor is not affordable |
| `RateLedger.FineBandConserves` | internal/celt/rate.go:315-394 | A band's bits and the balance handed to it are its pulses, its fine energy and the balance it hands on, and its pulses stay within its cap |
| `RateLedger.SpreadsAll` | internal/celt/rate.go:294-313 | The left-over is spread over the coded bands to the last eighth-bit |
| `RateLockstep.Lockstep` | internal/celt/rate.go:201-406 | A decoder reading the symbols the encoder wrote reaches the same coded bands, intensity, dual-stereo flag, pulses, fine bits, priorities and balance, and stops at the same symbol, whatever hysteresis the encoder used and whatever stale values the decoder holds |
| `RateMethods.ComputeAllocation` | internal/celt/rate.go:414-533 | The allocator run in place over its arrays, from the thresholds to the last band, leaves exactly what the allocation function says (which the ledger and lockstep lemmas are about); a boosted band is among the coded ones |
| `RateMethods.InterpBits2Pulses` | internal/celt/rate.go:122-407 | The loops that search, grant, skip, spread and split leave in the three arrays the value of each stage in turn |
| `RateMethods.SkipBands` | internal/celt/rate.go:200-266 | The backwards skip loop with its flags, its reclaimed bits and its shrinking reserve computes the skip function, and terminates |
| `RateMethods.SplitBands` | internal/celt/rate.go:315-405 | The carry of balance from band to band, and the fine-energy bits of skipped bands, are those of the specification |
| `RateMethods.BisectRows` | internal/celt/rate.go:468-502 | The do-while over rows returns the row the search function names |
| `RateMethods.InitCaps` | internal/celt/rate.go:109-116 | Every cap is the table entry for its size and channel count, scaled |
| `RateMethods.CapIsGenerous` | internal/celt/rate.go:109-116 | No cap is below a bit per channel, whatever the table entry |
| `RateMethods.FrozenModeIsValid` | internal/celt/static_modes_gen.go:30-50 | The one mode in use meets everything the allocator lemmas ask of a mode |
| `PulseCache.Bits2Pulses` | internal/celt/rate.go:65-93 | No index costs closer to the budget than the one returned, and of two equally close the cheaper is returned |
| `RateLaws.BoostedAreCoded` | internal/celt/rate.go:206-211 | A band boosted by dynalloc is coded, for every input, either direction and any skip policy |
| `RateLaws.SkipEndsOn` | internal/celt/rate.go:200-251 | The skip loop ends at its bound, or on a band that is worth a flag and that the encoder's policy keeps |
| `RateLaws.SkipLeaves` | internal/celt/rate.go:200-266 | Bands still coded keep their bits and skipped ones a bit a channel or nothing; the intensity reserve ends as what a choice among the coded bands costs; the flag's reserve comes back exactly when the loop ran down to its bound |
| `RateLaws.PolicyKeeps` | internal/celt/rate.go:228-243 | Past the first two bands a band is kept up to the signal bandwidth, up to band 16 with any bits, above with more than 7/16 of a bit for each coefficient if the frame before kept it, else 9/16 |
| `RateLaws.CurvesTilt` | internal/celt/rate.go:445-466 | The threshold is 3/16 of a bit for each coefficient, at least a bit a channel; the trim tilts the curve by an eighth of an eighth-bit for each step from 5 + LM, coefficient and band above |
| `RateLaws.CurveIs` | internal/celt/rate.go:468-520 | A row gives each coefficient its 32nds of a bit; the tilt moves only bands a row gives bits to, and none below nothing |
| `RateLaws.ChargeIs` | internal/celt/rate.go:159-198 | A band is charged in full, up to its cap, exactly when it or a band above reaches its threshold, else for a bit a channel if it has that |
| `RateLaws.MixEnds` | internal/celt/rate.go:504-531 | The line searched runs from the demand of the chosen row to that of the next, boosts included, and never down |
| `RateLaws.SpreadEven` | internal/celt/rate.go:294-313 | What is left goes evenly to the coefficients of the coded bands, and the odd eighth-bits to the lowest |
| `RateLaws.StereoAsChosen` | internal/celt/rate.go:269-292 | An encoder with the reserve codes its intensity but not past the coded bands, and its dual flag |
| `RateLaws.FineShareIs` | internal/celt/rate.go:331-351 | The share of fine energy for each degree of freedom: half a bit for each doubling of the band's size less 21 eighths, a quarter of a bit more at two coefficients, and more in the brackets of the second and third fine bit |
| `RateLaws.FineIsMost` | internal/celt/rate.go:353-370 | A band's fine bits are the most, up to eight, that neither pass its share by more than half a bit a degree of freedom nor cost more than the band has; the priority is 1 exactly when they reach the share |
| `RateLaws.RebalanceIsMost` | internal/celt/rate.go:379-390 | Fine bits take every whole bit a channel of the excess, up to eight in all; the rest is handed on |
| `RateLaws.SkippedIs` | internal/celt/rate.go:399-405 | A skipped band has no pulses, the fine bits its eighth-bits pay for, and priority 1 exactly without any |
| `RateLaws.LogTable` | internal/celt/rate.go:45-51 | Every entry of the table is the logarithm of its index plus one in eighths, rounded up |
| `Cwrs.RankOfUnrank` | internal/celt/cwrs.go:58-147 | Unranking any index below V(n,k) gives a vector of absolute sum k whose rank is that index |
| `Cwrs.UnrankOfRank` | internal/celt/cwrs.go:178-195 | Unranking the rank of any vector gives the vector back |
| `Cwrs.RankInRange` | internal/celt/cwrs.go:178-195 | Every rank is below V(n,k) |
| `Cwrs.Icwrs` | internal/celt/cwrs.go:178-195 | The loop over the vector from its end returns its rank, and no 32-bit sum wraps when V(n,k) fits 32 bits |
| `Cwrs.Cwrsi` | internal/celt/cwrs.go:58-147 | The unranking loops with their four search branches write the vector of the index in place, touch nothing past it, return the sum of its squares, and every search ends |
| `Cwrs.PvqU` | internal/celt/cwrs.go:30-36 | The triangular table read returns U(n,k) on either side of the diagonal |
| `Cwrs.VMonotone` | internal/celt/cwrs.go:40-42 | V grows with both arguments, so a representable V(n,k) bounds every smaller one the loops touch |
| `Cwrs.RankIsOrder` | internal/celt/cwrs.go:178-195 | The codebook's order: of two vectors with as many pulses the one whose first differing coefficient comes earlier, from the most pulses down to none and then from the most negative up, has the lower index |
| `Laplace.DecodeInvertsEncode` | internal/celt/laplace.go:44-132 | Where the decaying part leaves room, any point of the encoder's slot decodes to the value as clamped and to the same slot |
| `Laplace.EncodeInvertsDecode` | internal/celt/laplace.go:96-132 | Every point of the range decodes to a value whose slot holds it: the slots tile the range |
| `Laplace.SlotsAreDisjoint` | internal/celt/laplace.go:44-89 | Every value has a non-empty slot in range and different coded values have disjoint slots |
| `Laplace.ClampedIff` | internal/celt/laplace.go:58-82 | A magnitude is coded as it is exactly when it is within the decaying levels and the pairs left over |
| `Laplace.GuaranteedDeltas` | internal/celt/laplace.go:17-26 | Deltas up to 16 either way are never clamped |
| `Laplace.ModelsHaveRoom` | internal/celt/quant_bands.go:57-114 | Every model of the probability table leaves room, so the coder inverts for all of them |
| `Laplace.EcLaplaceEncode` | internal/celt/laplace.go:44-89 | The encoder's loop returns the slot and clamped value of the specification |
| `Laplace.EcLaplaceDecode` | internal/celt/laplace.go:96-132 | The decoder's search returns the value and slot of the specification |
| `Laplace.SlotsInOrder` | internal/celt/laplace.go:17-89 | Where the slots lie: 0 at the bottom, then -m and +m side by side and equally wide for each magnitude; the first width from the reserve of 32 and the decay, each next one narrower by the decay in 16384ths down to one |
| `Theta.DecodeAngle` | internal/celt/bands.go:702-769 | For every point of the range the division or square-root formula returns the one angle whose slot holds it, with that slot, for all three densities, the middle angle included |
| `Theta.EncodeAngle` | internal/celt/bands.go:702-757 | The slot coded for an angle is its slot, its weight above those of the lower angles, within the sum of all |
| `Theta.SlotIsWeight` | internal/celt/bands.go:702-769 | Each angle's slot is its weight on top of the weights below it: three to one up to the middle for stereo, uniform for time splits, rising and falling by one otherwise |
| `Theta.SlotsAreContiguous` | internal/celt/bands.go:702-769 | The slots of the angles follow one another from 0 to the total without gap or overlap |
| `Theta.AngleOfPointIsUnique` | internal/celt/bands.go:702-769 | No point lies in the slots of two angles |
| `Theta.MiddleSlotBothWays` | internal/celt/bands.go:755-767 | The middle angle has the same slot whether it is reached from the left or the right formula |
| `Theta.QnIsEven` | internal/celt/bands.go:567-587 | Every resolution the angle coder is given is 1 or even and at most 256 |
| `Theta.Isqrt32` | internal/fixedmath/mathops.go:43-64 | The bit-by-bit loop returns the integer square root |
| `TfSearch.TfAnalysis` | internal/celt/celt_encoder_tf.go:147-216 | The two cost passes, the forward pass and the backtrack leave the one winner of the table chosen: no flags are cheaper, and any as cheap have a 0 where, from the end, they first differ; the second table is chosen exactly for a transient it serves more cheaply |
| `TfSearch.SearchIsOptimal` | internal/celt/celt_encoder_tf.go:147-215 | No other flag sequence is cheaper under the chosen table and, for transients, under either table |
| `TfSearch.TracedIsAbove` | internal/celt/celt_encoder_tf.go:170-214 | Of all flags that cost as little, those traced back from the recorded predecessors have the 1 at the last band where they differ |
| `TfSearch.CostIs` | internal/celt/celt_encoder_tf.go:147-204 | The cost of flags is their distance from the metric, by importance, and lambda for every change of flag, a first 1 counting as one except for transients |
| `TfSearch.NoPathIsCheaper` | internal/celt/celt_encoder_tf.go:147-164 | No flag sequence undercuts the recurrence |
| `TfSearch.MinimumIsAttained` | internal/celt/celt_encoder_tf.go:147-164 | The minimum each table is judged by is the cost of some flag sequence |
| `TfSearch.Backward` | internal/celt/celt_encoder_tf.go:207-214 | Backtracking recovers a path that costs what the forward pass promised |
| `Header.ShrinkKeepsLockstep` | internal/celt/celt_encoder_encode.go:853-936 | If the packet is cut after the header is coded, but not below the least size, the decoder of the smaller packet decodes the same resolutions, spread, boosts and trim, and stops at the same symbol |
| `Header.CodeIgnoresSize` | internal/celt/celt_encoder_encode.go:853-936 | Any two packet sizes with the margin send the coding through the same branches |
| `Header.CodeLockstep` | internal/celt/celt_decoder.go:888-929 | At equal sizes the decoder decodes what the encoder coded |
| `Header.EarlierTests` | internal/celt/celt_decoder.go:806-851 | Nor does any test for room before the header (post-filter, transient and intra flags, coarse energy: at most 16 bits) take another branch at the smaller size |
| `Header.TfEncode` | internal/celt/celt_encoder_tf.go:232-280 | The two passes over tfRes force the flags there was no room for and then turn every flag into its resolution, as the specification does |
| `Header.TfDecode` | internal/celt/celt_decoder.go:241-276 | The decoder's loops leave the resolutions of the specification |
| `Header.CodeBoosts` | internal/celt/celt_encoder_encode.go:860-887 | The encoder's dynalloc loops turn wanted boosts into coded ones, with the total: in each band quanta are coded for the boosts wanted, one flag each, until they are all given, or the room test or the cap stops them |
| `Header.DecodeBoosts` | internal/celt/celt_decoder.go:899-924 | The decoder's loops, which take each boost off the bits instead, leave the same boosts |
| `Header.BoostsTold` | internal/celt/celt_encoder_encode.go:860-887 | Each band's boost is its quantum times a count: no more than wanted, and all that is wanted, closed by a 0 flag if there is room for one, unless the cap or the room stopped it |
| `Header.ReachIs` | internal/celt/celt_encoder_encode.go:853-886 | The cost of a band's first flag is 6 less one for every band boosted before it, at least 2, and the room left is less by all boosts so far |
| `Header.BoostSize` | internal/celt/celt_encoder_encode.go:865-869 | A quantum is six bits, but at most a bit and at least an eighth of a bit for each coefficient |
| `Header.AsChosen` | internal/celt/celt_encoder_encode.go:803-920 | A packet with the margin holds what the encoder chose: every resolution the table entry of its flag, the spread, the trim, and in every band the boosts wanted, or as many as reach its cap; it begins with the flag changes, the table choice and the spread and ends with the trim |
| `Header.SpreadAndTrim` | internal/celt/celt_encoder_encode.go:803-920 | At any size spread and trim are the encoder's where there is room for 4 bits and for 6, otherwise 2, the normal spread, and 5, the middle trim |
| `Header.ShrinkKeepsChoices` | internal/celt/celt_encoder_encode.go:853-936 | So the decoder of the packet cut down has the encoder's own choices |
| `Reservoir.StepKeeps` | internal/celt/celt_encoder_encode.go:390-411 | One frame keeps the reservoir in [0, rate], is paid for by the rate and what it adds to the reservoir, is under a byte short of that unless at its limit or silent, and is not shrunk below the least size |
| `Reservoir.WantedIsSent` | internal/celt/celt_encoder_encode.go:390-1057 | A frame that is not silent is sent no less than its wanted size up to its limit, and more than that, or the least size, only when the reservoir runs dry |
| `Reservoir.LimitIs` | internal/celt/celt_encoder_encode.go:390-970 | The limit is the most that is asked for, that its frame size allows and that leaves the reservoir within the rate, two bytes at the least |
| `Reservoir.RunKeeps` | internal/celt/celt_encoder_encode.go:390-411 | Over any run from any legal level the bytes sent are paid for by the rate and the rise of the reservoir |
| `Reservoir.LeakyBucket` | internal/celt/celt_encoder_encode.go:940-1057 | From a fresh encoder n frames, and any n frames in the middle of a run, take at most n+1 frames' worth of bits |
| `Reservoir.BoundedExactly` | internal/celt/celt_encoder_encode.go:991-1057 | The reservoir stays within the rate over every run exactly when the rate allows two bytes a frame |
| `Reservoir.RateControl.Encode` | internal/celt/celt_encoder_encode.go:390-1057 | The clamp, the silence cut and the VBR block, on the reservoir in place, compute the step: a frame is granted its wanted size in whole bytes, or the least size, up to its limit; the reservoir takes that less the rate, and only if it runs dry are the whole bytes of the shortfall sent on top |
| `Reservoir.RateControl.EncodeAll` | internal/celt/celt_encoder_encode.go:940-1057 | A run of frames ends at the reservoir and total of the specification, within the leaky-bucket bound |
| `Shrink.SentKeepsMargin` | internal/celt/celt_encoder_encode.go:925-1057 | The packet sent is not larger than the one the header was coded in, and is the same size or keeps the margin exactly if the cap of its frame size cuts neither into the one nor into the other |
| `Shrink.FrameKeepsLockstep` | internal/celt/celt_encoder_encode.go:390-1057 | A frame's header, coded at the size the reservoir allows, decodes from the packet rate control settles on, to the same resolutions, spread, boosts and trim |
| `FineEnergy.FineEnergyPass` | internal/celt/quant_bands.go:460-495 | The encoder's and decoder's fine pass, in place on the energies, computes the pass |
| `FineEnergy.FinaliseEnergy` | internal/celt/quant_bands.go:501-530 | So does the final pass, by priority |
| `FineEnergy.RefinementConserves` | internal/celt/quant_bands.go:460-530 | Neither pass changes energy plus error of any cell |
| `FineEnergy.FineStepNarrows` | internal/celt/quant_bands.go:475-488 | An error in [-1/2, 1/2) is within half a step either way after x bits |
| `FineEnergy.FinePassNarrows` | internal/celt/quant_bands.go:460-495 | After the fine pass every error fits the bits its band was given: all of them on every channel exactly if they fitted the packet when the pass came to the band, else none |
| `FineEnergy.FinaliseNarrows` | internal/celt/quant_bands.go:501-530 | After the final pass every bound still holds, and the cells held to half the step are exactly those with all their fine bits in a band that got final ones: below the bit limit, of the first class, then of the second, in order, while a bit per channel was left |
| `FineEnergy.FinePassLockstep` | internal/celt/quant_bands.go:180-207 | The decoder of the fine bits ends with the encoder's energies |
| `FineEnergy.FinaliseLockstep` | internal/celt/quant_bands.go:213-235 | So does the decoder of the final bits |
| `Comb.Scalar` | internal/celt/comb_ref.go:21-39 | The loop with its taps in registers writes the recurrence, in place or apart, at every lag and length |
| `Comb.Blocked` | internal/celt/comb_simd.go:101-140 | The blocked form leaves the same buffer as the recurrence, in place or apart, for every lag, length, scratch size and rounding |
| `Comb.Refines` | internal/celt/comb_simd.go:84-140 | In place, both forms leave identical buffers |
| `Comb.RefinesApart` | internal/celt/comb_simd.go:84-140 | From one input into two outputs, both forms leave identical buffers |
| `Comb.KernelTaps` | internal/celt/comb_simd.go:66-140 | Adding the sample after the three products instead of before changes nothing in wrapping arithmetic |
| `Comb.Window` | internal/celt/comb_simd.go:78-130 | Every sample a block reads was final before the block began |
| `Comb.OneResult` | internal/celt/comb_simd.go:101-140 | The recurrence and the untouched rest determine the whole buffer |
| `Comb.Unwrapped` | internal/celt/comb_ref.go:21-39 | Where nothing overflows an output is the sample and the five taps with their gains in 32768ths, less the bias of one, kept within 2^29 - 1 |
| `Crc.ChecksumIsRemainder` | oggopus/crc.go:41-46 | For every message the table-driven checksum is the remainder of bit-serial division |
| `Crc.ChecksumChains` | oggopus/crc.go:41-46 | A checksum over a concatenation can be taken in pieces |
| `Crc.MakeCrcTable` | oggopus/crc.go:23-37 | Every table entry is eight division steps of its byte; entry 1 is the polynomial |
| `Crc.Crc32` | oggopus/crc.go:41-46 | The loop over the table computes the checksum |
| `Page.ParseOfWritten` | oggopus/page.go:71-100 | Every page written parses back to its fields and its exact length, whatever follows it |
| `Page.WrittenIsLaidOut` | oggopus/page.go:71-100 | The format field by field: the capture pattern, version 0, the three flags, granule, serial and sequence number low byte first, the count and the lacing values, the body, and as checksum the remainder of the page with that field zero |
| `Page.WrittenOfParse` | oggopus/page.go:197-237 | Whatever parses is the bytes of the page it parsed to |
| `Page.ReadIsParse` | oggopus/page.go:115-173 | Reading from a source accepts exactly the pages parsing accepts, at the same length, and fails as parsing fails |
| `Page.ParseOfPrefix` | oggopus/page.go:197-237 | A verdict other than too short stands whatever follows; a whole page length of bytes always gets a verdict |
| `Page.LacingMeasures` | oggopus/page.go:265-273 | The lacing values of a packet add up to its length and end below 255, even for multiples of 255 |
| `PageMethods.WritePage` | oggopus/page.go:71-100 | The page is assembled in a buffer, summed, and its checksum put in place: the bytes of the specification, laid out as the format has it, or its rejection |
| `PageMethods.ParsePage` | oggopus/page.go:197-237 | Parsing in slices gives the verdict of the specification |
| `PageMethods.Source.ReadPage` | oggopus/page.go:115-173 | Reading by pieces gives the page and the position of the specification |
| `PageMethods.Lacing` | oggopus/page.go:265-273 | The loop appends the lacing values of the specification |
| `Writer.RoundTrip` | oggopus/writer.go:67-125 | The pages a closed writer put out read back as the packets placed, in order, header packets cut at 61440 bytes; each page has the granule of the last packet ending on it or none; exactly the last ends the stream |
| `Writer.StreamWriter.WritePacket` | oggopus/writer.go:67-93 | Placing a packet keeps every page committed or pending a valid chain that carries the packets so far; a forced page begins with the packet |
| `Writer.StreamWriter.Commit` | oggopus/writer.go:99-125 | Committing appends one page in order and leaves nothing pending |
| `Writer.StreamWriter.WriteHeaders` | oggopus/writer.go:37-42 | The two headers are placed at granule 0, the first alone on its page |
| `Writer.StreamWriter.Close` | oggopus/writer.go:56-62 | Closing flushes what is pending once; closing again changes nothing; from the first audio packet on every page but the last is full, with 255 segments |
| `Writer.ContainerWriter.WritePacket` | oggopus/writer.go:156-168 | All audio packets but the one held back have gone out, each with the running total of the durations |
| `Writer.ContainerWriter.Close` | oggopus/writer.go:174-187 | The last packet goes out with the larger of pre-skip plus source length and the granule before it |
| `Stream.StreamDelivers` | oggopus/reader.go:172-284 | Any chain of pages whose segments spell packets within the limits reads back as those packets and ends cleanly |
| `Damage.FaultAfterPages` | oggopus/reader.go:172-284 | Behind the first pages of a stream come bytes that are not a page of it: the packets that end on those pages are delivered, then the fault is reported (truncated, corrupt, another serial) or the end; nothing of a packet left open is delivered |
| `Damage.CutStream` | oggopus/page.go:115-173 | A stream cut anywhere behind its first page delivers the packets of its whole pages; between pages it ends cleanly, inside one it is truncated |
| `Damage.LostPages` | oggopus/reader.go:222-226 | Pages lost up to one that begins with a packet: every packet that ends before the gap or begins behind it is delivered, and nothing is joined across it |
| `Damage.NoStream` | oggopus/reader.go:209-216 | A source whose first page does not begin a stream delivers nothing and says why |
| `Packets.SegmentsAppend` | oggopus/reader.go:244-274 | Where a run of segments is cut into pages does not matter to the packets it spells |
| `Packets.ManyPackets` | oggopus/reader.go:244-274 | The segments of any packets within the limits come apart into them, header packets cut to their limit |
| `ContainerReader.Container.ProcessPage` | oggopus/reader.go:209-284 | The segment loop and the granule accounting leave the reader of the specification, or its error |
| `ContainerReader.Container.NextRawPacket` | oggopus/reader.go:172-191 | Packets come from the queue, then from pages, as the specification says, and the loop ends |
| `ContainerReader.Container.RepositionAt` | oggopus/reader.go:197-204 | Everything of the stream so far is dropped but its serial, its limit and its last granule |
| `Encoder.Encoder.Write` | oggopus/encoder.go:150-175 | Whatever the split into calls, the frames coded are the whole frames of all input so far and the rest is carried; a refused frame is reported |
| `Encoder.Encoder.Close` | oggopus/encoder.go:218-290 | Once closed, the packets are those the whole input codes to, padded and covered by silence, and the stream claims pre-skip plus the input's length |
| `Encoder.Encoder.CoverClaim` | oggopus/encoder.go:276-285 | The silence loop runs at most once, and then the coded audio covers the claim |
| `Encoder.Encoder.Finish` | oggopus/encoder.go:287-290 | The final granule is the claim itself: the monotonicity guard never fires |
| `Encoder.ClaimHolds` | oggopus/encoder.go:244-290 | With the silence the coded audio covers the claim, and without its last frame it does not exceed it |
| `Encoder.FedMore` | oggopus/encoder.go:150-175 | More input changes nothing of what is already coded |
| `Encoder.LoadedOfPcm` | oggopus/encoder.go:179-185 | Loading bytes as samples undoes writing samples out as bytes |
| `Duration.EndToEnd` | oggopus/encoder.go:218-290 | For every rate, frame duration, input and split over calls, and every decoder to which each packet written is a frame long in the states those packets lead to, what the encoder wrote opens and decodes cleanly to exactly the input's length at 48 kHz |
| `Duration.PlaysOut` | oggopus/decoder.go:331-396 | Playing a chain on from anywhere yields as many samples as its packets hold, end-trimmed to what the last page claims |
| `Duration.StreamOpens` | oggopus/reader.go:99-146 | A decoder opens the stream and has exactly its audio packets before it |
| `Duration.LastPage` | oggopus/writer.go:174-187 | The last page of a closed writer ends the last packet and carries its granule |
| `Samples.LowByteFirst` | oggopus/decoder.go:386-392 | Each sample comes out as two bytes, the low one first |
| `Samples.KeepsWhich` | oggopus/decoder.go:359-384 | A packet's sample is kept exactly if it lies behind the pre-skip, not before the target and before the end trim |
| `Samples.Hears` | oggopus/decoder.go:331-396 | From any state, what is still to come is, from the place the pre-skip and the target leave, the samples of the packets ahead decoded in turn |
| `Samples.SequentialIs` | oggopus/decoder.go:331-396 | The sequential decode is the samples of every packet decoded in turn, the first pre-skip of each channel taken off, cut at the length heard, as bytes |
| `Samples.LeftIs` | oggopus/decoder.go:331-396 | As many samples are left to decode as the packets ahead hold, less the pre-skip |
| `Roundtrip.CodesAudio` | oggopus/encoder.go:150-290 | Whatever the split into calls, the packets are those of the input's samples cut into frames, with silence behind |
| `Roundtrip.PlaysPackets` | oggopus/encoder.go:218-290 | What the encoder wrote plays as its packets decoded in turn, the first 312 samples of each channel off, cut at the input's length |
| `Roundtrip.EverySampleBack` | oggopus/encoder.go:150-290 | With a codec that only delays by those 312 samples, at 48 kHz, every input is played back to the byte (`Roundtrip.DelayIsTransparent` is such a codec) |
| `Roundtrip.PlayBack` | oggopus/decoder.go:299-324 | Binding a decoder to what the encoder wrote and reading it out gives those bytes and no error |
| `Sequence.RestAhead` | oggopus/decoder.go:331-396 | A decoder that skipped where the sequential one yielded has, once past its target, exactly the same still to come |
| `Sequence.AfterSplits` | oggopus/decoder.go:331-396 | What any number of packets has yielded and what the rest will is the whole |
| `Sequence.StepKeeps` | oggopus/decoder.go:331-396 | Decoding one more packet keeps a decoder in sequence in step with a sequential decode |
| `Sequence.WalkLands` | oggopus/seek.go:420-431 | From in step, decoding to a target ends in step with exactly the samples from the target on still to come, or where the sequential decode ends or fails short of it |
| `Sequence.HeardIs` | oggopus/decoder.go:331-396 | Sequential decoding yields what it decodes, cut at the final granule less the pre-skip, but nothing less than what was out before that granule was read |
| `Sequence.TrimDecides` | oggopus/decoder.go:331-396 | So, unless the final granule falls below what was out when it was read, a target is heard or nothing is trimmed exactly if the target or the decoded total lies within the final granule less the pre-skip |
| `Sequence.WalkCounts` | oggopus/seek.go:420-431 | Decoding to a target gets there exactly if the count so far and everything still to be decoded, before any end trim, come to it; else it ends at that sum or fails |
| `Decoder.AnswerIsExact` | oggopus/seek.go:343-383 | The answer of an exact seek is the one told from the sequential decode alone exactly if the target is heard, or the end trim takes nothing from what the decoder can count, or the stream fails before it |
| `Decoder.IndexIsHeard` | oggopus/seek.go:343-383 | On a stream that holds what its index says, every exact seek below the length arrives at its target |
| `Histories.TwoHistories` | oggopus/seek.go:343-383 | For every stream, index and target, a seek on a fresh decoder and one after everything was read agree exactly if the target lies before the end trim or the trim takes nothing; what each returns |
| `Histories.Remembers` | oggopus/seek.go:210-350 | Two files of one serial put end to end: opened and measured, an exact seek to 300 returns 240 at first and 200 after reading |
| `Decoder.Decoder.Reset` | oggopus/decoder.go:149-256 | Binding succeeds exactly when the stream opens, and then the whole sequential decode is to come: the samples of its packets in turn, behind the pre-skip, up to the length heard |
| `Decoder.Decoder.Fill` | oggopus/decoder.go:331-396 | One packet is decoded and trimmed as the specification says, at the end or on an error too |
| `Decoder.Decoder.Read` | oggopus/decoder.go:273-292 | What is read is the front of what was still to come, nothing else changes, and the end and errors are reported as they were to come |
| `Decoder.Decoder.WriteTo` | oggopus/decoder.go:299-324 | Everything still to come goes to the sink |
| `Decoder.Decoder.SeekToSampleExact` | oggopus/seek.go:351-383 | From any state any mix of calls can reach, a seek that arrives is followed by exactly the bytes sequential decoding yields from there; in sequence holds exactly when it arrived at the target; how far the decoder can count decides the answer, and if the target is heard or the end trim takes nothing the answer depends on the stream alone |
| `Decoder.Decoder.DecodeToTarget` | oggopus/seek.go:420-431 | The loop decodes to the target, or reports the end or the failure, as the specification does |
| `Decoder.Decoder.SeekToSample` | oggopus/seek.go:280-328 | On a well-formed link the seek arrives at the index asked for, and as many samples are still to come as the stream has from there; for a target below 61440 they are the very samples of the sequential decode; for any other, those, or what a codec begun anew makes of the packets behind the last page whose sample lies at least 61440 before the target; a failure is latched |
| `Decoder.Trim` | oggopus/decoder.go:359-384 | Of the packet exactly the samples are kept, on every channel, that lie behind the pre-skip, not before the target and before the end trim |
| `Jump.JumpYields` | oggopus/seek.go:280-328 | Decoding on from a page boundary reaches the target with exactly the samples from it on still to come |
| `Jump.Lands` | oggopus/seek.go:311-325 | Landing on a page puts the container where sequential decoding has it after that page, at the sample its granule names |
| `Jump.RestartExact` | oggopus/seek.go:303-308 | A restart with the end trim known beforehand leaves exactly the sequential decode from the target |
| `Jump.WholeLength` | oggopus/reader.go:159-164 | A link decodes to what its packets hold, end-trimmed |
| `Scan.PageScanner.WindowAt` | oggopus/seek.go:66-90 | A window, cached or read anew, is what the source holds there and long enough for a page unless the source ends |
| `Scan.PageScanner.FindForward` | oggopus/seek.go:121-169 | The loops over windows and captures leave the page and the window of the specification (`Scan.Forward`, whose meaning the next rows give) |
| `Scan.ForwardSees` | oggopus/seek.go:119-169 | The page found is the first that starts in [from, bound); when none is found none starts there that the last window holds the capture pattern of, and that window reaches past the bound |
| `Scan.MissesExactly` | oggopus/seek.go:119-169 | The search gives another answer than the first page exactly if that page starts where the last window, which the source outlives, ends inside its capture pattern; no page more than two bytes before the bound is ever missed |
| `Scan.QuietMisses` | oggopus/seek.go:121-169 | Told from the scanner, from and bound before the call: behind bytes that look like no page, a page is missed exactly if the windows counted on from the first end inside its capture pattern |
| `Scan.Unseen` | oggopus/seek.go:121-169 | A source, a scanner and a range for which a page is missed |
| `Scan.PageScanner.FindBackward` | oggopus/seek.go:173-208 | The page found is the last that lies in [floor, end], across windows and their overlap; when none is found none lies there |
| `Scan.PageScanner.ParseAt` | oggopus/seek.go:105-115 | The page that starts exactly there is returned if there is one |
| `Scan.ParseInWindow` | oggopus/seek.go:66-90 | Inside a window a page parses as it does in the source unless the window ends first |
| `Landing.ChooseLanding` | oggopus/seek.go:727-769 | For pages end to end whose granules never fall, the page landed on is the last whose granule less the pre-skip lies in [0, pre], as a linear scan finds it, whatever the scanner read before; the loops end |
| `Landing.NoMiss` | oggopus/seek.go:727-745 | The bisection never meets the page a search can miss: while two windows' worth is left, the last window reaches past the bound |
| `Landing.FindGranulePage` | oggopus/seek.go:709-722 | The page found is the first granule page of the stream that starts in the range; when none is found there is none, except one in the last two bytes before the bound whose capture pattern the last window cut |
| `Seekable.IsDescribed` | oggopus/encoder.go:218-290 | What a closed encoder wrote, with its audio start, end and length, is a stream that holds what its index says: granules, page boundaries and durations agree |
| `Seekable.SeekWritten` | oggopus/seek.go:280-328 | Encode, close, seek, read on: below the input's length the bisecting seek arrives where it was asked to and exactly the rest of the input's length is read |
| `Seekable.SeekWrittenExactly` | oggopus/seek.go:351-383 | With the exact seek what is read is the rest of the sequential decode, to the byte |

## Left out

- The range coder is a queue of symbols with an arbitrary, in the header proofs non-decreasing, count of bits used; its arithmetic (internal/rangecoding) is not part of this model.
- The bodies of the Opus encoder and decoder (internal/opusenc, internal/opusdec, SILK, the transforms, concealment, bit-exactness against the C library): a codec here is an arbitrary state machine with a reset.
- Fine energy on top of bits already spent (the prevQuant argument, nil at every call).
- Perceptual analysis (transients, pitch, tonality, dynalloc and trim analysis, the VBR target): its results are arbitrary inputs.
- The metric of the time-frequency search (internal/celt/celt_encoder_tf.go:56-146) is an input of the search.
- Coarse energy prediction (internal/celt/quant_bands.go:264-453) around the Laplace coder, and the silence path's pretended bit count, which only ever enlarges the least packet size.
- The hybrid mode and an external range coder in the VBR block: frames here start on a fresh coder. The VBR drift and offset (internal/celt/celt_encoder_encode.go:1028-1033) only feed the target, which is arbitrary.
- Indexing a stream for its length (oggopus/seek.go:469-705): the index a seek uses is an input, and `Decoder.Described` says what a correct one is.
- Parsing of OpusHead and OpusTags, and Opus packet durations: functions of the packet given with the stream's format.
- Failing I/O, buffering and buffer reuse: a source is a byte sequence with a position, a sink takes every byte.
- Pooling (`Reset` of an encoder), configuration checks, the one-shot helpers, multistream packet splitting and the wrappers in opus/ and pcm/.
- The partial-packet and queue slices of the reader share one arena in the source; here they are values, so reuse of that storage is not modelled.
- Reservoir.RateControl.Encode: 32-bit wrap-around of rates and targets is not modelled; rates of valid configurations are thousands of times smaller.
- Encoder.Encoder.Write: the 64-bit sample counters are kept below the size at which they would overflow (2^60 bytes of input).
- Shrink.FrameKeepsLockstep: a silent frame codes nothing after its flag and is left out.
- Seekable.SeekWritten: assumes that no page parses inside the coded audio; one that did would be taken for a page by every search of the source.
- Decoder.Decoder.SeekToSample: for targets decoded from a page on, the samples are those a codec begun anew at that page yields; that a real codec has converged by then, as the source measures, is not stated.
