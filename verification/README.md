# Jitter RNG: a verified model

The Jitter RNG turns the timing noise of memory accesses and hash operations into random bytes.
This project models its core in Dafny and proves what the C code is meant to guarantee for every
stream of time deltas, every message, every interleaving of threads and every read:

- **Health tests and block generator** (`Lag`, `Apt`, `Rct`, `RctMem`, `Cutoffs`, `Health`,
  `Streams`, `Verdict`, `Alarm`, `Trace`, `Collector`). The four tests of `struct rand_data`, the "repeat until enough non-stuck
  deltas" loop around them, and the recovery that runs the block generator from inside a test.
- **Instances and reads** (`Ladder`, `Instance`, `Read`). Allocation, startup, the replacement of a
  failed collector by one with a higher oversampling rate, and the two read functions.
- **Keccak, SHA-3, SHAKE and XDRBG-256** (`Keccak`, `KeccakBits`, `Lanes64`, `StateBits`, `Sponge`,
  `Padding`, `ShaContext`, `Xdrbg`), against FIPS 202 and the XDRBG design.
- **Concurrent protocols** (`Timer`, `DivisorTable`, `Admission`), as state machines over the single
  memory accesses of racing threads.
- **Arithmetic and indexing** (`Gcd`, `CpuGroups`).

Code that updates state in place is modelled by classes and methods proved against specification
functions; the properties are then stated about those functions and about whole runs. Clock
readings, the digest of the hash loop, the success of allocations, threads and self tests, and the
verdict of the clock measurement are arbitrary values chosen at each use. The fixed rate of 136
bytes is that of SHA3-256 and SHAKE256, the only two hashes the library has.

How the main results fit together: a collector keeps the streams of deltas it has judged, one per
initialization or duplication of its tests, in judging order; a delta that starts a recovery comes before the deltas
of that recovery. Its invariant says that its tests stand where these streams lead, whatever
recoveries ran in between, and `Verdicts.EngineVerdict` says which failure bits that means, for a
replaced collector as for any other. `Alarms.BlockAlarm` and `Alarms.RecoveryBit` do the same for the
test with memory, block by block.
`Collector.RandomData` says that a block ends in FIPS mode, what it has measured, and which bits are
set afterwards. `Instances.Startup`, `Instances.Reset` and `Instances.Alloc` lift that to instances,
`Reads.ReadEntropy` and `Reads.ReadEntropySafe` to what a caller finds in the buffer, and
`Reads.DrawnIsDesign` identifies those bytes as the output of XDRBG-256. The collector holds the
entropy pool as the byte string that was absorbed. `ShaContexts.Drive` and `Reads.Replay` prove that
the in-place sponge context of the C code puts out the same bytes when fed with the same measurements.

Where the comments in the C code say more than the code does, the code is modelled:

- A tie between lags does not always go to the shortest lag. The predictor in charge is the lag that
  first reached the score now best, the shortest of those that reached it in the same step
  (`LagSpec.BestIff`; `LagSpec.TieStaysWithIncumbent` is an input on which a shorter lag is level and
  not chosen; src/jitterentropy-health.c:215-221).
- In the common FIPS configuration the test with memory can reach its intermittent cutoff: any block,
  from any lag window, does so exactly if every third verdict of its window is stuck
  (`Alarms.AlarmIff`), and there are deltas that do it at every rate while no other test raises a bit
  (`Alarms.AlarmIsReached`). Only the permanent bit is out of reach, and it is so in every mode, since
  a recovery resets the count (`Collector.RandomData`; src/jitterentropy-health.c:489-520).
- The first two deltas of a lag window are differenced against zeros, not against the deltas of the
  window before it (`HealthTests.Stuck`, src/jitterentropy-health.c:148-151).
- The two-word counter read returns only values the counter held during the attempt, exactly up to
  2^32 - 1 increments per attempt (`TornReads.BoundIsExact`). Up to 2^31 an attempt is moreover
  accepted exactly when both reads are right and the low word is not all ones
  (`TornReads.AcceptedIff`).
- The timer verdict on too little variation rests on a 64-bit product that can wrap, and then says
  too little of the largest variation (`GcdAnalysis.WrapHidesVariation`). `GcdAnalysis.VerdictMeans`
  says exactly when it means what the comment beside it says (src/jitterentropy-gcd.c:129-138).

## Model

| member | source | states |
|---|---|---|
| LagSpec.SlotShift | src/jitterentropy-health.c:158-160 | inserting a delta moves every ring slot back by one place, in 32-bit unsigned index arithmetic, and overwrites only the oldest |
| LagSpec.ScoreSnoc | src/jitterentropy-health.c:206-223 | the number of past observations equal to the one i+1 earlier grows by one exactly when the new delta repeats that one and the history is full |
| LagSpec.BestIsArgmax | src/jitterentropy-health.c:206-237 | the predictor chosen by the tie rule has a maximal score, over every window |
| LagSpec.BestIff | src/jitterentropy-health.c:206-237 | a lag is in charge if and only if it first reached the score that is now best, no shorter lag reaching it in the same step |
| LagSpec.TieStaysWithIncumbent | src/jitterentropy-health.c:215-221 | on ten given deltas the lags 1, 2 and 3 are level and lag 2 is in charge |
| LagSpec.RunBounds | src/jitterentropy-health.c:173-204 | the current run of correct predictions never exceeds all correct predictions, and these never exceed the observations after the first eight |
| LagSpec.FirstCrossing | src/jitterentropy-health.c:186-200 | a window that reaches an intermittent cutoff has a first prefix that raises exactly the intermittent bit |
| LagSpec.PermanentCrossing | src/jitterentropy-health.c:186-200 | a window that reaches a permanent cutoff has a prefix that raises the permanent bit |
| LagSpec.StreamVerdict | src/jitterentropy-health.c:168-242 | over any stream, each lag bit is set if and only if in some window of 131072 deltas the run or the total of correct predictions reached the matching cutoff |
| LagTest.LagPredictor.Reset | src/jitterentropy-health.c:138-152 | an empty window: all counters, the history and the scoreboard are those of no observations |
| LagTest.LagPredictor.HistoryAt | src/jitterentropy-health.c:158-160 | the masked index finds the delta of loc+1 insertions ago, zero before the window opened |
| LagTest.LagPredictor.Insert | src/jitterentropy-health.c:168-242 | the scoreboard, best predictor, counters and ring are those of the window grown by the delta, a full window starts over, and the bits raised are those of the specification |
| LagTest.LagPredictor.UpdatePredictors | src/jitterentropy-health.c:206-223 | one pass over the scoreboard leaves every score and the best predictor of the longer window |
| LagTest.LagPredictor.Duplicate | src/jitterentropy-health.c:260-274 | the replacement has the window of the old predictor |
| AdaptiveProportion.InsertFollows | src/jitterentropy-health.c:436-461 | one insertion counts the window's first symbol and raises what the batch rule raises |
| AdaptiveProportion.FreshVerdict | src/jitterentropy-health.c:436-461 | from a reset, over any stream: a bit is set if and only if in some window of 512 the first symbol occurred cutoff times; no intermittent bit where the cutoffs coincide |
| AdaptiveProportion.Verdict | src/jitterentropy-health.c:436-461 | from any state, over any stream: an open window counts on to its end and the windows after it are judged as from a reset, in both directions |
| AdaptiveProportion.DuplicateVerdict | src/jitterentropy-health.c:389-417 | a duplicated test, over any stream: in what is left of the carried window, one symbol if it was full, the permanent bit exactly after as many more occurrences of the base as separate the cutoffs; after it the fresh verdict on the rest |
| RepetitionCount.FreshVerdict | src/jitterentropy-health.c:753-767 | each bit is set if and only if the longest stuck run reached its cutoff, the 32-bit wrap of the count included |
| RepetitionCount.LongestIsMaximal | src/jitterentropy-health.c:753-767 | no run of stuck values is longer than the longest run the rule speaks of |
| RepetitionCount.LongestIsAttained | src/jitterentropy-health.c:753-767 | some run of stuck values has that length |
| RepetitionCount.PrimedVerdict | src/jitterentropy-health.c:684-714 | after duplication, over any stream: the permanent bit if and only if the leading stuck run makes up the distance of the cutoffs or a later run reaches the cutoff by itself, the intermittent bit by a later run or by wrapping the counter; the first non-stuck value clears the priming |
| RepetitionCount.Verdict | src/jitterentropy-health.c:684-767 | from zero and from the intermittent cutoff, the two values a stream begins with: each bit as an equivalence on the stuck runs |
| RepetitionCountMemory.RunFollows | src/jitterentropy-health.c:548-595 | the window counts the stuck values at every third position up to its end, whatever count it started with |
| RepetitionCountMemory.CountNeverExceedsThird | src/jitterentropy-health.c:548-595 | the count stays within a third of the window, for all verdicts |
| RepetitionCountMemory.ReachesThird | src/jitterentropy-health.c:548-595 | the count reaches a third of the window if and only if every verdict at a position divisible by three within it is stuck |
| Alarms.BlockAlarm | src/jitterentropy-health.c:548-641 | for every cutoff, lag window and block: the alarm is raised if and only if the stuck verdicts counted in the window reach the cutoff |
| Alarms.AlarmIff | src/jitterentropy-health.c:489-520 | in the common configuration any block, from any lag window and on any deltas, raises the alarm if and only if every third counted verdict of its window is stuck |
| Alarms.SteadyIsQuiet | src/jitterentropy-health.c:784-813 | a given stream of strictly growing deltas, of any length in a lag window, sets none of the six RCT, APT and lag bits |
| Alarms.AlarmIsReached | src/jitterentropy-health.c:489-520 | at every rate that stream raises the alarm, while the six other bits stay clear |
| Alarms.RecoveryBit | src/jitterentropy-health.c:637-640 | a block of a recovery sets the intermittent bit of the test with memory if and only if its count reaches the cutoff |
| Windows.JudgedIsBlock | src/jitterentropy-health.c:436-461 | the windows of the batch rules are the consecutive blocks of the stream |
| CutoffTables.Orderings | src/jitterentropy-health.c:98-111 | at every rate and in both modes the cutoffs of all four tests are ordered as the proofs need; in the common tables the permanent cutoff with memory lies beyond a third of the window |
| CutoffTables.Modes | src/jitterentropy-health.c:98-545 | no NTG.1 cutoff exceeds the common one; the RCT cuts off at 30 and 60 times the rate, for NTG.1 at an eighth of that rounded up; a run of predictions is cut off below their total, and no cutoff lies beyond the window of its test |
| CutoffTables.RateLoosens | src/jitterentropy-health.c:98-545 | no cutoff of any test falls as the rate rises, in either mode |
| HealthTests.StuckByDeltas | src/jitterentropy-health.c:244-258 | nested 64-bit differences vanish exactly when the delta, its first or its second difference is zero modulo 2^64 |
| HealthTests.NosrInRange | src/jitterentropy-noise.c:591-597 | the range guard on the number of measurements never fires for rates 3 to 20 |
| HealthTests.AdvancedByJudge | src/jitterentropy-health.c:784-813 | a delta that raises no alarm keeps the invariants, never raises the permanent bit with memory, and is credited, used as priming, or brings the stuck run closer to its permanent cutoff |
| HealthTests.AlarmInside | src/jitterentropy-health.c:548-641 | the test with memory alarms only in FIPS mode and only within its window |
| Verdicts.RunFollows | src/jitterentropy-health.c:784-813 | over a stream from any start, the combined steps of the stuck test leave the window, priming, APT, RCT and bits of the separate batch rules |
| Verdicts.EngineVerdict | src/jitterentropy-health.c:734-961 | for every collector, replaced or not, recoveries included: each of the six RCT, APT and lag bits is set if and only if its batch rule holds of one of the streams the collector judged |
| Verdicts.BitsOfStreams | src/jitterentropy-health.c:784-813 | failure bits are sticky across initializations: a bit is set if and only if some stream raised it |
| Verdicts.StreamVerdict | src/jitterentropy-health.c:684-745 | what one stream raises, whether an initialization or a duplication opened it: the rule of each test from the state it was given, with the priming deltas left out of RCT and APT |
| Verdicts.LagVerdict | src/jitterentropy-health.c:168-274 | from any carried lag window: a bit is raised if and only if a delta completes that window to one that raises it, or the fresh rule holds of the deltas after it |
| Streams.LoggedAppend | src/jitterentropy-health.c:548-649 | the judged streams and the history of measurements grow together, stage by stage, with the same deltas |
| JitterCollector.Collector.constructor | src/jitterentropy-base.c:857-896 | a new collector satisfies the invariant, has one fresh stream and an empty pool, and is before the memory stage exactly in the compliance modes |
| JitterCollector.Collector.HealthInit | src/jitterentropy-health.c:923-961 | a stage starts a fresh stream with two values of priming; failure bits stay |
| JitterCollector.Collector.AptInsert | src/jitterentropy-health.c:436-461 | the in-place update is the specified insertion and touches nothing else |
| JitterCollector.Collector.RctInsert | src/jitterentropy-health.c:753-767 | the in-place update is the specified insertion and touches nothing else |
| JitterCollector.Collector.RctMemInsert | src/jitterentropy-health.c:548-649 | without an alarm the window advances as specified; an alarm outside a recovery runs one, inside it raises the intermittent bit; the other tests are moved by exactly the deltas the recovery judged; startup state and recovery flag come back |
| JitterCollector.Collector.Recover | src/jitterentropy-health.c:601-636 | ten blocks run without nesting, all in the pool and in the history; if nothing failed they credited ten times the block size, and the window is closed with the count below its cutoff |
| JitterCollector.Collector.StuckTest | src/jitterentropy-health.c:784-813 | the verdict is the stuck predicate over the current lag window, or priming; the delta is judged first, then the deltas of a recovery, and all tests stand where these deltas lead |
| JitterCollector.Collector.RunTests | src/jitterentropy-health.c:801-809 | APT, lag and RCT take one step of the combined specification and the stream grows by the delta |
| JitterCollector.Collector.MeasureJitter | src/jitterentropy-noise.c:364-546 | the delta is the wrapping difference of two clock readings over the common divisor, for the combined source from the previous reading on; tested or not, stuck or not, it goes into the pool as one rate block, after whatever a recovery inside its test put there; the stream has its delta before those of the recovery |
| Trace.TicksElapse | src/jitterentropy-noise.c:364-546 | the quotient is the number of whole divisors by which the clock moved on from the first reading to the second, across a wrap of the 64-bit clock too |
| Trace.IntermediaryDecodes | src/jitterentropy-noise.c:74-105 | of the block put into the pool, the first eight bytes are the time delta with weights 256^i, then come the domain separator of the source, the digest and zeros |
| Trace.AbsorbedIsInjective | src/jitterentropy-noise.c:74-105 | two histories with the same pool contents have the same number of measurements, and each the same time delta, source and digest: nothing measured is lost on the way into the pool |
| Trace.CreditsAreEarned | src/jitterentropy-noise.c:599-611 | the credits of a history are the number of its tested, non-stuck measurements of the source, each counted once |
| JitterCollector.Collector.CollectLoop | src/jitterentropy-noise.c:599-611 | ends in FIPS mode for every delta stream; unless a test failed it credits exactly the required number of non-stuck deltas and runs at most one recovery; its tested deltas are those the stream has grown by |
| JitterCollector.Collector.RandomDataOne | src/jitterentropy-noise.c:565-611 | the same for one source with the window opened by it, no other source credited; a failed collector measures nothing; within a recovery it sets the intermittent bit of the test with memory if and only if the count of its window reaches the cutoff |
| JitterCollector.Collector.RunStage | src/jitterentropy-noise.c:625-657 | a startup stage credits its own source in full and leaves a fresh stream for the next one |
| JitterCollector.Collector.RunStages | src/jitterentropy-noise.c:625-657 | both stages: two fresh streams, each source credited in full, memory access before the hash loop |
| JitterCollector.Collector.RunBlock | src/jitterentropy-noise.c:658-665 | one block: first a measurement that is not tested and reaches back to the previous reading, then the credits in full |
| JitterCollector.Collector.Verdict | src/jitterentropy-health.c:784-961 | in any state a collector can be in the six bits are explained by the streams it judged |
| JitterCollector.Collector.RandomData | src/jitterentropy-noise.c:619-667 | ends in FIPS mode; the stages still due each credit their full number on their own source, then the tests start afresh and the startup state is completed; the six failure bits are set if and only if a batch rule holds of a judged stream; the intermittent bit of the test with memory is set only in FIPS mode by a recovery, and by a recovery block if and only if its count reaches the cutoff; no mode ever raises the permanent bit with memory here |
| JitterCollector.Collector.HealthDuplicate | src/jitterentropy-health.c:734-745 | the replacement stands at the intermittent cutoffs; base symbol and lag window carry over only on the same clock |
| Ladder.HashLoopsDouble | src/jitterentropy-base.c:185-214 | a step up doubles the hash loops up to 128; normalizing changes nothing |
| Ladder.FieldSizes | jitterentropy.h:218-264 | the fields name 1 kB to 512 MB and 1 to 128 loops, each twice the one before; 0 gives 256 KB and one loop; larger fields give no more |
| Ladder.MemSizeDoubles | src/jitterentropy-base.c:127-183 | a step up doubles the memory up to 512 MB unless the size is the default one; normalizing again changes nothing |
| Ladder.AutoSize | src/jitterentropy-base.c:127-183 | without a size from the caller the memory is four times the first cache level, or all of the cache with that flag, or 256 KB, under the cap of the platform and 512 MB |
| Instances.Process.TimeInit | src/jitterentropy-base.c:1116-1144 | a measured internal timer is forced for the process, for good; the platform clock passes only while it is not |
| Instances.Process.InitEx | src/jitterentropy-base.c:1419-1483 | passes only for a rate in range, a consistent timer request and, in a compliance mode, with memory access; forces the internal timer only if the caller allows it; a rate that does not pass is recorded |
| Instances.Decide | src/jitterentropy-base.c:776-925 | the clock of an allocation is the one the process is latched to and agrees with the flags, its divisor is positive, and a disabled timer is never forced |
| Instances.AllocInternal | src/jitterentropy-base.c:752-930 | a new instance with the clamped rate, the normalized sizes and the mode the flags and the system ask for |
| Instances.RaisedSizes | src/jitterentropy-base.c:507-519 | the flags of a replacement give min(128, twice) the hash loops and min(512 MB, twice) the memory, the same memory if the caller fixed it or the cache gave the default |
| Instances.ClimbedTransitive | src/jitterentropy-base.c:481-572 | any number of replacements keeps the ladder's relation: rate, sizes, clock, identity and accounting |
| Instances.FindRate | src/jitterentropy-base.c:521-526 | the first rate in range that passes: exactly the rates below it were tried and refused, all rates up to 20 if none is found; the internal timer is forced only if the flags allow it |
| Instances.Replace | src/jitterentropy-base.c:481-547 | one replacement: the lowest higher rate that passes, doubled sizes, one more reinitialization, everything else carried over; in a compliance mode the clock is pinned and the process latch untouched |
| Instances.Startup | src/jitterentropy-base.c:962-1024 | ends in FIPS mode; returns a collector only if it passed both stages itself, at its own rate, with 321 times that rate credited to each, memory access first, and no failure bit, and its pool holds exactly what they measured; each turn after the first, one per reinitialization, continues the health tests of a collector that failed |
| Instances.TakeTurn | src/jitterentropy-base.c:981-1018 | one turn of the startup: a started collector, or after a failure a higher one that continues its tests, or none |
| Instances.ResetInStartup | src/jitterentropy-base.c:481-572 | the same replacement without a startup of its own: its tests stand at the intermittent cutoffs and, on the same clock, at the APT base and in the lag window of the failed collector |
| Instances.Reset | src/jitterentropy-base.c:481-572 | a failed reset leaves the instance untouched; a successful one is a started instance higher on the ladder that continues from the intermittent cutoffs and, on the same clock, with the APT base and the lag window of the old one |
| Instances.Alloc | src/jitterentropy-base.c:932-959 | what the caller gets is started, its rate covers the request plus all reinitializations, and a compliance mode has memory access and the requested clock |
| Reads.HealthErr | src/jitterentropy-base.c:302-325 | the error names the present failure that comes first in the order of the C function: permanent ones first, then by test |
| Reads.ReadBlock | src/jitterentropy-base.c:407-441 | a block is drawn only from a collector without a failed health or self test, after exactly the required credits since the last draw |
| Reads.Fill | src/jitterentropy-base.c:407-445 | the blocks copied so far are the output of the run of draws, each 32 bytes or the rest, each paid for |
| Reads.Produce | src/jitterentropy-base.c:407-475 | the same for a non-empty request, with the erasure or the accounting that follows the loop |
| Reads.ReadEntropy | src/jitterentropy-base.c:360-475 | all or nothing: either the whole request is output of the generator, or the copied part is zero and the rest as before; a failed FIPS collector never outputs, nor does any collector whose self test failed; exactly the successful reads are counted, modulo 2^64 |
| Reads.ReadEntropySafe | src/jitterentropy-base.c:598-690 | ends in FIPS mode; replaces only collectors that failed intermittently; delivers from one instance reached by the ladder, out of its own pool: that of the given instance, or exactly the startup of the replacement with both sources credited in full; or erases; an intermittent error is returned only if a replacement was refused |
| Reads.ReadLoop | src/jitterentropy-base.c:633-689 | the same for the loop, the rate rising strictly with each turn |
| Reads.DrawnIsDesign | src/jitterentropy-base.c:407-445 | the bytes of a read are what XDRBG-256 outputs for the measured seed material, and the pools keep corresponding |
| Reads.Replay | src/jitterentropy-noise.c:669-672 | the in-place context, fed with the measurements of a read, puts out the bytes of that read and holds its pool |
| Keccak.ThetaInPlace | src/jitterentropy-sha3.c:71-119 | the in-place step is the theta mapping of section 3.2.1 of FIPS 202 |
| Keccak.RhoInPlace | src/jitterentropy-sha3.c:121-152 | each lane is rotated by the triangular number of the step that visits it, section 3.2.2 |
| Keccak.PiInPlace | src/jitterentropy-sha3.c:154-184 | the 24-cycle with one temporary is the pi permutation of section 3.2.3 |
| Keccak.ChiInPlace | src/jitterentropy-sha3.c:186-231 | with two saved columns the in-place step is the chi mapping of section 3.2.4 |
| Keccak.Permute | src/jitterentropy-sha3.c:249-260 | the loop is Keccak-p with 24 rounds, for every state and every lane type |
| KeccakBits.WordsAreBitwise | src/jitterentropy-sha3.c:62-65 | exclusive or and and-not on words work bit by bit, and a rotation by each distance used moves bit z-n to bit z |
| KeccakBits.ThetaBits | src/jitterentropy-sha3.c:71-119 | on the bits A[x, y, z]: combined with the parities of two columns, section 3.2.1 |
| KeccakBits.RhoBits | src/jitterentropy-sha3.c:121-152 | on bits: moved within the lane by the offset of section 3.2.2 |
| KeccakBits.PiBits | src/jitterentropy-sha3.c:154-184 | on bits: bit (x, y, z) is bit (x + 3y, x, z) of the old state, section 3.2.3 |
| KeccakBits.ChiBits | src/jitterentropy-sha3.c:186-231 | on bits: combined with a product of the two bits to the right, section 3.2.4 |
| KeccakBits.IotaBits | src/jitterentropy-sha3.c:244-247 | on bits: only lane (0, 0) changes, by the round constant, section 3.2.5 |
| Lanes64.ConstantsAreDerived | src/jitterentropy-sha3.c:233-242 | the 24 round constants are those the shift register of algorithm 5 of FIPS 202 produces |
| Lanes64.CodecIsLawful | src/jitterentropy-sha3.c:37-60 | little-endian loads and stores are inverse to each other and commute with exclusive or |
| StateBits.LoadBits | src/jitterentropy-sha3.c:37-47 | bit z of a loaded lane is bit z of the eight bytes read as the bit string of appendix B.1 of FIPS 202 |
| StateBits.LaneBits | src/jitterentropy-sha3.c:294-303 | bit z of lane k of a 200-byte state is bit 64k + z of its bit string, as section 3.1.2 of FIPS 202 lays the state out |
| StateBits.EmittedBits | src/jitterentropy-sha3.c:49-60 | bit 64k + z of the bytes stored from lanes is bit z of lane k |
| Sponge.AbsorbAgrees | src/jitterentropy-sha3.c:294-346 | absorbing lane by lane gives the 200-byte state of the sponge of section 4 of FIPS 202 |
| Sponge.DigestIsSponge | src/jitterentropy-sha3.c:348-384 | the digest is the prefix of that state, for every message and every whole number of lanes up to the rate |
| Padding.PaddingIsFips202 | src/jitterentropy-sha3.c:353-365 | as bits, what is absorbed is the message, the domain suffix of sections 6.1 and 6.2 and pad10*1 of section 5.1, also where both pad bits share one byte |
| ShaContexts.ShaContext.Init | src/jitterentropy-sha3.c:264-272 | a context of the empty message |
| ShaContexts.ShaContext.FillState | src/jitterentropy-sha3.c:294-303 | the first 17 lanes are combined with the block, the others untouched |
| ShaContexts.ShaContext.Update | src/jitterentropy-sha3.c:305-346 | the context of the message extended by the input, for every length of both |
| ShaContexts.ShaContext.PadPartial | src/jitterentropy-sha3.c:348-365 | the partial block becomes the last padded block |
| ShaContexts.ShaContext.Final | src/jitterentropy-sha3.c:348-384 | the digest of the message; the context is fresh and its partial block zero afterwards |
| ShaContexts.HashPieces | src/jitterentropy-sha3.c:305-384 | for every split of a message into updates the digest is the FIPS 202 sponge output of the concatenation |
| ShaContexts.ShaContext.GenerateBlock | src/jitterentropy-sha3.c:388-479 | one pure generate step; the requested prefix is handed out and the scratch block is zero |
| ShaContexts.Drive | src/jitterentropy-sha3.c:305-479 | the in-place context through any interleaving of insertions and draws has the outputs and the pool of the pure recursion |
| Xdrbg.GeneratePrefix | src/jitterentropy-sha3.c:388-479 | a shorter request gets a prefix of the full output and leaves the same state |
| Xdrbg.DrawRefines | src/jitterentropy-sha3.c:388-479 | a draw is the pending instantiate or reseed followed by one output of the design |
| Xdrbg.RunRefines | src/jitterentropy-sha3.c:388-479 | for every interleaving of insertions and draws the outputs and the state are those of the XDRBG-256 recursion |
| TornReads.AcceptedIsHeld | src/jitterentropy-timer.c:273-303 | with less than 2^32 increments in an attempt, an accepted value is one the counter held during it |
| TornReads.BoundIsExact | src/jitterentropy-timer.c:273-303 | attempts within n increments return only values held during them if and only if n is below 2^32; at 2^32 an attempt returns a value the counter has never reached |
| TornReads.AcceptedIff | src/jitterentropy-timer.c:273-303 | up to 2^31 increments an attempt is accepted if and only if both reads are right and the low word is not all ones |
| TornReads.RunKeeps | src/jitterentropy-timer.c:219-323 | the invariant of the two threads holds in every reachable state |
| TornReads.StampsIncreaseAndWereHeld | src/jitterentropy-timer.c:219-323 | for every interleaving the stamps handed out strictly increase, and unless an attempt exceeded the bound the counter of that run stood at each stamp between the first and the last load of its attempt |
| GcdAnalysis.GcdIsGreatest | src/jitterentropy-gcd.c:49-70 | the common divisors of two numbers are exactly the divisors of their gcd |
| GcdAnalysis.Gcd64 | src/jitterentropy-gcd.c:49-70 | the loop computes the gcd, for all 64-bit inputs |
| GcdAnalysis.GcdAllIsGreatest | src/jitterentropy-gcd.c:72-112 | the running fold is the gcd of the whole history |
| GcdAnalysis.VariationSplits | src/jitterentropy-gcd.c:72-112 | the sum of absolute differences of a history is that of its two parts, and that of two deltas their distance |
| GcdAnalysis.VariationIsDivisible | src/jitterentropy-gcd.c:72-112 | a divisor of all deltas divides the sum of absolute differences |
| GcdAnalysis.GcdDividesVariation | src/jitterentropy-gcd.c:72-112 | the gcd of the history divides the sum of absolute differences |
| GcdAnalysis.Analyze | src/jitterentropy-gcd.c:72-112 | the loop computes gcd and sum of the history, the sum modulo 2^64; an empty history is refused |
| GcdAnalysis.JudgeTimer | src/jitterentropy-gcd.c:114-150 | the verdict of the analysis, all four outcomes, as the next rows read it off the deltas |
| GcdAnalysis.VerdictMeans | src/jitterentropy-gcd.c:114-150 | too little variation if and only if the deltas are all zero or their variation is below gcd times the number of deltas over the rate, rounded up; too coarse if and only if it is not and the gcd is at least 2^31 - 1; else a pass with the gcd. The verdict is this one if and only if the 64-bit product does not wrap to below the number of deltas |
| GcdAnalysis.WrapHidesVariation | src/jitterentropy-gcd.c:114-150 | two given deltas vary by 2^63 and are said to vary too little at rate 2 |
| GcdAnalysis.NoDeltasIsNotMonotonic | src/jitterentropy-gcd.c:114-150 | the clock is called not monotonic if and only if there is no delta |
| GcdAnalysis.HigherRateAlsoPasses | src/jitterentropy-gcd.c:114-150 | without overflow, a pass at one rate is a pass with the same gcd at every higher rate |
| GcdAnalysis.PassedFitsStore | src/jitterentropy-gcd.c:114-175 | a passing verdict has a gcd from 1 to below 2^31, so the 32-bit table loses nothing |
| GcdAnalysis.AnalysisScales | src/jitterentropy-gcd.c:72-112 | scaling all deltas scales gcd and sum |
| GcdAnalysis.VariationVerdictScales | src/jitterentropy-gcd.c:114-150 | without overflow the variation verdict does not change under scaling, and a passing gcd is scaled |
| DivisorTable.SetOnce | src/jitterentropy-gcd.c:152-175 | from any good state, whatever steps follow, a divisor once set never changes |
| DivisorTable.FirstStartupWins | src/jitterentropy-gcd.c:152-175 | under any interleaving a clock's divisor is that of the first startup that stored one on this clock; the other clock does not matter |
| DivisorTable.CollectorsAgree | src/jitterentropy-gcd.c:206-215 | all collectors on a clock divide by the same nonzero number, and the second load of the getter is safe |
| Admission.Conservation | linux_kernel/jitterentropy_proc.c:207-229 | for every interleaving the counter is admissions minus releases in 32-bit arithmetic, and every refusal has a limit and an instant within the open at which the counter was negative, at the limit or above it, or at INT_MAX |
| Admission.LimitHolds | linux_kernel/jitterentropy_proc.c:207-224 | an admission with a nonzero limit never takes the counter above that limit or INT_MAX, whichever is less |
| Admission.UniformLimit | linux_kernel/jitterentropy_proc.c:207-229 | if all opens use one nonzero limit, however large, the counter never exceeds it or INT_MAX in any reachable state |
| CpuGroups.PopCount | arch/jitterentropy-arch-ncpu.c:251-258 | clearing the lowest set bit until none is left counts the set bits |
| CpuGroups.ClearLowest | arch/jitterentropy-arch-ncpu.c:251-258 | m and m-1 combined bitwise have one set bit less than m |
| CpuGroups.CpuToGroup | arch/jitterentropy-arch-ncpu.c:260-299 | the place found is active and has the given number; there is one exactly for the numbers below the total, if the counts match the masks |
| CpuGroups.ThreadAffinity | arch/jitterentropy-arch-ncpu.c:311-359 | the count of the usable processors and the number of the highest, -1 if there is none, an error for an unknown group |
| CpuGroups.NumberInRange | arch/jitterentropy-arch-ncpu.c:260-359 | the number of an active processor falls into the range of its group |
| CpuGroups.NumberIsInjective | arch/jitterentropy-arch-ncpu.c:260-359 | no two active processors have the same number |
| CpuGroups.PinHighest | src/jitterentropy-timer.c:201-217 | pinning to the highest processor reported finds that very processor |

## Left out

- JitterCollector.Collector.RandomData: outside FIPS mode it promises only what has happened after `patience` iterations, because the code does not end on a clock that is stuck forever.
- JitterCollector.Collector.MeasureJitter: does not model which memory locations are touched or what is hashed, because only the time they take matters; the time delta is absorbed in little-endian order, as on a little-endian host.
- Instances.Process.TimeInit: does not model the measurement itself, only whether it passes and what it does to the process, because the analysis it runs is modelled by itself in `Gcd`.
- Instances.AllocInternal: does not model the allocation that measures a clock, only that of an instance that is to generate.
- ShaContexts.ShaContext.Update: requires the total length to stay below 2^64, because beyond that the C length field wraps; `ShaContexts.Drive` and `Reads.Replay` require it of what they insert.
- JitterCollector.Collector.ReadRandomBlock: draws from the pool by the specification function; that the in-place code does the same is `ShaContexts.ShaContext.GenerateBlock`.
- TornReads.StampsIncreaseAndWereHeld: does not model a wrap of the 64-bit counter, which no thread reaches; one period between start and stop of the counting thread is modelled.
- Reads.ReadEntropySafe: does not say which of allocation, clock or startup refused a replacement.
- The flags word is a record of its fields and single bits; the unused bits and the bit positions are not modelled.
- Secure memory, stack scrubbing and the zeroing of freed state, except where a property mentions a buffer.
- The derivation of the cutoff tables from the binomial and normal distributions; the tables are constants.
- Entropy claims and the cryptographic strength of Keccak and XDRBG-256.
- Known-answer self tests; a self test may fail at any block of a read.
- The failure callback, the timestamp insertion interface, status output and accessors.
- Operating system backends, cache discovery and processor counts from the kernel; their results are inputs.
- The kernel's device, hwrng and procfs files except the admission counter, the daemon, the applications and the fuzzing harness.
