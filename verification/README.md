# Wi-Fi loss traces: merging, training, replaying

The repository measures which packets of a Wi-Fi transmission arrive, fits loss models to the resulting traces and
replays those models inside Click.  This project models the parts of that chain that compute: the merger of two
captures into one joint loss trace with its tables, the three trainers, the two channel elements, and the three
low-level readers that the measurement rests on (checksum, line reader, radiotap iterator).

## How the modules fit together

- `StreamMerge` gives `read_input`, `next_input`, `synchronize_input` and `first_pass` as functions on values.
  `Extractor.Merger` is the program itself: an array of two states, the global counter difference and the tables,
  updated in place; each of its methods is proved equal to the function, and `Extract` ties a whole run to
  `MergeRuns.Program`.  The properties of all runs are proved once, on the functions: what became of each packet
  (`MergeLog`), conservation of slots (`MergeConservation`), the zip (`MergeZip`), the clocks (`MergeClock`), the joint
  bursts (`MergeBursts`) and those of one stream (`MergeGaps`).  `MergeRuns` states them from the opening of the
  captures on, `MergeSync` where they are synchronised, `MergeDecisions` which packets are refused, dropped or cost a
  slot, in dates and counters alone, and `MergeRestarts` what happens when a counter starts again at 0.
- `TraceStats`, `History` and `ArrayList` are the tables that the first pass fills, each proved to be a recount of the
  emitted trace (`Tally`, `Runs` and `ShiftRegister` say what is counted).
- `OnOff`, `Mta` and `MarkovChain` are the trainers; `OnOffChannel` and `MarkovChannel` are the elements that replay
  what they write, with the theorems that connect the two sides.  `Histogram` holds the arithmetic of the scaled
  distributions.
- `Crc`, `LineReader` and `Radiotap` stand alone.

Conventions.  Counters are unbounded integers, except that differences of `uint64_t` counters wrap around (`Gap`), and
checksums are 32-bit vectors.  Timestamps and `long double` quotients are exact reals.  Assertions and exits of the
source are outcomes (`Abort(line)`, `Exit(code)`), not preconditions.  Random numbers are parameters.  `log` fields and
ghost fields record history and influence nothing.  The three copies of the loop over a batch of joint losses in
`first_pass` are one method, `EmitBatch`.

Most results about runs of the merger hold for all captures and a positive slot duration.  Two things make captures
special.  First, `read_input` lets a counter start again at 0, though it refuses every other counter that is not
larger (`MergeRestarts.ZeroIsAccepted`).  While one stream repeats a counter 0 and the other one goes on, a step of the
first pass is a phantom: it emits a slot and counts a burst of 2^64 - 1 losses that no counter stands for.  The account
of slots, the joint bursts and the zip are stated with the number of phantom steps of the run, whose slots are always
the first ones (`MergeRestarts.PhantomsComeFirst`); a counter that falls back to 0 from a larger one makes the next
step fail an assertion (`MergeRuns.FailedAssertions`).  Runs without an accepted counter 0 (`RestartFree`, for which
`NeverRestarts` captures are enough) have neither.  Second, the source marks a missing reference date by 0, and may
correct a reference date downwards by half a slot with every packet.  `MergeRuns.SlotsTrack` and `MergeRuns.Outcomes`
say for all captures what happens without a date.  In `WellDated` captures, where the date of each synchronised packet
is larger than half a slot for each packet that follows it, as wall-clock dates are, there always is one.

## Where the source and its documentation differ

- `crc.h` announces the value 0 for a well-formed frame; the code yields the fixed value 0x2144DF1C
  (`Crc.AppendedChecksum`).  The monitor does not rely on the announced value.
- `thresholdrand` does not end on a distribution with one point (`OnOffChannel.SinglePointNeverEnds`), which training
  gives when all bursts have the same length (`OnOffChannel.TwoPointsIffTwoLengths`).  On an empty distribution its
  first turn reads the element 0 that does not exist.  The channel is modelled with at least two points.
- A stream's smallest lateness is 0 in the zeroed memory it starts with, so a forward resynchronisation moves no date
  if it is the first resynchronisation of its stream (`MergeClock.ForwardLeavesNoneEarly`,
  `MergeClock.ForwardCanMoveNothing`).  Every later one moves the dates by the smallest lateness of its window.
- An empty trace makes the MTA trainer register one error burst of length 0 (`Mta.FinalSplits`).
- The shift register of the trainer and that of the channel agree for all states exactly when the modulus is even
  (`ShiftRegister.UpdatesAgreeIffEven`), hence for every order of at least 1.
- The program's exit for streams that drifted apart (udp-test/extract.c:874-879) is only taken with a stream that has no
  reference date, hence in no run of well dated captures (`MergeRuns.Outcomes`).
- `zread_line` promises the last line up to the end of the file, terminated and with its length.  When the refill that
  ends it goes to the second half of the buffer, the returned length is too large by the distance from the end of the
  unread text to the end of the first half, so it is right exactly if that distance is 0
  (`LineReader.Reader.ReadLine`, `LineReader.MovedTextIsTooLong`).  When all of the text comes with a refill of the
  first half, the terminator is not written (`LineReader.RefilledTextIsNotTerminated`).  When no refill follows, what
  is left in the buffer without a newline is not returned at all.
- `zread_line` takes a refill that does not fill its half of the buffer for the last one, but `zutil_read_input` also
  returns such a refill before the end of the file, as soon as one call of `inflate` succeeds (udp-test/zutil.c:169-172).
  When it ends no line, the line is cut there: of the text "ab" with a newline, "a" is returned as a line when a refill
  ends behind it (`LineReader.CutText`).  What is returned is a line of the text exactly if it ends in the buffer or in
  the next refill, or if nothing follows that refill (`LineReader.TakeLine`, `LineReader.TakeCut`).

## Model

| member | source | states |
|---|---|---|
| MergeRuns.Conservation | udp-test/extract.c:830-969 | in every run of any captures, before every step: for each stream, emitted plus removed slots are its position minus its synchronised start plus the number of phantom steps, the counter difference is the initial one corrected by the removals, and so the account holds exactly if no step was a phantom |
| MergeRuns.FailedAssertions | udp-test/extract.c:839-919 | in every run of any captures the assertions at 457, 479 and 845 never fail, 840 and 842 fail exactly if an age is negative, 913 and 919 only if stream 1 accepted a counter 0 in that step; a stream that fell back to 0 from a larger counter makes the next step fail |
| MergeRuns.RestartFreeIsSound | udp-test/extract.c:830-969 | until a counter 0 is accepted behind the synchronised packets, no step is a phantom and no assertion fails |
| MergeRestarts.PhantomsComeFirst | udp-test/extract.c:925-968 | in every run of any captures, a phantom step happens only while a stream is still at its synchronised counter 0, and while every emitted slot is that of a phantom |
| MergeRestarts.PhantomEmits | udp-test/extract.c:881-968 | a phantom step emits one slot and counts one burst of 2^64 - 1 losses; two streams of age 0 emit nothing; another step emits no more slots than the smaller age |
| MergeRestarts.ZeroIsAccepted | udp-test/extract.c:358-424 | a packet with counter 0 is accepted exactly if there is no reference date, or its date is in the window of the previous packet when that had counter 0 too, or else in the window that the wrapped difference gives |
| MergeRestarts.RestartBreaksAccount | udp-test/extract.c:903-968 | a run whose account and burst table are wrong after a counter 0 behind a counter 0 |
| MergeRestarts.RestartCanAbort | udp-test/extract.c:840 | a run in which an accepted counter 0 makes an assertion fail |
| MergeRuns.NeverRestartsIsEnough | udp-test/extract.c:358-362 | captures without a counter 0 behind their first packet are free of restarts |
| MergeRuns.TraceIsZip | udp-test/extract.c:839-968 | in every run of any captures, resynchronised or not, also where it stops: each slot behind the phantoms says for each stream whether the packet start + 1 + (slots since the phantoms) + (removals so far) was accepted and not dropped as out of step, and with which signal strength it is counted |
| MergeRuns.TraceIsPlainZip | udp-test/extract.c:839-968 | without resynchronisation the trace behind the phantoms is the slot-by-slot zip of the two reception indicators and signal strengths |
| MergeRuns.EveryPacketIsLogged | udp-test/extract.c:438-504 | the packets of a capture between the synchronised one and the unread rest are exactly those kept, dropped as too late, dropped as out of step, or refused |
| MergeRuns.DropsAreCounted | udp-test/extract.c:390-392 | in every run of any captures the program's two drop counters count the dropped packets, so with the kept ones they add up to the packets read; the kept ones have increasing counters until a counter 0 is accepted |
| MergeRuns.SlotsTrack | udp-test/extract.c:378-423 | in every run of any captures, before every step: a stream's last packet lies within one slot of its reference date exactly if there is one, or the packet's own date is between 0 and one slot |
| MergeRuns.ClocksTrack | udp-test/extract.c:378-423 | in well dated captures, before every step unless a counter fell back to 0: each stream's last packet lies within one slot of a positive reference date, packets of the late window are late by at most one slot, and the recorded minimum is 0 exactly until the first resynchronisation and afterwards the smallest lateness of a non-empty window |
| MergeRuns.Outcomes | udp-test/extract.c:839-923 | a run of any captures ends at the end of a capture, with a malformed one (-3), before synchronisation (-4), with an assertion that an accepted counter 0 explains, or with streams that drifted apart (4); the last only if a stream has no reference date and its last packet is dated outside the slot from 0, hence never in well dated captures |
| MergeRuns.LateDatesAreEnough | udp-test/extract.c:379 | captures are well dated if each of their dates is larger than half a slot for each of their packets |
| MergeRuns.UndatedCanExit | udp-test/extract.c:873-880 | a run of captures that start at date 0 in which the program gives up on the two streams |
| MergeRuns.UndatedCanLeaveSlot | udp-test/extract.c:379 | and one in which both streams' packets are accepted seven slots late |
| MergeRuns.BurstsAreLossRuns | udp-test/extract.c:882-967 | in every run of any captures the joint bursts are the maximal runs of joint losses of the trace and one burst of 2^64 - 1 losses for each phantom step; they are those runs, in order, exactly if there was no phantom |
| MergeGaps.GapsAreLossRuns | udp-test/extract.c:839-968 | in every run of any captures in which a stream lost no slot to a resynchronisation, the gaps between the counters of its packets are the maximal runs of its own losses, in the trace behind the phantoms and up to its pending packet |
| MergeGaps.UpdatesAreDifferences | udp-test/extract.c:798-823 | in every run of any captures in which a stream lost no slot and no packet to the other one, its counter and its new and old signal strengths are those of its last two packets, and UPDATE_STATE is called once for each packet, with the difference to the previous counter |
| MergeGaps.BurstsOfStream | udp-test/extract.c:798-805 | so the error bursts that UPDATE_STATE counts for such a stream are the maximal runs of its own losses, and before them one of 2^64 - 1 losses for each counter 0 that it accepted |
| MergeGaps.StepTakesGap | udp-test/extract.c:839-968 | one step updates a stream that loses nothing in it once, with the counter of the packet it takes, or leaves its packets and counter alone |
| MergeRuns.SynchronizeSynchronises | udp-test/extract.c:511-557 | synchronisation ends the program or establishes every invariant that the first pass starts from |
| MergeSync.SynchronizeMeets | udp-test/extract.c:511-557 | for any two captures: success is at two packets at most half a slot apart, and a malformed capture has a counter that is not larger than the one before and not 0; with dates that do not decrease, the two are the first packets of each capture that are close to any of the other one, and the end of a capture is reached only if no two packets are close |
| MergeSync.SynchronizesIffClose | udp-test/extract.c:511-557 | captures with dates and counters in order are synchronised exactly if two of their packets are at most half a slot apart |
| MergeDecisions.ReadingDecides | udp-test/extract.c:358-424 | for every packet: it is refused exactly if its counter is not larger and not 0, or if it is more than half a slot before its date; it is too late more than one slot behind it; up to its date it corrects the reference, and so does a late one behind 5000 other late ones; without a reference date it is usable |
| MergeDecisions.MalformedExits | udp-test/extract.c:426-428 | a refused packet ends the program with -3, and the end of a capture ends the merge |
| MergeDecisions.SignalBytes | udp-test/extract.c:889-961 | the index of a signal strength is its two's complement, different for different strengths; a lost packet has the index 128, which is also that of -128 |
| MergeDecisions.TurnDecides | udp-test/extract.c:443-500 | an accepted packet costs a slot exactly if it moved its stream's clock backward to more than 1.01 half slots behind the other clock (its own stream's slot) or forward to more than 1.01 half slots ahead (the other stream's slot); what the removal does to counters, dates, signal strengths and the counter difference, and whether another packet is read; otherwise the reading is final |
| MergeDecisions.NextDecides | udp-test/extract.c:438-504 | so next_input takes a slot from a stream exactly in these cases |
| StreamMerge.Judge | udp-test/extract.c:443-500 | the assertions at 457 and 479 hold for every slot duration that is not negative |
| StreamMerge.FirstPassReads | udp-test/extract.c:830-969 | every step that another one may follow consumes input, so the main loop ends |
| MergeConservation.NextStands | udp-test/extract.c:438-504 | however often reading is repeated or switches streams, each stream ends with a pending packet or restarted, and no assertion fails |
| MergeConservation.NextOfFirst | udp-test/extract.c:438-504 | while stream 0 is read, a packet of stream 1 that is more than one slot ahead stays pending and loses at most one slot |
| MergeConservation.StepKeeps | udp-test/extract.c:839-968 | one step from any state of a run keeps the account, one slot off if it is a phantom, or fails an assertion as explained |
| MergeConservation.AdvancePending | udp-test/extract.c:903-923 | the cascade after a common slot restores the account of slots in each of its branches, and fails an assertion only if stream 1 restarted in it |
| MergeZip.NextZips | udp-test/extract.c:438-504 | any number of nested reads and removals changes nothing about packets up to the last counter |
| MergeZip.StepZips | udp-test/extract.c:830-969 | one step keeps the zip, whatever its outcome |
| MergeClock.ReadGuards | udp-test/extract.c:341-429 | whatever the counter and date of a packet are, it is accepted into its slot or without a reference date |
| MergeClock.ReadClocks | udp-test/extract.c:378-423 | a reference date beyond half a slot for each packet to come stays so, an accepted packet lies within one slot of its new reference date, and the recorded minimum stays that of the late window |
| MergeClock.UndatedReading | udp-test/extract.c:379 | without a reference date every packet with a larger counter is accepted, and lies in its slot exactly if its date is between 0 and one slot |
| MergeClock.ForwardLeavesNoneEarly | udp-test/extract.c:411-418 | a forward resynchronisation moves all expected dates by one time, so that no packet of the full window is early; that time is the smallest lateness of the window exactly if the stream was resynchronised before, and otherwise 0 |
| MergeClock.ForwardCanMoveNothing | udp-test/extract.c:411-418 | a stream of which 5001 packets in a row are half a slot late and whose forward resynchronisation moves nothing |
| MergeClock.RemovalNarrows | udp-test/extract.c:446-500 | each removed slot brings the clocks of the two streams strictly closer, by one slot in the right direction |
| MergeClock.StepGuards | udp-test/extract.c:846-880 | whatever the counters and dates are, a step keeps every packet in its slot or without a reference date; two packets of a common slot that are too far apart end the program only if one of them is undated, since otherwise one is out of step with the other stream and is dropped |
| MergeDecisions.LatePacketIsDropped | udp-test/extract.c:846-880 | in every run of any captures, at every step: of two packets of a common slot that are more than a slot apart, in dated streams, that of stream 1 is dropped exactly if it is more than a slot behind or more than half a slot before stream 0's reference date, and otherwise that of stream 0; a packet of stream 1 that is more than a slot later than the other one is always dropped; other steps drop nothing |
| MergeDecisions.StepDrops | udp-test/extract.c:846-880 | the same for streams without a reference date: the step gives up exactly if neither packet is out of step with the other stream's reference date |
| MergeDecisions.DropIsReplaced | udp-test/extract.c:851-872 | a stream that lost its packet has the counters and signal strengths that it would have if it had read the next packet instead |
| Extractor.Merger.ReadInput | udp-test/extract.c:341-429 | the in-place update of one state is the specified reading, and the other state is untouched |
| Extractor.Merger.NextInput | udp-test/extract.c:438-504 | the loop, whose stream pointer moves, computes the specified result from the states and the counter difference |
| Extractor.Merger.EmitBatch | udp-test/extract.c:883-901 | the loop over the joint losses, the burst count and the last slot emit the specified batch and keep every table a recount of the output |
| Extractor.Merger.FirstPass | udp-test/extract.c:830-969 | one step in place is the specified step, with the tables still recounts of the output |
| Extractor.Merger.Synchronize | udp-test/extract.c:511-557 | the loop that aligns the two streams |
| Extractor.Merger.Extract | udp-test/extract.c:1996-2022 | the program ends, in the state and with the outcome that a number of specified steps gives; without a phantom step the weighted sum of its joint burst table is the number of joint losses |
| ArrayList.CounterList.Increment | udp-test/extract.c:42-58 | the chained array list is an unbounded table of counters; one of them grows by 1, and new list elements read as 0 |
| ArrayList.CounterList.Decrement | udp-test/extract.c:66-77 | exactly the wanted counter shrinks by 1, provided it is reachable and not 0, as the asserts demand |
| ArrayList.DecrementUndoes | udp-test/extract.c:66-77 | decrementing after incrementing gives all counters back |
| TraceStats.JointHistogram.Add | udp-test/extract.c:741-746 | cell h0 * 2^k + h1 counts the slots at which the two streams' last k outcomes code h0 and h1, and stays below 2^(2k) |
| TraceStats.RecentAtStart | udp-test/extract.c:1999-2003 | the initial register codes k outcomes that count as received |
| TraceStats.Statistics.AddSlot | udp-test/extract.c:882-901 | all tables of the first pass stay recounts of the trace when a slot is added |
| TraceStats.Statistics.CellsCount | udp-test/extract.c:747 | u64_stats[a][b] is the number of slots whose first outcome is a and whose second outcome is b |
| TraceStats.Statistics.SignalsCount | udp-test/extract.c:889-961 | signals[i][j] is the number of slots with the signal strengths i and j |
| TraceStats.Statistics.HistogramCounts | udp-test/extract.c:741-746 | cell 2^k a + b is the number of slots at which the last k outcomes of the two streams code a and b, all outcomes before the trace being received |
| TraceStats.Statistics.CorrelationsCount | udp-test/extract.c:666-693 | correlations[lag][a][b] is the number of slots, behind the first ones, with the event b and the event a at this distance before them |
| TraceStats.EventsTellLosses | udp-test/extract.c:652-658 | an event has the bit 2 for a packet of the first stream and the bit 1 for one of the second |
| TraceStats.MeansCountLosses | udp-test/extract.c:696-726 | the numerators of a floating mean are the numbers of the latest slots that the two streams lost |
| TraceStats.Statistics.AddBurst | udp-test/extract.c:760-768 | the joint burst table counts one more burst of this length |
| TraceStats.Statistics.TotalsAgree | udp-test/extract.c:741-747 | the slot kinds, the signal strengths and the joint histogram all sum to the number of slots, the weighted joint bursts to the sum of their lengths |
| History.Memory.Add | udp-test/extract.c:659-736 | the buffer holds the latest events newest first; once it is full, the table counts for each lag the later events that are preceded by an event at that distance, and the floating means count the losses among the last events |
| OnOff.Trainer.Init | parameters/basiconoff.cpp:18-32 | totals and pending burst are cleared and the maps are not, so the histograms are those of an empty trace exactly if the maps were empty |
| OnOff.Trainer.AddChars | parameters/basiconoff.cpp:98-124 | the histograms and totals are those of the registered bursts, one more included |
| OnOff.Trainer.AddChar | parameters/basiconoff.cpp:79-96 | registered and pending bursts are the maximal runs of the trace so far |
| OnOff.Trainer.CalculateValues | parameters/basiconoff.cpp:134-144 | the loop over the ordered map gives each length the scaled count of all bursts up to that length, keeping entries that exist |
| OnOff.Trainer.Finalize | parameters/basiconoff.cpp:146-154 | the flush completes the maximal runs, and both distributions are those of the flushed histograms |
| OnOff.Trainer.CoversTrace | parameters/basiconoff.cpp:79-154 | length times count, summed over both histograms, is the length of the trace; separately, its successes and its errors |
| OnOffChannel.TableIsExpected | parameters/basiconoff.cpp:134-144 | the distribution written for what calculate_values leaves in an empty map has a point for each length of the histogram, with the scaled count of the bursts up to that length |
| OnOffChannel.TableRises | parameters/basiconoff.cpp:134-144 | a non-empty distribution has increasing lengths, nondecreasing values between 0 and maxRand, and ends at exactly maxRand |
| OnOffChannel.ThresholdRand | elements/basiconoffchannel.cc:14-37 | the binary search finds the first point whose probability is not below the random number, or the last point |
| OnOffChannel.SinglePointNeverEnds | elements/basiconoffchannel.cc:20-23 | with a single point the condition of the loop holds after any number of turns |
| OnOffChannel.TwoPointsIffTwoLengths | elements/basiconoffchannel.cc:20-23 | a trained distribution has the two points that the search needs exactly if two different lengths occurred |
| OnOffChannel.HitsCount | elements/basiconoffchannel.cc:24-36 | how many random numbers up to maxRand draw each point |
| OnOffChannel.SamplingIsAccurate | parameters/basiconoff.cpp:134-144 | for every histogram, the random numbers that draw a length are its share of maxRand up to one: the scaled difference is at most the total count |
| OnOffChannel.Sample | elements/basiconoffchannel.cc:14-37 | the search in a trained distribution draws the length whose random numbers are counted there |
| OnOffChannel.Channel.Push | elements/basiconoffchannel.cc:146-172 | what was sent and what remains of the current burst make up the drawn bursts, which alternate and are at least one packet long |
| OnOffChannel.RoundTrip | parameters/basiconoff.cpp:79-154 | a trainer that is fed what a channel sends registers exactly the drawn bursts, only the last one truncated |
| Mta.StepSplits | parameters/basicmta.cpp:93-146 | one symbol of the second round keeps the deferred split: registered bursts and pending errors expand to the labels of the trace so far, and the Markov chain was given its error symbols |
| Mta.FinalSplits | parameters/basicmta.cpp:180-202 | at the end the registered bursts are the maximal runs of the labels, and the Markov chain was given the error segments in order, whatever the first round left |
| Mta.ThresholdIsExceeded | parameters/basicmta.cpp:100-123 | as many successes as the threshold count as errors, and one more makes all of them error-free |
| Mta.SplitAddsUp | parameters/basiconoff.h:97-100 | the registered bursts alternate as addChars demands, their lengths sum to the trace, the error bursts to what the chain was given |
| Mta.Trainer.AddChar | parameters/basicmta.cpp:93-146 | in the second round the update in place of the trainer and both sub-modules is the specified step; in the first round only the on-off module sees the symbol |
| Mta.Trainer.Finalize | parameters/basicmta.cpp:180-206 | the sub-modules' own ends register nothing more: bursts, symbols, distributions and transitions are those of the split |
| Mta.Train | parameters/main.cpp:179-199 | reading a trace twice trains the split of that trace, for any threshold found in between |
| MarkovChain.FlowBalance | parameters/markovchain.cpp:65-77 | for every state, symbols that left it minus symbols that entered it are 1 for the first full state, minus 1 for the current one |
| MarkovChain.Trainer.AddChar | parameters/markovchain.cpp:65-77 | each cell grew by exactly the number of windows with its code, from whatever the memory held at first, and the register holds the history modulo 2^k |
| MarkovChain.Trainer.GrowthTotal | parameters/markovchain.cpp:65-77 | the table grew by the number of symbols that have k predecessors |
| MarkovChain.Trainer.TableBalances | parameters/markovchain.cpp:65-77 | the balance holds for the cells of the table and the trainer's current state |
| MarkovChain.MostVisitedIsFirst | parameters/markovchain.cpp:91-97 | the final state is the first one with the most visits, or unchanged without visits |
| MarkovChain.Trainer.CellsCount | parameters/markovchain.cpp:65-77 | cell 2 h grew by the number of errors behind the history h, cell 2 h + 1 by that of successes |
| MarkovChain.Trainer.Finalize | parameters/markovchain.cpp:85-104 | every transition is the scaled share of successes of its state, and the state is a most visited one |
| MarkovChain.ShareIsScaled | parameters/markovchain.cpp:98-102 | such a share is the successes' share of the visits on the scale of maxRand, rounded down |
| MarkovChain.TransmitsAsTrained | elements/markovchainchannel.cc:93-97 | the random numbers below the trained probability, for which the channel transmits, are its share of successes of maxRand, less than one off |
| ShiftRegister.UpdatesAgreeIffEven | elements/markovchainchannel.cc:99-100 | shift-add-reduce and shift-reduce-add agree for all states exactly when the modulus is even |
| ShiftRegister.RegisterStep | parameters/markovchain.cpp:73-75 | for modulus 2^k, k >= 1, both updates are equal, below the modulus, and shift one bit into the history |
| MarkovChannel.Channel.Push | elements/markovchainchannel.cc:93-112 | the packet is transmitted when the random number is below the current state's probability, and the register takes the outcome |
| MarkovChannel.Channel.StateIsHistory | elements/markovchainchannel.cc:99-100 | after k packets the state is the code of the last k outcomes, whatever it started with |
| MarkovChannel.RunTogether | elements/markovchainchannel.cc:93-112 | a trainer fed by a channel of its order is in the channel's state |
| Crc.TableIsEight | udp-test/crc.c:9-42 | each of the 256 entries is eight steps of the bit-serial division by the reflected polynomial |
| Crc.Crc32 | udp-test/crc.c:50-60 | the table-driven loop computes the bit-serial checksum of every message (FCS, section 8.2.4.8 of IEEE Std 802.11-2012) |
| Crc.FrontIsChecked | udp-test/crc.c:53 | the checksum of no bytes is 0, and one byte more in front changes every checksum, a zero included |
| Crc.CheckValue | udp-test/crc.c:50-60 | the checksum of the digits 1 to 9 is 0xCBF43926, the check value of CRC-32 |
| Crc.FourBytesAreAWord | udp-test/crc.c:54-58 | four bytes act on the register as one little-endian word |
| Crc.ShortErrorsAreDetected | udp-test/crc.c:50-60 | different frames of the same length that differ only inside four consecutive bytes have different checksums |
| Crc.ResidueIffChecked | udp-test/monitor.c:502 | the checksum over frame and FCS is the fixed residue exactly if the monitor's comparison succeeds |
| Crc.AppendedChecksum | udp-test/crc.h:12-18 | a frame followed by its own checksum always has the residue 0x2144DF1C, never the 0 of the documentation |
| LineReader.Reader.constructor | udp-test/zutil.c:183-211 | the reader starts with its first refill in the first half |
| LineReader.Reader.ReadLine | udp-test/zutil.c:219-357 | every case of a call: a line in the buffer or completed by the next refill is returned, terminated, and removed from the unread text; a refill without newline ends the text, which is returned whole with exactly stated length and terminator; and the failures |
| LineReader.ReadAll | udp-test/zutil.c:219-357 | on lines shorter than half the buffer, of which every refill but an empty last one ends one, repeated calls return exactly the lines of the decompressed text |
| LineReader.LinesMakeUp | udp-test/zutil.c:213-219 | the lines of a text, joined by newlines, give it back |
| LineReader.TakeLine | udp-test/zutil.c:219-357 | on any text, a line that ends in the buffer or in the next refill is returned and the rest of the text is left |
| LineReader.TakeCut | udp-test/zutil.c:264-335 | a refill that ends no line ends the text for the reader: what is returned and what is left are the next line and the rest exactly if nothing follows that refill |
| LineReader.CutText | udp-test/zutil.c:169-172 | of the text "ab" and a newline, "a" is returned as a line when a refill ends behind it |
| LineReader.MovedTextIsTooLong | udp-test/zutil.c:252-283 | a last text of three characters that comes with the length 5 |
| LineReader.RefilledTextIsNotTerminated | udp-test/zutil.c:330-332 | a last text that is followed by a character of an earlier line instead of the terminator |
| Radiotap.FieldsAreDisjoint | udp-test/radiotap-parser.c:96-131 | present fields lie behind the fixed part, aligned, in the order of their bits and without overlap |
| Radiotap.FirstIsLeast | udp-test/radiotap-parser.c:124-129 | the first present field is at the least aligned offset behind the fixed part |
| Radiotap.NextIsLeast | udp-test/radiotap-parser.c:124-131 | each field but the first is at the least aligned offset behind its predecessor |
| Radiotap.SizesAreBytes | udp-test/radiotap-parser.c:96-115 | the alignments and lengths of the 18 known fields are the two halves of the bytes of the table |
| Radiotap.OffsetsOfCommonHeaders | udp-test/radiotap-parser.c:119-131 | the offsets of the fields 0, 1, 2, 3 and 5, and of the fields 1 and 3 alone |
| Radiotap.FieldsContinue | udp-test/radiotap-parser.c:119-143 | exploring up to one index and then up to a larger one is one exploration |
| Radiotap.Iterator.Init | udp-test/radiotap-parser.c:52-76 | accepted exactly if the version is 0, the header is complete and there is no extension mask |
| Radiotap.Iterator.Advance | udp-test/radiotap-parser.c:84-144 | the next present field at its place in the layout and inside the header; the end if there is none; an error exactly where the next field does not fit |
| Radiotap.Iterator.Explore | udp-test/monitor.c:459-468 | the caller's loop visits the present fields in order up to the first one that does not fit, and ends without error exactly if all fit |
| Runs.RunsUnique | parameters/basiconoff.cpp:79-96 | a trace has only one decomposition into alternating non-empty runs |

## Left out

- Integer widths: apart from the wrap-around of counter differences and the 32-bit checksum, counters do not overflow in the model; traces are assumed shorter than the integer ranges.
- Rounding: `double` timestamps and `long double` quotients are exact reals.
- MergeRuns.Outcomes: a packet that arrives too early for its own stream ends the program as malformed input does; whether captures contain such packets depends on real-world timing.
- MergeRuns.ClocksTrack: well dated captures only, because without a reference date the source measures no lateness; what holds then is in `MergeRuns.SlotsTrack`.
- MergeRuns.FailedAssertions: for the two assertions of the cascade (913 and 919) it names what must have happened, not exactly when they fail.
- MergeGaps.UpdatesAreDifferences: gives what `UPDATE_STATE` counts; what `UNREAD_LINE` takes back when a packet is dropped as out of step is not modelled, nor whether the asserts of `decrease_counter` hold there, because after a position was advanced it removes another gap than the one that was added.  Signal averages are left out too.
- Reading the captures: CSV fields, address matching, rotated files and gzip; the model starts from parsed packets.
- LineReader.Reader.ReadInput: gives what one call of inflate's loop delivers as a chunk; zlib and end-of-file detection are not part of this model.
- LineReader.ReadAll: texts of which a refill before the end ends no line are not returned line by line; what one call returns then is in `LineReader.TakeCut`.
- LineReader.Reader.ReadLine: the reader's state after a failure or the end of the file is not described.
- Mta.Trainer.NextRound: the threshold is an arbitrary number; its mean and standard deviation are not computed.
- MarkovChain.Trainer.constructor: `init` computes the table sizes from the order; the allocation itself and orders above 30, for which the 32-bit table size overflows, are not modelled.
- MarkovChannel.Channel.constructor: needs at least one state; for a file that announces none the source divides by zero.
- OnOffChannel.ThresholdRand: needs at least two points, because on fewer the search does not end or reads outside the distribution.
- OnOffChannel.Channel.Push: the same for both distributions of the channel.
- Radiotap.Iterator.Advance: after an error the iterator is not valid any more, and further calls are not described.
- `second_pass`, which is never enabled, and the LRS, Pearson and fitting statistics.
- Printing, loading and option parsing in `parameters/` and `elements/`, and the duplicate generators in `tests/`.
- Netlink, sockets, event loop and terminal code of the measurement programs.
