# Pico multi-node ADC capture: buffer lifecycle and sample encoding

This project models the core of a small data-acquisition system. Several
Raspberry Pi Pico boards form a chain of nodes. Each node fills a
fixed-size buffer of 16-bit ADC samples, one sample per rising edge on its
trigger pin. Near the end of the buffer it signals the next node in the
chain, and once the buffer is full it hands the buffer to a transport. It
then resets and, depending on the firmware variant, waits for the previous
node before it samples again. On the host side the 16-bit samples arrive
as byte pairs, low byte first, and are put back together. A small
command-line decoder reads a file of such samples.

The model has one module per concern:

- `Wire` defines the byte encoding of a sample (`LowByte`, `HighByte`,
  `Combine`) and of a sequence of samples (`Serialize`, `Deserialize`). It
  proves both round trips.
- `Sampler` holds the fill rule that every firmware variant shares.
  - `Buffer` is the value view and `Commit` is one trigger edge.
  - `SampleBuffer` is a class over two arrays (samples and timestamps) that
    its methods write in place.
- `Cycle` holds what the node state machines have in common:
  - the events (a release edge, a trigger edge carrying its ADC read and
    time, one step of `main`, and the return of the transfer or clear
    routine with its result);
  - the observable outputs (the prepare pulse, the reconfigured pin, the
    transfer pulse, the transmitted words, the "incomplete" message);
  - where `main` is;
  - the wrapping debug counter.
- `AdcA`, `AdcB`, `AdcMulti`, `Skeleton` and `AdcTrap` are the five
  firmware variants. Each has:
  - a `State` datatype and a `Step` function over events, whose finite
    traces `Run` folds;
  - lemmas about `Step` and `Run`;
  - a `Node` class with the firmware's globals as fields. Its callbacks and
    its `Handle`/`Replay` methods update those fields in place and are
    proved equal to `Step`/`Run`.
- `Transport` covers the three byte-oriented senders (UART, I2C,
  per-sample SPI). `SpiTest` covers the bulk-SPI test program.
- `Receiver` is the host's SPI reader. `Decoder` is the binary-file decoder.

Interrupt callbacks are atomic steps interleaved with the steps of `main`.
Its spin loops become `Poll` events that either move on or change nothing.
Its endless loop is modelled for a finite prefix of events.
`adc_read()` and `time_us_32()` arrive as the `Reading` carried by each
trigger edge. The RECORD_TIME build switch is a parameter. The stub
routines in `adc_multi.c` and `skeleton.c` have no body, so their return
values are not fixed; they arrive as event parameters.

Where the code departs from the system's general design, the model follows
the code:
- `adc_multi.c` and `skeleton.c` never lower `sampling_done`.
- `adc_B.c` ignores what the transfer did.
- `adc_multi.c` stalls while the counter is at most 1, not at least 1.

## Model

| member | source | states |
|---|---|---|
| Wire.Combine | receiver/SPI.py:50 | joining an upper and a lower byte gives a 16-bit value whose low and high bytes are exactly those two bytes |
| Wire.CombineSplit | src/adc_multi/adc_multi.h:40-41 | splitting a sample into `& 0xFF` and `>> 8` and joining the halves gives the sample back; low + 256·high is the sample |
| Wire.Serialize | src/adc_multi/adc_multi.h:39-42 | the byte stream of n samples has exactly 2n bytes |
| Wire.Deserialize | receiver/SPI.py:37-51 | a stream of whole pairs rebuilds one value per pair |
| Wire.SerializeAt | src/adc_multi/adc_multi.h:40-41 | byte 2i of the stream is the low byte of sample i and byte 2i+1 its high byte |
| Wire.SerializeByLayout | src/SPI_test/SPI_test.c:29-33 | a byte array of length 2n holding the low byte of sample i at 2i and its high byte at 2i+1 is the stream of those samples |
| Wire.DeserializeAt | receiver/SPI.py:43-50 | value i is rebuilt from bytes 2i (lower) and 2i+1 (upper) |
| Wire.SerializeSnoc | src/adc_multi/adc_multi.h:39-42 | sending one more sample appends exactly its two bytes, low first |
| Wire.SerializeAppend | src/adc_multi/adc_multi.h:39-42 | the stream of two runs of samples is the concatenation of their streams |
| Wire.DeserializeSerialize | receiver/SPI.py:50 | the receiver rebuilds exactly the samples the sender sent |
| Wire.SerializeDeserialize | receiver/SPI.py:43-50 | every stream of whole byte pairs is the stream of the values rebuilt from it |
| Sampler.Empty | src/adc_A/adc_A.c:55-60 | the power-on buffer is well formed, has the given capacity, cursor 0 and the flag down |
| Sampler.Commit | src/adc_A/adc_A.c:115-144 | an edge keeps the buffer well formed, keeps its capacity and keeps the time-recording switch |
| Sampler.Cleared | src/adc_A/adc_A.c:147-157 | clearing keeps the buffer well formed |
| Sampler.Rewound | src/adc_A/adc_A.c:291-292 | rewinding keeps the buffer well formed |
| Sampler.CommitStores | src/adc_A/adc_A.c:115-123 | an edge below capacity stores the read (and time) at the cursor and advances it by one; every other slot is unchanged; the flag is up exactly when it was or the cursor reached capacity |
| Sampler.CommitAtCapacity | src/adc_A/adc_A.c:115 | an edge on a full buffer changes nothing |
| Sampler.CommitKeepsDoneExactly | src/adc_A/adc_A.c:141-143 | if the flag is up exactly at capacity before an edge, it is so after it |
| Sampler.CommitAllFills | src/adc_A/adc_A.c:115-123 | k edges with room move the cursor by k; the newly committed slots hold the k reads and times in edge order; the slots before the old cursor and after the new one are untouched, in the sample and the timestamp buffer alike; a build without timestamps keeps its timestamp buffer unchanged |
| Sampler.CommitAllBounded | src/adc_A/adc_A.c:115-123 | after any number of edges the cursor is the smaller of capacity and start + edges |
| Sampler.FillFromStart | src/adc_A/adc_A.c:115-143 | from a reset buffer, k ≤ capacity edges leave cursor k, the first k slots holding the reads and times in order, and the flag up exactly when k is the capacity |
| Sampler.CommitAllKeepsDone | src/adc_A/adc_A.c:141-143 | edges never lower the done flag |
| Sampler.ClearedIsZero | src/adc_A/adc_A.c:147-157 | clearing sets every sample and every timestamp to 0 and keeps the cursor and the flag |
| Sampler.SampleBuffer.constructor | src/adc_A/adc_A.c:55-60 | the arrays start as the power-on buffer |
| Sampler.SampleBuffer.Record | src/adc_A/adc_A.c:115-144 | the in-place edge callback body has the effect of `Commit`, and says whether it found room |
| Sampler.SampleBuffer.Clear | src/adc_A/adc_A.c:147-157 | the clearing loop zeroes the arrays in place, giving `Cleared` of the old buffer |
| Sampler.SampleBuffer.Rewind | src/adc_A/adc_A.c:291-292 | the cursor goes to 0, and the flag is lowered only when asked |
| Cycle.CountByTwoFromZero | src/adc_A/adc_A.c:304 | a 32-bit counter advanced by 2 from 0 reads 2k after k < 2^31 cycles |
| Cycle.CountByTwoFromOneStaysOdd | src/adc_B/adc_B.c:230 | a 32-bit counter advanced by 2 from 1 stays odd and in range, across the wrap-around too |
| AdcA.InitInv | src/adc_A/adc_A.c:204-217 | the start state is reachable; node 0 goes straight to sampling, any other node stalls; `lock` is as configured |
| AdcA.StepInv | src/adc_A/adc_A.c:113-145 | every step keeps the invariant: cursor ≤ 100000, flag up exactly at capacity, the receiver interrupt on exactly while stalled, the ADC interrupt on exactly while sampling |
| AdcA.RunInv | src/adc_A/adc_A.c:115-143 | every state a run reaches satisfies the invariant |
| AdcA.EdgeStores | src/adc_A/adc_A.c:115-123 | an edge while sampling with room stores the read at the cursor and advances it by one; no other global changes |
| AdcA.EdgeIgnored | src/adc_A/adc_A.c:115 | an edge on a full buffer, or outside sampling, changes nothing and emits nothing |
| AdcA.PrepareExactlyAtThreshold | src/adc_A/adc_A.c:127-138 | a step emits the prepare pulse exactly when it is an accepted edge moving the cursor from 98999 to 99000, and then emits it once |
| AdcA.PrepareOncePerCycle | src/adc_A/adc_A.c:127-143 | within a cycle the cursor never moves back, the flag never drops, and the pulse count is 1 if the cursor crossed 99000 and 0 otherwise |
| AdcA.CycleIsFill | src/adc_A/adc_A.c:113-145 | within a cycle the buffer is the start buffer with the reads of the accepted trigger edges committed in order; release edges, steps of `main` and ignored edges leave it alone |
| AdcA.CycleCaptures | src/adc_A/adc_A.c:115-143 | from cursor 0, after k ≤ 100000 accepted edges the cursor is k, the first k samples (and times) are the k reads in edge order, the later slots are as the cycle found them, and the flag is up exactly when k is 100000 |
| AdcA.TransmitIsFullBuffer | src/adc_A/adc_A.c:266-267 | the words handed to the SPI peripheral are the whole full buffer |
| AdcA.ResetStartsNextCycle | src/adc_A/adc_A.c:285-304 | after the transfer: all samples and timestamps are 0, the cursor is 0, the flag is down, `lock` is true, the counter is (old + 2) mod 2^32, and the node stalls next exactly when the counter is nonzero; a short transfer prints only the incomplete message |
| AdcA.NextCycleCaptures | src/adc_A/adc_A.c:285-292 | in the cycle after a reset, k ≤ 100000 accepted edges leave the k reads in edge order followed by zeros, the cursor at k, and the flag up exactly when k is 100000 |
| AdcA.StallHoldsUntilRelease | src/adc_A/adc_A.c:213-217 | a stalled, locked node stays exactly as it is and emits nothing until a release edge arrives |
| AdcA.ReleaseStartsSampling | src/adc_A/adc_A.c:215-236 | a release edge unlocks a stalled node, and the next step of `main` starts sampling on the same buffer |
| AdcA.RunCounter | src/adc_A/adc_A.c:304 | the counter at the end of a run is the start value advanced once per reset |
| AdcA.HeadStallsAfterFirstCycle | src/adc_A/adc_A.c:204-217 | node 0 skips the stall on its first cycle and stalls, locked, after every reset, whatever the transfer returned (for the first 2^31 − 1 cycles) |
| AdcA.FollowerAlwaysStalls | src/adc_A/adc_A.c:204-217 | node 1 stalls before its first cycle and, its counter staying odd, after every reset, whether the transfer was complete or short |
| AdcA.Node.constructor | src/adc_A/adc_A.c:55-69 | the globals start as the configured start state |
| AdcA.Node.EnterLoopBody | src/adc_A/adc_A.c:204-236 | the top of the loop body arms the stall when `machine_state >= 1` and sampling otherwise |
| AdcA.Node.UnlockTriggerCallback | src/adc_A/adc_A.c:95-97 | the callback clears `lock` and nothing else |
| AdcA.Node.AdcTriggerCallback | src/adc_A/adc_A.c:113-145 | the in-place callback has the effect and emits the outputs of the trigger rule, pulse at 99000 included |
| AdcA.Node.ClearBuffer | src/adc_A/adc_A.c:147-157 | `clear_buffer` zeroes both arrays in place and returns 0 |
| AdcA.Node.Handle | src/adc_A/adc_A.c:199-305 | each callback or loop step changes the globals and emits outputs exactly as `Step` |
| AdcA.Node.Replay | src/adc_A/adc_A.c:199-305 | a finite prefix of the node's life leaves the globals and outputs that `Run` gives |
| AdcB.InitInv | src/adc_B/adc_B.c:156-175 | the start state is reachable; it stalls exactly when the counter is nonzero |
| AdcB.StartsStalled | src/adc_B/adc_B.c:61-63 | as shipped (counter 1, locked) the node starts stalled with the receiver interrupt on and the ADC interrupt off |
| AdcB.StepInv | src/adc_B/adc_B.c:93-123 | every step keeps the invariant: cursor ≤ 12000 < 2^16, flag up exactly at capacity, a locked stall has its interrupt on |
| AdcB.RunInv | src/adc_B/adc_B.c:94-121 | every state a run reaches satisfies the invariant |
| AdcB.EdgeStores | src/adc_B/adc_B.c:94-102 | an accepted edge stores the read and advances the 16-bit cursor by one within its range; the flag is up exactly at 12000; nothing else changes |
| AdcB.EdgeIgnored | src/adc_B/adc_B.c:94 | edges on a full buffer or outside sampling are no-ops |
| AdcB.PrepareExactlyAtThreshold | src/adc_B/adc_B.c:105-116 | the prepare pulse is emitted exactly by the edge moving the cursor to 11900, once |
| AdcB.PrepareOncePerCycle | src/adc_B/adc_B.c:105-121 | within a cycle the pulse count is 1 if the cursor crossed 11900 and 0 otherwise; cursor and flag never go back |
| AdcB.CycleIsFill | src/adc_B/adc_B.c:93-123 | within a cycle the buffer is the start buffer with the reads of the accepted trigger edges committed in order; nothing else touches it |
| AdcB.CycleCaptures | src/adc_B/adc_B.c:94-121 | from cursor 0, after k ≤ 12000 accepted edges the cursor is k, the first k samples (and times) are the reads in edge order, the later slots are as they were, and the flag is up exactly when k is 12000 |
| AdcB.ReleaseIsOneShot | src/adc_B/adc_B.c:73-77 | the release edge turns its own interrupt off and unlocks; a second edge before the next stall changes nothing |
| AdcB.TransmitIsFullBuffer | src/adc_B/adc_B.c:206-207 | the buffer handed to the transfer routine is the whole full buffer |
| AdcB.ResetStartsNextCycle | src/adc_B/adc_B.c:219-231 | after the transfer: buffer zeroed, cursor 0, flag down, counter (old + 2) mod 2^32, `lock` true, and the next stall decided by the new counter; no output |
| AdcB.NextCycleCaptures | src/adc_B/adc_B.c:220-226 | in the cycle after a reset, k ≤ 12000 accepted edges leave the k reads in edge order followed by zeros, the cursor at k, and the flag up exactly when k is 12000 |
| AdcB.StallHoldsUntilRelease | src/adc_B/adc_B.c:168-172 | a stalled, locked node does nothing until the release edge |
| AdcB.RunCounter | src/adc_B/adc_B.c:230 | the counter is the start value advanced once per reset |
| AdcB.AlwaysStalls | src/adc_B/adc_B.c:161-172 | as shipped, the node re-enters the stall, locked and with its interrupt on, after every reset, whatever the ignored transfer result |
| AdcB.Node.constructor | src/adc_B/adc_B.c:49-63 | the globals start as the configured start state |
| AdcB.Node.EnterLoopBody | src/adc_B/adc_B.c:161-190 | the top of the loop body arms the stall when `machine_state >= 1` and sampling otherwise |
| AdcB.Node.UnlockTriggerCallback | src/adc_B/adc_B.c:73-77 | the callback disables its interrupt and clears `lock` |
| AdcB.Node.AdcTriggerCallback | src/adc_B/adc_B.c:93-123 | the in-place callback has the effect and emits the outputs of the trigger rule |
| AdcB.Node.ClearBuffer | src/adc_B/adc_B.c:126-136 | `clear_buffer` zeroes the arrays in place and returns 0 |
| AdcB.Node.Handle | src/adc_B/adc_B.c:156-232 | each callback or loop step behaves exactly as `Step` |
| AdcB.Node.Replay | src/adc_B/adc_B.c:156-232 | a finite prefix of the node's life behaves exactly as `Run` |
| AdcMulti.InitInv | src/adc_multi/adc_multi.c:130-146 | the start state is reachable and stalls exactly when the counter is at most 1; as shipped, `lock` is already false, so the first step moves on to sampling |
| AdcMulti.StepInv | src/adc_multi/adc_multi.c:60-85 | every step keeps the invariant: a full buffer has the flag up, the counter fits 16 bits, `main` returns only with code 1 |
| AdcMulti.RunInv | src/adc_multi/adc_multi.c:60-85 | every state a run reaches satisfies the invariant |
| AdcMulti.EdgeStores | src/adc_multi/adc_multi.c:60-68 | an accepted edge stores the read and its time at the cursor and advances it by one; nothing else changes |
| AdcMulti.EdgeIgnored | src/adc_multi/adc_multi.c:61 | edges on a full buffer, or before the ADC interrupt is on, are no-ops |
| AdcMulti.ReconfigureExactlyAtThreshold | src/adc_multi/adc_multi.c:71-78 | no pulse is ever sent; the sender pin is reconfigured exactly by the edge moving the cursor to 22222 |
| AdcMulti.CycleIsFill | src/adc_multi/adc_multi.c:60-84 | until the clear routine returns, the buffer is the start buffer with the reads of the accepted trigger edges committed in order; nothing else touches it |
| AdcMulti.CycleCaptures | src/adc_multi/adc_multi.c:61-83 | from cursor 0, after k ≤ 32768 accepted edges the cursor is k, the first k samples and times are the reads in edge order, the later slots are as they were, and the flag is up exactly when it already was or k is 32768 |
| AdcMulti.DoneNeverLowered | src/adc_multi/adc_multi.c:181-183 | once raised, `sampling_done` stays up for good |
| AdcMulti.LaterSamplingEndsAtOnce | src/adc_multi/adc_multi.c:160-162 | after a reset the flag is still up with the cursor at 0, so the next sampling wait ends at the first step |
| AdcMulti.ResetEffect | src/adc_multi/adc_multi.c:181-183 | a reset sets the cursor to 0 and `lock` true and advances the counter by 3 mod 2^16; samples, timestamps and the flag are untouched |
| AdcMulti.FailureHalts | src/adc_multi/adc_multi.c:170-179 | a nonzero result from the transfer or the clear routine ends `main` with code 1, nothing else changing |
| AdcMulti.HaltedStays | src/adc_multi/adc_multi.c:170-179 | once `main` has returned it stays returned |
| AdcMulti.RunCounter | src/adc_multi/adc_multi.c:181 | the counter is the start value advanced once per reset |
| AdcMulti.CountByThree | src/adc_multi/adc_multi.c:181 | from 1 the counter reads 1 + 3k for k < 21845 resets |
| AdcMulti.CounterWrapsToZero | src/adc_multi/adc_multi.c:33 | the `unsigned short` counter reads exactly 0 after 21845 resets |
| AdcMulti.StallSkippedUntilWrap | src/adc_multi/adc_multi.c:135 | as shipped, every reset before the 21845th leads to sampling without a stall, and the 21845th leads to a stall |
| AdcMulti.Node.constructor | src/adc_multi/adc_multi.c:27-35 | the globals start as the configured start state |
| AdcMulti.Node.EnterStall | src/adc_multi/adc_multi.c:130-157 | `labelStall` arms the stall when `machine_state <= 1` and sampling otherwise |
| AdcMulti.Node.AdcTriggerCallback | src/adc_multi/adc_multi.c:60-85 | the in-place callback has the effect and emits the outputs of the trigger rule |
| AdcMulti.Node.Handle | src/adc_multi/adc_multi.c:130-185 | each callback or loop step behaves exactly as `Step` |
| AdcMulti.Node.Replay | src/adc_multi/adc_multi.c:130-185 | a finite prefix of the node's life behaves exactly as `Run` |
| Skeleton.InitInv | src/adc_multi/skeleton.c:100-101 | the node starts SENDING and unlocked, so its first cycle samples without a stall |
| Skeleton.StepInv | src/adc_multi/skeleton.c:123-133 | every step keeps the invariant; in particular the node is stalled only while RECEIVING |
| Skeleton.RunInv | src/adc_multi/skeleton.c:118-170 | every state a run reaches satisfies the invariant |
| Skeleton.EdgeStores | src/adc_multi/skeleton.c:56-63 | an accepted edge stores the read and its time at the same index and advances the cursor by one; nothing else changes |
| Skeleton.EdgeIgnored | src/adc_multi/skeleton.c:57 | edges on a full buffer, or before the trigger interrupt is on, are no-ops |
| Skeleton.CycleEndToggles | src/adc_multi/skeleton.c:160-168 | the end of a cycle flips the status; `lock` is set, and the node stalls, exactly when the new status is RECEIVING; only the cursor is rewound |
| Skeleton.FailureHalts | src/adc_multi/skeleton.c:148-157 | a nonzero result from either stub ends `main` with code 1 |
| Skeleton.StepStatus | src/adc_multi/skeleton.c:159-166 | only a completed cycle changes the status, and it flips it |
| Skeleton.StatusAlternates | src/adc_multi/skeleton.c:159-166 | after an even number of completed cycles the node is SENDING, after an odd number RECEIVING |
| Skeleton.CycleIsFill | src/adc_multi/skeleton.c:56-78 | until the clear routine returns, the buffer is the start buffer with the reads of the accepted trigger edges committed in order; nothing else touches it |
| Skeleton.CycleCaptures | src/adc_multi/skeleton.c:57-76 | from cursor 0, after k ≤ 32768 accepted edges the cursor is k, the first k samples and times are the reads in edge order, the later slots are as they were, and the flag is up exactly when it already was or k is 32768 |
| Skeleton.DoneNeverLowered | src/adc_multi/skeleton.c:168 | `sampling_done` is never lowered |
| Skeleton.Node.constructor | src/adc_multi/skeleton.c:98-101 | the globals start as `main` sets them |
| Skeleton.Node.EnterStall | src/adc_multi/skeleton.c:123-140 | the stall label arms the stall when RECEIVING and sampling otherwise |
| Skeleton.Node.TriggerCallback | src/adc_multi/skeleton.c:56-78 | the in-place callback has the effect and emits the outputs of the trigger rule |
| Skeleton.Node.Handle | src/adc_multi/skeleton.c:118-170 | each callback or loop step behaves exactly as `Step` |
| Skeleton.Node.Replay | src/adc_multi/skeleton.c:118-170 | a finite prefix of the node's life behaves exactly as `Run` |
| AdcTrap.StepInv | src/adc_trap/adc_trap.c:37-51 | every step keeps the invariant: cursor ≤ 32768, flag up exactly at 32768, `main` past its wait only when the flag is up |
| AdcTrap.RunInv | src/adc_trap/adc_trap.c:38-49 | every state a run reaches satisfies the invariant |
| AdcTrap.RunIsFill | src/adc_trap/adc_trap.c:37-51 | the buffer after a run is the buffer after committing the run's reads in order; only trigger edges touch it |
| AdcTrap.CaptureContents | src/adc_trap/adc_trap.c:38-49 | after k ≤ 32768 edges the cursor is k and both arrays' first k slots hold the reads and times in edge order, the flag up exactly when k = 32768; beyond that the cursor stays at 32768 |
| AdcTrap.CursorMonotone | src/adc_trap/adc_trap.c:87-95 | the cursor never moves back, and once `main` is past its single wait nothing changes any more |
| AdcTrap.Node.constructor | src/adc_trap/adc_trap.c:18-21 | the globals start zeroed with the callback armed |
| AdcTrap.Node.Handle | src/adc_trap/adc_trap.c:37-89 | the callback or the wait step behaves exactly as `Step` |
| AdcTrap.Node.Replay | src/adc_trap/adc_trap.c:63-95 | a finite prefix of the program's life behaves exactly as `Run` |
| Transport.I2cFrames | src/adc_multi/adc_multi.h:53-59 | n samples take exactly 2n I2C transactions |
| Transport.SpiFrames | src/adc_multi/adc_multi.h:74-82 | n samples take exactly 4n chip-select and write events |
| Transport.I2cCarriesSerialized | src/adc_multi/adc_multi.h:53-59 | the bytes reaching the I2C bus are exactly the serialised samples |
| Transport.SpiCarriesSerialized | src/adc_multi/adc_multi.h:72-82 | the bytes clocked out on MOSI are exactly the serialised samples |
| Transport.I2cFramesAt | src/adc_multi/adc_multi.h:53-58 | transaction 2i writes the low byte of sample i to 0x08 keeping the bus; 2i+1 writes its high byte and releases it |
| Transport.SpiFramesAt | src/adc_multi/adc_multi.h:72-81 | CS is high before the loop; for sample i it goes low, the low then the high byte go out, and it goes high again |
| Transport.SameBytesOnEveryLink | src/adc_multi/adc_multi.h:39-82 | I2C and SPI carry the same bytes in the same order as UART, and a receiver rebuilds the samples from them |
| Transport.SendDataUart | src/adc_multi/adc_multi.h:34-43 | the UART sender writes exactly the serialised first 32768 samples, reading the buffer only |
| Transport.SendDataViaI2c | src/adc_multi/adc_multi.h:46-60 | the I2C sender performs exactly the framed transactions for the first 32768 samples |
| Transport.SendDataViaSpi | src/adc_multi/adc_multi.h:63-83 | the SPI sender deasserts CS once, then frames each of the first 32768 samples |
| SpiTest.Ramp | src/SPI_test/SPI_test.c:44-46 | the ramp has n samples and sample i is i |
| SpiTest.SendDataViaSpi | src/SPI_test/SPI_test.c:16-38 | the 2·5000-byte packing loop builds the serialised buffer, which goes out in one write under one CS assertion |
| SpiTest.RampTest | src/SPI_test/SPI_test.c:40-48 | the test program sends the serialised ramp 0…4999 in one framed write |
| SpiTest.RampBytes | src/SPI_test/SPI_test.c:44-47 | for the ramp, byte 2i is i mod 256, byte 2i+1 is i div 256, and together they rebuild i |
| Receiver.HostFrames | receiver/SPI.py:38-47 | the reader's activity has four events per byte pair |
| Receiver.HostFramesAt | receiver/SPI.py:40-47 | for value i the ready pin goes HIGH, byte 2i then byte 2i+1 are read, and the pin goes LOW |
| Receiver.ReadSpiBuffer | receiver/SPI.py:37-51 | one pass builds exactly 32768 values, the pairs of the first 65536 bus bytes recombined in arrival order, with the ready-pin framing around each pair |
| Receiver.ReadSpiCycles | receiver/SPI.py:36-55 | pass c rebuilds the values from the c-th block of 65536 bus bytes |
| Decoder.Signed | receiver/decoder.py:10-11 | the `h` view lies in [−32768, 32767], agrees with the word modulo 2^16, and equals the word exactly when it is below 32768 |
| Decoder.Hex4RoundTrip | receiver/decoder.py:12-13 | the hex view is four lowercase hex digits that read back as the word |
| Decoder.NatToString | receiver/decoder.py:20 | a printed index is at least one decimal digit, and it starts with `0` only when the index is 0, as `str` of an integer does |
| Decoder.NatToStringRoundTrip | receiver/decoder.py:19-20 | a printed index is decimal digits that read back as the index |
| Decoder.IntToStringRoundTrip | receiver/decoder.py:19-20 | a printed number starts with a minus exactly when it is negative, and its digits read back as its magnitude |
| Decoder.Unpack | receiver/decoder.py:9 | unpacking succeeds exactly on even-length data, giving len/2 words; odd length raises `struct.error` |
| Decoder.ReadIsView | receiver/decoder.py:4-13 | a file of serialised samples in a supported format reads as that format's view of the samples |
| Decoder.DecodeSerialized | receiver/decoder.py:8-13 | a file of serialised samples decodes to the samples: unsigned as is, signed agreeing modulo 2^16, hex reading back as the sample |
| Decoder.ReadShape | receiver/decoder.py:8-13 | a supported format succeeds exactly on even length, gives len//2 values, unsigned ones in [0, 65535] and signed ones in [−32768, 32767]; otherwise it raises `struct.error` |
| Decoder.UnsupportedFormat | receiver/decoder.py:4-15 | any other format raises ValueError("Unsupported format"), unless the file is missing, which is reported first |
| Decoder.PrintData | receiver/decoder.py:17-23 | one line per value for the three formats, none for any other |
| Decoder.PrintedLine | receiver/decoder.py:17-23 | line i is the decimal index i, `: `, then `0x` for hex, then the value |
| Decoder.MainOutcome | receiver/decoder.py:25-39 | the exit status is 0 exactly when two arguments are given, the file exists, the format is supported and the length is even, and then one line per value is printed; otherwise it is 1, with the usage text or `Error: Unsupported format` as the case may be |

## Left out

- Pico SDK calls are not modelled as such. Pin directions, pull-ups, interrupt enabling and SPI/I2C/UART set-up become state flags or trace events, or are dropped where nothing depends on them.
- The SDK dispatches all GPIO interrupts of a core through one shared callback. The model gives each pin its own callback, as the code evidently intends.
- Pulse widths and the busy-wait sleeps (`adc_timer.h`, `sleep_ms`) are timing only. A pulse is a single `Prepare` or `TransferSignal` output.
- True preemption of `main` by the callbacks is not modelled. Each callback is one atomic step between steps of `main`.
- Floating-point voltage conversion, `print_buffer`, `printbuf` and the progress messages on the console are left out. The `SPI TTK` timing print in `adc_A.c` is left out too.
- adc_tr.h is not part of this model. Its `send_data_via_spi` configures the SPI slave and then writes the buffer forever, so it never returns. `AdcB` treats the transfer as an abstract step that hands over the buffer and then returns.
- src/adc_B/adc_B.c:115 turns the trigger pin (`gpio`), not the sender pin, back into an input after the pulse. Pin directions are not modelled, so this has no effect on the model.
- src/adc_multi/skeleton.c does not compile as written: `sampel_index` at line 66, and `lableStall` at line 118 against `goto labelStall` at line 170. The model reads the test as being on `sample_index` and the `goto` as returning to the stall label.
- `transfer_buffer` and `clear_buffer` in adc_multi.c and skeleton.c have no body, so what they return is not fixed. Their results are event parameters.
- The receiver's C programs (SPI.c, SPI_isr.c, SPI_wr.c) are not part of this model. They are spidev and file I/O only.
- SPI.py's threads, its `print` of the first 20 values and its `sleep` are left out. Each thread runs the same reader, which `Receiver` models once.
- Receiver.ReadSpiBuffer: requires the modelled bus stream to hold at least 2·32768 bytes. The host is the SPI master, so each `readbytes(1)` clocks in a byte and returns at once; on a silent bus that byte is the idle line level. The stream therefore always has a byte for every read, and one pass consumes 65536 of them.
- Transport.SendDataUart, Transport.SendDataViaI2c, Transport.SendDataViaSpi: require an array of at least 32768 samples. A shorter one would be read past its end in C.
- The decoder's byte order is native in Python. The model fixes it to little-endian, the order the senders use.
- The decoder's file system is a map from names to contents. Only a missing file is modelled as an I/O failure.
- An uncaught exception in the decoder ends with status 1 and a traceback on standard error. The model gives status 1 and no standard output.
- `AdcMulti` and `Skeleton` always record timestamps, as their sources do unconditionally.
