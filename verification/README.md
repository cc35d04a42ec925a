# Verified model of the coht drivers

This project models, in Dafny 4.11, the parts of the coht repository that are protocols and state
machines, and proves what they promise.  `dafny verify dfyconfig.toml` checks everything.

- **XSVF/JTAG player** (`Bits`, `Tap`, `TapWalk`, `Ports`, `LenVal`, `Masking`, `Shifter`, `ShiftTrace`,
  `XsvfFormat`, `XsvfMeaning`, `XsvfPromises`, `XsvfIncrement`, `Xsvf`, `Scans`).  `Tap` is the reference: the
  controller state diagram of section 6.1 of IEEE Std 1149.1-2001 and a device with scan registers, driven by
  rising TCK edges.  The player is imperative and is proved against it: for every power-on state, every device
  and every well-formed stream, the state it tracks is the state of the controller it drives.  `XsvfMeaning` says
  what a stream means, as a function of the stream, the pins and the device's answers: the player does that,
  clock for clock and pause for pause.  `ShiftTrace`, `XsvfPromises` and `XsvfIncrement` say what that comes to,
  command by command: the states the controller passes through, which bits are sent, which are compared with
  which, and when a command succeeds.
- **HPTDC bit-banger** (`Hptdc`, `HptdcChip`), against the same reference.
- **Semaphore** (`ListHead`, `SemSpec`, `CdcmSem`).  Circular lists on heap nodes are sequences; the
  semaphore on such a list is a state machine with one step for each section under the lock; that state
  machine is one signed counter, loses no grant and serves waiters in order of arrival.
- **CTR client queue** (`ClientQueue`, `ClientRead`).  The ring is a bounded drop-oldest queue, and
  `ClientRead` covers every interleaving of one reader, interrupts and timer callbacks.
- **CTR trigger tables** (`TriggerTable`) and the packing of records into hardware words (`Packing`,
  `Records`).
- **Adler-32** (`Adler32`, against section 2.2 of RFC 1950) and the **amplifier packets** (`Amplifier`).

Every lemma carries `{:induction false}`, so each induction is spelled out in its body.
Machine words are naturals with explicit truncation; `Bits` defines their bitwise operations by
recursion on binary digits.  Pins, register reads, TDO levels, scheduling, signals and timeouts are
arbitrary.

## Findings

- *A read can wake with its timer armed and find no entry.*  `ReadTimeout` first clears `Timer` and then
  resets the semaphore (ctr/driver/ctrdrvr-pci.c:536-541).  If `CtrDrvrRead` stores the identity of the
  timer (line 1968) between the two, the reset ends a wait that looks like an event
  (`ClientRead.Overtaken`).
- *So can a read after Timeout was set to zero.*  SET_TIMEOUT (lines 2472-2477) does not wait for a timer that
  is still running, whose callback is not through, or whose expiry a read under way has not noticed yet; its
  reset then ends a wait that nobody takes for timed out (`ClientRead.Lifted`).  These are the only two ways: in every run without such a store and without such a
  change, whatever `Timeout` is, reads find their entries (`ClientRead.NeverStarved`); and a client with a fixed
  `Timeout` is safe in all runs iff it is zero (`ClientRead.StarvationIff`).
- *A timeout can leave a reader asleep on a queue with events*: the reset of an expiring timer discards the
  tokens of events that came before the wait (`ClientRead.Oversleeping`); and if Timeout is set during an
  untimed read, that read gives up its token as if its timer had expired (`ClientRead.Imposed`).  In every run
  with neither, readers sleep on empty queues only (`ClientRead.WakesForEntries`); and a client with a fixed
  `Timeout` is safe in all runs iff it is zero (`ClientRead.OversleepIff`).
- *Slots claimed for equipment number zero still count as free* (`TriggerTable.ClaimedTaken`), so creating a
  PTIM object or connecting to a CTIM event with number zero is where the tables stop being sound; every
  other outcome keeps them so (`TriggerTable.Driver.CreatePtim`, `TriggerTable.Driver.ConnectCtim`).
- *A PTIM object created with Size 0 can never be destroyed*: an object is destroyed iff no client uses it and
  it has at least one slot on the module named (`TriggerTable.Driver.DestroyPtim`).
- *SET_ACTION claims a free slot only if the slot was claimed for number zero before*: the branch for free slots
  (lines 3029-3033) is taken iff the slot has number zero but a class (`TriggerTable.SetActionClaims`).  Sound
  tables have no such slot (`TriggerTable.SetActionKeeps`); a PTIM object created with number zero leaves one
  (`TriggerTable.ClaimedForZero`).
- *Without the parity flag `HptdcCommand` works for exactly one register*
  (`Hptdc.AllShiftedIff`).
- *With XREPEAT 255 a failed shift reports a mismatch instead of exhausted retries*, because the counter
  is a byte: exhausted retries are reported iff 1 to 254 retries were allowed (`Shifter.FailureMeans`).
- *XSDRSIZE accepts some lengths that do not fit the buffers*: the byte count passes through a short, and it is
  refused iff its value modulo 65536 lies above MAX_LEN and below 0x8000 (`Xsvf.Player.DoXSDRSIZE`,
  `XsvfFormat.ShortAbove`).  A count of 0x8000 comes out negative and is accepted.
- *The amplifier's checksum misses some changed bytes* that the exclusive-or it is made from would show
  (`Amplifier.ChecksumMisses`; `Amplifier.MissedByte` gives two commands).
- *Adler-32 does not overflow even if the starting sums are not reduced*: any 16-bit halves are safe
  (`Adler32.NoOverflow`), although the header's comment only considers sums below 65521.

## Model

| member | source | states |
|---|---|---|
| Tap.OnesReset | jtag/micro.c:500-508 | five or more clocks with TMS high reach Test-Logic-Reset from every state of the reference controller |
| Tap.ScanSwaps | jtag/micro.c:710-772 | scanning N bits through an N-bit register swaps contents: the register ends with the bits sent, TDO showed the old ones in order, the other register is untouched, and the controller leaves the shift state on the last clock exactly when told to |
| Tap.CaptureSwaps | jtag/micro.c:710-772 | for a device whose TDO drives the player: the bits sampled are the register's old contents, the register ends with the bits sent, on exactly N clocks |
| TapWalk.TurnFollowsTap | jtag/micro.c:543-690 | every turn of the seek loop records the state the reference controller moves to |
| TapWalk.TurnsDecrease | jtag/micro.c:543-690 | a legal seek gets one turn closer with every turn and never becomes illegal, so it ends within seven |
| TapWalk.SeekReaches | jtag/micro.c:543-690 | the clocks of a seek take the reference controller to the target |
| TapWalk.GotoReaches | jtag/micro.c:492-694 | from the tracked state, or for a reset from any state, the controller arrives where the player says |
| TapWalk.SeekShortest | jtag/micro.c:543-690 | between two stable states no way is shorter than the seek's |
| Ports.SwapTwice | jtag/ports.c:29-38 | the byte swap undoes itself |
| Ports.Port.SetPort | jtag/ports.c:45-69 | drives one pin; each pin's bit and complement bit mirror its level, all other bits stay, the register holds the swapped word, and a rising TCK emits exactly one clock with the current TMS and TDI |
| Ports.Port.PinsShown | jtag/ports.c:12-20 | the register's high byte shows TDI, TMS and TCK in bits 1 to 3 and their opposites in bits 5 to 7 |
| Ports.Port.PulseClock | jtag/ports.c:102-106 | exactly one rising edge whatever the level of TCK |
| Ports.Port.WaitTime | jtag/ports.c:94-97 | a wait of the time given is seen with TCK low, and clocks nothing |
| Ports.Port.ReadTdoBit | jtag/ports.c:82-89 | while TCK is low TDO shows the device's state after all clocks so far |
| LenVals.LenVal.Value | jtag/lenval.c:15-28 | the big-endian value of the bytes |
| LenVals.EqualLenVal | jtag/lenval.c:53-83 | equality of the expected length's worth of bytes under the mask |
| LenVals.AgreeMeans | jtag/lenval.c:53-83 | that is equality of exactly the bits the mask selects |
| LenVals.AddVal | jtag/lenval.c:140-169 | the sum replaces the first operand, bytes past its length stay |
| LenVals.AddedValue | jtag/lenval.c:140-169 | the byte-wise sum is addition modulo 256 to the length |
| Masking.DoSDRMasking | jtag/micro.c:970-1032 | for values of any length, TDI becomes the sum with the address mask, merged with the next data under the data mask |
| Masking.MaskingMeans | jtag/micro.c:970-1032 | each unmasked bit is the sum's, each masked bit is the data bit whose number is its rank among the mask bits, and every rank is below the number of mask bits |
| Masking.CountMaskBits | jtag/micro.c:1351-1362 | the number of ones in the mask, for masks the byte counter can walk |
| Shifter.TapDriver.TmsTransition | jtag/micro.c:472-476 | one clock with the given TMS |
| Shifter.TapDriver.GotoTapState | jtag/micro.c:492-694 | emits exactly the clocks of the seek, tracks its end, keeps TMS low in a shift state, and reports the illegal paths |
| Shifter.TapDriver.ShiftOnly | jtag/micro.c:710-772 | one clock for each of the N bits, least significant first, TMS high on the last one only when exiting, and the capture holds what TDO showed, padded with zeros |
| Shifter.TapDriver.Shift | jtag/micro.c:798-920 | all clocks and waits, attempts, the error code, the final state and the captured bytes of a shift, with the tracked state still that of the reference controller |
| Shifter.TapDriver.ShiftResult | jtag/micro.c:798-920 | all of that is one function of the job, the device, the pins and the buffers at the start |
| Shifter.ConcludesMeans | jtag/micro.c:840-920 | a shift succeeds iff one of its first ucMaxRepeat+1 attempts would match, stops at the first that does, and otherwise has used them all |
| Shifter.FailureMeans | jtag/micro.c:896-920 | a failed shift used all attempts and reports exhausted retries iff 1 to 254 retries were allowed, a mismatch iff 0 or 255 |
| Shifter.ResultMeans | jtag/micro.c:840-920 | that function succeeds iff one of the allowed attempts would match, and otherwise reports exhausted retries iff 1 to 254 were allowed |
| Shifter.HitMeans | jtag/lenval.c:53-83 | an attempt matches iff every bit selected by the mask was read as expected, zeros above the bits shifted |
| Shifter.RunReaches | jtag/micro.c:840-896 | after any number of attempts the reference controller is where the player says |
| ShiftTrace.RetryDetours | jtag/micro.c:853-894 | a missed attempt on the data register that is retried after a wait ends its scan in Exit1-DR; then the controller passes Pause-DR, Exit2-DR, Shift-DR for exactly one clock, Exit1-DR and Update-DR, and waits in Run-Test/Idle a quarter longer than before; TDI keeps the last bit |
| ShiftTrace.FinalVisits | jtag/micro.c:853-894 | the last attempt goes from its scan to the end state asked for, and from there, if there is a wait, to Run-Test/Idle, where it waits as long as the last retry did |
| ShiftTrace.GrowsByQuarter | jtag/micro.c:879-880 | each wait is the one before plus a quarter of it, rounded down |
| ShiftTrace.BitRead | jtag/micro.c:710-772 | just before bit i of an attempt is clocked in, the controller is in the shift state, and what TDO shows then is bit i of the answer; TMS is raised with the last bit exactly if the shift state is left |
| ShiftTrace.StaysPut | jtag/micro.c:853-894 | an attempt that stays in the shift state sends nothing after its scan |
| Scans.PiecesAreOneScan | jtag/micro.c:1406-1424 | XSDRB, any number of XSDRC, then XSDRE drive the same clocks and end in the same state as one XSDRE of all bits |
| Scans.CapturedValue | jtag/lenval.c:15-28 | the value of a capture is the register's old contents with zeros above |
| Scans.RegisterRead | jtag/micro.c:710-772 | for a device that drives TDO and a scan as wide as its data register, bit k of the number captured is bit k of the old contents, zero above, and the register is left with the bits sent |
| Scans.ScannedOnce | jtag/micro.c:798-896 | a shift without wait, comparison or retry is one scan |
| XsvfFormat.ParamsAdvance | jtag/micro.c:1079-1620 | the parameters of a command never reach back, so a stream is played in finitely many commands |
| XsvfFormat.ShortAbove | jtag/micro.c:1247-1255 | a byte count survives the conversion to a short iff it is below 0x8000, comes out above a limit iff its value modulo 65536 lies between the limit and 0x8000, and so a test against the limit catches every longer count iff that holds or the count is below 0x8000 |
| XsvfFormat.TakenIs | jtag/ports.c:74-77 | bytes are read in order, and past the end of the file as 255 |
| XsvfMeaning.MeaningReads | jtag/micro.c:1079-1620 | a command that does not stop the player has read exactly the parameters its format prescribes |
| XsvfMeaning.TurnReads | jtag/micro.c:1662-1688 | a turn that does not stop the player moves on in the stream, to where the rest is well formed |
| XsvfMeaning.PartScans | jtag/micro.c:1406-1424 | XSDRB, XSDRC and XSDRE each mean one plain scan of the bits read, so that pieces join to one scan |
| XsvfPromises.SdrTdoPromise | jtag/micro.c:1268-1286 | XSDRTDO sends the bits of the first value through the data register to the end state set, waits as set, compares every answer with the second value under the TDO mask, stops at the first answer that agrees or when the retries are used up, and keeps the answer and the expected value |
| XsvfPromises.SdrTdoSucceeds | jtag/micro.c:1268-1286 | it succeeds iff in one of the first XREPEAT+1 attempts every bit that the TDO mask selects is read as the second value says, zero being expected above the bits shifted |
| XsvfPromises.MaskedOut | jtag/micro.c:1270-1280 | two streams whose XSDRTDO commands differ only in expected bits outside the mask give the same clocks, error, answer and place in the stream |
| XsvfPromises.SdrPromise | jtag/micro.c:1188-1204 | XSDR does the same with the last expected value, and reads nothing else |
| XsvfPromises.SdrSucceeds | jtag/micro.c:1188-1204 | it succeeds iff in one of the attempts allowed every bit selected is read as the last expected value, of the same length, says |
| XsvfPromises.TdoPartPromise | jtag/micro.c:1437-1456 | XSDRTDOB, XSDRTDOC and XSDRTDOE make one attempt without a wait, to Shift-DR or, for XSDRTDOE, the end state |
| XsvfPromises.TdoPartSucceeds | jtag/micro.c:1437-1456 | they succeed iff every bit is read as the second value says, whatever the mask |
| XsvfPromises.PartPromise | jtag/micro.c:1406-1424 | XSDRB, XSDRC and XSDRE send exactly the bits read, once, without a wait, and change nothing but the pins |
| XsvfPromises.InstructionPromise | jtag/micro.c:1097-1176 | XSIR and XSIR2 send exactly the bits that their one- or two-byte length says through the instruction register, to its own end state, and wait as set |
| XsvfPromises.InstructionTooLong | jtag/micro.c:1142-1176 | a two-byte length above the buffers stops the player |
| XsvfPromises.NoBits | jtag/micro.c:798-834 | a shift without any bits only waits, if it has to, in Run-Test/Idle |
| XsvfPromises.DataNoBits | jtag/micro.c:1188-1456 | so do data register commands at length zero; those that do not wait do nothing |
| XsvfPromises.InstructionNoBits | jtag/micro.c:1097-1176 | and instructions of no bits |
| XsvfPromises.TdoMaskSet | jtag/micro.c:1079-1086 | XTDOMASK sets the front of the mask to the bytes read, and nothing else |
| XsvfPromises.RunTestSet | jtag/micro.c:1213-1219 | XRUNTEST sets the wait to the number that the next four bytes make |
| XsvfPromises.RepeatSet | jtag/micro.c:1228-1234 | XREPEAT sets the number of retries to the next byte |
| XsvfPromises.SizeSet | jtag/micro.c:1243-1257 | XSDRSIZE sets the length if it fits the buffers, and stops the player if it does not but fits a short |
| XsvfPromises.MasksSet | jtag/micro.c:1299-1314 | XSETSDRMASKS sets the address mask and then the data mask |
| XsvfPromises.EndSet | jtag/micro.c:1488-1535 | XENDIR and XENDDR each set their own end state to Run-Test/Idle for 0 and to their own pause state for 1; any other byte stops the player |
| XsvfPromises.StateReached | jtag/micro.c:1466-1477 | XSTATE brings the controller to the state named, except for an Exit2 state that it is not in and whose pause state it is not in: then it stays and the player stops |
| XsvfPromises.WaitVisits | jtag/micro.c:1583-1620 | XWAIT goes to the first state, waits the time given there, and goes to the second |
| XsvfPromises.CommentSkipped | jtag/micro.c:1545-1572 | a comment ends with its first zero byte |
| XsvfPromises.Completed | jtag/micro.c:1066-1070 | XCOMPLETE ends the run successfully |
| XsvfPromises.IllegalStops | jtag/micro.c:1048-1057 | commands 5 and 6 and those from 24 on stop the player |
| XsvfPromises.ResetStarts | jtag/micro.c:1637-1650 | a player starts in step with the controller in reset, from any state, with shifts that end in Run-Test/Idle, no retries, no waits and no bits |
| XsvfPromises.RanStops | jtag/micro.c:1713-1740 | a well-formed stream is played command by command up to the first one that stops the player, and there is one |
| XsvfIncrement.ValueSucceeds | jtag/micro.c:970-1032 | value k+1 of XSDRINC has, under the data mask, the bits of piece k in order, and elsewhere those of value k plus the address mask, modulo 256 to the length |
| XsvfIncrement.RankCounts | jtag/micro.c:1351-1362 | the number of a masked bit is the number of mask bits below it |
| XsvfIncrement.SdrIncPromise | jtag/micro.c:1334-1392 | XSDRINC sends the value read and as many others as the count says, each to the end state, waiting and retrying as set, compares every answer with the last expected value under the TDO mask, and ends with the first shift that fails |
| Xsvf.Input.ReadVal | jtag/lenval.c:178-189 | reads the next bytes of the stream in order, leaving what lies past them in the buffer |
| Xsvf.Player.DoXTDOMASK | jtag/micro.c:1079-1086 | the TDO mask is read at the current length, nothing else changes |
| Xsvf.Player.DoXSIR | jtag/micro.c:1097-1131 | one shift of the bits read through the instruction register, from where the pins were to the end state set, waiting as set |
| Xsvf.Player.DoXSIR2 | jtag/micro.c:1142-1176 | the same with a two-byte length; too long a value is an overflow |
| Xsvf.Player.DoXSDR | jtag/micro.c:1188-1204 | one shift of the bits read from where the pins were, compared with the last expected value under the mask, waiting and retrying as set; the answer is captured |
| Xsvf.Player.DoXRUNTEST | jtag/micro.c:1213-1219 | sets the wait time and nothing else |
| Xsvf.Player.DoXREPEAT | jtag/micro.c:1228-1234 | sets the retry count and nothing else |
| Xsvf.Player.DoXSDRSIZE | jtag/micro.c:1243-1257 | for every length: the bit length, the byte length as a short, an overflow error iff the byte count modulo 65536 is above MAX_LEN and below 0x8000, and a sound player for every count below 0x8000 |
| Xsvf.Player.DoXSDRTDO | jtag/micro.c:1268-1286 | one shift of the first value read, compared with the second under the mask, waiting and retrying as set |
| Xsvf.Player.DoXSETSDRMASKS | jtag/micro.c:1299-1314 | both masks are read at the current length |
| Xsvf.Player.DoXSDRINC | jtag/micro.c:1334-1392 | one shift for the first value and one for each piece of data: shift k sends value k, made from the one before, and compares what the device answers with the expected value under the mask; it stops at the first failure |
| Xsvf.Player.DoXSDRBCE | jtag/micro.c:1406-1424 | one shift that stays in Shift-DR or, for XSDRE, leaves it, without wait or comparison |
| Xsvf.Player.DoXSDRTDOBCE | jtag/micro.c:1437-1456 | the same with an unmasked comparison and no retry |
| Xsvf.Player.DoXSTATE | jtag/micro.c:1466-1477 | emits the seek's clocks, ends in the state named, or reports an illegal path and stays |
| Xsvf.Player.DoXENDXR | jtag/micro.c:1488-1535 | sets one end state and nothing else, or reports an illegal value |
| Xsvf.Player.DoXCOMMENT | jtag/micro.c:1545-1572 | skips to just past the terminating zero |
| Xsvf.Player.DoXWAIT | jtag/micro.c:1583-1620 | the clocks of the seek to the wait state, the wait, then the clocks of the seek to the end state, each seek unless it is already there; illegal paths are ignored |
| Xsvf.Player.Initialize | jtag/micro.c:1637-1650 | from any state of controller and pins, player and controller both are in Test-Logic-Reset, and all settings are reset |
| Xsvf.Player.Dispatch | jtag/micro.c:1662-1688 | every command keeps the player in step with the controller and does what its number means: the clocks, the settings and values it leaves for later commands, the place in the stream and the error code, with all else unchanged |
| Xsvf.Player.Run | jtag/micro.c:1662-1688 | one command is fetched and does what it means; the player moves on in the stream |
| Xsvf.Player.Execute | jtag/micro.c:1713-1740 | for every power-on state, device and well-formed stream the player stops; the clocks it has sent, its settings, its error code and its place in the stream are the function of stream, pins and answers that the stream means; its tracked state is that of a controller driven by its clocks, and TMS is low in a shift state |
| Hptdc.JtagRegister.BitTransfer | ctr/driver/ctrdrvr-pci.c:1127-1145 | one clock, returning the TDO level from before its edge |
| Hptdc.JtagRegister.StateReset | ctr/driver/ctrdrvr-pci.c:1151-1171 | a TRST pulse and one clock, from any levels |
| Hptdc.JtagRegister.Command | ctr/driver/ctrdrvr-pci.c:1177-1260 | all clocks of a command, and in each read-back register exactly the levels sampled, even if it is the written array |
| Hptdc.EvenWithParity | ctr/driver/ctrdrvr-pci.c:1205-1213 | the bit appended makes parity even |
| Hptdc.CommandReaches | ctr/driver/ctrdrvr-pci.c:1195-1254 | with the parity flag a command starts and ends in Run-Test/Idle |
| Hptdc.CommandLoads | ctr/driver/ctrdrvr-pci.c:1195-1254 | a chip of matching widths ends with the command and parity in its instruction register and all fields and parity in its data register |
| Hptdc.ReadBackMeans | ctr/driver/ctrdrvr-pci.c:1222-1247 | the values returned are the fields the chip had captured |
| HptdcChip.CommandMeans | ctr/driver/ctrdrvr-pci.c:1195-1254 | with the parity flag the chip ends in Run-Test/Idle with the four command bits and an even parity bit in its instruction register, and in its data register bit i of value j after the widths of the values before it, and an even parity bit last |
| HptdcChip.ReadMeans | ctr/driver/ctrdrvr-pci.c:1222-1247 | each register read back keeps its bit numbers, and its value is exactly the bits that the chip had captured in its place |
| HptdcChip.SingleMeans | ctr/driver/ctrdrvr-pci.c:1218-1254 | the same without the parity flag, for a single register and a chip of its width |
| Hptdc.AllShiftedIff | ctr/driver/ctrdrvr-pci.c:1232-1254 | all register bits are clocked in Shift-DR and the command ends in Run-Test/Idle iff the parity flag is set or there is one register |
| ListHead.InitListHead | include/list.h:52-54 | an empty list |
| ListHead.ListAdd | include/list.h:80-83 | the node goes in front; links stay mutually inverse |
| ListHead.ListAddTail | include/list.h:93-96 | the node goes at the end |
| ListHead.ListDel | include/list.h:105-120 | exactly one entry goes |
| ListHead.ListDelInit | include/list.h:126-130 | the same, and the entry becomes an empty list |
| ListHead.ListMove | include/list.h:137-141 | the entry leaves one list and is first on the other, or on the same |
| ListHead.ListMoveTail | include/list.h:148-153 | the same, last |
| ListHead.ListEmpty | include/list.h:159-162 | whether there are no entries |
| ListHead.ListSplice | include/list.h:164-187 | a whole disjoint list goes in after the head |
| ListHead.ListSpliceInit | include/list.h:196-202 | the same, and the other head becomes empty |
| ListHead.ListCapacity | include/list_extra.h:38-49 | ends, with the number of entries |
| ListHead.ListIdx | include/list_extra.h:79-89 | the entry with the given index, or the head if there is none |
| SemSpec.NextKeeps | ctr/driver/cdcmSem.c:55-192 | every step keeps "count positive implies nobody waits" and acts on the reported level like on one signed counter; a down succeeds at once, and a trylock succeeds, iff the counter is positive |
| SemSpec.RunKeeps | cdcm/cdcmTime.c:194-474 | the same over every run |
| SemSpec.PlaySound | ctr/driver/cdcmSem.c:163-300 | in every run initial + ups + reset wakes = count + grants + tokens dropped, grants go in order of arrival, and every waiter is in exactly one place: waiting, marked, returned with or without the semaphore |
| SemSpec.ManyMeans | ctr/driver/cdcmSem.c:268-283 | n signals mark the first n waiters and add the rest to the count |
| SemSpec.MarkedReturns | ctr/driver/cdcmSem.c:65-76 | a marked waiter stays marked whatever happens and returns with the semaphore even if its time is up or a signal is pending |
| SemSpec.UnmarkedWaits | ctr/driver/cdcmSem.c:78-84 | a waiter leaves the list only by a mark, or by its own timeout or signal |
| SemSpec.DownMeans | ctr/driver/cdcmSem.c:55-142 | a down takes from a positive count; on an empty one it is aborted iff it is interruptible and a signal is pending, times out iff it has a time limit and no time is left, and otherwise sleeps at the end of the list |
| SemSpec.ResumeMeans | ctr/driver/cdcmSem.c:65-84 | the same for an unmarked waiter that runs again: it sleeps on, or leaves the list from its place |
| SemSpec.ResetMeans | ctr/driver/cdcmSem.c:289-312 | a reset discards a positive count, and otherwise marks everybody who waits |
| CdcmSem.Semaphore.constructor | ctr/driver/cdcmSem.h:63-68 | the given count and an empty wait list |
| CdcmSem.Semaphore.Down | ctr/driver/cdcmSem.c:102-142 | the section up to returning or sleeping refines the down step |
| CdcmSem.Semaphore.Resume | ctr/driver/cdcmSem.c:65-84 | a turn of the wait loop refines the resume step: the mark first, then the signal, then the time; only this record leaves |
| CdcmSem.Semaphore.Trylock | ctr/driver/cdcmSem.c:149-161 | refines the trylock step |
| CdcmSem.Semaphore.UpWaiter | ctr/driver/cdcmSem.c:163-170 | the first record is unlinked and marked |
| CdcmSem.Semaphore.Signal | ctr/driver/cdcmSem.c:254-283 | refines n ups; the records marked are the first of the list |
| CdcmSem.Semaphore.Reset | ctr/driver/cdcmSem.c:289-312 | refines the reset step; the level is then zero |
| CdcmSem.Semaphore.Scount | ctr/driver/cdcmSem.c:320-342 | the level |
| ClientQueue.Queue.Push | ctr/driver/ctrdrvr-pci.c:1817-1828 | the new event is last, the oldest is dropped and counted if the ring was full, and the semaphore is signalled iff it was not |
| ClientQueue.Queue.Pop | ctr/driver/ctrdrvr-pci.c:2003-2012 | returns the oldest surviving event |
| ClientQueue.Queue.Empty | ctr/driver/ctrdrvr-pci.c:1955-1965 | a fresh queue |
| ClientQueue.Queue.GetOverflow | ctr/driver/ctrdrvr-pci.c:2508-2513 | the events missed since the last report |
| ClientQueue.RunKeeps | ctr/driver/ctrdrvr-pci.c:2101-2111 | over every run the queue is a bounded drop-oldest queue holding the most recent events, and events are read in the order they came |
| ClientQueue.Balance | ctr/driver/ctrdrvr-pci.c:1817-1828 | pushed = read + size + missed, modulo 2^16 |
| ClientQueue.ReportedOnce | ctr/driver/ctrdrvr-pci.c:2508-2513 | after a report the next one tells how many events were missed in between, none if nothing happened |
| ClientRead.NextKeeps | ctr/driver/ctrdrvr-pci.c:1941-2016 | every step of reader, interrupt, timer or settings keeps "semaphore count plus the reader's claim is at most the queue size", except storing a timer identity between the two statements of an expiry, and setting Timeout to zero on a running timer or an expiry not yet noticed |
| ClientRead.NeverStarved | ctr/driver/ctrdrvr-pci.c:1967-2015 | in every interleaving without those two, a read that passes its timer check takes the oldest event |
| ClientRead.StarvationIff | ctr/driver/ctrdrvr-pci.c:536-541 | for a client whose Timeout does not change, no interleaving makes a read go without an entry iff Timeout is zero |
| ClientRead.Lifted | ctr/driver/ctrdrvr-pci.c:2472-2477 | a run without such a store, in which Timeout is set to zero between two reads, and the second one goes without an entry |
| ClientRead.WakesForEntries | ctr/driver/ctrdrvr-pci.c:1967-1988 | in every interleaving in which no timer expires and Timeout is not set during an untimed read, a reader sleeps only on an empty queue |
| ClientRead.Oversleeping | ctr/driver/ctrdrvr-pci.c:536-541 | with a timeout there is an interleaving that leaves the reader asleep although events are queued |
| ClientRead.OversleepIff | ctr/driver/ctrdrvr-pci.c:536-541 | for a client whose Timeout does not change, no interleaving leaves the reader asleep on a queue with events iff Timeout is zero |
| ClientRead.Imposed | ctr/driver/ctrdrvr-pci.c:1989-1999 | a run without any expiry in which Timeout is set during a read, and the next read sleeps although an event is queued |
| ClientRead.EmptyMeans | ctr/driver/ctrdrvr-pci.c:1955-1965 | a read starts by emptying queue, missed count and semaphore if queueing is off, and leaves them alone if it is on |
| ClientRead.FlagDecides | ctr/driver/ctrdrvr-pci.c:2485-2491 | which of the two is decided by the last setting of the queue flag |
| ClientRead.TakesAtOnce | ctr/driver/ctrdrvr-pci.c:1967-2012 | a read on a queue with a token takes the oldest event, and cancels its timer |
| ClientRead.TakesWhenWoken | ctr/driver/ctrdrvr-pci.c:1975-2012 | an event that comes while a read waits ends the wait, and the oldest event is taken, even if a signal is pending as well |
| ClientRead.TakesNothing | ctr/driver/ctrdrvr-pci.c:1989-1999 | a read whose timer runs out takes nothing and leaves the queue as it was |
| ClientRead.NoTimer | ctr/driver/ctrdrvr-pci.c:1967-1977 | a read with a timeout for which there is no timer takes nothing and does not wait |
| ClientRead.GivesUp | ctr/driver/ctrdrvr-pci.c:1979-1987 | so does one ended by a signal, which cancels its timer |
| TriggerTable.Driver.ConnectPtim | ctr/driver/ctrdrvr-pci.c:1505-1522 | the client is connected to every slot of the object, all other connections and every slot's number and class are as before; an error iff the object does not exist or has no slots |
| TriggerTable.Driver.ConnectCtim | ctr/driver/ctrdrvr-pci.c:1526-1599 | the same for the event's slot, which is made for this client alone from the first free one when needed; the tables stay sound unless a slot is made for number zero |
| TriggerTable.Driver.ConnectHard | ctr/driver/ctrdrvr-pci.c:1603-1612 | the client is connected to exactly the sources asked for in addition, all other connections are as before |
| TriggerTable.JoinMaskBit | ctr/driver/ctrdrvr-pci.c:1499-1516 | connecting sets exactly the client's bit |
| TriggerTable.LeaveMaskBit | ctr/driver/ctrdrvr-pci.c:1639-1645 | disconnecting clears exactly the client's bit |
| TriggerTable.LeaveMeans | ctr/driver/ctrdrvr-pci.c:1643-1671 | a client that leaves a slot takes no other with it, and the slot is given back iff it was a CTIM slot with this client only |
| TriggerTable.LeaveOne | ctr/driver/ctrdrvr-pci.c:1643-1671 | the client leaves one slot; a CTIM slot is given back with its last client |
| TriggerTable.Driver.DisconnectObject | ctr/driver/ctrdrvr-pci.c:1698-1701 | the client loses its connections to the object's slots on the module and no other is lost; a CTIM slot is given back iff this was its only client |
| TriggerTable.Driver.DisconnectHard | ctr/driver/ctrdrvr-pci.c:1673-1680 | the client leaves every source of the module, the others stay |
| TriggerTable.Driver.DisconnectAll | ctr/driver/ctrdrvr-pci.c:1712-1727 | the client leaves every slot and source of every module, and nobody else gains a connection |
| TriggerTable.AbsentStays | ctr/driver/ctrdrvr-pci.c:1480-1830 | over every run of actions by other clients a client connected to nothing stays so, and no interrupt of any source reaches it |
| TriggerTable.DetachedUnreached | ctr/driver/ctrdrvr-pci.c:1755-1830 | then no interrupt reaches it, and every other client is reached exactly as before |
| TriggerTable.ReceiversAre | ctr/driver/ctrdrvr-pci.c:1755-1812 | an interrupt goes to everyone connected to its object or its source |
| TriggerTable.ConnectedReached | ctr/driver/ctrdrvr-pci.c:1505-1522 | after connecting to an object its interrupts reach the client, and all else is reached as before |
| TriggerTable.MadeReached | ctr/driver/ctrdrvr-pci.c:1526-1599 | the same for an event whose slot has just been made |
| TriggerTable.SourcesReached | ctr/driver/ctrdrvr-pci.c:1603-1612 | the same for hardware sources |
| TriggerTable.DisconnectedReached | ctr/driver/ctrdrvr-pci.c:1698-1701 | after disconnecting from an object its interrupts reach the client only through their source, and all else is reached as before |
| TriggerTable.ClientsOccupy | ctr/driver/ctrdrvr-pci.c:1480-1727 | a slot with a client is occupied, by CTIM or PTIM |
| TriggerTable.FirstFit | ctr/driver/ctrdrvr-pci.c:3146-3157 | the lowest run of enough free slots, or none iff there is no such run |
| TriggerTable.Driver.CreatePtim | ctr/driver/ctrdrvr-pci.c:3128-3172 | first fit: the object owns exactly its run, no occupied slot is touched, each error has its exact condition, and the tables stay sound unless the number is zero |
| TriggerTable.Driver.DestroyPtim | ctr/driver/ctrdrvr-pci.c:3187-3239 | succeeds iff no client uses the object and it has slots on the module, and then gives back all its slots and its binding; a used one is busy; an object of no slots is refused |
| TriggerTable.OwnsExactly | ctr/driver/ctrdrvr-pci.c:3128-3239 | in every sound driver state a PTIM object owns exactly the slots of its range |
| TriggerTable.RangesDisjoint | ctr/driver/ctrdrvr-pci.c:3128-3239 | and the ranges of two objects are disjoint |
| TriggerTable.SetActionKeeps | ctr/driver/ctrdrvr-pci.c:3000-3033 | in sound tables an action never changes a slot's owner and is accepted iff it comes from it |
| TriggerTable.SetActionClaims | ctr/driver/ctrdrvr-pci.c:3000-3033 | an action changes a slot iff the slot has number zero but a class, and differs from what is asked for |
| TriggerTable.ClaimedForZero | ctr/driver/ctrdrvr-pci.c:3159-3164 | a PTIM object created with number zero after installation leaves such a slot, and an action for another number takes it |
| TriggerTable.ClaimedTaken | ctr/driver/ctrdrvr-pci.c:3159-3164 | claimed slots count as free iff the equipment number is zero |
| Packing.AutoShiftLeft | ctr/driver/ctrdrvr-pci.c:1351-1360 | the value moved up by the mask's trailing zeros, masked; zero without a mask |
| Packing.AutoShiftRight | ctr/driver/ctrdrvr-pci.c:1366-1375 | the masked value moved down by the mask's trailing zeros, although the mask is shifted as a signed int; zero without a mask |
| Packing.FieldRoundTrip | ctr/driver/ctrdrvr-pci.c:1385-1459 | a field read from a packed word is the value's low bits, so the value itself iff it was in range, for any fields that do not overlap |
| Packing.WordRoundTrip | ctr/driver/ctrdrvr-pci.c:1385-1459 | packing what was read from a word gives back the word |
| Packing.FieldUnder | ctr/driver/ctrdrvr-pci.c:1385-1459 | under each field's mask the word has the bits of the value, moved to the mask's lowest bit |
| Records.TriggerMasks | ctr/driver/ctrhard.h:546-550 | the masks of the header are those of the fields |
| Records.ConfigMasks | ctr/driver/ctrhard.h:202-206 | the same for counter configurations |
| Records.TriggerShows | ctr/driver/ctrdrvr-pci.c:1385-1399 | under the masks for condition, machine, counter, group number and group value the word has the low bits of just these fields |
| Records.ConfigShows | ctr/driver/ctrdrvr-pci.c:1425-1439 | the same for on-zero, start, mode, clock and pulse width |
| Records.TriggerToHard | ctr/driver/ctrdrvr-pci.c:1385-1399 | the frame, and under each mask of the header the low bits of its own field |
| Records.HardToTrigger | ctr/driver/ctrdrvr-pci.c:1405-1419 | the frame, and each field is read from under its own mask |
| Records.ConfigToHard | ctr/driver/ctrdrvr-pci.c:1425-1439 | the delay, and under each mask of the header the low bits of its own field |
| Records.HardToConfig | ctr/driver/ctrdrvr-pci.c:1445-1459 | the delay, and each field is read from under its own mask |
| Records.TriggerThroughHardware | ctr/driver/ctrdrvr-pci.c:2985-3038 | a trigger set and got back is the same iff all its fields are in range |
| Records.ConfigThroughHardware | ctr/driver/ctrdrvr-pci.c:2985-3050 | the same for a counter configuration |
| Records.RoundTrip | ctr/driver/ctrdrvr-pci.c:1385-1459 | unpack after pack is the identity iff all fields are in range, pack after unpack always |
| Adler32.Adler | include/adler32.h:62-89 | the checksum with reduction at every byte, for every buffer and starting value; one without a buffer |
| Adler32.NoOverflow | include/adler32.h:38-40 | within a chunk no sum exceeds 32 bits |
| Adler32.RawReduces | include/adler32.h:73-87 | reduction can be put off to the end |
| Adler32.Incremental | include/adler32.h:48-61 | updating over two buffers is updating over both together |
| Adler32.ClosedForm | include/adler32.h:62-89 | the low half is the sum of the bytes, the high half the sum of the bytes weighted by their distance from the end, each with its starting value, modulo 65521 |
| Amplifier.IsSpecial | acdx/lib/libamp.c:362-368 | whether a character must be escaped |
| Amplifier.Link.EscapeOBuf | acdx/lib/libamp.c:372-400 | the frame is replaced by its escaped form; a buffer without delimiters is left alone |
| Amplifier.Link.UnEscapeIBuf | acdx/lib/libamp.c:404-432 | the frame is replaced by its unescaped form |
| Amplifier.FrameRoundTrip | acdx/lib/libamp.c:372-432 | unescaping after escaping is the identity on every delimited frame |
| Amplifier.EscapeClean | acdx/lib/libamp.c:383-392 | no delimiter or brace appears between the delimiters |
| Amplifier.CodesAre | acdx/lib/libamp.c:362-392 | on the line 02, 03, 1B, 7B and 7D are 1B 42, 1B 43, 1B 5B, 1B BB and 1B BD, any other character is itself |
| Amplifier.EscapeAt | acdx/lib/libamp.c:372-400 | the code of a character stands at its position plus the number of escaped characters before it |
| Amplifier.GetBufSize | acdx/lib/libamp.c:437-449 | the position past the last ETX that only zeros follow, or the size given |
| Amplifier.SizeFound | acdx/lib/libamp.c:437-449 | the exact length of a frame is recovered |
| Amplifier.SizeElse | acdx/lib/libamp.c:437-449 | a buffer that does not start with STX or in which zeros follow no ETX is taken whole |
| Amplifier.CalcCheckSum | acdx/lib/libamp.c:453-478 | the adjusted exclusive-or of the covered bytes, never 0, STX or ETX |
| Amplifier.XorParity | acdx/lib/libamp.c:457-473 | a bit of the sum is set iff it is set in an odd number of the bytes covered |
| Amplifier.XorDetects | acdx/lib/libamp.c:457-473 | changing one byte changes the exclusive-or the checksum is made from |
| Amplifier.ChecksumMisses | acdx/lib/libamp.c:453-478 | changing one byte leaves the checksum as it was iff the sums before and after are 0 and 0x0A, 2 and 0x0C, or 3 and 0x0D |
| Amplifier.MissedByte | acdx/lib/libamp.c:453-478 | two commands that differ in one payload byte and have the same checksum |
| Amplifier.Link.Serialize | acdx/lib/libamp.c:482-500 | the packet followed by zeros |
| Amplifier.FrameLayout | acdx/lib/libamp.c:482-500 | the place of every field in a frame; a command's checksum covers all that is before it, a reply's also the module number |
| Amplifier.Link.Send | acdx/lib/libamp.c:516-531 | what goes out is the escaped frame of the packet with its checksum |
| Amplifier.Link.Receive | acdx/lib/libamp.c:567-569 | a frame that arrives whole is recovered exactly |

## Left out

- Kernel and bus calls, device files, debug printing and option parsing: foreign, or without a property of their own.
- XSVF streams that are not well formed: state bytes above 15 (the seek loop never ends), comments without an end, masks read at another length than the current one or longer than 255 bytes before XSDRINC, and lengths that do not fit a short.
- Xsvf.Player.Execute: the player's buffers start with valid lengths; the code never sets the length of the expected value before the first XSDRTDO, so what an XSDR before that compares is not modelled.
- Xsvf.Player.DoXSDRSIZE: bit lengths are unbounded, so a value that would be negative in a 32-bit long is not modelled.
- Xsvf.Player.DoXRUNTEST: times are unbounded, so a value that would be negative in a 32-bit long is not modelled.
- Shifter.TapDriver.Shift: the wait between retries grows without bound here, where a long would wrap.
- XsvfPromises.SdrSucceeds: only for a last expected value of the current length; for another one `XsvfPromises.SdrPromise` says what is compared, which may include what an older, longer capture left behind.
- XsvfPromises.WaitVisits: Exit2 states, which a seek may refuse, are covered by `Xsvf.Player.DoXWAIT` only.
- XsvfPromises.SizeSet: counts that do not fit the short are left to `Xsvf.Player.DoXSDRSIZE` and `XsvfFormat.ShortAbove`.
- Masking.DoSDRMasking: byte buffers of the player are sequences in a field, since the 7000-byte arrays never alias.
- CdcmSem.Semaphore.Signal: the count is unbounded; wrap-around of the 32-bit count is not modelled.
- get_sema, swait and tswait: the lookup of a semaphore by address and the mapping of results to return codes only add easy members.
- ClientRead.NextKeeps: one reader for each client; opening and closing a client, and select, are not steps.
- TriggerTable.Driver.ConnectCtim: the list of CTIM definitions is reduced to the frame header found for the event.
- TriggerTable.Driver.DisconnectAll: interrupt enable masks and hardware configuration words are not part of the tables here; only modules below Modules exist.
- TriggerTable.Driver.CreatePtim: the tables of a module are sequences of slots rather than parallel arrays, so update in place is not modelled.
- CtrDrvrWrite beyond its queue code, LUN assignment and module installation.
- Amplifier.Link.EscapeOBuf: the escaped frame must fit the output buffer, which the code does not test.
- Amplifier.Link.Serialize: the packet must fit the output buffer, which the code does not test.
- Amplifier.Link.Send: the packet and its escaped frame must fit the output buffer, which the code does not test.
- Packing.FieldRoundTrip: masks are runs of bits, as all masks of the header are.
- PLX EEPROM access, the acdx waveform code, kernel threads and real time.
