# Verified model of the STM32N6570-DK board drivers

The board support package of the STM32N6570-DK discovery board drives its buses, display, flash, audio
and USB-C power through the vendor's hardware layer, on a core whose data cache is maintained by CMSIS.
This project models the parts of it that hold an algorithm or a protocol and proves what they promise.
Drivers that change state are classes and methods over the same fields, arrays and loops; what they are
proved against, and what is proved over whole runs, are functions, relations and lemmas.  Every hardware
or component call may succeed or fail freely, on a small model of the device behind it;
a flag `reliable` marks the hardware on which none does.

| files | what they model |
|---|---|
| `i2c_bus`, `i2c_timing_*` | I2C timing synthesis: a two-pass search over a static table that outlives the calls |
| `dcache*`, `scb` | L1 data cache maintenance by set/way and by address, over a write-back cache |
| `xspi_nor`, `xspi_cursor` | the octal NOR flash: page-splitting write, erase, protocol switching |
| `audio_spec`, `audio_share` | playback and record sharing one SAI clock and one codec |
| `mic_capture` | microphone capture: DMA ping-pong and saturating conversion |
| `lcd_colour`, `lcd_draw`, `lcd_bitmap` | framebuffer fills, bitmaps and single pixels |
| `usbpd_pwr` | USB-PD power gates and over-current recovery |
| `bit_reverse` | the software path of `__RBIT` |
| `words`, `arithmetic` | machine words, and nonlinear facts used by the others |

## Where the code and its documentation disagree

The model follows the code.  Each point below is a lemma with the exact condition, or a concrete input.

- I2C: a negative upper bound on SDADEL is clamped to 0, so SDADEL = 0 is accepted although the formula in
  the comment excludes it (`DataValidBoundExactly`, `LateDataExample`).
- I2C: the comment admits a low time equal to its limit and the code does not (`LowLimitExactly`,
  `LowLimitExample`).
- I2C: table entries left by a request for another speed or clock are used again (`WordMeetsBandExactly`,
  `StaleEntryExample`); the table is never emptied, and a request needs a free slot on entry, which eight
  requests can use up (`EightRequestsFit`, `EightRequestsFill`, `FullTableExactly`).
- I2C: the 32-bit arithmetic is exact from 1909 Hz up and wraps below (`NothingWrapsExactly`,
  `SlowWordExactly`, `SlowClockExample`).
- NOR write: with a range that runs into the last page of the 32-bit address space the loop never ends, and
  a range that passes 2^32 is cut short (`XspiCursor.StopsExactly`, `XspiCursor.Stops`, `RunawayExample`,
  `TruncatedExample`).  No range of the chip does either (`XspiCursor.InsideChip`).
- NOR configuration: a rate change inside OPI always fails and leaves record and chip at odds
  (`Nor.ConfigFlash`, `RefusedRateChange`), and a second initialisation after a failed one succeeds without
  doing anything (`InitMeansModeExactly`, `InitAfterFailure`).
- Cache: cleaning or disabling by set/way before the first enable publishes the dirty lines a cache may hold
  out of reset (`DisabledCleanExactly`, `ResetCacheExample`); from reset, every run that enables first sees a
  flat memory (`CpuSeesFlatMemory`).
- Cache by address: the signed byte counter can overflow for sizes within 31 of the largest, without effect
  (`Scb.CounterStep`, `Scb.Core.ByAddr`).
- Audio: a rate setter that fails in the hardware leaves the new rate in the SAI handle, and the clock set for
  its family; the rate on record is then no longer the rate generated, at once when the family differs
  (`FailedRateExactly`), or after the next setter that succeeds (`JoinAtStaleRate`).  Over runs the exact
  condition is `ClockFollowsRecord`.  De-initialising playback takes the clock from a record that goes on
  (`LeavingStopsRecord`).
- LCD: drawing reports success when DMA2D failed and nothing was drawn (`Lcd.FillRect`, `Lcd.DrawBitmap`).
- LCD: RGB888 pixel writes land three bytes early (`PixelAgreesExactly`, `FillAgreesExactly`).
- USB-PD: a fault recovery that is due is skipped when the tick wrapped since the last fault
  (`RecoversExactly`, `SkippedRecovery`), and the unchecked writes of a recovering source can close both gates
  (`RecoverySafeExactly`).

## Model

| member | source | states |
|---|---|---|
| I2cBus.TimingTable.Append | Drivers/BSP/STM32N6570-DK/stm32n6570_discovery_bus.c:1150-1154 | writes the three delay fields of the next slot, which on a full table is the memory behind it; the entries before it are untouched |
| I2cBus.TimingTable.ComputePrescSclDelSdaDel | Drivers/BSP/STM32N6570-DK/stm32n6570_discovery_bus.c:1089-1166 | the first pass, as three nested loops over the static table, appends exactly the entries of `I2cTimingSpec.Candidates` as far as they fit, touches no older entry, and on a full table writes the first of them behind the end |
| I2cBus.TimingTable.TryDelays | Drivers/BSP/STM32N6570-DK/stm32n6570_discovery_bus.c:1134-1164 | the SCLDEL loop adds at most one entry for a prescaler, with the least admissible SCLDEL and the least admissible SDADEL |
| I2cBus.TimingTable.TrySdaDel | Drivers/BSP/STM32N6570-DK/stm32n6570_discovery_bus.c:1139-1162 | the SDADEL loop for one SCLDEL: the first admissible SDADEL is recorded unless the prescaler has its entry already |
| I2cBus.TimingTable.ComputeSclLSclH | Drivers/BSP/STM32N6570-DK/stm32n6570_discovery_bus.c:1174-1247 | the second pass returns the index of the search outcome and leaves the winning SCLL and SCLH in the table |
| I2cBus.TimingTable.TryPairs | Drivers/BSP/STM32N6570-DK/stm32n6570_discovery_bus.c:1203-1243 | all 65536 pairs of one entry, in search order |
| I2cBus.TimingTable.TryHighPeriods | Drivers/BSP/STM32N6570-DK/stm32n6570_discovery_bus.c:1215-1241 | the SCLH loop for one SCLL |
| I2cBus.TimingTable.GetTimingWord | Drivers/BSP/STM32N6570-DK/stm32n6570_discovery_bus.c:1051-1081 | the word and the table after one request are those of `I2cTimingSpec.GetTiming` |
| I2cTimingSpec.LeastSclDel | Drivers/BSP/STM32N6570-DK/stm32n6570_discovery_bus.c:1134-1139 | the least SCLDEL that gives the data setup time, or 16 when none does |
| I2cTimingSpec.LeastSdaDel | Drivers/BSP/STM32N6570-DK/stm32n6570_discovery_bus.c:1141-1162 | the least SDADEL inside the data hold window, or 16 when none is |
| I2cTimingLemmas.BestPairIsFirstMinimum | Drivers/BSP/STM32N6570-DK/stm32n6570_discovery_bus.c:1205-1243 | for one entry the kept pair is feasible, has the least error of all feasible pairs and is the first with that error; none is kept exactly when none beats the bound |
| I2cTimingLemmas.FeasibleErrorBelowTarget | Drivers/BSP/STM32N6570-DK/stm32n6570_discovery_bus.c:1195-1239 | any feasible period is nearer to the target than the initial error bound, so the bound hides nothing |
| I2cTimingLemmas.ScanFindsFirstBest | Drivers/BSP/STM32N6570-DK/stm32n6570_discovery_bus.c:1174-1247 | 0xFFFFFFFF is returned exactly when no entry has a feasible pair; otherwise the index and pair have the least error over all entries and all pairs, first in search order on ties |
| I2cTimingBand.CandidatesExact | Drivers/BSP/STM32N6570-DK/stm32n6570_discovery_bus.c:1089-1166 | one entry, in increasing order, for exactly the prescalers that admit some SCLDEL and SDADEL, each with the least of both |
| I2cTimingBand.NothingWrapsExactly | Drivers/BSP/STM32N6570-DK/stm32n6570_discovery_bus.c:1174-1247 | no sum or product of the search reaches 2^32 if and only if the source clock is at least 1909 Hz |
| I2cTimingBand.MeetsBandExact | Drivers/BSP/STM32N6570-DK/stm32n6570_discovery_bus.c:1089-1247 | from 1909 Hz up, the machine's tests accept a timing exactly when it meets the limits, written out in exact arithmetic: SCLDEL and SDADEL windows with the filter delays, low and high time, and the bus period within the band; the machine's error is the exact deviation |
| I2cTimingBand.SdaDelOkExactly | Drivers/BSP/STM32N6570-DK/stm32n6570_discovery_bus.c:1107-1145 | from 1909 Hz up, the SDADEL test is: the delay plus 50 ns filter and DNF + 3 clocks reaches tf + tHD;DAT(min), and, unless SDADEL is 0, the delay plus 260 ns filter, DNF + 4 clocks and tr keeps within tVD;DAT(max) |
| I2cTimingBand.SclDelOkExactly | Drivers/BSP/STM32N6570-DK/stm32n6570_discovery_bus.c:1113-1137 | and the SCLDEL test is: the delay reaches tr + tSU;DAT(min) |
| I2cTimingBand.NearestPeriod | Drivers/BSP/STM32N6570-DK/stm32n6570_discovery_bus.c:1101 | the clock period is a nearest whole number of ns |
| I2cTimingBand.PeriodLimits | Drivers/BSP/STM32N6570-DK/stm32n6570_discovery_bus.c:1186-1195 | the target period is that of the nominal frequency; a period passes the limits exactly when its frequency lies within four and six fifths of it |
| I2cTimingBand.PackUnpack | Drivers/BSP/STM32N6570-DK/stm32n6570_discovery_bus.c:1067-1074 | the word unpacks field by field to the table entry |
| I2cTimingBand.FeasibleWordNotZero | Drivers/BSP/STM32N6570-DK/stm32n6570_discovery_bus.c:1208-1213 | PRESC = SCLL = 0 is never feasible, so a feasible timing never packs to the word 0 |
| I2cTimingRuns.RequestCorrect | Drivers/BSP/STM32N6570-DK/stm32n6570_discovery_bus.c:1089-1247 | on an empty table, or any table whose oldest entry of each prescaler suits the band: the word is 0 exactly when no timing meets the band, and otherwise meets it with the least deviation of all timings that do |
| I2cTimingRuns.RequestedBand | Drivers/BSP/STM32N6570-DK/stm32n6570_discovery_bus.c:1059-1077 | bands do not overlap, so a frequency selects one band or none |
| I2cTimingRuns.GetTimingCorrect | Drivers/BSP/STM32N6570-DK/stm32n6570_discovery_bus.c:1051-1247 | the same end to end: the word is 0 exactly for a zero argument, a frequency in no band or a band no timing meets; otherwise it is a best timing for the band |
| I2cTimingRuns.WinnerIsOldest | Drivers/BSP/STM32N6570-DK/stm32n6570_discovery_bus.c:1200-1244 | the winning entry is the oldest of its prescaler, because ties keep the oldest |
| I2cTimingRuns.ScanIgnoresRepeat | Drivers/BSP/STM32N6570-DK/stm32n6570_discovery_bus.c:1200-1244 | an entry that repeats an earlier prescaler changes nothing, because ties keep the oldest entry |
| I2cTimingRuns.RequestRepeats | Drivers/BSP/STM32N6570-DK/stm32n6570_discovery_bus.c:1089-1247 | a request on a table built for the same band and clock gives the word of a first request |
| I2cTimingRuns.AskingAgain | Drivers/BSP/STM32N6570-DK/stm32n6570_discovery_bus.c:1051-1247 | over every run of one request, while slots are left, every answer is the first answer, however many duplicates the table collects |
| I2cTimingRuns.EightRequestsFit | Drivers/BSP/STM32N6570-DK/stm32n6570_discovery_bus.c:1089-1166 | the first eight requests find a free slot whatever they ask for |
| I2cTimingLimits.DataValidBoundExactly | Drivers/BSP/STM32N6570-DK/stm32n6570_discovery_bus.c:1107-1130 | the code clamps a negative upper bound on SDADEL to 0; an entry keeps the bound in the comment if and only if that bound is not negative, both written out in the formula's terms |
| I2cTimingLimits.LateDataExample | Drivers/BSP/STM32N6570-DK/stm32n6570_discovery_bus.c:1107-1130 | a clock for which a word is returned although the bound in the comment is negative |
| I2cTimingLimits.DelaysOfOldestEntry | Drivers/BSP/STM32N6570-DK/stm32n6570_discovery_bus.c:1174-1247 | the delays in a word are those of the oldest entry of the winning prescaler, for whatever clock and speed it was made |
| I2cTimingLimits.WordForWinner | Drivers/BSP/STM32N6570-DK/stm32n6570_discovery_bus.c:1174-1247 | whoever filled the table, for every clock a word comes back if and only if some entry wins, where winning is told from the table's prescalers and the clock alone |
| I2cTimingLimits.WordMeetsBandExactly | Drivers/BSP/STM32N6570-DK/stm32n6570_discovery_bus.c:1051-1247 | that word meets its band if and only if the winning entry is new or its old delays suit the band and clock now asked for |
| I2cTimingLimits.StaleEntryExample | Drivers/BSP/STM32N6570-DK/stm32n6570_discovery_bus.c:1051-1247 | at 16 MHz a 100 kHz request after a 400 kHz one returns SCLDEL 5, which misses the standard-mode setup time |
| I2cTimingLimits.FreshStandardExample | Drivers/BSP/STM32N6570-DK/stm32n6570_discovery_bus.c:1051-1247 | the same request on an empty table returns a best timing for the band |
| I2cTimingLimits.WordForFeasible | Drivers/BSP/STM32N6570-DK/stm32n6570_discovery_bus.c:1089-1247 | for every source clock, a first request returns a non-zero word if and only if some timing passes the machine's own tests |
| I2cTimingLimits.SlowWordExactly | Drivers/BSP/STM32N6570-DK/stm32n6570_discovery_bus.c:1089-1247 | below 1909 Hz a first request returns a wrong word if and only if some timing passes those tests |
| I2cTimingLimits.SlowClockExample | Drivers/BSP/STM32N6570-DK/stm32n6570_discovery_bus.c:1174-1247 | below 1909 Hz the wrapped period can look right: at 159 Hz a word is returned although no timing meets the band |
| I2cTimingLimits.NoSlowTiming | Drivers/BSP/STM32N6570-DK/stm32n6570_discovery_bus.c:1174-1247 | below 1909 Hz no timing meets any band, so any word but 0 is wrong there |
| I2cTimingLimits.LowLimitExactly | Drivers/BSP/STM32N6570-DK/stm32n6570_discovery_bus.c:1207-1213 | the code refuses a timing that the comment's SCL low limit admits if and only if its low time equals the limit |
| I2cTimingLimits.LowLimitExample | Drivers/BSP/STM32N6570-DK/stm32n6570_discovery_bus.c:1207-1213 | a 20 MHz standard-mode timing with a low time of exactly 4700 ns, which is refused |
| I2cTimingLimits.EightRequestsFill | Drivers/BSP/STM32N6570-DK/stm32n6570_discovery_bus.c:1150-1158 | the bound of eight is tight: eight standard-mode requests at 16 MHz fill the table |
| I2cTimingLimits.FullTableExactly | Drivers/BSP/STM32N6570-DK/stm32n6570_discovery_bus.c:1132-1165 | a request on a full table writes behind its end if and only if some prescaler admits delays for it |
| I2cTimingLimits.NinthOverruns | Drivers/BSP/STM32N6570-DK/stm32n6570_discovery_bus.c:1150-1158 | the ninth of those requests does |
| BitReverse.Rbit | Drivers/CMSIS/Include/cmsis_gcc.h:373-394 | the early-exit loop and the final shift give the plain 32-step reversal, for every word |
| BitReverse.MirrorsEveryBit | Drivers/CMSIS/Include/cmsis_gcc.h:373-394 | bit i of the result is bit 31 - i of the input |
| BitReverse.ReversalUndoesItself | Drivers/CMSIS/Include/cmsis_gcc.h:373-394 | reversing twice gives the word back |
| DCache.SweepOnce | Drivers/CMSIS/Include/cachel1_armv7.h:156-166 | the set/way loops visit every (set, way) pair exactly once |
| DCache.ApplyKeepsView | Drivers/CMSIS/Include/cachel1_armv7.h:298-307 | cleaning one slot, with or without invalidating it, leaves what the CPU sees unchanged |
| DCache.ApplyEachDone | Drivers/CMSIS/Include/cachel1_armv7.h:249-347 | after the loops every visited slot is clean or gone, and nothing was filled |
| DCache.AllDone | Drivers/CMSIS/Include/cachel1_armv7.h:249-347 | after a whole-cache operation no dirty line is left (clean), or no line at all (invalidate) |
| DCache.EnableFromReset | Drivers/CMSIS/Include/cachel1_armv7.h:141-174 | enabling from any disabled state, whatever the cache held, shows exactly memory |
| DCache.EnableKeepsView | Drivers/CMSIS/Include/cachel1_armv7.h:141-174 | enabling an enabled or a clean cache leaves what the CPU sees unchanged |
| DCache.DisableKeepsView | Drivers/CMSIS/Include/cachel1_armv7.h:181-242 | disabling writes everything the CPU saw back to memory and leaves nothing in the cache |
| DCache.CleanPublishes | Drivers/CMSIS/Include/cachel1_armv7.h:284-347 | after a whole-cache clean, memory equals the CPU's view everywhere and the view is unchanged |
| DCache.CleanKeepsLines | Drivers/CMSIS/Include/cachel1_armv7.h:284-312 | and every line stays cached in its slot, only its dirty mark goes |
| DCache.DisabledCleanExactly | Drivers/CMSIS/Include/cachel1_armv7.h:284-347 | cleaning a disabled cache, whatever it holds, leaves what the CPU sees unchanged if and only if each dirty line, taken from the lowest way that holds it, equals memory |
| DCache.SweepOrdered | Drivers/CMSIS/Include/cachel1_armv7.h:156-166 | the sweep goes down the sets and down the ways of each, so of several dirty slots for one line the lowest way is written last |
| DCache.ResetCacheExample | Drivers/CMSIS/Include/cachel1_armv7.h:181-347 | a cache out of reset for which a clean or a disable changes what the CPU sees |
| DCache.InvalidateShowsMemory | Drivers/CMSIS/Include/cachel1_armv7.h:249-277 | after a whole-cache invalidate of a coherent or a disabled cache the CPU sees memory, which keeps its view if and only if memory already equalled it |
| DCacheRanges.LinesExactlyOnce | Drivers/CMSIS/Include/cachel1_armv7.h:358-437 | a loop by address issues one operation for each line that overlaps the range, and none for any other line |
| DCacheRanges.CleanRange | Drivers/CMSIS/Include/cachel1_armv7.h:388-437 | cleaning by address keeps the view and makes memory equal it on every line of the range |
| DCacheRanges.LinesSlots | Drivers/CMSIS/Include/cachel1_armv7.h:388-437 | a clean by address takes only the dirty marks of the lines of the range and a clean-invalidate drops exactly those lines; no other line of memory is written |
| DCacheRanges.InvalidateShowsDevice | Drivers/CMSIS/Include/cachel1_armv7.h:358-377 | after a device wrote lines of the range, invalidating by address shows the device's data there and leaves every other line of the view as it was |
| DCacheRanges.AlignedRange | Drivers/CMSIS/Include/cachel1_armv7.h:358-377 | a line that overlaps a line-aligned range lies inside it, so no byte outside the range shares its line |
| DCacheRuns.StepRefines | Drivers/CMSIS/Include/cachel1_armv7.h:141-437 | on a usable cache every CPU access, line fill, eviction and maintenance call does to the CPU's view what it does to a flat memory |
| DCacheRuns.ResetStep | Drivers/CMSIS/Include/cachel1_armv7.h:141-174 | out of reset, whatever the cache holds, every step that writes nothing back does the same, and an enable makes the cache usable |
| DCacheRuns.CpuSeesFlatMemory | Drivers/CMSIS/Include/cachel1_armv7.h:141-437 | over every run, from a usable cache or out of reset with each write-back after some enable, the CPU sees exactly a flat memory, with the same values loaded |
| DCacheRuns.CleanPublishesInRun | Drivers/CMSIS/Include/cachel1_armv7.h:181-347 | over every such run, a whole-cache clean or a disable leaves memory equal to the CPU's view |
| DCacheRuns.CleanBeforeEnable | Drivers/CMSIS/Include/cachel1_armv7.h:181-347 | the order matters: a reset state at which a clean or a disable before the first enable is no step of a flat memory |
| DCacheDma.Prepared | Drivers/CMSIS/Include/cachel1_armv7.h:358-437 | maintaining a buffer by address leaves no dirty copy of it; a clean keeps all the CPU had written |
| DCacheDma.DmaStepRefines | Drivers/CMSIS/Include/cachel1_armv7.h:358-437 | while a device writes the buffer, every CPU access elsewhere, fill, eviction, clean and device write does to what both have written what it does to a flat memory |
| DCacheDma.DmaReceive | Drivers/CMSIS/Include/cachel1_armv7.h:358-437 | over every such transfer that ends with an invalidate by address the cache is usable again and the CPU sees exactly that flat memory, whatever was filled or evicted meanwhile |
| DCacheDma.DmaDelivers | Drivers/CMSIS/Include/cachel1_armv7.h:358-377 | the CPU then reads from the buffer what the device last wrote there |
| DCacheDma.UnpreparedExample | Drivers/CMSIS/Include/cachel1_armv7.h:358-377 | without the first maintenance an eviction can overwrite what the device wrote |
| Scb.Core.AllSetsAndWays | Drivers/CMSIS/Include/cachel1_armv7.h:156-166 | the two nested do-while loops make the state change of one whole sweep |
| Scb.Core.AllWays | Drivers/CMSIS/Include/cachel1_armv7.h:158-165 | the inner loop: every way of one set, downwards |
| Scb.Core.EnableDCache | Drivers/CMSIS/Include/cachel1_armv7.h:141-174 | does nothing to an enabled cache; otherwise invalidates every slot and then sets the enable bit |
| Scb.Core.DisableDCache | Drivers/CMSIS/Include/cachel1_armv7.h:181-242 | clears the enable bit first and then cleans and invalidates every slot, after the lines of the local variables in builds without optimisation |
| Scb.LocalsCleaned | Drivers/CMSIS/Include/cachel1_armv7.h:200-240 | on a usable cache those lines, one or three, change nothing in the outcome |
| Scb.Core.InvalidateDCache | Drivers/CMSIS/Include/cachel1_armv7.h:249-277 | invalidates every slot |
| Scb.Core.CleanDCache | Drivers/CMSIS/Include/cachel1_armv7.h:284-312 | cleans every slot |
| Scb.Core.CleanInvalidateDCache | Drivers/CMSIS/Include/cachel1_armv7.h:319-347 | cleans and invalidates every slot |
| Scb.Core.ByAddr | Drivers/CMSIS/Include/cachel1_armv7.h:361-375 | for every address and every signed 32-bit size: the operations of the lines of the range, each once and in order, or none for a size that is not positive |
| Scb.CounterStep | Drivers/CMSIS/Include/cachel1_armv7.h:361-375 | the signed byte counter may overflow before the first pass; the subtraction that precedes the test brings it back |
| Scb.Core.InvalidateDCacheByAddr | Drivers/CMSIS/Include/cachel1_armv7.h:358-377 | invalidates the lines of the range |
| Scb.Core.CleanDCacheByAddr | Drivers/CMSIS/Include/cachel1_armv7.h:388-407 | cleans the lines of the range |
| Scb.Core.CleanInvalidateDCacheByAddr | Drivers/CMSIS/Include/cachel1_armv7.h:418-437 | cleans and invalidates the lines of the range |
| XspiNor.InsidePageIsLinear | Drivers/BSP/STM32N6570-DK/stm32n6570_discovery_xspi.c:508-598 | a page program that stays inside its page acts as on linear memory, although the chip wraps inside the page |
| XspiNor.ProgrammedJoin | Drivers/BSP/STM32N6570-DK/stm32n6570_discovery_xspi.c:508-598 | programming adjacent chunks is programming their concatenation |
| XspiNor.EraseWriteRead | Drivers/BSP/STM32N6570-DK/stm32n6570_discovery_xspi.c:456-643 | erase a block, write inside it, read back: when the three calls succeed, as on working hardware in the recorded protocol, the data comes back, and whatever they return nothing outside the block changes |
| XspiNor.EraseWriteReadBack | Drivers/BSP/STM32N6570-DK/stm32n6570_discovery_xspi.c:508-643 | the same for the memory contents: AND-programming erased memory gives the data |
| XspiNor.Nor.Write | Drivers/BSP/STM32N6570-DK/stm32n6570_discovery_xspi.c:508-598 | on success exactly the data is programmed at the range, and on working hardware in the recorded protocol it succeeds; on failure a whole-chunk prefix and at most part of the next chunk; nothing outside the range changes |
| XspiNor.Nor.WritePages | Drivers/BSP/STM32N6570-DK/stm32n6570_discovery_xspi.c:532-593 | the do-while loop terminates, and no program crosses a page boundary |
| XspiNor.Nor.WriteChunk | Drivers/BSP/STM32N6570-DK/stm32n6570_discovery_xspi.c:541-581 | one round: poll, write enable, program, poll, in the recorded protocol; succeeds on working hardware that listens to it |
| XspiNor.Nor.EraseBlock | Drivers/BSP/STM32N6570-DK/stm32n6570_discovery_xspi.c:607-643 | on success, as on working hardware in the recorded protocol, the block is all ones; on any result nothing outside the block changes |
| XspiNor.Nor.Read | Drivers/BSP/STM32N6570-DK/stm32n6570_discovery_xspi.c:456-498 | succeeds only in the chip's protocol, and there always on working hardware, and then returns its contents when it is not busy |
| XspiNor.Nor.ResetMemory | Drivers/BSP/STM32N6570-DK/stm32n6570_discovery_xspi.c:1643-1689 | on success the chip is in SPI whatever protocol it was in, and the record says so; on failure the record is unchanged |
| XspiNor.Nor.EnterOpi | Drivers/BSP/STM32N6570-DK/stm32n6570_discovery_xspi.c:1696-1828 | success means the chip is in the requested OPI protocol, and for DTR the peripheral's data hold set for it; with a record that disagrees with the chip the protocol cannot change |
| XspiNor.Nor.ExitOpi | Drivers/BSP/STM32N6570-DK/stm32n6570_discovery_xspi.c:1835-1900 | success means the chip is in SPI, and the data hold of a DTR record undone |
| XspiNor.Nor.ConfigFlash | Drivers/BSP/STM32N6570-DK/stm32n6570_discovery_xspi.c:885-960 | success sets the record, and leaves the chip in agreement if and only if it agreed before or anything was asked to change; on working hardware every failure leaves the two at odds, and from agreement it fails exactly for a rate change inside OPI; a peripheral that was set for the recorded rate follows it |
| XspiNor.Nor.EnableMemoryMappedMode | Drivers/BSP/STM32N6570-DK/stm32n6570_discovery_xspi.c:765-809 | success, as on working hardware, maps the chip in the recorded protocol and records it; failure changes nothing |
| XspiNor.Nor.DisableMemoryMappedMode | Drivers/BSP/STM32N6570-DK/stm32n6570_discovery_xspi.c:817-844 | success, as on working hardware, only from memory-mapped access, which it ends; otherwise nothing changes |
| XspiNor.Nor.Init | Drivers/BSP/STM32N6570-DK/stm32n6570_discovery_xspi.c:200-275 | from an uninitialised record, success leaves chip and record in the requested mode; an initialised record makes it a successful no-operation, even after a failed call |
| XspiNor.InitMeansModeExactly | Drivers/BSP/STM32N6570-DK/stm32n6570_discovery_xspi.c:200-275 | success means the requested mode if and only if the record was uninitialised or already said so and the chip with it |
| XspiNor.InitAfterFailure | Drivers/BSP/STM32N6570-DK/stm32n6570_discovery_xspi.c:200-275 | a run in which an initialisation for DTR OPI fails after its reset and the next one reports success with the chip in SPI |
| XspiNor.Nor.DeInit | Drivers/BSP/STM32N6570-DK/stm32n6570_discovery_xspi.c:282-324 | ends memory-mapped access, resets the record and switches the peripheral off, unless leaving memory-mapped mode failed; on working hardware it succeeds |
| XspiNor.RecordMatchesChip | Drivers/BSP/STM32N6570-DK/stm32n6570_discovery_xspi.c:765-960 | over every run of configuration and mapping calls, the recorded mode and rate are the chip's whenever no configuration has failed since the start or since the last one that switched the chip, and on working hardware only then |
| XspiNor.RefusedRateChange | Drivers/BSP/STM32N6570-DK/stm32n6570_discovery_xspi.c:905-926 | on working hardware a refused rate change inside OPI leaves a record that says OPI and disagrees with the chip |
| XspiNor.FrozenWhileMapped | Drivers/BSP/STM32N6570-DK/stm32n6570_discovery_xspi.c:885-960 | over every run, mode, rate and protocol never change while memory-mapped |
| XspiCursor.StopsExactly | Drivers/BSP/STM32N6570-DK/stm32n6570_discovery_xspi.c:523-593 | for every address and size in 32-bit words, the write loop stops if and only if the range does not run into the last page of the address space by whole pages |
| XspiCursor.Stops | Drivers/BSP/STM32N6570-DK/stm32n6570_discovery_xspi.c:523-593 | when it stops, it has programmed every byte if and only if the range does not pass 2^32 from below the last page |
| XspiCursor.RunsForever | Drivers/BSP/STM32N6570-DK/stm32n6570_discovery_xspi.c:523-593 | otherwise no number of chunks ends the loop |
| XspiCursor.RunawayExample | Drivers/BSP/STM32N6570-DK/stm32n6570_discovery_xspi.c:523-593 | a write of 511 bytes near 2^32 that never ends |
| XspiCursor.TruncatedExample | Drivers/BSP/STM32N6570-DK/stm32n6570_discovery_xspi.c:523-593 | a write of 768 bytes near 2^32 that stops after its first page |
| XspiCursor.InsideChip | Drivers/BSP/STM32N6570-DK/stm32n6570_discovery_xspi.c:508-598 | every range that ends a page or more below 2^32, as all ranges of the chip do, both stops and is complete |
| AudioSpec.StepKeepsInv | Drivers/BSP/STM32N6570-DK/stm32n6570_discovery_audio.c:312-2435 | every playback or record call, with every status it can return, keeps the sharing invariant and never forgets the probed driver |
| AudioSpec.SharedFormat | Drivers/BSP/STM32N6570-DK/stm32n6570_discovery_audio.c:312-466 | in every reachable state, for any interleaving and any failures: playback and SAI record out of RESET have the same rate and bits, both 16-bit; active record is 16-bit mono; the codec in use is probed and powered |
| AudioSpec.FrozenWhileShared | Drivers/BSP/STM32N6570-DK/stm32n6570_discovery_audio.c:866-910 | while both use the SAI no call changes the rate or bits of either, the clock setting or the codec's setup, whatever it returns |
| AudioSpec.ClockFollowsRecord | Drivers/BSP/STM32N6570-DK/stm32n6570_discovery_audio.c:866-910 | over every run without an unresolved clock failure, the SAI generates the rates on record if and only if the marks a caller can keep from its calls and their statuses say so |
| AudioSpec.MarksFollow | Drivers/BSP/STM32N6570-DK/stm32n6570_discovery_audio.c:312-2318 | those marks tell at every point of such a run whether the handle, the clock and the playback block stand at the rate on record |
| AudioSpec.UndisturbedAgrees | Drivers/BSP/STM32N6570-DK/stm32n6570_discovery_audio.c:312-2318 | over every run in which no rate setter fails in the hardware and playback is not de-initialised under a client, the SAI always generates the rates on record |
| AudioSpec.FailedRateExactly | Drivers/BSP/STM32N6570-DK/stm32n6570_discovery_audio.c:891-907 | after a rate setter whose block initialisation failed, the old rate is still generated if and only if the new rate wants the same clock setting, and the handle keeps the new rate |
| AudioSpec.WantedExactly | Drivers/BSP/STM32N6570-DK/stm32n6570_discovery_audio.c:1326-1365 | of the two settings of the SAI clock, 8 MHz * 192 / 8 / 17 and 8 MHz * 172 / 28, the one used for a rate of the board is the only one that some whole divider brings within a thousandth of 256 times the rate |
| AudioSpec.MovesMesh | Drivers/BSP/STM32N6570-DK/stm32n6570_discovery_audio.c:530-689 | after a start or resume exactly pause and stop can be made, after a pause exactly resume and stop, after a stop exactly start and stop, and nothing from RESET, for either direction |
| AudioSpec.ClockFailureUndetermined | Drivers/BSP/STM32N6570-DK/stm32n6570_discovery_audio.c:1345-1367 | after one whose clock configuration failed, either is possible |
| AudioSpec.LeavingStopsRecord | Drivers/BSP/STM32N6570-DK/stm32n6570_discovery_audio.c:473-521 | playback that is de-initialised while record goes on takes record's clock with it |
| AudioSpec.JoinAtStaleRate | Drivers/BSP/STM32N6570-DK/stm32n6570_discovery_audio.c:891-1070 | a failed change from 48 to 96 kHz does no harm until the next change of the bits applies it; record then joins at 48 kHz on record while 96 kHz is generated |
| AudioSpec.CodecReady | Drivers/BSP/STM32N6570-DK/stm32n6570_discovery_audio.c:312-521 | over every run, the codec in use is known to be initialised if and only if no initialisation or de-initialisation has reported a component failure since the SAI was last free or a client was last initialised on it |
| AudioSpec.LastClientPowersDown | Drivers/BSP/STM32N6570-DK/stm32n6570_discovery_audio.c:473-521 | whichever client leaves last, leaving successfully de-initialises the codec and powers it down |
| AudioShare.Driver.OutInit | Drivers/BSP/STM32N6570-DK/stm32n6570_discovery_audio.c:312-466 | status by status, the new contexts, codec and clock; the codec is powered up and probed only when record does not use it; keeps the sharing invariant and a safe codec log; on hardware that works neither this nor any other call reports a clock, peripheral or component failure, and every transfer, block and clock then follows the contexts |
| AudioShare.Driver.OutDeInit | Drivers/BSP/STM32N6570-DK/stm32n6570_discovery_audio.c:473-521 | switches the playback block off in any case, and de-initialises and powers down the codec only when record does not use it; on an error the contexts are unchanged |
| AudioShare.Driver.OutPlay | Drivers/BSP/STM32N6570-DK/stm32n6570_discovery_audio.c:530-572 | STOP to PLAYING: a DMA transfer of a 16-bit half or quarter of the bytes flows before the one call of the codec driver, which is probed and powered |
| AudioShare.Driver.OutPause | Drivers/BSP/STM32N6570-DK/stm32n6570_discovery_audio.c:579-608 | PLAYING to PAUSE: the codec first, then its transfer is held; on an error the state and the transfer stay |
| AudioShare.Driver.OutResume | Drivers/BSP/STM32N6570-DK/stm32n6570_discovery_audio.c:615-644 | PAUSE to PLAYING: the codec first, then the held transfer flows again with its length; on an error the state and the transfer stay |
| AudioShare.Driver.OutStop | Drivers/BSP/STM32N6570-DK/stm32n6570_discovery_audio.c:651-689 | PLAYING or PAUSE to STOP with a software power-down of the codec and then no transfer, nothing from STOP; on an error the state and the transfer stay |
| AudioShare.Driver.OutSetSampleRate | Drivers/BSP/STM32N6570-DK/stm32n6570_discovery_audio.c:866-910 | refuses a rate other than that of an active record; on a hardware failure the record keeps the old rate, the handle has the new one and the clock may have changed |
| AudioShare.Driver.OutSetBitsPerSample | Drivers/BSP/STM32N6570-DK/stm32n6570_discovery_audio.c:1000-1074 | refuses bits other than those of an active record; stores the bits even when the SAI then fails |
| AudioShare.Driver.OutSetChannelsNbr | Drivers/BSP/STM32N6570-DK/stm32n6570_discovery_audio.c:1109-1139 | one or two channels, only in STOP |
| AudioShare.Driver.InInit | Drivers/BSP/STM32N6570-DK/stm32n6570_discovery_audio.c:1535-1802 | accepts only 16-bit mono, and on the SAI only the format of active playback; success sets up the capture block, or the microphone clock and filter, for the rate; a microphone record never touches playback or the codec |
| AudioShare.Driver.InInitSai | Drivers/BSP/STM32N6570-DK/stm32n6570_discovery_audio.c:1563-1724 | takes over clock, codec and the playback block (set for 16 bits) only when playback is in RESET |
| AudioShare.Driver.InDeInit | Drivers/BSP/STM32N6570-DK/stm32n6570_discovery_audio.c:1809-1881 | takes its transfer and its capture block or filter away, and de-initialises and powers down the codec only when playback does not use it |
| AudioShare.Driver.InRecord | Drivers/BSP/STM32N6570-DK/stm32n6570_discovery_audio.c:1890-1966 | STOP to RECORDING, through the codec on the SAI (two bytes sent first unless playback is under way; the bytes cut to 16 bits and halved) and without it on the microphone, whose buffer size is checked; the transfer flows exactly on success |
| AudioShare.Driver.InPause | Drivers/BSP/STM32N6570-DK/stm32n6570_discovery_audio.c:2037-2085 | RECORDING to PAUSE: the codec first, then its transfer is held, or the microphone acquisition stopped; on an error the state and the transfer stay |
| AudioShare.Driver.InResume | Drivers/BSP/STM32N6570-DK/stm32n6570_discovery_audio.c:2092-2145 | PAUSE to RECORDING: the codec first, then the held transfer flows again with its length, or a microphone acquisition of the recorded size; on an error the state and the transfer stay |
| AudioShare.Driver.InStop | Drivers/BSP/STM32N6570-DK/stm32n6570_discovery_audio.c:1973-2030 | RECORDING or PAUSE to STOP with a hardware power-down of the codec and then no transfer, nothing from STOP; on an error the state and the transfer stay |
| AudioShare.Driver.InSetSampleRate | Drivers/BSP/STM32N6570-DK/stm32n6570_discovery_audio.c:2208-2318 | refuses a rate other than that of active playback; on a hardware failure the record keeps the old rate, the handle has the new one and the clock may have changed; success sets the capture block and playback block, or the microphone clock and filter, to the new rate |
| AudioShare.Driver.InSetBitsPerSample | Drivers/BSP/STM32N6570-DK/stm32n6570_discovery_audio.c:2355-2378 | the status for every argument and state; nothing changes |
| AudioShare.Driver.InSetChannelsNbr | Drivers/BSP/STM32N6570-DK/stm32n6570_discovery_audio.c:2413-2435 | the status for every argument and state; nothing changes |
| AudioShare.Driver.Sai1ClockConfig | Drivers/BSP/STM32N6570-DK/stm32n6570_discovery_audio.c:1315-1368 | the PLL factors and the divider of the setting the rate wants, each tried whatever the other returns; a failure may leave anything |
| AudioShare.Driver.TakeOver | Drivers/BSP/STM32N6570-DK/stm32n6570_discovery_audio.c:345-374 | the first client powers the codec up, probes it and sets the clock, in this order; which step failed is told by the status |
| AudioShare.Driver.SaiMove | Drivers/BSP/STM32N6570-DK/stm32n6570_discovery_audio.c:598-679 | pause holds a transfer that flows, resume lets it flow again with its length, stop ends it |
| AudioShare.Driver.InitBlock | Drivers/BSP/STM32N6570-DK/stm32n6570_discovery_audio.c:1376-1426 | success sets the playback block to the rate in its handle under the clock in force; a failure leaves it as it was |
| AudioShare.Driver.Cs42l51PowerDown | Drivers/BSP/STM32N6570-DK/stm32n6570_discovery_audio.c:3127-3134 | the reset pin is released only when the other client is in RESET |
| AudioShare.Driver.CodecDeInit | Drivers/BSP/STM32N6570-DK/stm32n6570_discovery_audio.c:494-506 | de-initialisation only of a probed and powered codec that the other client does not use |
| MicCapture.BytesHoldSample | Drivers/BSP/STM32N6570-DK/stm32n6570_discovery_audio.c:2920-2928 | the two stored bytes, read as a little-endian 16-bit sample, are the input over 256 with its fraction cut off, 32767 from 2^23 up and -32768 below -2^23 |
| MicCapture.SampleExactly | Drivers/BSP/STM32N6570-DK/stm32n6570_discovery_audio.c:2897-2924 | exactly that value is computed by the division and the saturation |
| MicCapture.MdfCapture.AcqHalfCpltCallback | Drivers/BSP/STM32N6570-DK/stm32n6570_discovery_audio.c:2914-2932 | converts exactly the first half of the words and changes no other byte |
| MicCapture.MdfCapture.AcqCpltCallback | Drivers/BSP/STM32N6570-DK/stm32n6570_discovery_audio.c:2889-2907 | converts exactly the second half of the words and changes no other byte |
| MicCapture.LoopIsCallback | Drivers/BSP/STM32N6570-DK/stm32n6570_discovery_audio.c:2889-2932 | the interleaved loop steps of one interrupt do what the callback is proved to do |
| MicCapture.NextKeepsInv | Drivers/BSP/STM32N6570-DK/stm32n6570_discovery_audio.c:2889-2932 | every DMA word, interrupt entry, loop step and interrupt exit keeps the capture invariant |
| MicCapture.DeliveredStream | Drivers/BSP/STM32N6570-DK/stm32n6570_discovery_audio.c:1940-1961 | over every run the delivered bytes are the stream of exactly the halves served, each sample once and in order, and at most two halves are outstanding |
| MicCapture.DeliveredSample | Drivers/BSP/STM32N6570-DK/stm32n6570_discovery_audio.c:2889-2932 | over every run, delivered sample i is input word i over 256 with its fraction cut off, 32767 from 2^23 up and -32768 below -2^23 |
| MicCapture.StreamAt | Drivers/BSP/STM32N6570-DK/stm32n6570_discovery_audio.c:2920-2928 | the stream holds sample i at bytes 2i and 2i + 1, low byte first |
| LcdColour.ExpandTruncate | Drivers/BSP/STM32N6570-DK/stm32n6570_discovery_lcd.c:156-167 | expanding a colour to ARGB8888 and truncating it again is the identity, for every colour word and format |
| LcdColour.FillBytes | Drivers/BSP/STM32N6570-DK/stm32n6570_discovery_lcd.c:1236-1276 | a fill stores the same bytes for a colour as a pixel write |
| LcdColour.ReadBack | Drivers/BSP/STM32N6570-DK/stm32n6570_discovery_lcd.c:1167-1218 | the colour read back is the part of the colour the pixel format holds |
| LcdDraw.StoreDraws | Drivers/BSP/STM32N6570-DK/stm32n6570_discovery_lcd.c:1197-1218 | bytes stored at one pixel's address draw that pixel and no other |
| LcdDraw.DrawnTogether | Drivers/BSP/STM32N6570-DK/stm32n6570_discovery_lcd.c:1236-1276 | a drawing followed by its next pixel or row is the drawing of both |
| LcdDraw.Lcd.FillBuffer | Drivers/BSP/STM32N6570-DK/stm32n6570_discovery_lcd.c:1236-1276 | start address and line offset fill exactly the rectangle, or nothing when DMA2D cannot be set up |
| LcdDraw.Lcd.FillRect | Drivers/BSP/STM32N6570-DK/stm32n6570_discovery_lcd.c:1146-1157 | every pixel of the rectangle gets the colour and no other byte changes, or, when DMA2D fails, no byte at all; success is reported in either case |
| LcdDraw.Lcd.DrawHLine | Drivers/BSP/STM32N6570-DK/stm32n6570_discovery_lcd.c:1101-1112 | the one-row rectangle, or nothing |
| LcdDraw.Lcd.DrawVLine | Drivers/BSP/STM32N6570-DK/stm32n6570_discovery_lcd.c:1123-1134 | the one-column rectangle, or nothing |
| LcdDraw.Lcd.WritePixel | Drivers/BSP/STM32N6570-DK/stm32n6570_discovery_lcd.c:1197-1218 | one pixel gets the colour and no other byte changes; in RGB888 it is the pixel three bytes before |
| LcdDraw.Lcd.ReadPixel | Drivers/BSP/STM32N6570-DK/stm32n6570_discovery_lcd.c:1167-1187 | the colour word of exactly the pixel's bytes |
| LcdDraw.FillIsEveryPixel | Drivers/BSP/STM32N6570-DK/stm32n6570_discovery_lcd.c:1146-1218 | writing the pixels of a rectangle one by one, in any order and with any repetition, changes the framebuffer exactly as filling it |
| LcdDraw.ReadAfterDraw | Drivers/BSP/STM32N6570-DK/stm32n6570_discovery_lcd.c:1167-1218 | reading a pixel after it was drawn gives the colour its format holds |
| LcdDraw.PixelAgreesExactly | Drivers/BSP/STM32N6570-DK/stm32n6570_discovery_lcd.c:1146-1218 | filling one pixel and writing it agree on every framebuffer and colour if and only if the format is not RGB888 |
| LcdDraw.FillAgreesExactly | Drivers/BSP/STM32N6570-DK/stm32n6570_discovery_lcd.c:1146-1218 | filling a non-empty rectangle and writing its pixels in any order agree on every framebuffer and colour if and only if the format is not RGB888 |
| LcdDraw.Lcd.DrawBitmap | Drivers/BSP/STM32N6570-DK/stm32n6570_discovery_lcd.c:973-1028 | source row height - 1 - i, column j lands converted at (x + j, y + i) and no other pixel changes; a row whose DMA2D transfer cannot be set up is left as it was |
| LcdDraw.Lcd.DrawBitmapRows | Drivers/BSP/STM32N6570-DK/stm32n6570_discovery_lcd.c:1013-1025 | the row loop: one screen row down, one source row up |
| LcdDraw.Lcd.ConvertLine | Drivers/BSP/STM32N6570-DK/stm32n6570_discovery_lcd.c:1286-1331 | one bitmap row becomes one row of screen pixels, or nothing when DMA2D cannot be set up |
| LcdDraw.PictureFromBlockOnly | Drivers/BSP/STM32N6570-DK/stm32n6570_discovery_lcd.c:973-1028 | the picture depends on nothing in the file but the header fields and the pixel block |
| LcdBitmap.HeaderOfFile | Drivers/BSP/STM32N6570-DK/stm32n6570_discovery_lcd.c:985-1000 | from a file built of its rows the driver reads the width at offset 18, the height at 22, the bits of a pixel at 28 and, at 10, where the pixels begin |
| LcdBitmap.PixelOfFile | Drivers/BSP/STM32N6570-DK/stm32n6570_discovery_lcd.c:985-1025 | and finds the pixel in column i of row j from the top where the file has it, the rows being stored from the bottom up |
| LcdBitmap.FileShown | Drivers/BSP/STM32N6570-DK/stm32n6570_discovery_lcd.c:973-1028 | so after DrawBitmap every byte of screen pixel (x + i, y + j) is that of the converted pixel in column i of row j from the top |
| UsbPdPwr.LastFaultRecorded | Drivers/BSP/STM32N6570-DK/stm32n6570_discovery_usbpd_pwr.c:1739-1766 | the recorded tick is that of the last VBUS over-current fault of the run |
| UsbPdPwr.RecoveriesAreSpaced | Drivers/BSP/STM32N6570-DK/stm32n6570_discovery_usbpd_pwr.c:1739-1766 | over every run of events, a recovery comes more than 1000 ms of true time after every earlier VBUS over-current fault, although the tick wraps |
| UsbPdPwr.RecoversExactly | Drivers/BSP/STM32N6570-DK/stm32n6570_discovery_usbpd_pwr.c:1739-1766 | after a last fault, at any later time: the driver recovers if and only if the gap modulo 2^32 ms is more than 1000 ms and reaches no wrap of the tick; for gaps below 2^32 ms, if and only if more than 1000 ms have passed and the tick has not wrapped |
| UsbPdPwr.FirstFaultExactly | Drivers/BSP/STM32N6570-DK/stm32n6570_discovery_usbpd_pwr.c:1739-1766 | at the first fault after an initialisation it recovers if and only if the tick is past 1000 |
| UsbPdPwr.SkippedRecovery | Drivers/BSP/STM32N6570-DK/stm32n6570_discovery_usbpd_pwr.c:1739-1766 | a fault 1500 ms after the last, across the wrap, that is not recovered |
| UsbPdPwr.Port.VbusOn | Drivers/BSP/STM32N6570-DK/stm32n6570_discovery_usbpd_pwr.c:614-666 | opens the consumer gate of a TCPP03, waits 2 ms and then closes the provider gate, nothing else; success, certain on working hardware, means provider closed and consumer open; both are never closed at once, whatever write fails |
| UsbPdPwr.Port.VbusOff | Drivers/BSP/STM32N6570-DK/stm32n6570_discovery_usbpd_pwr.c:675-739 | provider opened, discharge on, VBUS read every 20 ms until below 550 mV or 400 ms are over, discharge off, 30 ms, then the consumer gate of a TCPP03 closed: on success exactly this, and on any result nothing after the second write before the wait is over; success is certain on working hardware |
| UsbPdPwr.DischargeEnds | Drivers/BSP/STM32N6570-DK/stm32n6570_discovery_usbpd_pwr.c:690-710 | however the readings fall, the discharge goes on, no gate moving, until a reading is below 550 mV or 400 ms are over |
| UsbPdPwr.Port.AwaitDischarge | Drivers/BSP/STM32N6570-DK/stm32n6570_discovery_usbpd_pwr.c:696-708 | the loop: a reading, and at most 20 waits of 20 ms each followed by another |
| UsbPdPwr.Port.VbusDischargeOn | Drivers/BSP/STM32N6570-DK/stm32n6570_discovery_usbpd_pwr.c:1039-1067 | the provider gate is opened before discharging starts, nothing else; the consumer gate is untouched; success is certain on working hardware |
| UsbPdPwr.Port.EventCallback | Drivers/BSP/STM32N6570-DK/stm32n6570_discovery_usbpd_pwr.c:1664-1794 | recovers exactly when the fault is late enough after the last one, and records every VBUS over-current fault; announces VBUS found while saving power, after leaving hibernation, and a fault recovered outside the source role; keeps the gates safe except as a recovering source with a closed consumer gate |
| UsbPdPwr.Port.Init | Drivers/BSP/STM32N6570-DK/stm32n6570_discovery_usbpd_pwr.c:183-243 | forgets earlier faults and the detection callback exactly when the port was not initialised; on working hardware it fails only for a wrong port or type |
| UsbPdPwr.Port.RegisterVbusDetectCallback | Drivers/BSP/STM32N6570-DK/stm32n6570_discovery_usbpd_pwr.c:955-971 | registers a callback that is not null |
| UsbPdPwr.RecoverySafeExactly | Drivers/BSP/STM32N6570-DK/stm32n6570_discovery_usbpd_pwr.c:1745-1757 | from safe gates every outcome of a recovery's unchecked writes is safe if and only if the port is no source or its consumer gate is open |

## Left out

- GPIO, clock-tree, interrupt and MSP set-up, LEDs, buttons, the virtual COM port, SD card, camera and touch screen: no algorithm behind them.
- The hardware layer and the components (MX66UW1G45G, CS42L51, TCPP0203, DMA2D, MDF, SAI) are not part of this model; each is a small device whose calls succeed or fail freely.
- The page size of the NOR chip is a parameter; the cache geometry is a parameter and each loop passes its (set, way) pair as such, so the field positions of the SCB registers are not modelled.
- Barriers and the instruction cache are not modelled; a maintenance call is one step of the runs in `DCacheRuns`.
- DCache.DisableKeepsView: takes a usable cache; a disabled one that holds dirty lines is `DisabledCleanExactly`.
- DCache.CleanPublishes: takes a usable cache; a disabled one that holds dirty lines is `DisabledCleanExactly`.
- DCacheRuns.StepRefines: takes a usable cache; one out of reset is `ResetStep`.
- Scb.Core.DisableDCache: in builds without optimisation the local variables themselves are not values in the cache.
- I2cBus.TimingTable.ComputePrescSclDelSdaDel: excludes a 1 Hz source clock, as `GetTimingWord` does.
- I2cBus.TimingTable.ComputeSclLSclH: excludes a 1 Hz source clock, which only follows such a first pass.
- I2cTimingRuns.RequestCorrect: takes clocks from 1909 Hz up, below which the arithmetic wraps and no timing exists (`NoSlowTiming`), and tables whose oldest entries suit; `WordMeetsBandExactly` has all tables.
- I2cTimingRuns.GetTimingCorrect: as `RequestCorrect`.
- I2cTimingLimits.WordMeetsBandExactly: takes clocks from 1909 Hz up, below which no word meets a band (`NoSlowTiming`).
- I2cBus.TimingTable.GetTimingWord: excludes a 1 Hz source clock, where the signed delay arithmetic of the source overflows, and a full table, behind which the second pass would read.
- I2C bus initialisation and its reference counter, register access over the bus and its error codes.
- XspiNor.Nor.Write: takes a range inside the chip and a chip that ends a page below 2^32; the loop on all other 32-bit addresses is `XspiCursor`, which takes every page program to succeed.
- XspiNor.Nor.WritePages: as `Write`.
- XspiNor.Nor.ConfigFlash: excludes SPI with DTR, which the component does not offer.
- XspiNor.Nor.EnterOpi: the dummy cycles written beside the protocol, the chip's own default, and the delays are not modelled.
- XspiNor.Nor.Init: excludes SPI with DTR.
- NOR chip erase, suspend and resume, deep power-down, status, information and identifier reads, and all of the RAM device.
- AudioShare.Driver.InitBlock: HAL_SAI_Init is taken to divide the clock in force for the rate in the handle, and to leave the block alone when it fails.
- AudioShare.Driver.OutSetBitsPerSample: of what the SAI blocks are initialised for only the rate and the clock are tracked, not the data size or the mono mode.
- AudioShare.Driver.OutSetChannelsNbr: the mono mode in the SAI handle is not tracked, as for the bits.
- AudioShare.Driver.SaiMove: HAL_SAI_DMAStop is taken to end the transfer and nothing else.
- AudioShare.Driver.InInit: the microphone clock and filter are known by the rate they were set up for, not by their dividers.
- AudioShare.Driver.InStop: what a hardware power-down does inside the codec is not modelled.
- Audio: the contents of the buffers and the codec's own frequency, which no rate setter changes.
- Audio: built for the CS42L51 codec without registered callbacks; mute, volume, device selection and the getters are left out as easy; each HAL step that cannot fail is omitted.
- MicCapture: the runs take record sizes that are multiples of 4; the two callbacks are proved for every size.
- MicCapture: the client takes a half when its callback ends; a client that keeps reading afterwards is not modelled.
- LcdDraw.Lcd.WritePixel: in RGB888 the first pixel of the screen is excluded, because the store would precede the framebuffer.
- LcdDraw.Lcd.ReadPixel: in RGB888 the last pixel of the screen is excluded, because the 32-bit load would pass the end of the framebuffer.
- LcdDraw.FillAgreesExactly: excludes the first pixel of the screen in RGB888, as `WritePixel` does.
- LcdDraw.PixelAgreesExactly: excludes the first pixel in RGB888, as `WritePixel` does.
- LcdDraw.Lcd.FillBuffer: a DMA2D transfer that outlasts its 50 ms poll is not modelled.
- LcdDraw.Lcd.DrawBitmap: takes 16, 24 and 32 bits a pixel and a file that holds its pixel block; the pixel-format converter is any function from a source pixel to a screen pixel.
- LCD: coordinates are taken to be on the screen, as the source leaves that to its callers; the layer's format is the context's; FillRGBRect, layer configuration and display control are left out.
- UsbPdPwr.Port.EventCallback: the flags that are only traced and the component's own power mode are not modelled; its component writes go unchecked as in the source, so the gates can end up both closed in the one case of `RecoverySafeExactly`.
- USB-PD: VBUSDeInit, power modes, role changes, VCONN and the conversion of ADC readings, which are any values here.
- The intrinsics and register headers other than `__RBIT`.
- Loops nested more than two deep are split into one method a loop; the order of the steps is the source's.
