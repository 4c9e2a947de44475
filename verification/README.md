# Verified models of the board's embedded software

The project models the parts of the FPGA board's firmware where the arithmetic and the control flow are
intricate, and proves what they are for:

- **DDR3 calibration** (`BitFields`, `Eyes`, `Lanes`, `Centring`, `Deskew`, `DataMask`, `WritesCenter`,
  `ReadsCenter`, `DqsEnable`, `TestMask`, `CalibrationStages`, `CalibrationReports`, `MemCalibrate`).
  Scan-chain registers are array cells and fields; what a memory test answers is an oracle. A bit's verdict
  depends on how far the strobe is behind the bit's own delay. The two sweeps test position 0 separately, and the
  oracle may answer differently in each; the second answer counts. The theorems about a bit ask it to be `Coherent`:
  its passing positions form one interval; if the first test at 0 passes, what passes below reaches up to it; if
  only the first one passes, nothing passes from 0 on; if only the second one passes, position -1 passes too. A bit
  that passes on one interval, the same both times, is coherent.
  The edge sweeps find exactly the true windows, success means that what was just programmed passes,
  and centring is the best the delay range allows. The data-mask search works on an arbitrary predicate.
- **Software alarms** (`Alarms`): wrapped deadlines refine unbounded time over every run.
- **Two printf implementations** (`Digits`, `IntegerText`, `Formats`, `LogPrintf`, `AltPrintf`): each proved
  against what a format spells (the conversions of section 7.21.6.1 of ISO/IEC 9899:2011 that they support), undone
  by a parser, and equal to each other on the formats both understand. Strings end where the C string does.
- **VCTCXO tamer** (`CalibrationLine`, `Oscillators`, `Calibration`, `Tamer`): control register, interrupt service
  and tuning sequence inside the main loop, over all runs; the calibration line over the reals. The interrupt line
  is taken to be masked by the enable bit of the control register as last written. On an oscillator of any gain
  whose error counts show its zero up to `off` DAC counts, the tuned DAC stands within 1.1 + 1.2 `off` counts of it.
- **Wall clock** (`WallClock`, with `Words`): settimeofday and gettimeofday over a 32-bit tick counter.
- **File descriptors** (`FdTable`): lowest free slot, high-water mark and exclusive locks over all runs.

Delay ranges, bit counts, tap sizes, geometry and tick rates are parameters throughout. Code that updates state is
a class or a method over arrays, tied by its contract to functions whose properties are lemmas.

Where the code falls short of what it is meant to do, the model follows the code, and the exact condition under
which it does what it should is proved:

- the edge sweeps find the true window of a bit if and only if it is `Coherent` (`Deskew.FindWindows`,
  `Eyes.Eye.TrueEdgesIffCoherent`); a window that begins at 0 and fails the first test there is rejected as missing
  (`Eyes.UnseenWitness`), and a first test at 0 that passes outside the window stretches it to there, which can
  leave a bit at a delay at which it fails (`Eyes.FalsePassWitness`, `WritesCenter.FalseSuccessWitness`);
- the DQS delay that read deskew chooses can be out of reach for some bit where another would not; exactly if the
  bit's window ends more than the longest DQ delay behind (`ReadsCenter.ChoiceMissesIff`);
- the upper clamp of read deskew reads pin i instead of the pin it moves; harmless exactly if the clamp is not
  taken or that pin is at 0, and always in this build, where groups start at pin 0 (`Centring.BestUnlessMisclamped`);
- the write test's group mask takes its width from the read geometry; each position shows its own bit exactly if the
  mask covers it and does not reach it from the group before (`TestMask.LawIffMaskMatches`), which holds in this
  build, where both geometries are the same;
- an alarm started for 2^32 - 1 ticks runs on the next tick, unless started right before a wrap (`Alarms.ArmExact`);
- settimeofday multiplies in 32 bits, so that its promise about an immediate gettimeofday fails at known ticks
  (`WallClock.ClockLaw`, `WallClock.NothingLost`), and the clock keeps time only at rates that divide a million
  (`WallClock.KeepsTimeIffEvenRate`);
- a lock is granted although the descriptor at the high-water mark is open on the same device
  (`FdTable.GrantExcludesIff`), and closing a standard stream leaves its device locked (`FdTable.CloseUnlocksIff`,
  `FdTable.StreamKeepsLockWitness`).

`dafny verify dfyconfig.toml` checks the project.

## Model

| member | source | states |
|---|---|---|
| `Eyes.Eye.LeftStep` | gateware/project/ip/ddr3_av_2x32/ddr3_av_2x32/ddr3_av_2x32_s0_software/sequencer.c:7288-7301 | One verdict at DQ delay d takes the edges of its bit from what delays below d showed (last passing delay; provisional right edge while nothing passed) to what delays up to d showed. |
| `Eyes.Eye.LeftAdvance` | gateware/project/ip/ddr3_av_2x32/ddr3_av_2x32/ddr3_av_2x32_s0_software/sequencer.c:7280-7301 | The same for all bits at once, together with the sticky word: a sticky bit is set exactly if its bit has passed at some delay so far. |
| `Eyes.Eye.LeftHalt` | gateware/project/ip/ddr3_av_2x32/ddr3_av_2x32/ddr3_av_2x32_s0_software/sequencer.c:7279-7286 | Where the first sweep stops early, every bit fails now and has passed before. |
| `Eyes.Eye.LeftStop` | gateware/project/ip/ddr3_av_2x32/ddr3_av_2x32/ddr3_av_2x32_s0_software/sequencer.c:7285-7287 | Stopping there loses nothing: the edges are already those of a sweep through the whole delay range. |
| `Eyes.Eye.RightStep` | gateware/project/ip/ddr3_av_2x32/ddr3_av_2x32/ddr3_av_2x32_s0_software/sequencer.c:7362-7382 | One verdict at DQS offset d, for bits seen or not seen by the first sweep, including the marginal case at offset 0. |
| `Eyes.Eye.RightHalt` | gateware/project/ip/ddr3_av_2x32/ddr3_av_2x32/ddr3_av_2x32_s0_software/sequencer.c:7346-7360 | Where the second sweep stops early, every bit fails now and is accounted for, and noting the failures would change nothing after offset 0. |
| `Eyes.Eye.NothingBeyond` | gateware/project/ip/ddr3_av_2x32/ddr3_av_2x32/ddr3_av_2x32_s0_software/sequencer.c:7346-7360 | No position after the point where the second sweep stopped passes. |
| `Eyes.Eye.EdgesFound` | gateware/project/ip/ddr3_av_2x32/ddr3_av_2x32/ddr3_av_2x32_s0_software/sequencer.c:7264-7388 | After both sweeps the two edges of a bit are exactly the first and the last passing position of the whole tested range; a bit without a window gets edges no position fits. |
| `Eyes.Eye.EdgesAreSet` | gateware/project/ip/ddr3_av_2x32/ddr3_av_2x32/ddr3_av_2x32_s0_software/sequencer.c:7402-7411 | Both edges are set exactly for a bit with a window in range, or one that passed the first test at 0; for a steady bit exactly for one with a window. |
| `Eyes.Eye.SteadyIsCoherent` | gateware/project/ip/ddr3_av_2x32/ddr3_av_2x32/ddr3_av_2x32_s0_software/sequencer.c:7279-7342 | A bit whose two tests agree and whose passing set is an interval meets the hypothesis of the edge theorem. |
| `Eyes.Eye.UnseenOnTheLeft` | gateware/project/ip/ddr3_av_2x32/ddr3_av_2x32/ddr3_av_2x32_s0_software/sequencer.c:7289-7297 | A window that begins at 0 and is missed there by the first sweep is not seen by it at all. |
| `Eyes.Eye.LeftEdgeStaysUnset` | gateware/project/ip/ddr3_av_2x32/ddr3_av_2x32/ddr3_av_2x32_s0_software/sequencer.c:7364-7381 | Such a window gets no left edge in the second sweep either, although it is one. |
| `Eyes.Eye.CoherentIff` | gateware/project/ip/ddr3_av_2x32/ddr3_av_2x32/ddr3_av_2x32_s0_software/sequencer.c:7264-7388 | An interval fails to be coherent in exactly three ways: it begins at 0 unseen, or the first test at 0 passes outside it, below or above. |
| `Eyes.Eye.EndsBeforeIsMissed` | gateware/project/ip/ddr3_av_2x32/ddr3_av_2x32/ddr3_av_2x32_s0_software/sequencer.c:7373-7376 | A false pass at 0 above the window makes -1 its right edge. |
| `Eyes.Eye.BeginsAfterIsMissed` | gateware/project/ip/ddr3_av_2x32/ddr3_av_2x32/ddr3_av_2x32_s0_software/sequencer.c:7288-7292 | A false pass at 0 below the window makes 0 its left edge. |
| `Eyes.Eye.WrongUnlessCoherent` | gateware/project/ip/ddr3_av_2x32/ddr3_av_2x32/ddr3_av_2x32_s0_software/sequencer.c:7264-7388 | Wherever the sweeps stop, each of the three gets a wrong edge. |
| `Eyes.Eye.TrueEdgesIffCoherent` | gateware/project/ip/ddr3_av_2x32/ddr3_av_2x32/ddr3_av_2x32_s0_software/sequencer.c:7264-7388 | The full sweeps find the true edges of an interval if and only if it is coherent. |
| `Eyes.FalsePassWitness` | gateware/project/ip/ddr3_av_2x32/ddr3_av_2x32/ddr3_av_2x32_s0_software/sequencer.c:7264-7388 | A bit that passes only at 0 in the first sweep and only at 5 in the second is recorded as [0, 5]. |
| `Eyes.UnseenWitness` | gateware/project/ip/ddr3_av_2x32/ddr3_av_2x32/ddr3_av_2x32_s0_software/sequencer.c:7264-7388 | A window [0, 5] missed at 0 by the first sweep. |
| `Lanes.Lane.ApplyDq` | gateware/project/ip/ddr3_av_2x32/ddr3_av_2x32/ddr3_av_2x32_s0_software/sequencer.c:1737-1757 | Sets the delay of the group's pins and of no other pin. |
| `Lanes.Lane.SweepDq` | gateware/project/ip/ddr3_av_2x32/ddr3_av_2x32/ddr3_av_2x32_s0_software/sequencer.c:7264-7306 | The first sweep, array by array: it leaves the DQ delays at 0, other pins untouched, and for every bit what a full sweep would have found. |
| `Lanes.Lane.StepDq` | gateware/project/ip/ddr3_av_2x32/ddr3_av_2x32/ddr3_av_2x32_s0_software/sequencer.c:7274-7302 | One test of the first sweep: stops only when nothing passes and all have passed, else notes every bit. |
| `Lanes.Lane.NoteLeft` | gateware/project/ip/ddr3_av_2x32/ddr3_av_2x32/ddr3_av_2x32_s0_software/sequencer.c:7288-7301 | The shifting loop over one test word gives each bit its own verdict. |
| `Lanes.Lane.Rearm` | gateware/project/ip/ddr3_av_2x32/ddr3_av_2x32/ddr3_av_2x32_s0_software/sequencer.c:7305-7329 | Right edges of bits never seen are unset; the new sticky word holds exactly the bits with a left edge (write) or both edges (read). |
| `Lanes.Lane.SweepDqs` | gateware/project/ip/ddr3_av_2x32/ddr3_av_2x32/ddr3_av_2x32_s0_software/sequencer.c:7331-7388 | The second sweep completes the edges: for every coherent bit they are the true ones. |
| `Lanes.Lane.StepDqs` | gateware/project/ip/ddr3_av_2x32/ddr3_av_2x32/ddr3_av_2x32_s0_software/sequencer.c:7333-7387 | One test of the second sweep keeps what is known about every bit, and stops only where stopping is harmless. |
| `Lanes.Lane.NoteRight` | gateware/project/ip/ddr3_av_2x32/ddr3_av_2x32/ddr3_av_2x32_s0_software/sequencer.c:7362-7386 | The shifting loop of the second sweep. |
| `Lanes.Lane.Settle` | gateware/project/ip/ddr3_av_2x32/ddr3_av_2x32/ddr3_av_2x32_s0_software/sequencer.c:7352-7359 | At the very first offset, bits that passed only in the first sweep get right edge -1 and no other edge changes. |
| `Deskew.FindWindows` | gateware/project/ip/ddr3_av_2x32/ddr3_av_2x32/ddr3_av_2x32_s0_software/sequencer.c:7264-7411 | Both sweeps and the window check: for a bit whose passing positions form an interval the edges are true if and only if it is coherent; for coherent bits the check succeeds exactly if each has a window in range or passed the first test at 0, for steady bits exactly if each has a window; it fails if a window begins at 0 unseen. |
| `Deskew.SteadyWindowsMet` | gateware/project/ip/ddr3_av_2x32/ddr3_av_2x32/ddr3_av_2x32_s0_software/sequencer.c:7402-7411 | For a steady tester what the check asks is exactly a window in range for every bit. |
| `Deskew.SmallestMid` | gateware/project/ip/ddr3_av_2x32/ddr3_av_2x32/ddr3_av_2x32_s0_software/sequencer.c:7413-7422 | The bit with the smallest difference of edges. |
| `Deskew.MovePin` | gateware/project/ip/ddr3_av_2x32/ddr3_av_2x32/ddr3_av_2x32_s0_software/sequencer.c:5359-5367 | One pin's clamped move; the upper clamp reads the pin numbered like the bit, as the source does. |
| `Deskew.TakeMargins` | gateware/project/ip/ddr3_av_2x32/ddr3_av_2x32/ddr3_av_2x32_s0_software/sequencer.c:5372-5378 | The two running margins are both non-negative exactly if they were and the moved bit lies inside its window. |
| `Deskew.MovePins` | gateware/project/ip/ddr3_av_2x32/ddr3_av_2x32/ddr3_av_2x32_s0_software/sequencer.c:7458-7491 | All pins programmed as specified, all delays legal, and both margins non-negative exactly if every bit fits. |
| `Centring.ShiftBalances` | gateware/project/ip/ddr3_av_2x32/ddr3_av_2x32/ddr3_av_2x32_s0_software/sequencer.c:5312-5355 | Despite the truncating halves and the +1, an unclamped move leaves the two margins at most one tap apart, and on which side the odd tap falls. |
| `Centring.NewDqsIsNearest` | gateware/project/ip/ddr3_av_2x32/ddr3_av_2x32/ddr3_av_2x32_s0_software/sequencer.c:5308-5330 | No DQS delay is nearer to the middle of the bit with the smallest difference of edges; of two as near the one further back is taken. |
| `Centring.UnclampedMargin` | gateware/project/ip/ddr3_av_2x32/ddr3_av_2x32/ddr3_av_2x32_s0_software/sequencer.c:5352-5378 | The unclamped move leaves floor((left + right) / 2), the largest margin any position has. |
| `Centring.BestMargin` | gateware/project/ip/ddr3_av_2x32/ddr3_av_2x32/ddr3_av_2x32_s0_software/sequencer.c:5352-5378 | A pin whose move needs no clamp ends with exactly that margin. |
| `Centring.ClampedShiftIsBest` | gateware/project/ip/ddr3_av_2x32/ddr3_av_2x32/ddr3_av_2x32_s0_software/sequencer.c:7463-7480 | The move clamped to the delay range leaves the largest margin any delay in the range can leave. |
| `Centring.ProgramStaysLegal` | gateware/project/ip/ddr3_av_2x32/ddr3_av_2x32/ddr3_av_2x32_s0_software/sequencer.c:5353-5367 | Whatever pin the clamp reads, programmed delays stay in range and other pins keep theirs. |
| `Centring.ProgramFromPinZero` | gateware/project/ip/ddr3_av_2x32/ddr3_av_2x32/ddr3_av_2x32_s0_software/sequencer.c:7463-7480 | In a group that starts at pin 0 every pin ends at the clamp of its own move. |
| `Centring.ProgrammedPin` | gateware/project/ip/ddr3_av_2x32/ddr3_av_2x32/ddr3_av_2x32_s0_software/sequencer.c:5359-5366 | What a pin of any group ends at: short of the maximum by another pin's delay when the upper clamp was taken. |
| `Centring.BestUnlessMisclamped` | gateware/project/ip/ddr3_av_2x32/ddr3_av_2x32/ddr3_av_2x32_s0_software/sequencer.c:5359-5360 | The programmed delay is the best possible if and only if the upper clamp was not taken or the pin it read was at 0. |
| `Centring.MisclampWitness` | gateware/project/ip/ddr3_av_2x32/ddr3_av_2x32/ddr3_av_2x32_s0_software/sequencer.c:5359-5360 | The second group of eight pins, in which the clamp leaves pin 8 five taps short. |
| `DataMask.ScanPass` | gateware/project/ip/ddr3_av_2x32/ddr3_av_2x32/ddr3_av_2x32_s0_software/sequencer.c:7663-7675 | A passing test extends or begins the current run, which becomes the best if it is longer. |
| `DataMask.ScanFail` | gateware/project/ip/ddr3_av_2x32/ddr3_av_2x32/ddr3_av_2x32_s0_software/sequencer.c:7676-7680 | A failing test ends the current run and changes no best run. |
| `DataMask.ScanCut` | gateware/project/ip/ddr3_av_2x32/ddr3_av_2x32/ddr3_av_2x32_s0_software/sequencer.c:7724-7727 | A best run longer than everything still to be tested is the leftmost longest of the whole axis. |
| `DataMask.ScanMiss` | gateware/project/ip/ddr3_av_2x32/ddr3_av_2x32/ddr3_av_2x32_s0_software/sequencer.c:7718-7729 | A failing test of the second sweep, with the early exit. |
| `DataMask.NoteHit` | gateware/project/ip/ddr3_av_2x32/ddr3_av_2x32/ddr3_av_2x32_s0_software/sequencer.c:7703-7717 | A passing test, also the second one at position 0, which changes nothing. |
| `DataMask.MaskPins.SweepMask` | gateware/project/ip/ddr3_av_2x32/ddr3_av_2x32/ddr3_av_2x32_s0_software/sequencer.c:7645-7693 | The first sweep: best run and the run that reaches position 0, if one does. |
| `WritesCenter.SweepStrobe` | gateware/project/ip/ddr3_av_2x32/ddr3_av_2x32/ddr3_av_2x32_s0_software/sequencer.c:7695-7741 | The second sweep, run carried across 0 and early exit included: the result is the leftmost longest run of the joined axis, or no position passes at all; DQS is put back. |
| `WritesCenter.CentreMask` | gateware/project/ip/ddr3_av_2x32/ddr3_av_2x32/ddr3_av_2x32_s0_software/sequencer.c:7645-7763 | Margin non-negative exactly if a window exists and starts at or before 0; then the programmed DM delay is legal, passes, and is the best one for that window. |
| `WritesCenter.MaskVerdict` | gateware/project/ip/ddr3_av_2x32/ddr3_av_2x32/ddr3_av_2x32_s0_software/sequencer.c:7732-7758 | The verdict in terms of the passing positions alone. |
| `WritesCenter.LeftmostLongestIsUnique` | gateware/project/ip/ddr3_av_2x32/ddr3_av_2x32/ddr3_av_2x32_s0_software/sequencer.c:7712-7717 | The answer of the mask search is unique. |
| `WritesCenter.MoveFindsPass` | gateware/project/ip/ddr3_av_2x32/ddr3_av_2x32/ddr3_av_2x32_s0_software/sequencer.c:7463-7491 | A bit's final margins are non-negative exactly if some DQ delay at all lets it pass; then it passes at its programmed delay, which is the best. |
| `WritesCenter.FalseSuccessWitness` | gateware/project/ip/ddr3_av_2x32/ddr3_av_2x32/ddr3_av_2x32_s0_software/sequencer.c:7463-7491 | That bit is left at delay 0, where it fails, with a margin of 0 and so without complaint. |
| `WritesCenter.DeskewDq` | gateware/project/ip/ddr3_av_2x32/ddr3_av_2x32/ddr3_av_2x32_s0_software/sequencer.c:7258-7499 | The DQ half: the window check as above; success exactly if every bit can pass at some DQ delay; then every bit does, at the best one. |
| `WritesCenter.CalibrateWritesCenter` | gateware/project/ip/ddr3_av_2x32/ddr3_av_2x32/ddr3_av_2x32_s0_software/sequencer.c:7228-7944 | Write deskew: success means every bit and the mask pass at the delays just programmed, and it succeeds exactly if every bit and the mask can be reached. |
| `ReadsCenter.FitIsSound` | gateware/project/ip/ddr3_av_2x32/ddr3_av_2x32/ddr3_av_2x32_s0_software/sequencer.c:5372-5378 | For the true window, a non-negative margin means exactly: a tested position that passes. |
| `ReadsCenter.PinsAreBest` | gateware/project/ip/ddr3_av_2x32/ddr3_av_2x32/ddr3_av_2x32_s0_software/sequencer.c:5352-5367 | Every pin gets the best delay for the DQS delay exactly unless the clamp misread a pin; always in a group that starts at pin 0. |
| `ReadsCenter.CentreWindows` | gateware/project/ip/ddr3_av_2x32/ddr3_av_2x32/ddr3_av_2x32_s0_software/sequencer.c:5300-5443 | DQS goes as near as its range allows to the middle of the bit with the smallest difference of edges, whose own pin stays at 0 if DQS gets there; every pin is centred; success exactly if every bit fits. |
| `ReadsCenter.BestIsSoundIfAnyIs` | gateware/project/ip/ddr3_av_2x32/ddr3_av_2x32/ddr3_av_2x32_s0_software/sequencer.c:5352-5379 | The best delay passes if any delay does. |
| `ReadsCenter.SoundIfReachable` | gateware/project/ip/ddr3_av_2x32/ddr3_av_2x32/ddr3_av_2x32_s0_software/sequencer.c:5300-5443 | In a group that starts at pin 0, success exactly if with the chosen DQS delay every bit can be reached by its own pin. |
| `ReadsCenter.PinReachableIff` | gateware/project/ip/ddr3_av_2x32/ddr3_av_2x32/ddr3_av_2x32_s0_software/sequencer.c:5352-5367 | A pin can follow DQS into its window exactly if the window meets the positions its delays reach. |
| `ReadsCenter.ChoiceReachesIff` | gateware/project/ip/ddr3_av_2x32/ddr3_av_2x32/ddr3_av_2x32_s0_software/sequencer.c:5311-5330 | With the chosen DQS delay every bit can be reached exactly if every window exists and no right edge lies more than the longest DQ delay behind. |
| `ReadsCenter.ChoiceMissesIff` | gateware/project/ip/ddr3_av_2x32/ddr3_av_2x32/ddr3_av_2x32_s0_software/sequencer.c:5311-5330 | Where some DQS delay would let every bit pass, the chosen one misses it exactly if some window's right edge lies below that. |
| `ReadsCenter.DqsChoiceCanMissASolution` | gateware/project/ip/ddr3_av_2x32/ddr3_av_2x32/ddr3_av_2x32_s0_software/sequencer.c:5311-5330 | An instance: two bits that pass with DQS left alone, but not with the DQS delay chosen. |
| `ReadsCenter.CalibrateVfifoCenter` | gateware/project/ip/ddr3_av_2x32/ddr3_av_2x32/ddr3_av_2x32_s0_software/sequencer.c:5094-5444 | Read deskew: success means exactly that every bit passes at the delays just programmed, at a tested position; in a group that starts at pin 0 it succeeds exactly if every window exists and none ends too early for the DQS delay chosen, which is the nearest to the middle of the bit with the smallest difference of edges; if a window is missing DQS is put back and the pins are at 0. |
| `DqsEnable.ReducedIsUnique` | gateware/project/ip/ddr3_av_2x32/ddr3_av_2x32/ddr3_av_2x32_s0_software/sequencer.c:4556 | Reduction by whole cycles into (0, cycle] has one result. |
| `DqsEnable.Reduce` | gateware/project/ip/ddr3_av_2x32/ddr3_av_2x32/ddr3_av_2x32_s0_software/sequencer.c:4556 | The loop computes it for every positive middle; middle 0 stays 0. |
| `DqsEnable.CountTaps` | gateware/project/ip/ddr3_av_2x32/ddr3_av_2x32/ddr3_av_2x32_s0_software/sequencer.c:4559-4562 | Counting taps stops at the first multiple that reaches the target, or past the limit. |
| `DqsEnable.WholePhases` | gateware/project/ip/ddr3_av_2x32/ddr3_av_2x32/ddr3_av_2x32_s0_software/sequencer.c:4558-4560 | Whole phases up to the middle and one step back; for middle 0 one phase below zero, in 32 bits. |
| `DqsEnable.MeetMiddle` | gateware/project/ip/ddr3_av_2x32/ddr3_av_2x32/ddr3_av_2x32_s0_software/sequencer.c:4558-4562 | Whole phases short of the middle, then chain taps that reach it by less than one tap. |
| `DqsEnable.CentreEnable` | gateware/project/ip/ddr3_av_2x32/ddr3_av_2x32/ddr3_av_2x32_s0_software/sequencer.c:4549-4580 | The settings are in range exactly for a positive middle; they meet it from above by less than one chain tap in the same cycle, except that phase 0 is replaced by phase 1 alone. |
| `TestMask.ShiftIn` | gateware/project/ip/ddr3_av_2x32/ddr3_av_2x32/ddr3_av_2x32_s0_software/sequencer.c:3797-3813 | Shifting the word by one group and adding the next keeps each group's bits in its own place. |
| `TestMask.TestRank` | gateware/project/ip/ddr3_av_2x32/ddr3_av_2x32/ddr3_av_2x32_s0_software/sequencer.c:3797-3814 | One rank: a bit is set exactly if some virtual group covering it reported no error there. |
| `TestMask.Calibrate` | gateware/project/ip/ddr3_av_2x32/ddr3_av_2x32/ddr3_av_2x32_s0_software/sequencer.c:3750-3837 | A bit of the result is set exactly if it is good in every rank not skipped; ALL means all expected bits, ONE means some. |
| `TestMask.LawIffMaskMatches` | gateware/project/ip/ddr3_av_2x32/ddr3_av_2x32/ddr3_av_2x32_s0_software/sequencer.c:3798-3813 | That position k is bit k % w of virtual group k / w, whatever the errors, holds exactly if the mask covers the position and does not reach it from the group before. |
| `TestMask.MatchingMask` | gateware/project/ip/ddr3_av_2x32/ddr3_av_2x32/ddr3_av_2x32_s0_software/sequencer.c:3798-3813 | Where the mask matches, the position is that bit. |
| `TestMask.NarrowMask` | gateware/project/ip/ddr3_av_2x32/ddr3_av_2x32/ddr3_av_2x32_s0_software/sequencer.c:717-722 | A position the mask does not cover is never set. |
| `TestMask.WideMask` | gateware/project/ip/ddr3_av_2x32/ddr3_av_2x32/ddr3_av_2x32_s0_software/sequencer.c:717-722 | Where the mask reaches over from the group before, a good bit there hides an error. |
| `TestMask.MaskWitnesses` | gateware/project/ip/ddr3_av_2x32/ddr3_av_2x32/ddr3_av_2x32_s0_software/sequencer.c:717-722 | A geometry for each mismatch. |
| `TestMask.OneGroupPerBit` | gateware/project/ip/ddr3_av_2x32/ddr3_av_2x32/ddr3_av_2x32_s0_software/sequencer.c:3767-3815 | With masks as wide as shifts, bit k of the result is set exactly if bit k % w of virtual group k / w is good in every rank not skipped. |
| `TestMask.NarrowMaskNeverPasses` | gateware/project/ip/ddr3_av_2x32/ddr3_av_2x32/ddr3_av_2x32_s0_software/sequencer.c:717-722 | Asking for all bits fails for good if the mask leaves one of them out. |
| `MemCalibrate.Status.SetFailing` | gateware/project/ip/ddr3_av_2x32/ddr3_av_2x32/ddr3_av_2x32_s0_software/sequencer.c:591-611 | The first failure reported is the one remembered. |
| `MemCalibrate.Status.Reads` | gateware/project/ip/ddr3_av_2x32/ddr3_av_2x32/ddr3_av_2x32_s0_software/sequencer.c:9239-9253 | The read stages of a group run in order up to the first failure. |
| `MemCalibrate.Status.Writes` | gateware/project/ip/ddr3_av_2x32/ddr3_av_2x32/ddr3_av_2x32_s0_software/sequencer.c:9272-9302 | The write stages of a group run per shadow register not skipped, all of them when sweeping. |
| `MemCalibrate.Status.Group` | gateware/project/ip/ddr3_av_2x32/ddr3_av_2x32/ddr3_av_2x32_s0_software/sequencer.c:9239-9322 | A group's stages in order, each only if the ones before it passed. |
| `MemCalibrate.Status.Calibrate` | gateware/project/ip/ddr3_av_2x32/ddr3_av_2x32/ddr3_av_2x32_s0_software/sequencer.c:9169-9437 | Success exactly if every group not skipped succeeds in every stage, and the latency is found when none is skipped. The error fields name the first thing reported by the first stage, in the order of the run, that reports anything: the first pin without a window, or else the failing stage itself; they stay NIL if none does. Where stopping at failures nothing is reported after the first failing stage; where sweeping every group that fails reports the stage it got to. |
| `CalibrationStages.ExitIsHonest` | gateware/project/ip/ddr3_av_2x32/ddr3_av_2x32/ddr3_av_2x32_s0_software/sequencer.c:5994-5998 | No exit of a stage fails silently, and none reports stage NIL, whatever its deskews reported on the way. |
| `CalibrationStages.Success` | gateware/project/ip/ddr3_av_2x32/ddr3_av_2x32/ddr3_av_2x32_s0_software/sequencer.c:9193-9437 | The verdict in terms of what the stages find: read calibration, write deskew per shadow register, read deskew after writes, read latency. |
| `MemCalibrate.SliceRuns` | gateware/project/ip/ddr3_av_2x32/ddr3_av_2x32/ddr3_av_2x32_s0_software/sequencer.c:9206-9232 | A group runs exactly if some bit of its slice of the skip word is clear. |
| `CalibrationStages.GroupsPass` | gateware/project/ip/ddr3_av_2x32/ddr3_av_2x32/ddr3_av_2x32_s0_software/sequencer.c:9208-9403 | Groups pass, in either mode, exactly if every stage of every group not skipped passes. |
| `CalibrationStages.Verdict` | gateware/project/ip/ddr3_av_2x32/ddr3_av_2x32/ddr3_av_2x32_s0_software/sequencer.c:9193-9437 | The verdict in either mode: all stages of all groups not skipped, and the latency stage when none is skipped; a failure was reported. |
| `CalibrationStages.GroupsBegin` | gateware/project/ip/ddr3_av_2x32/ddr3_av_2x32/ddr3_av_2x32_s0_software/sequencer.c:9248-9290 | What stop-at-first reports is the beginning of what sweep-all reports. |
| `CalibrationStages.ModesAgree` | gateware/project/ip/ddr3_av_2x32/ddr3_av_2x32/ddr3_av_2x32_s0_software/sequencer.c:9248-9290 | Sweeping all groups changes neither the verdict nor the failure remembered. |
| `CalibrationStages.GroupsShare` | gateware/project/ip/ddr3_av_2x32/ddr3_av_2x32/ddr3_av_2x32_s0_software/sequencer.c:9223-9242 | With the read groups dealt out evenly, a write group has its own next in order and runs exactly if the skip bit of one of them is clear. |
| `CalibrationReports.MissIsReported` | gateware/project/ip/ddr3_av_2x32/ddr3_av_2x32/ddr3_av_2x32_s0_software/sequencer.c:7402-7411 | Of several deskews with a pin that has no window, the first one's pin is reported first. |
| `CalibrationReports.ExitReports` | gateware/project/ip/ddr3_av_2x32/ddr3_av_2x32/ddr3_av_2x32_s0_software/sequencer.c:5994-5998 | The four exits: a stage reports something exactly if it fails or some deskew of it found a pin without a window; that pin comes first, a failing stage's own report last, with the stage, substage and group each exit names. |
| `CalibrationReports.FirstReport` | gateware/project/ip/ddr3_av_2x32/ddr3_av_2x32/ddr3_av_2x32_s0_software/sequencer.c:591-611 | The first report of a run is the first of the first stage, in order, that reports anything. |
| `CalibrationReports.NoReport` | gateware/project/ip/ddr3_av_2x32/ddr3_av_2x32/ddr3_av_2x32_s0_software/sequencer.c:591-611 | A run none of whose stages has anything to report reports nothing. |
| `CalibrationReports.LastReport` | gateware/project/ip/ddr3_av_2x32/ddr3_av_2x32/ddr3_av_2x32_s0_software/sequencer.c:9246-9251 | Where calibration stops at failures, the last report is the first failing stage's own. |
| `CalibrationReports.EveryGroupReports` | gateware/project/ip/ddr3_av_2x32/ddr3_av_2x32/ddr3_av_2x32_s0_software/sequencer.c:9208-9403 | Where all groups are swept, each failing group reports the stage it got to, all shadow registers tried. |
| `Alarms.ArmExact` | gateware/project/software/nios4usb_bsp/HAL/src/alt_alarm_start.c:82-96 | The wrapped deadline with its flag stands for the unbounded one for every interval but the longest, which works only right before the counter wraps. |
| `Alarms.LongestIntervalAliases` | gateware/project/software/nios4usb_bsp/HAL/src/alt_alarm_start.c:82-96 | The longest interval otherwise lets the alarm run on the very next tick. |
| `Alarms.TickExact` | gateware/project/software/nios4usb_bsp/HAL/src/alt_tick.c:109-115 | With the flag cleared at the wrap, the 32-bit comparison holds exactly on the unbounded deadline. |
| `Alarms.Timer.Start` | gateware/project/software/nios4usb_bsp/HAL/src/alt_alarm_start.c:64-112 | Registers an alarm due nticks + 1 ticks on, with the two error cases; exactly for which intervals the stored deadline is right. |
| `Alarms.Timer.Arm` | gateware/project/software/nios4usb_bsp/HAL/src/alt_alarm_start.c:75-96 | The fields stored. |
| `Alarms.Timer.Stop` | gateware/project/software/nios4usb_bsp/HAL/src/alt_tick.c:66-73 | Unlists the alarm and touches no other. |
| `Alarms.Timer.Visit` | gateware/project/software/nios4usb_bsp/HAL/src/alt_tick.c:109-139 | One alarm on one tick: runs exactly when due, is renewed from this tick or ends. |
| `Alarms.Timer.VisitNext` | gateware/project/software/nios4usb_bsp/HAL/src/alt_tick.c:100-141 | One step of the list walk, with unlinking on the way. |
| `Alarms.Timer.Tick` | gateware/project/software/nios4usb_bsp/HAL/src/alt_tick.c:87-141 | A tick runs exactly the alarms that are due in unbounded time, each once, across any number of counter wraps. |
| `Alarms.TimeAdvances` | gateware/project/software/nios4usb_bsp/HAL/src/alt_tick.c:96 | Time never runs backwards over a run. |
| `Alarms.RunsOnSchedule` | gateware/project/software/nios4usb_bsp/HAL/src/alt_tick.c:87-141 | Over every run an alarm nobody starts or stops meanwhile runs exactly at its deadline and then each returned period later: no drift, no extra or missed run, nothing after a 0. |
| `Alarms.RunsNoMore` | gateware/project/software/nios4usb_bsp/HAL/src/alt_tick.c:121-124 | An alarm that is not pending does not run. |
| `Alarms.StartedRunsOnSchedule` | gateware/project/software/nios4usb_bsp/HAL/src/alt_alarm_start.c:75-98 | Started on some tick and then left alone, an alarm first runs nticks + 1 ticks later, and then on schedule. |
| `Alarms.StoppedRunsNoMore` | gateware/project/software/nios4usb_bsp/HAL/src/alt_tick.c:66-73 | Stopped and then left alone, it does not run. |
| `Alarms.NoDrift` | gateware/project/software/nios4usb_bsp/HAL/src/alt_tick.c:119-135 | With a constant period q the i-th run is i * q ticks after the first, for as long as the run goes on. |
| `Alarms.Execute` | gateware/project/software/nios4usb_bsp/HAL/src/alt_tick.c:66-141 | The real timer over any sequence of starts, stops and ticks runs the alarms the specification runs, tick for tick and each once a tick. |
| `Digits.ValueOfShortest` | gateware/project/software/nios4usb_bsp/HAL/src/alt_log_printf.c:282-296 | The digits printed stand for the number. |
| `Digits.ShortestIsUnique` | gateware/project/software/nios4usb_bsp/HAL/src/alt_log_printf.c:247-255 | No other digits without a leading zero do. |
| `Digits.PaddedHead` | gateware/project/software/nios4usb_bsp/HAL/src/alt_log_printf.c:286-295 | Leading digit by division and the rest by remainder give the same digits as from the right. |
| `Digits.PaddedDigit` | gateware/project/software/nios4usb_bsp/HAL/src/alt_printf.c:104-106 | Any digit by shifting and masking, for a power-of-two base by division. |
| `Digits.ShortestLength` | gateware/project/software/nios4usb_bsp/HAL/src/alt_log_printf.c:248-255 | Each division by the base removes one digit. |
| `IntegerText.ReadRendered` | gateware/project/software/nios4usb_bsp/HAL/src/alt_log_printf.c:206-297 | For every word, base, sign mode, width and fill the text reads back as the number, the most negative included. |
| `IntegerText.RenderedLength` | gateware/project/software/nios4usb_bsp/HAL/src/alt_log_printf.c:257-279 | The text is as long as the larger of the width and sign plus digits. |
| `IntegerText.RenderedFill` | gateware/project/software/nios4usb_bsp/HAL/src/alt_log_printf.c:257-279 | Room left over is filled with spaces before the sign, or with zeros between the sign and the digits if the flag asks for them. |
| `IntegerText.RenderedCase` | gateware/project/software/nios4usb_bsp/HAL/src/alt_log_printf.c:286-291 | Letters among the digits are upper-case exactly if asked for. |
| `IntegerText.BodyIsShortest` | gateware/project/software/nios4usb_bsp/HAL/src/alt_log_printf.c:247-255 | No shorter digit sequence stands for the number. |
| `IntegerText.CountDigits` | gateware/project/software/nios4usb_bsp/HAL/src/alt_log_printf.c:247-255 | Counts the digits and finds the largest place value, which never overflows 32 bits. |
| `IntegerText.PrintDigits` | gateware/project/software/nios4usb_bsp/HAL/src/alt_log_printf.c:281-296 | The digit loop prints the digits from the given place value down. |
| `IntegerText.TakeDigit` | gateware/project/software/nios4usb_bsp/HAL/src/alt_log_printf.c:284-295 | One digit, the remainder and the next place value. |
| `IntegerText.RepeatChar` | gateware/project/software/nios4usb_bsp/HAL/src/alt_log_printf.c:106-110 | A fill character as often as asked, or not at all. |
| `IntegerText.PrintLead` | gateware/project/software/nios4usb_bsp/HAL/src/alt_log_printf.c:257-279 | Fill and sign in the right order for both kinds of fill. |
| `IntegerText.StripSign` | gateware/project/software/nios4usb_bsp/HAL/src/alt_log_printf.c:238-245 | Sign and magnitude of a two's complement word. |
| `IntegerText.PrintInteger` | gateware/project/software/nios4usb_bsp/HAL/src/alt_log_printf.c:206-297 | One integer conversion prints the specified text, which reads back as the number. |
| `Formats.IntegerPrints` | gateware/project/software/nios4usb_bsp/HAL/src/alt_log_printf.c:200-320 | %d and %i print the two's complement value in base 10, %u the word in base 10, %o in base 8, %x and %X in base 16, %X without lower-case letters. |
| `Formats.ConvertedMeans` | gateware/project/software/nios4usb_bsp/HAL/src/alt_log_printf.c:196-336 | That, and %c and %s right-justified in the width; a wider integer field is filled as the flag says, a narrower width changes nothing. |
| `LogPrintf.PrintsPieces` | gateware/project/software/nios4usb_bsp/HAL/src/alt_log_printf.c:130-340 | The state machine prints, piece by piece, what a well-formed format spells: flag, width, precision and length modifier of any length. |
| `LogPrintf.PrintsConversion` | gateware/project/software/nios4usb_bsp/HAL/src/alt_log_printf.c:134-337 | One whole conversion specification. |
| `LogPrintf.AlikePrintAlike` | gateware/project/software/nios4usb_bsp/HAL/src/alt_log_printf.c:130-340 | Nothing else a conversion leaves in the machine reaches the next one. |
| `LogPrintf.ExtendedReads` | gateware/project/software/nios4usb_bsp/HAL/src/alt_log_printf.c:179-190 | The width is the number its digits spell. |
| `LogPrintf.PrecisionDigits` | gateware/project/software/nios4usb_bsp/HAL/src/alt_log_printf.c:191-194 | A precision is read and has no effect. |
| `LogPrintf.ConversionMeans` | gateware/project/software/nios4usb_bsp/HAL/src/alt_log_printf.c:134-337 | A whole conversion specification prints its argument as its letter, flag and width mean, for every precision and length modifier. |
| `LogPrintf.ArgumentsInOrder` | gateware/project/software/nios4usb_bsp/HAL/src/alt_log_printf.c:134-337 | What a piece prints does not depend on what follows, and what follows a conversion begins with the next argument. |
| `LogPrintf.UnknownLetterIsSilent` | gateware/project/software/nios4usb_bsp/HAL/src/alt_log_printf.c:196-337 | A letter that means nothing ends the conversion, prints nothing and takes no argument. |
| `LogPrintf.PlainMeans` | gateware/project/software/nios4usb_bsp/HAL/src/alt_log_printf.c:134-165 | Plain characters print as themselves and two percent signs as one. |
| `LogPrintf.Print` | gateware/project/software/nios4usb_bsp/HAL/src/alt_log_printf.c:114-341 | The printf loop prints what the machine specification says, and so what a well-formed format spells; a format of one conversion prints what its letter means. |
| `AltPrintf.FirstNibble` | gateware/project/software/nios4usb_bsp/HAL/src/alt_printf.c:98-101 | The first nonzero nibble is the first digit. |
| `AltPrintf.PrintHex` | gateware/project/software/nios4usb_bsp/HAL/src/alt_printf.c:84-113 | The nibble walk prints the shortest hexadecimal digits of every word. |
| `AltPrintf.PrintNibbles` | gateware/project/software/nios4usb_bsp/HAL/src/alt_printf.c:103-112 | The digit loop by shifts. |
| `AltPrintf.Print` | gateware/project/software/nios4usb_bsp/HAL/src/alt_printf.c:50-132 | The tiny printf prints what its specification says and, on a common format, what the log printf prints. |
| `AltPrintf.DirectedAlike` | gateware/project/software/nios4usb_bsp/HAL/src/alt_printf.c:74-121 | Each conversion both printers know prints the same: nibbles against division. |
| `AltPrintf.PrintersAgree` | gateware/project/software/nios4usb_bsp/HAL/src/alt_printf.c:60-128 | On every format whose conversions mean the same to both, the two printers print the same characters for all arguments. |
| `CalibrationLine.InterceptBetweenEndsIffBracket` | gateware/project/software/nios4usb_app/main.c:1025-1029 | The line's zero lies between the two DAC settings exactly when the two errors have zero between them. |
| `CalibrationLine.InterceptWithinHalf` | gateware/project/software/nios4usb_app/main.c:1025-1033 | For errors that bracket zero the programmed intercept is within half a count of the exact one and inside [0x1938, 0xE2F3]. |
| `CalibrationLine.CorrectionIsNear` | gateware/project/software/nios4usb_app/main.c:1053-1073 | Rounding, dividing and truncating loses at most 0.5, 0.95 or 0.995 counts over 1, 10 or 100 seconds, and never goes beyond the share. |
| `CalibrationLine.FineStepLands` | gateware/project/software/nios4usb_app/main.c:1052-1078 | One fine adjustment lands within that of the intercept, plus the error's own inaccuracy. |
| `CalibrationLine.RoundIsNear` | gateware/project/software/nios4usb_app/main.c:1029 | To the nearest integer, and of two to the one away from zero. |
| `Oscillators.GainIsNear` | gateware/project/software/nios4usb_app/main.c:1025-1026 | On an oscillator the measured slope turns errors into DAC counts as the oscillator's gain does, up to a sixteenth. |
| `Oscillators.InterceptIsNear` | gateware/project/software/nios4usb_app/main.c:1025-1029 | The measured line meets zero where the oscillator does, up to what a measurement is off by and a sixteenth. |
| `Oscillators.ExactMeasurement` | gateware/project/software/nios4usb_app/main.c:1025-1029 | Measured without error, slope and intercept are the oscillator's own. |
| `Oscillators.InterceptTames` | gateware/project/software/nios4usb_app/main.c:1028-1034 | The intercept programmed is within half a count of the oscillator's zero, and that. |
| `Oscillators.AdjustmentTames` | gateware/project/software/nios4usb_app/main.c:1052-1078 | One fine adjustment, from wherever the DAC stands: of the distance to the oscillator's zero at most a sixteenth, a count, and what the measurements are off by remain. |
| `Calibration.StatesInOrder` | gateware/project/software/nios4usb_app/main.c:983-1078 | From the start of an enable period the states come in order, one a packet, and the line is that of this period's two measurements. |
| `Calibration.FineTuneUsesThisPeriod` | gateware/project/software/nios4usb_app/main.c:1042-1078 | Every fine adjustment uses the slope measured in the same enable period. |
| `Calibration.FineTuneStays` | gateware/project/software/nios4usb_app/main.c:1042-1078 | A fine adjustment by an error that shows the distance to the intercept keeps the DAC near it. |
| `Calibration.StaysTuned` | gateware/project/software/nios4usb_app/main.c:983-1078 | Over every run of packets, once coarsely tuned by bracketing errors the DAC stays within a count of the intercept, up to the errors' inaccuracy. |
| `Calibration.FineTuneTames` | gateware/project/software/nios4usb_app/main.c:1042-1078 | A packet with an error out of tolerance is acted on by the shortest such period, of 1, 10 or 100 seconds, and brings the DAC near the oscillator's zero; any other leaves the DAC alone. |
| `Calibration.TamesOscillator` | gateware/project/software/nios4usb_app/main.c:983-1078 | On any oscillator whose errors, counted at the DAC count held, show its zero up to `off` counts, the coarse errors are those at 0x1938 and 0xE2F3 in this order, and in fine tuning the DAC stands within 1.1 + 1.2 off counts of that zero, whatever the gain and its sign. |
| `Calibration.LineIsOscillators` | gateware/project/software/nios4usb_app/main.c:1011-1034 | Counted without error, the slope is the oscillator's gain and the line's intercept its zero. |
| `Tamer.VctcxoTamer.SetTuneMode` | gateware/project/software/nios4usb_app/vctcxo_tamer.c:53-92 | Sets the mode, and keeps the interrupt off in every write but possibly the last; an invalid mode writes nothing. |
| `Tamer.VctcxoTamer.ResetCounters` | gateware/project/software/nios4usb_app/vctcxo_tamer.c:26-35 | Sets or clears the reset bit alone and writes the cached register. |
| `Tamer.VctcxoTamer.EnableIsr` | gateware/project/software/nios4usb_app/vctcxo_tamer.c:37-46 | Sets or clears the interrupt bit alone and writes the cached register. |
| `Tamer.VctcxoTamer.ClearIsr` | gateware/project/software/nios4usb_app/vctcxo_tamer.c:48-51 | Writes the clear bit without caching it. |
| `Tamer.VctcxoTamer.TrimDacWrite` | gateware/project/software/nios4usb_app/vctcxo_tamer.c:107-119 | The two bytes written make up the value. |
| `Tamer.VctcxoTamer.Isr` | gateware/project/software/nios4usb_app/vctcxo_tamer.c:122-152 | Takes the packet and leaves the counters stopped and the interrupt off, never enabling it on the way. |
| `Tamer.VctcxoTamer.Init` | gateware/project/software/nios4usb_app/vctcxo_tamer.c:155-160 | Switching on ends in 1PPS mode with counters running and interrupt on. |
| `Tamer.VctcxoTamer.Dis` | gateware/project/software/nios4usb_app/vctcxo_tamer.c:162-168 | Switching off ends with counters in reset and interrupt off. |
| `Tamer.VctcxoTamer.ControlTcxoDac` | gateware/project/software/nios4usb_app/main.c:334-357 | Output enabled: the cached value follows; three-state: it does not change. |
| `Tamer.VctcxoTamer.Tune` | gateware/project/software/nios4usb_app/main.c:983-1085 | Handles a packet as the calibration specification says; the three copies of the DAC value and the state register agree afterwards, and a value set has been written to the tuned-value registers and drives the output. |
| `Tamer.VctcxoTamer.Poll` | gateware/project/software/nios4usb_app/main.c:955-976 | Interrupt, then enable bit: a packet is pending exactly if the tamer was just switched on or was interrupted while on. |
| `Tamer.VctcxoTamer.Handle` | gateware/project/software/nios4usb_app/main.c:979-1093 | A pending packet is handled and the counters and the interrupt are restarted. |
| `Tamer.VctcxoTamer.Serve` | gateware/project/software/nios4usb_app/main.c:1330-1349 | The host's DAC commands keep the three copies of the DAC value equal; the last value sent stands, and the output is enabled exactly if the last command set it. |
| `Tamer.VctcxoTamer.Iterate` | gateware/project/software/nios4usb_app/main.c:955-1093 | Every iteration of the main loop ends settled: cached control byte as last written, nothing pending, on means 1PPS, running and interrupt on, off means interrupt off and the first state, DAC values agree, and no write ever enabled the interrupt with the counters in reset. |
| `Tamer.SteadySince` | gateware/project/software/nios4usb_app/main.c:962-976 | A period begins with a change of the enable bit, which then stays. |
| `Tamer.OnlySince` | gateware/project/software/nios4usb_app/main.c:966-1085 | The calibration is what the events of the current period make of its beginning in the first state. |
| `Tamer.PacketsSince` | gateware/project/software/nios4usb_app/main.c:955-981 | The packets handled in a period: one on switching on, then the counts of every interrupt, in order. |
| `Tamer.FineTuneIsMeasured` | gateware/project/software/nios4usb_app/main.c:983-1078 | In fine tuning the slope is that of the error counts of the first two interrupts since the tamer was switched on, and it has been on all along. |
| `Tamer.TunedOverRuns` | gateware/project/software/nios4usb_app/main.c:983-1078 | In every run, if the oscillator follows the line measured in the current period and its errors bracket zero, the DAC stands within a count of the intercept, up to the errors' inaccuracy. |
| `Tamer.LastWriteStands` | gateware/project/software/nios4usb_app/main.c:1330-1349 | The DAC ends at the last value the host sent, or where it was. |
| `Tamer.TamesOverRuns` | gateware/project/software/nios4usb_app/main.c:955-1093 | In every run, if the tamer has been on an oscillator since it was switched on and the host has left the DAC alone since the first packet, the DAC stands within 1.1 + 1.2 off counts of the oscillator's zero in fine tuning. |
| `Tamer.Run` | gateware/project/software/nios4usb_app/main.c:955-1093 | Every run from power-up ends settled with the calibration its inputs determine; in fine tuning the slope was measured in this period, the DAC is near the intercept of its line, and on an oscillator its output is near the oscillator's zero. |
| `WallClock.Normalise` | gateware/project/software/nios4usb_bsp/HAL/src/alt_gettod.c:95-112 | The two loops normalise, and clamp to zero exactly if the borrow exceeds the seconds. |
| `WallClock.Clock.SetTimeOfDay` | gateware/project/software/nios4usb_bsp/HAL/src/alt_settod.c:72-96 | The base time kept, in 32 bits; nothing changes without a clock. |
| `WallClock.Clock.GetTimeOfDay` | gateware/project/software/nios4usb_bsp/HAL/src/alt_gettod.c:71-124 | The reading, in 64 bits; the buffers are untouched without a clock. |
| `WallClock.TicksAdd` | gateware/project/software/nios4usb_bsp/HAL/src/alt_gettod.c:91-93 | For a rate dividing a million, whole seconds and remaining microseconds make up the ticks' time. |
| `WallClock.SumIs` | gateware/project/software/nios4usb_bsp/HAL/src/alt_gettod.c:91-93 | What set and get add up to, microsecond for microsecond, up to the 32-bit loss and wraps of the seconds. |
| `WallClock.NoWrapNoShift` | gateware/project/software/nios4usb_bsp/HAL/src/alt_gettod.c:91 | Without a wrap of the ticks the seconds do not wrap. |
| `WallClock.WrapsDoNotCancel` | gateware/project/software/nios4usb_bsp/HAL/src/alt_gettod.c:79-93 | At two or more ticks a second a wrap of the tick counter is never made up for. |
| `WallClock.ClockLaw` | gateware/project/software/nios4usb_bsp/HAL/src/alt_gettod.c:79-112 | A get e ticks after a set returns the set time plus the ticks' time if and only if the 32-bit product lost nothing and the ticks did not wrap (harmless at one tick a second); the clamp is then never taken. |
| `WallClock.BackAtOnce` | gateware/project/software/nios4usb_bsp/HAL/src/alt_settod.c:82-84 | For any rate, a get right after a set returns the set time exactly if the product lost nothing (or both are zero). |
| `WallClock.NothingLost` | gateware/project/software/nios4usb_bsp/HAL/src/alt_settod.c:83-84 | The 32-bit product loses nothing exactly if the multiples of 2^32 it drops are a multiple of 15625. |
| `WallClock.LossWitness` | gateware/project/software/nios4usb_bsp/HAL/src/alt_settod.c:83-84 | At 1000 ticks a second a set and get at tick 4294968 disagree. |
| `WallClock.KeepsTimeIffEvenRate` | gateware/project/software/nios4usb_bsp/HAL/src/alt_gettod.c:79-112 | After a set at tick 0 every get returns the set time plus the time really elapsed, in whole microseconds, exactly if the rate divides a million. |
| `WallClock.SlowRateRunsAhead` | gateware/project/software/nios4usb_bsp/HAL/src/alt_gettod.c:91-93 | At any other rate below a million the clock is ahead after a second's worth of ticks. |
| `WallClock.FastRateStands` | gateware/project/software/nios4usb_bsp/HAL/src/alt_gettod.c:91-93 | Above a million the clock has not moved one tick before a full second. |
| `FdTable.InitialIsSound` | gateware/project/software/nios4usb_bsp/HAL/src/alt_dev.c:118-149 | The start-up table meets the invariant. |
| `FdTable.FirstFree` | gateware/project/software/nios4usb_bsp/HAL/src/alt_get_fd.c:77-89 | The lowest free slot. |
| `FdTable.OpenKeepsSound` | gateware/project/software/nios4usb_bsp/HAL/src/alt_open.c:105-171 | Opening keeps the invariant of the table: slots above 2 in use lie at or below the mark, free slots have no flags, and a lock holder that shares its device is the only one and below the mark. |
| `FdTable.ReleaseKeepsSound` | gateware/project/software/nios4usb_bsp/HAL/src/alt_release_fd.c:44-51 | Closing keeps it. |
| `FdTable.ControlKeepsSound` | gateware/project/software/nios4usb_bsp/HAL/src/alt_fd_lock.c:54-75 | Locking and unlocking keep it, although the scan stops short of the mark. |
| `FdTable.RedirectKeepsSound` | gateware/project/software/nios4usb_bsp/HAL/src/alt_io_redirect.c:58-72 | Redirecting a standard stream keeps it. |
| `FdTable.RunStaysSound` | gateware/project/software/nios4usb_bsp/HAL/src/alt_open.c:64-171 | It holds at every point of every run. |
| `FdTable.RunIsSafe` | gateware/project/software/nios4usb_bsp/HAL/src/alt_fd_lock.c:54-75 | At no point of a run do two descriptors hold the lock of one device, nor is one above the mark in use. |
| `FdTable.LockedDeviceGainsNone` | gateware/project/software/nios4usb_bsp/HAL/src/alt_open.c:64-92 | While a descriptor holds a device's lock, opening the device fails and no step adds a descriptor of it. |
| `FdTable.HolderBelowMark` | gateware/project/software/nios4usb_bsp/HAL/src/alt_fd_lock.c:61-69 | A granted lock is shared with the descriptor at the mark at most. |
| `FdTable.GrantExcludesIff` | gateware/project/software/nios4usb_bsp/HAL/src/alt_fd_lock.c:37-48 | A granted lock excludes all other descriptors of the device if and only if the one at the mark is the holder or of another device. |
| `FdTable.DeniedOnlyIfShared` | gateware/project/software/nios4usb_bsp/HAL/src/alt_fd_lock.c:61-68 | A lock is denied only if another descriptor of the device is in use. |
| `FdTable.OpenSays` | gateware/project/software/nios4usb_bsp/HAL/src/alt_open.c:105-171 | Each answer of open in terms of the slots; it claims the lowest free slot or leaves every slot as it was, and raises the mark to a slot claimed even if it is not kept. |
| `FdTable.RedirectSays` | gateware/project/software/nios4usb_bsp/HAL/src/alt_io_redirect.c:58-72 | Redirecting changes the stream's slot alone, or none. |
| `FdTable.ControlSays` | gateware/project/software/nios4usb_bsp/HAL/src/alt_ioctl.c:126-150 | The lock requests change the descriptor's own flag alone. |
| `FdTable.UnlockFrees` | gateware/project/software/nios4usb_bsp/HAL/src/alt_fd_unlock.c:52-56 | Once the holder has unlocked it, nobody holds the device. |
| `FdTable.SharedLockWitness` | gateware/project/software/nios4usb_bsp/HAL/src/alt_fd_lock.c:61-69 | Two opens and a lock on the first: granted, with the second still open. |
| `FdTable.CloseUnlocksIff` | gateware/project/software/nios4usb_bsp/HAL/src/alt_release_fd.c:44-51 | Closing the holder of a device's lock leaves the device unlocked exactly if the holder is not a standard stream. |
| `FdTable.StreamKeepsLockWitness` | gateware/project/software/nios4usb_bsp/HAL/src/alt_io_redirect.c:58-72 | A stream redirected to a device and locked keeps the lock when closed, and opening the device fails. |
| `FdTable.Pool.GetFd` | gateware/project/software/nios4usb_bsp/HAL/src/alt_get_fd.c:54-101 | Claims the lowest free slot and raises the mark, or fails with all slots in use. |
| `FdTable.Pool.ReleaseFd` | gateware/project/software/nios4usb_bsp/HAL/src/alt_release_fd.c:44-51 | Frees a slot above 2. |
| `FdTable.Pool.FileLocked` | gateware/project/software/nios4usb_bsp/HAL/src/alt_open.c:64-92 | Marks the descriptor and finds another holder up to the mark, if there is one. |
| `FdTable.Pool.Open` | gateware/project/software/nios4usb_bsp/HAL/src/alt_open.c:105-171 | Open yields the lowest free slot, which alone changes, or the right error, and a failed open leaves every slot as it was. |
| `FdTable.Pool.Close` | gateware/project/software/nios4usb_bsp/HAL/src/alt_close.c:64-101 | Frees the slot whatever the driver answers. |
| `FdTable.Pool.FdLock` | gateware/project/software/nios4usb_bsp/HAL/src/alt_fd_lock.c:54-75 | Grants exactly if no other descriptor below the mark is of the device. |
| `FdTable.Pool.FdUnlock` | gateware/project/software/nios4usb_bsp/HAL/src/alt_fd_unlock.c:52-56 | Clears the holder's flag alone. |
| `FdTable.Pool.Ioctl` | gateware/project/software/nios4usb_bsp/HAL/src/alt_ioctl.c:106-168 | Lock requests on devices are the table's, everything else the driver's. |
| `FdTable.Pool.OpenFd` | gateware/project/software/nios4usb_bsp/HAL/src/alt_io_redirect.c:58-72 | A stream takes over what open found, or stays where it was; no other slot changes. |

## Left out

- Register access, SPI and I2C transfers, PLL and peripheral set-up: straight-line device writes.
- Eyes.Eye.EdgesFound: the strobe's delay range is taken to be no longer than the DQ range (both are 31 in this
  build); with a longer one a real edge could equal the value that marks an unseen one.
- Memory test microcode and electrical timing: replaced by the oracles described above.
- Build variants that are switched off: centring of the write strobe, moving DQS-enable along with DQS, QDR and
  RLDRAM, hard PHY, write levelling, non-destructive calibration, reports and figures of merit.
- Steps 1 to 5 of the DQS-enable search, which skip phase 0 and so hand a positive middle to step 6, and the retries
  around read deskew: `CalibrationStages` takes a stage's deskews and its verdict as given and models its exit.
- `CALIB_SKIP_ALL` and the skip flags of single stages; the calibration loop runs once, as the build sets it.
- Read deskew by write tests, when several read groups share a write group, shifts the neighbours' verdicts into
  the test word; the model's word holds the group's own bits, as in this build.
- delay_for_n_mem_clocks and the latency FIFO search: small counting loops.
- DqsEnable.CentreEnable: sums of delays are unbounded integers except for the step below zero, because they stay
  far below 32 bits for the ranges that exist.
- Alarms: the linked list is a sequence; callbacks act only through their return value and do not start or stop
  alarms; stopping an alarm that was never listed is harmless here.
- LogPrintf.Print: width and precision do not overflow, and a missing or mistyped argument, undefined in C, reads
  as 0 or as an empty string.
- AltPrintf.PrintHex: mask and shift of a nibble are written as division and remainder by powers of 16.
- CalibrationLine: floating-point rounding; conversions of out-of-range values wrap modulo 2^16, and where the two
  errors are equal the undefined results are arbitrary values.
- Calibration.TamesOscillator: measurements are off by at most 1500 DAC counts, and the oscillator's zero lies
  within the DAC range.
- Tamer: other commands of the host, and reading the error counts byte by byte; the control byte is a record of its
  named bits, the others being 0 throughout.
- WallClock.ClockLaw: the last representable second, where the sum of the seconds can overflow a step early.
- FdTable: names, the drivers' own open, close and ioctl beyond their answers, private data, fcntl, and the lock
  around the pool; naming a descriptor that is not in use is undefined in the source and not allowed here.
