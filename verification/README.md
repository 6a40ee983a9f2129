# HOSA decision pipeline, verified in Dafny

HOSA is an agent that watches a Linux host and throttles it before it collapses.
Readings of four probes enter a ring buffer; an incremental accumulator learns
their mean and covariance; Gauss-Jordan elimination inverts the covariance; a
Mahalanobis distance scores the newest reading; an exponential average, a
derivative and a hysteresis machine turn the score into one of five alert levels;
the level drives control-file writes and an event log. This project models that
pipeline from the matrix cells to the main loop and proves what it is for.

Check it with `dafny verify dfyconfig.toml`.

## The main theorems

- **Inversion is total and exact.** `Linalg.Matrix.Inverse` succeeds exactly on
  the nonsingular matrices, and its result is a two-sided inverse. The loop
  carries a ghost matrix that undoes every row operation.
- **The fast form is the slow form.** In every reachable state the accumulator of
  `Welford` holds the batch mean and scatter of its whole history.
- **A score is bounded by its own baseline.** The newest reading is part of the
  baseline that scores it, so n * D^2 <= (n-1)^2 for n readings
  (`Mahalanobis.OwnStressBounded`), with equality exactly for the first reading that makes
  the covariance invertible (`Sharpness.BoundIffFirst`). The
  squared scores of a history sum to p * (n-1) (`StressConserved`).
- **Levels take time.** Carried through smoothing, escalation and hysteresis over
  every run, the bound says how many readings a level needs
  (`CortexRuns.LevelNeedsReadings`): with the default thresholds no Survival before
  reading 66, no Protection before 33, and both counts are reached
  (`LeastCounts.LeastCountsReached`). `Agent.NoEarlyIntervention` is the same
  statement about ticks of the whole agent, its survival motor and its hard limit; since
  the first tick folds nothing, the counts are 67 and 34.
- **Reports are what they should be.** Over every run the reported stress, derivative and
  level are stated from readings, times and earlier reports alone: smoothing
  (`Reports.ReportedScore`), calibration (`Reports.OtherReports`), rises
  (`Reports.ReportedLevel`) and descents (`Reports.LevelFallsOnQuietReports`).
- **Units do not matter.** Every list of readings and times has one run
  (`CortexRuns.RunExists`, `CortexRuns.RunDeterministic`), and rescaling and shifting every probe changes none of
  them (`UnitRuns.RunIgnoresUnits`).
- **Hysteresis is a statement about history** (`FallsIffQuietHistory`), for the machine and
  for the calls of `Analyze` (`CortexRuns.AnalyzeFallsOnQuietCalls`), and bounds
  flapping (`AntiFlapping`), through the cortex (`RunAntiFlapping`) to the number of
  times the motor acts (`Agent.ActuationBounded`). It costs monotonicity: a higher run never
  ends lower exactly without hysteresis (`MonotoneIffOneCycle`).
- **Printer and parser agree** (`CpuList.RoundTrip`), **the BTF walk finds the first
  type of a name** (`Btf.FindsFirst`), **relocation does not depend on map order**, exactly
  when the references are unambiguous (`Relocation.OrderIrrelevantIff`), as those of a
  loaded object are.
- **The agent is an invariant.** `Agent.Agent.RunTick` keeps a predicate that ties the
  ghost run of the cortex, the log, both motors and the interval together.

## How the model is laid out

`float64` is `real`. A matrix is a class over a flat array, and `Value()` is the
mathematical matrix it holds; vectors and matrices in specifications are functions
(`Vectors`). `Samples` defines mean, scatter and covariance of a history once;
`Statistics` and `Welford` are two programs proved against it. `Predictor.Step` is the
specification machine of one call of `Analyze`; `CortexRuns` is about all runs of it.
`Cgroups.ControlFiles` stands for the control files as a map, and which writes fail is
an input of every operation that writes. `Agent` is the main loop; it records, as ghost
state, the run that led to its present state, so that the theorems about runs are
theorems about every valid agent. Where the code panics or does not return, the model has
an explicit outcome (`Btf`, `Relocation`, `CpuList`) or, for a buffer without slots, a
precondition.

## Where the code and its comments part

The model follows the code.

- `Analyze` says that it folds in the most recent reading
  (`internal/brain/predictor.go:133-150`). It folds in the last row of the snapshot.
  After the buffer has wrapped, that row is the newest reading only when a lap has just
  been completed; in between it is the newest reading of the lap before, folded in anew on
  every tick (`Memory.LastRow`, `Memory.LastRowIsNewest`). So after the first lap the
  agent sees one reading in 300 (`Agent.BlindBetweenLaps`).
- `Release` is said to restore the state before Survival
  (`internal/motor/survival.go:122-123`). It writes kernel defaults, and it does not
  write cpuset.cpus at all. `Survival.ReleaseRestores` gives the exact condition under
  which the state is restored, `Survival.PinningStays` a state that is not.
- The comment on the hysteresis constant speaks of going down one level
  (`internal/brain/predictor.go:41-43`). The level drops to the candidate at once
  (`Hysteresis.FallsToCandidate`), by one level exactly when the candidate is the next lower
  one (`Hysteresis.FallsByOneIff`); drops between any two levels are reachable
  (`Hysteresis.FarFall`).
- Containment leaves memory.max alone (`internal/motor/cgroups.go:151-161`), so a
  descent from protection to containment keeps the hard limit.
  `Cgroups.LimitsFollowLevels` states when the limit is in force.
- The main program does not pass a survival threshold on
  (`cmd/hosa/main.go:77-86`), so 12.0 applies (`Agent.Boot`). Thresholds are nowhere
  required to lie below it, and `Hysteresis.BaseLevelReaches` covers every order.
- The configuration check is meant to make protection tighter than containment
  (`internal/config/config.go:394-400`), but lets the protection fraction be left out.
  `Cgroups.ProtectionIsTighterIff` says when it works, `Cgroups.ProtectionCanBeLooser` shows
  a configuration for which it does not.
- A limit write that fails is not tried again while the level stays
  (`Cgroups.FailedWriteIsNotRetried`); `Cgroups.LimitsUnderFaults` says which limits are in
  force after any failures.
- Start-up lines go out with the heartbeat type
  (`internal/brain/thalamic_filter.go:107-121`), so heartbeats are spaced only behind them
  (`Thalamic.HeartbeatsSpaced`, `Thalamic.StartupLinesCrowd`).
- The hysteresis machine is monotone over runs only for h == 1
  (`Hysteresis.MonotoneIffOneCycle`). For every larger h a run that is nowhere lower can end
  lower (`Hysteresis.HigherRunMayEndLower`).
- The CPU-list parser does not return on a range that ends at the largest 64-bit integer,
  because its counter wraps (`CpuList.UnendingIff`, `CpuList.PrintedIsFinite`); it appends
  until memory is exhausted. The counting parser returns, and its count wraps
  (`CpuList.CountOverflows`).
- The BTF search takes a slice with its bounds out of order when the end of a section
  wraps past 2^32 (`Btf.PanicsIffWrapped`, `Btf.HeaderCanPanic`).
- The bounds check of relocation lets negative offsets and the largest one pass, and the
  access behind it panics (`Relocation.LoaderOffset`); `Relocation.NeverPanicsIff` says when
  that can happen. With such an index beside an unknown map, the visiting order decides
  between an error and the panic (`Relocation.OrderDecidesPanic`). Indices beyond 2^60 wrap: 2^61 is taken for
  instruction 0 (`Relocation.IndicesCollide`).

## Model

| member | source | states |
|---|---|---|
| `Linalg.Matrix.Inverse` | internal/linalg/matrix.go:29-95 | for a square matrix of any size: success exactly when no nonzero vector is sent to zero, and then the result is a two-sided inverse; every other matrix is an error of the right kind |
| `Inverses.NoPivotIsSingular` | internal/linalg/matrix.go:46-58 | a column without a pivot yields, explicitly from its reduced entries, a nonzero kernel vector of the matrix to invert |
| `Inverses.ReducedIsInverse` | internal/linalg/matrix.go:86-92 | the right half of a fully reduced [M given I] is both a left and a right inverse of M |
| `Inverses.ReducesSwap` | internal/linalg/matrix.go:60-67 | a row swap keeps the elimination invariant, with the column swap of the ghost matrix that undoes it |
| `Inverses.ReducesDivide` | internal/linalg/matrix.go:69-73 | dividing the pivot row keeps the elimination invariant |
| `Inverses.ReducesSubtract` | internal/linalg/matrix.go:75-83 | subtracting a multiple of the pivot row keeps the elimination invariant |
| `Inverses.InvertibleIsNotSingular` | internal/linalg/matrix.go:44-84 | success excludes every kernel vector |
| `Inverses.InverseIsUnique` | internal/linalg/matrix.go:29-95 | a left and a right inverse of one matrix agree entry by entry, so the pivoting choices do not show in the result |
| `Inverses.InverseExists` | internal/linalg/matrix.go:45-84 | every nonsingular matrix of any size has a two-sided inverse: the elimination as a fact about matrices |
| `Linalg.Matrix.Augmented` | internal/linalg/matrix.go:34-42 | the start of the elimination is [M given I] in every cell |
| `Linalg.Matrix.FindPivot` | internal/linalg/matrix.go:46-54 | the pivot is a row from i down whose absolute value in column i is the largest |
| `Linalg.Matrix.ReduceColumn` | internal/linalg/matrix.go:45-84 | one round clears one more column, or finds none to clear exactly when the column has no nonzero entry from the diagonal down |
| `Linalg.Matrix.BringPivot` | internal/linalg/matrix.go:60-67 | the chosen pivot arrives on the diagonal; cleared columns and the invariant survive |
| `Linalg.Matrix.ScalePivot` | internal/linalg/matrix.go:69-73 | the pivot becomes 1; cleared columns and the invariant survive |
| `Linalg.Matrix.EliminateColumn` | internal/linalg/matrix.go:75-83 | one more column becomes a column of the identity; the invariant survives |
| `Linalg.Matrix.Mul` | internal/linalg/matrix.go:9-25 | success exactly when the inner dimensions agree; every entry is the inner product of a row and a column |
| `Linalg.Matrix.Sub` | internal/linalg/matrix.go:98-108 | success exactly when the dimensions agree; entrywise difference, although the loop runs over the flat storage |
| `Linalg.Matrix.Transpose` | internal/linalg/matrix.go:111-118 | entry (j, i) of the result is entry (i, j), in a fresh matrix of swapped dimensions |
| `Linalg.Matrix.Set` | internal/linalg/structs.go:21-22 | writing one cell of the row-major storage is seen at that cell and at no other |
| `Linalg.IndexInjective` | internal/linalg/structs.go:17-22 | the row-major index i * cols + j determines i and j |
| `Statistics.MeanVector` | internal/linalg/statistics.go:7-20 | each entry is the mean of its column over all observations; without observations, and with a column, the result is NaN, written None |
| `Statistics.CovarianceMatrix` | internal/linalg/statistics.go:23-58 | an error exactly for fewer than two observations, otherwise the sample covariance with divisor n - 1 |
| `Samples.StatisticsIgnoreOrder` | internal/linalg/statistics.go:7-58 | mean and scatter depend on the multiset of observations only |
| `Samples.ScatterAppend` | internal/brain/welford.go:46-79 | the law behind the incremental form: one more reading adds (x - old mean) times (x - new mean), entry by entry, to the scatter |
| `Samples.MeanAppend` | internal/brain/welford.go:60-64 | the law of the running mean: old mean plus deviation over n |
| `Samples.ScatterQuadratic` | internal/linalg/statistics.go:23-58 | the quadratic form of the scatter is a squared length, hence never negative |
| `Samples.KernelIffConstant` | internal/linalg/statistics.go:23-58 | the covariance sends v to zero exactly when v takes one value on all observations |
| `Samples.SingularIffDependent` | internal/brain/predictor.go:160-172 | inversion fails exactly when some nonzero fixed combination of the probes never varied in the history |
| `Samples.StaysInvertible` | internal/brain/welford.go:71-76 | an invertible covariance stays invertible under every further update |
| `Welford.WelfordState.constructor` | internal/brain/welford.go:36-42 | an empty accumulator holds the statistics of the empty history |
| `Welford.WelfordState.Update` | internal/brain/welford.go:46-79 | after any sequence of updates mean and m2 are exactly the batch mean and scatter of the accepted history; a reading of the wrong length changes nothing |
| `Welford.WelfordState.MeanColumn` | internal/brain/welford.go:87-93 | the batch mean of the history as a column |
| `Welford.WelfordState.Covariance` | internal/brain/welford.go:97-110 | an error exactly below two readings, otherwise the batch covariance of the history |
| `Welford.CrossSumsSymmetric` | internal/brain/welford.go:71-76 | m2 is symmetric in every reachable state although each added term delta1[i]*delta2[j] is not |
| `Welford.LearnBothWays` | internal/brain/welford_test.go:54-87 | for every sample matrix of two rows or more, incremental and batch computation give the same mean and covariance, and they are those of its observations |
| `Mahalanobis.CalculateStress` | internal/brain/mahalanobis.go:27-59 | success exactly when all dimensions fit; then the root of the clamped quadratic form of the deviation in the inverse covariance |
| `Mahalanobis.OwnStressBounded` | internal/brain/predictor.go:151-182 | a reading scored against a baseline of n readings that includes it has 0 <= n * D^2 <= (n-1)^2 |
| `Mahalanobis.BoundIsAttained` | internal/brain/predictor.go:151-182 | for every n >= 2 a history of one probe is given that reaches the bound |
| `Sharpness.BoundIffFirst` | internal/brain/predictor.go:151-182 | for any number of probes the newest reading reaches the bound exactly when the readings before it had a singular covariance |
| `Mahalanobis.ProjectionLength` | internal/brain/mahalanobis.go:27-59 | the projections of all readings on the direction of one deviation have squared length (n-1) times its squared stress |
| `Mahalanobis.StressConserved` | internal/brain/mahalanobis.go:27-59 | the squared stresses of all n readings against their own statistics sum to exactly p * (n-1) |
| `Mahalanobis.InversionNeedsReadings` | internal/brain/predictor.go:160-172 | the covariance of n readings of p probes is invertible only if n >= p + 1 |
| `Units.RescaledCov` | internal/brain/welford.go:97-110 | rescaling and shifting the probes multiplies covariance (i, j) by the two factors and ignores the shifts |
| `Units.StressIgnoresUnits` | internal/brain/predictor.go:151-182 | no nonzero rescaling and no shift of the probes changes the squared stress of any reading |
| `Units.SingularityIgnoresUnits` | internal/brain/predictor.go:169-172 | nor whether the covariance can be inverted |
| `UnitRuns.InverseConverts` | internal/brain/predictor.go:160-172 | the inverse of the converted covariance is the converted inverse, from both sides |
| `UnitRuns.StepConverts` | internal/brain/predictor.go:135-210 | one call of Analyze in one choice of units is, with the same report, a call in every other |
| `UnitRuns.RunConverts` | internal/brain/predictor.go:135-210 | a run with all readings rescaled and shifted probe by probe is a run with the same reports |
| `UnitRuns.RunIgnoresUnits` | internal/brain/predictor.go:135-210 | two runs on the same readings, taken in different units at the same times, report the same stress, derivative, level and errors at every call |
| `Hysteresis.Resolve` | internal/brain/predictor.go:236-264 | every limit in force is positive once defaults replace zero and negative settings |
| `Hysteresis.ResolvedLimits` | internal/brain/predictor.go:236-264 | field by field: a positive setting is used as it is, and any other selects the named default, 3.5, 5.5, 8.0, 12.0, 2.0, 0.5 and 5 |
| `Hysteresis.BaseLevelReaches` | internal/brain/predictor.go:266-279 | magnitude alone reaches level k exactly at the least threshold of k and above, also when thresholds are out of order |
| `Hysteresis.CandidateReaches` | internal/brain/predictor.go:266-285 | the candidate is the highest level called for: by magnitude, or by a derivative above the limit when the magnitude calls for the level below, from every level |
| `Hysteresis.Settle` | internal/brain/predictor.go:287-303 | the returned level is never below the candidate, rises to it at once, and is otherwise the held level |
| `Hysteresis.BelowIsStreak` | internal/brain/predictor.go:287-303 | the counter is the length of the current streak of quiet cycles since the last interruption or descent |
| `Hysteresis.FallsIffQuietHistory` | internal/brain/predictor.go:287-303 | the level falls at cycle t exactly when the last h cycles were all quiet and no descent fell among the earlier h - 1 |
| `Hysteresis.ChangesCostCycles` | internal/brain/predictor.go:287-303 | after t cycles h * descents + rises + counter <= t |
| `Hysteresis.RisesPaidByFalls` | internal/brain/predictor.go:287-303 | rises are at most the present level plus four per descent |
| `Hysteresis.AntiFlapping` | internal/brain/predictor.go:287-303 | in t cycles at most t/h descents and 5*(t/h) + 4 level changes |
| `Hysteresis.FallsToCandidate` | internal/brain/predictor.go:287-303 | a descent ends at the candidate of its cycle, with the counter at zero |
| `Hysteresis.FallsByOneIff` | internal/brain/predictor.go:41-43 | a cycle lowers the level by exactly one exactly when it is a descent whose candidate is the next lower level |
| `Hysteresis.FarFall` | internal/brain/predictor.go:287-303 | for every h and every pair of levels a run is given that drops from the higher to the lower in one cycle |
| `Hysteresis.SettleMonotoneIff` | internal/brain/predictor.go:287-303 | one cycle keeps the order of two held levels under ordered candidates, except exactly when the higher one falls below the lower one while the lower one stays |
| `Hysteresis.MonotoneIffOneCycle` | internal/brain/predictor.go:287-303 | higher candidates and derivatives never end at a lower level, over all pairs of runs, exactly when h == 1 |
| `Hysteresis.HigherRunMayEndLower` | internal/brain/predictor.go:287-303 | for every h >= 2 a pair of runs is given: candidates nowhere lower, equally relaxed, final level lower |
| `Memory.RingBuffer.Insert` | internal/state/memory.go:33-55 | the buffer holds the last min(n, c) accepted readings in their slots; a reading of the wrong length changes nothing |
| `Memory.RingBuffer.Snapshot` | internal/state/memory.go:59-75 | the snapshot is the slot-order view of those readings |
| `Memory.SourceStep` | internal/state/memory.go:45-52 | one insert replaces exactly the slot at the head, the oldest one |
| `Memory.SnapshotIsRotation` | internal/state/memory.go:59-75 | the snapshot is the chronological window, rotated by a known amount |
| `Memory.SnapshotIsPermutation` | internal/state/memory.go:59-75 | snapshot and window hold the same readings with the same multiplicities |
| `Memory.SnapshotCovariance` | internal/state/memory.go:59-75 | the covariance of the snapshot is that of the chronological window |
| `Memory.LastRow` | internal/state/memory.go:65-72 | the last row is reading n-1 exactly when n <= c or c divides n; otherwise it is reading n - n%c - 1 |
| `Memory.LastRowIsNewest` | internal/brain/predictor.go:145-150 | as values: the last row equals the newest reading on every history of n readings exactly when n <= c or c divides n |
| `Memory.EverLastIff` | internal/state/memory.go:59-75 | a position of the history is the last row of some snapshot exactly when it lies in the first lap or ends a later one |
| `Memory.OthersNeverShow` | internal/brain/predictor.go:145-150 | histories that agree on those positions have the same last snapshot row at every time |
| `Predictor.SanitizedAlpha` | internal/brain/predictor.go:118-122 | a smoothing factor in (0, 1], unchanged when already there |
| `Predictor.Smooth` | internal/brain/predictor.go:189-198 | the first score initialises the average without bias; afterwards the gap to the new score shrinks by the factor 1 - alpha |
| `Predictor.PredictiveCortex.CalcDerivative` | internal/brain/predictor.go:214-225 | the finite difference per second, zero without a reference or elapsed time |
| `Predictor.PredictiveCortex.Classify` | internal/brain/predictor.go:233-304 | refines the hysteresis machine: new level and counter are those of Settle on this cycle |
| `Predictor.PredictiveCortex.Distance` | internal/brain/predictor.go:160-184 | no distance exactly while the covariance is singular; otherwise the score of the newest folded reading under some inverse of its covariance |
| `Predictor.PredictiveCortex.Judge` | internal/brain/predictor.go:189-209 | average, derivative, level and remembered stress after one score |
| `Predictor.PredictiveCortex.Analyze` | internal/brain/predictor.go:135-210 | every call is one step of the specification machine on the last snapshot row, in every outcome, errors included, and nothing changes before two readings are buffered |
| `Reports.ReportedScore` | internal/brain/predictor.go:186-209 | over every run: the reported stress is the distance of the reading the first time and then alpha * distance + (1 - alpha) * the stress reported before; the reported derivative is the difference of the two reported stresses per second |
| `Reports.DistanceUnique` | internal/brain/mahalanobis.go:27-59 | the distance so reported is determined by the accepted readings alone |
| `Reports.OtherReports` | internal/brain/predictor.go:136-172 | every call that does not score reports zero stress and derivative at level 0, or the stated error |
| `Reports.ReportedLevel` | internal/brain/predictor.go:266-303 | a reported level is never below what the reported stress and derivative call for, and whenever it changes it is exactly that |
| `Reports.LevelFallsOnQuietReports` | internal/brain/predictor.go:287-303 | in terms of reports alone: a level falls exactly when the last h reports did not call for the level before them, with a derivative below the limit, and none of the earlier h - 1 lowered it |
| `CortexRuns.NewestScoreBounded` | internal/brain/mahalanobis.go:48-58 | the negative clamp never changes a score that a run computes, and that score satisfies the bound of its count |
| `CortexRuns.SmoothWithin` | internal/brain/predictor.go:189-198 | smoothing never leaves the bound |
| `CortexRuns.CandidateAllowed` | internal/brain/predictor.go:266-285 | a candidate of level k >= 2, escalation included, needs the threshold of k - 1 within the bound |
| `CortexRuns.RunSound` | internal/brain/predictor.go:135-210 | the invariant of every run: average non-negative and within the bound of the reading count, covariance invertible since the first score, held level affordable |
| `CortexRuns.LevelNeedsReadings` | internal/brain/predictor.go:266-303 | in every run, reporting level k >= 2 needs a count n with n * theta^2 <= (n-1)^2 for the threshold theta of level k - 1 |
| `CortexRuns.DefaultsNeedReadings` | internal/brain/predictor.go:28-43 | with the default thresholds no Survival before reading 66 and no Protection before reading 33 |
| `LeastCounts.LeastCountsReached` | internal/brain/predictor.go:266-303 | these counts are exact: with the default thresholds, one probe and no smoothing, runs are given that report Protection at reading 33 and Survival at reading 66 |
| `CortexRuns.ScoringNeverStops` | internal/brain/predictor.go:169-172 | once a run has scored a reading every later well-formed reading is scored: the singular return is a cold-start path |
| `CortexRuns.ScoringNeedsReadings` | internal/brain/predictor.go:169-172 | the first score needs more readings than probes |
| `CortexRuns.StepDeterministic` | internal/brain/predictor.go:135-210 | a state and a reading have one successor and one report, although the specification only asks for some inverse |
| `CortexRuns.RunDeterministic` | internal/brain/predictor.go:135-210 | the readings and times of a run determine all its states and reports |
| `CortexRuns.StepTotal` | internal/brain/predictor.go:135-210 | every state takes a step on every reading, so the specification machine never gets stuck |
| `CortexRuns.RunExists` | internal/brain/predictor.go:135-210 | every list of readings and times has a run |
| `CortexRuns.LaterScoresBelowBound` | internal/brain/predictor.go:151-182 | only the first reading that a run scores can reach the bound on the score |
| `CortexRuns.CyclesOf` | internal/brain/predictor.go:233-304 | the level held after each call of a run, and the number of changes, are those of the hysteresis machine on the cycles of the calls that scored |
| `CortexRuns.AnalyzeFallsIff` | internal/brain/predictor.go:287-303 | a call of Analyze lowers the level exactly when it scores, the last h scored cycles were quiet, and none of the earlier h - 1 lowered it |
| `CortexRuns.AnalyzeFallsOnQuietCalls` | internal/brain/predictor.go:287-303 | the same call by call, for readings of the right length: the last h calls of Analyze were quiet and none of the earlier h - 1 lowered the level |
| `CortexRuns.RunAntiFlapping` | internal/brain/predictor.go:287-303 | t calls of Analyze change the level at most 5*(t/h) + 4 times, whatever readings and clock do |
| `CpuList.Print` | internal/motor/cpuset.go:32-70 | prints the ranges of the sorted ids |
| `CpuList.ParseCPUList` | internal/sensor/proprioception.go:416-441 | for every string the CPUs the list denotes, skipping malformed parts, or, exactly when a part is endless, no return |
| `CpuList.UnendingIff` | internal/sensor/proprioception.go:431-433 | the guard of the inner loop holds after every number of increments of the 64-bit counter exactly when the bound is the largest integer |
| `CpuList.ParseCPURange` | internal/sensor/proprioception.go:145-167 | for every string the length of the denoted list in wrapping 64-bit arithmetic, which is that length exactly while it fits |
| `CpuList.PartMeaning` | internal/sensor/proprioception.go:418-438 | with any white space around it, a number denotes itself and a range its interval; a reversed range and a negative number denote nothing |
| `CpuList.DenotedJoins` | internal/sensor/proprioception.go:416-441 | a further part adds its CPUs and changes nothing else |
| `CpuList.RoundTrip` | internal/motor/cpuset.go:32-70 | parsing the printed form of any list of CPU ids, in any order and with repetitions, yields the ids sorted |
| `CpuList.ExpandRanges` | internal/motor/cpuset.go:57-66 | the ranges of a list of numbers expand to that list |
| `CpuList.RenderReads` | internal/sensor/proprioception.go:416-441 | the parser reads every rendered list of ranges back |
| `CpuList.RangesMaximal` | internal/motor/cpuset.go:57-66 | for distinct ids no two neighbouring ranges could be merged |
| `CpuList.PrintedIsFinite` | internal/sensor/proprioception.go:431-433 | the parser fails to return on a printed list exactly when the two largest integers are both in it |
| `CpuList.CountOverflows` | internal/sensor/proprioception.go:158-159 | a concrete list whose count wraps to the least integer |
| `Btf.FindBTFTypeByName` | internal/sysbpf/struct_ops.go:169-238 | all outcomes of the search, errors and out-of-order slice bounds included, on every byte string |
| `Btf.HeaderErrorsIff` | internal/sysbpf/struct_ops.go:173-196 | too small, bad magic and truncated, each exactly for the bytes that make it so |
| `Btf.InfoFields` | internal/sysbpf/struct_ops.go:217-222 | kind and vlen are read from bits 24 to 28 and 0 to 15 of the info word |
| `Btf.WalkTypes` | internal/sysbpf/struct_ops.go:212-235 | the loop terminates on every section, stays in bounds and returns what the recursive walk returns |
| `Btf.GetString` | internal/sysbpf/struct_ops.go:201-210 | the bytes up to the next zero or the end of the section; empty beyond it |
| `Btf.NameReads` | internal/sysbpf/struct_ops.go:201-210 | a name without zero bytes, before a zero byte or at the end of the section, reads back at its offset |
| `Btf.WellFormedIsSized` | internal/sysbpf/struct_ops.go:242-287 | for kinds 1 to 19 the walk skips exactly the trailing words the format lists for the kind |
| `Btf.WalkFindsFirst` | internal/sysbpf/struct_ops.go:212-235 | on any encoded sequence of types with fewer than 12 stray bytes after it, the first type of that name, or NotFound exactly when there is none |
| `Btf.FindsFirst` | internal/sysbpf/struct_ops.go:169-238 | for a whole blob whose header places its sections, and whose records are encoded from kind, vlen and flag: the 1-based number of the first type with the name, or NotFound exactly when there is none |
| `Btf.PanicsIffWrapped` | internal/sysbpf/struct_ops.go:186-199 | the search on a blob panics exactly when both section ends, in 32-bit arithmetic, lie inside the blob although one section really ends beyond 2^32 |
| `Btf.HeaderCanPanic` | internal/sysbpf/struct_ops.go:186-199 | a blob of 24 bytes is given on which every search panics |
| `Relocation.RelocateInsns` | internal/sysbpf/loader.go:55-70 | for all indices, in 64-bit arithmetic: success exactly when every reference resolves; otherwise the first failure in the visiting order, a panic behind the bounds check included; the bytes are those of the references patched before it, in that order |
| `Relocation.OutcomeIrrelevantIff` | internal/sysbpf/loader.go:56-65 | the outcome is the same for every visiting order exactly when all references that do not resolve fail in the same way |
| `Relocation.NeverPanicsIff` | internal/sysbpf/loader.go:62-66 | no visiting order panics exactly when no reference with a known map has an offset that the bounds check misses |
| `Relocation.OrderDecidesPanic` | internal/sysbpf/loader.go:56-66 | two references are given for which one order panics and the other reports an unknown map |
| `Relocation.OrderIrrelevantIff` | internal/sysbpf/loader.go:56-68 | the bytes left on success are the same for every visiting order exactly when references at one offset want the same 32 bits |
| `Relocation.LoaderRefsUnambiguous` | internal/sysbpf/loader.go:259-260 | the indices that the object loader produces never collide, so for them the order is irrelevant |
| `Relocation.LoaderOffset` | internal/sysbpf/loader.go:259-260 | for such an index the offset is eight times the index, and the bounds check lets it pass out of range exactly when it is negative or 2^60 - 1 |
| `Relocation.ReferencedInsn` | internal/sysbpf/loader.go:55-70 | a referenced instruction gets the descriptor as its 32-bit immediate and source register 1; opcode, destination register and offset stay |
| `Relocation.OtherBits` | internal/sysbpf/loader.go:55-70 | a byte that differs afterwards belongs to a loaded instruction and is its second byte, with the same lower half, or one of its last four |
| `Relocation.RelocationIdempotent` | internal/sysbpf/loader.go:55-70 | relocating again in any order leaves what the second order alone would leave; on unambiguous references nothing changes |
| `Cgroups.ControlFiles.Write` | internal/syscgroup/file_edit.go:49-57 | one write changes one file or, when it fails, none |
| `Cgroups.Share` | internal/motor/cgroups.go:151-161 | the limit is the fraction of memory in whole bytes, rounded down |
| `Cgroups.LimitsWritten` | internal/motor/cgroups.go:141-181 | what a successful change of level writes, in bytes of the memory: no limits at levels 0 and 1; the share 0.75, unless configured, at level 2; the shares 0.5 and 0.9, unless configured, from level 3 on |
| `Cgroups.ProtectionIsTighterIff` | internal/config/config.go:394-400 | a configuration that passes the check gives protection a high limit no larger than containment, at every memory size, exactly unless the protection fraction is not positive while containment is below 0.5 |
| `Cgroups.ProtectionCanBeLooser` | internal/config/config.go:394-400 | a configuration is given that passes the check and loosens memory.high from 300 to 500 bytes of 1000 |
| `Cgroups.TinyShareIsNoLimit` | internal/syscgroup/file_edit.go:76-87 | a share of less than one byte is written as no limit at all |
| `Cgroups.CgroupMotor.Apply` | internal/motor/cgroups.go:71-91 | the new level and limits for every level and every combination of failing writes; all other files stay |
| `Cgroups.LimitsFollowLevels` | internal/motor/cgroups.go:141-181 | over runs without write errors memory.high is a function of the last level, and memory.max is limited exactly when protection was applied since the last level below containment |
| `Cgroups.LimitsUnderFaults` | internal/motor/cgroups.go:71-91 | over every run and every pattern of failing writes each limit is that of the last level at which it was actually written, and the one at the start before that |
| `Cgroups.HardLimitHasCause` | internal/motor/cgroups.go:163-181 | a hard limit that was not there at the start was set by a level of protection or above, whatever failed |
| `Cgroups.FailedWriteIsNotRetried` | internal/motor/cgroups.go:71-75 | while a level is repeated the whole state stays, whichever of its writes failed when it was first applied; the limits that failed keep their old values |
| `Survival.SurvivalMotor.Engage` | internal/motor/survival.go:94-120 | every engage write is attempted once; the motor is active afterwards even when some failed; a second call does nothing |
| `Survival.SurvivalMotor.Release` | internal/motor/survival.go:124-166 | closes the scheduler link, attempts every default, ends inactive; does nothing when inactive |
| `Survival.EngageCpusets` | internal/motor/survival.go:183-232 | in terms of paths and groups: the vital cgroup gets the first cache group, the offender the second, where they are not empty, and no other cpuset is touched |
| `Survival.PinnedListReadsBack` | internal/motor/cpuset.go:77-86 | the list written to a cpuset denotes the CPUs of the group, in order |
| `Survival.KnobValues` | internal/motor/survival.go:124-232 | the last value of every knob after engaging and after releasing |
| `Survival.EngageSucceedsIff` | internal/motor/survival.go:94-120 | engaging reports success exactly when no file that it writes fails and a scheduler that should be linked is |
| `Survival.AftermathValues` | internal/motor/survival.go:94-166 | the value of every file after an engage and a release, for all failing writes of either |
| `Survival.ReleaseRestores` | internal/motor/survival.go:124-166 | for all failing writes of either call, release restores the state before engage exactly when each knob was at its default, or, if its reset fails, at the engaged value or not written at all, and each pinned cpuset already held its list or failed to be pinned |
| `Survival.PinningStays` | internal/motor/survival.go:139-158 | a state with all knobs at their defaults is given that release does not restore although nothing fails: the pinned cpuset stays |
| `Thalamic.ThalamicFilter.Observe` | internal/brain/thalamic_filter.go:124-188 | level, heartbeat time and log after one observation, in every case |
| `Thalamic.ObservedEvents` | internal/brain/thalamic_filter.go:124-188 | by comparing levels and times alone: which event an observation adds, with its kind and payload, and when none |
| `Thalamic.NoticeKinds` | internal/brain/thalamic_filter.go:191-230 | the kind and payload of each actuation notice |
| `Thalamic.ThalamicFilter.NotifyContainment` | internal/brain/thalamic_filter.go:191-213 | exactly one event of the kind that belongs to the level |
| `Thalamic.ThalamicFilter.NotifySurvival` | internal/brain/thalamic_filter.go:217-230 | exactly one survival event |
| `Thalamic.ToldKeepsCoherent` | cmd/hosa/main.go:219-246 | one tick keeps the log coherent: its last event carries the level, and it is inside an anomaly exactly above homeostasis |
| `Thalamic.LogReplays` | internal/brain/thalamic_filter.go:124-230 | over any run in tick order, behind any start-up lines, the last event carries the current level, and anomaly and restored events strictly alternate, an anomaly first |
| `Thalamic.HeartbeatsSpaced` | internal/brain/thalamic_filter.go:124-150 | under a monotone clock all heartbeats behind the start-up lines are at least one interval apart, and one interval after the creation of the filter |
| `Thalamic.HeartbeatsInTime` | internal/brain/thalamic_filter.go:124-150 | whenever homeostasis is observed, the log shows a heartbeat or a return to homeostasis less than one interval old, or the filter is no older than that |
| `Thalamic.ThalamicFilter.Boot` | internal/brain/thalamic_filter.go:107-121 | a start-up line is an event of the heartbeat type at level 0; level and heartbeat time stay |
| `Thalamic.StartupLinesCrowd` | internal/brain/thalamic_filter.go:107-121 | start-up lines can follow each other within less than the interval, so the spacing excludes them |
| `Agent.Boot` | cmd/hosa/main.go:67-135 | the components start coherent; the survival threshold in force is 12.0 whatever is configured |
| `Agent.Agent.Intervene` | cmd/hosa/main.go:240-253 | engages at survival and releases below it, once each; a notice is due exactly after a successful first engage; memory limits untouched |
| `Agent.Agent.React` | cmd/hosa/main.go:226-276 | motor, notices, survival motor and next interval after a tick; with phase 2 the survival motor is active exactly at the survival level |
| `Agent.Agent.Sense` | cmd/hosa/main.go:176-190 | every reading of four values is inserted, and from the second on makes exactly one call of Analyze at the time of the tick; any other reading changes nothing |
| `Agent.Agent.RunTick` | cmd/hosa/main.go:176-222 | every round keeps the whole agent valid, inserts and analyzes as Sense does, and passes a report on, once, to filter and motor, exactly unless the reading does not fit or the call returned an error |
| `Agent.TickReportIff` | cmd/hosa/main.go:179-190 | when a tick passes a report on, and which |
| `Agent.NoticeCarriesReport` | cmd/hosa/main.go:219-246 | what the filter hears is the report and its time, with a containment or survival notice only when the level has just come to it |
| `Agent.LogOfAgent` | internal/brain/thalamic_filter.go:124-230 | the log of every running agent ends with its level, alternates, and under a monotone clock keeps its heartbeats an interval apart |
| `Agent.LimitsUntouched` | internal/motor/survival.go:94-166 | the survival motor never writes the memory limits, whatever fails |
| `Agent.ActuationBounded` | internal/motor/cgroups.go:71-75 | in t ticks the motor acts at most 5*(t/h) + 4 times |
| `Agent.NoEarlyIntervention` | cmd/hosa/main.go:176-276 | with default thresholds the survival motor stays off for 66 ticks; no tick reports protection in the first 33, and a cgroup without a hard memory limit has none until then, whatever writes fail |
| `Agent.LimitsOfAgent` | cmd/hosa/main.go:226-276 | at any time and with any failures both limits of the running agent are those of the last level at which they were actually written |
| `Agent.LimitsWithoutErrors` | cmd/hosa/main.go:226-276 | while no limit write has failed, memory.high follows the last level and memory.max is limited exactly when protection was reached since the last level below containment |
| `Agent.BlindBetweenLaps` | internal/brain/predictor.go:145-150 | two agents that analyze at the same times and whose readings agree in the first lap and at the end of every later one give the same reports at every call |

## Left out

- Floating point: rounding, overflow, infinities and NaN of `float64`; the numerical core is over the reals. The one NaN that is modelled is the mean of no observations (`Statistics.MeanVector`).
- Square roots: `math.Sqrt` is a parameter with the property `IsSqrt` where a theorem needs it.
- Time: instants are integer nanoseconds and inputs; saturation of `time.Duration` is not modelled, nor the sleep between ticks.
- Standard deviations: `StdDev` would add a loop over the diagonal and nothing else.
- Locks and goroutines: each locked method is one atomic step.
- Library code: `sort.Ints` is a sorting function, `strconv` and `strings` are the functions of `Strconv`, and strings are sequences of characters without UTF-8 decoding.
- Relocation.RelocateInsns: byte slices that end within eight bytes of 2^63, which no memory holds. ELF parsing, which produces the references, is not modelled.
- Opening and reading the kernel's BTF file; the search is given the bytes.
- Cgroups.Share: conversion of a product above 2^64 to an unsigned integer (a fraction above 1 of a very large memory).
- Survival.SurvivalMotor.Engage: loading the sched_ext program is reduced to the link descriptor it yields; the path of an empty cpuset (`maxCPUID`) is unreachable from `Engage` and left out; error texts are not modelled.
- Agent.Boot: a failed start of the survival motor leaves the agent without one; the constructor of `Agent` allows that, `Boot` does not produce it. The cgroup directory exists already.
- Fragmentation samples, telemetry snapshots, webhooks and log lines in the main loop, and its shutdown path.
- Event handlers: an event is appended to a log; the texts of actions and start-up lines are not modelled.
- Raw system calls, perf events, reads of /proc and /sys, topology discovery, the HTTP server and signals: input and output.
- Configuration files, flags, the rest of `Validate` and the textual summaries: string plumbing.
- Fragmentation entropy and the compaction trigger: need logarithms.
- The two C programs for the kernel: their guarantees rest on dispatch queues outside the repository.
