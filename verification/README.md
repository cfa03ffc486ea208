# Punch Power measurement state machine in Dafny

The Punch Power app turns a phone's linear-acceleration sensor into a "punch
power" score. Its only logic is the sensor callback of the main screen. Each
reading (x, y, z) becomes the power x² + y² + z². An idle screen starts a
measurement when a reading's power exceeds 20, and records the start time.
While a measurement runs, the screen keeps the largest power seen so far.
Once strictly more than 3000 ms have passed since the start, the measurement
ends: the running flag is cleared and the peak is handed to the completion
routine. The game's reset routine (`initGame`) puts the three fields back to
their initial values.

This project models that core as pure functions over an immutable state:

- `detector.dfy`, module `Detector`: the fields (`State`: `maxPower`,
  `isStart`, `startTime`), the power of a reading (`Power`), the reset
  (`Init`, `InitGame`), one callback on a linear-acceleration reading (`Step`,
  returning the new state and the reported peak, if any), and the callback on
  an arbitrary, possibly missing, sensor event (`OnSensorChanged`).
- `sessions.dfy`, module `Sessions`: the callback driven by a stream of
  timestamped readings (`Run`), an independent definition of the largest
  power in a stream (`PeakFrom`), and lemmas about whole measurements.

The wall clock is a parameter: every reading carries the time `now` at which
it is handled. The code reads the clock twice in one callback, once when a
measurement starts and once for the completion test. Both reads are modelled
as the same `now`.

Notes on the code:

- Completion clears only `isStart` (`MainActivity.kt:74`). `maxPower` and
  `startTime` keep their values until `initGame` runs again, so a second
  measurement without a reset reports at least the first one's peak
  (`Sessions.SecondMeasurementReportsAtLeastFirst`). In the app this never
  shows, because completion unregisters the listener
  (`MainActivity.kt:137`) and the screen runs `initGame` each time it becomes
  visible.
- The reading that starts a measurement also passes through the peak update,
  so the peak becomes `max(maxPower, power)` (`MainActivity.kt:67`). After a
  reset this is exactly that reading's power (`Detector.StepAfterInit`).
- The comment at `MainActivity.kt:66` speaks of 5 seconds, while the
  completion test at `MainActivity.kt:73` uses 3000 ms. The model uses
  3000 ms.

## Model

| member | source | states |
|---|---|---|
| Detector.Power | app/src/main/java/com/example/punchpower/MainActivity.kt:51-52 | The power of a reading is at least 0 and at least the square of each of its three axes. |
| Detector.Init | app/src/main/java/com/example/punchpower/MainActivity.kt:26-30 | The fields as declared leave the detector idle. |
| Detector.InitGame | app/src/main/java/com/example/punchpower/MainActivity.kt:101-104 | The reset sets the peak to 0, clears the running flag and sets the start time to 0, whatever the state before. |
| Detector.InitGameIdempotent | app/src/main/java/com/example/punchpower/MainActivity.kt:101-104 | Resetting twice equals resetting once, and the reset's result does not depend on the prior state. |
| Detector.Step | app/src/main/java/com/example/punchpower/MainActivity.kt:51-77 | Idle and at or below 20: nothing changes and nothing is reported. Idle and above 20: running from `now`, with peak max(old peak, power). Running: start time kept and peak becomes max(old peak, power). A report happens if and only if the detector was running and `now - startTime > 3000`. The report equals the kept peak, and the peak never decreases. |
| Detector.OnSensorChanged | app/src/main/java/com/example/punchpower/MainActivity.kt:43-49 | A missing event, or an event from a sensor other than linear acceleration, changes nothing and reports nothing. A linear-acceleration event is one `Step`. |
| Detector.StepAfterInit | app/src/main/java/com/example/punchpower/MainActivity.kt:55-67 | From the reset state, a reading at or below 20 leaves the reset state. A reading above 20 starts a measurement whose peak is exactly that reading's power. |
| Detector.ActivationNeverCompletes | app/src/main/java/com/example/punchpower/MainActivity.kt:55-75 | With both clock reads of a callback taken as one `now`, the reading that starts a measurement never also completes it. |
| Detector.WindowBoundary | app/src/main/java/com/example/punchpower/MainActivity.kt:73-75 | A reading exactly 3000 ms after the start keeps the measurement running. One 3001 ms after the start completes it and reports max(peak, power). |
| Sessions.Run | app/src/main/java/com/example/punchpower/MainActivity.kt:43-79 | Driving the callback over a stream yields exactly one report slot per reading. |
| Sessions.PeakFrom | app/src/main/java/com/example/punchpower/MainActivity.kt:67 | The running maximum over a stream is at least the starting peak and every reading's power, and it equals the starting peak or one of those powers. |
| Sessions.PeakAppendOne | app/src/main/java/com/example/punchpower/MainActivity.kt:67 | One more reading raises the running maximum to max(previous maximum, that reading's power). |
| Sessions.RunAppend | app/src/main/java/com/example/punchpower/MainActivity.kt:43-79 | Running two streams one after the other equals running their concatenation: same final state and concatenated reports. |
| Sessions.QuietStreamStaysIdle | app/src/main/java/com/example/punchpower/MainActivity.kt:55-62 | While idle, a stream of any length whose readings never exceed 20 leaves the state unchanged and reports nothing. |
| Sessions.WindowAccumulatesPeak | app/src/main/java/com/example/punchpower/MainActivity.kt:62-77 | While running, readings no more than 3000 ms after the start report nothing. They keep the detector running from the same start time, and the peak becomes the maximum of the old peak and their powers. |
| Sessions.RunningMeasurementCompletes | app/src/main/java/com/example/punchpower/MainActivity.kt:62-76 | While running, readings within the window followed by one strictly past it produce a single report at the end. That report is the maximum of the old peak and all their powers. The detector ends idle with the start time unchanged. |
| Sessions.MeasurementReportsPeak | app/src/main/java/com/example/punchpower/MainActivity.kt:43-79 | From idle, the stream is quiet readings, an activating reading, readings within the window, and one reading past it. Only that last reading reports. It reports the maximum of the old peak and the powers from the activating reading onward. The detector ends idle, keeping that peak and the activation time. |
| Sessions.MeasurementFromResetReportsMaximum | app/src/main/java/com/example/punchpower/MainActivity.kt:55-75 | After a reset, the first measurement's report is the largest power among the readings from the activating one to the completing one. No reading of that stretch is stronger, and one of them has exactly that power. |
| Sessions.NextMeasurementKeepsPeak | app/src/main/java/com/example/punchpower/MainActivity.kt:73-75 | From any idle state, a complete measurement reports at least the peak already held in the state. |
| Sessions.SecondMeasurementReportsAtLeastFirst | app/src/main/java/com/example/punchpower/MainActivity.kt:73-75 | After a reading completes a measurement, a second complete measurement without a reset reports at least the first report. |
| Sessions.WorkedExample | app/src/main/java/com/example/punchpower/MainActivity.kt:51-76 | Readings of power 0, 27 at 10 ms, 3, 48 at 2000 ms, and 0 at 3600 ms produce reports only on the last reading, and that report is 48. |

## Left out

- Android lifecycle and views (`onCreate`, `onStart`, `onStop`, `onDestroy`, the status label, the image animation): user interface with no state the detector reads.
- Registering and unregistering the sensor listener, including the caught exception on unregister: framework calls.
- `punchPowerTestComplete`: its logging, `%.5f` formatting and navigation to the result screen are I/O. The model stops at the value handed to it (`StepResult.completedWith`).
- `ResultActivity.kt`: the ×100 display scaling and `%.0f` formatting are presentation.
- Detector.Step: both clock reads of one callback (`MainActivity.kt:57` and `:73`) are the same `now`. In the code, the activating call would also complete the measurement if more than 3000 ms passed between those two reads; the model, and `Detector.ActivationNeverCompletes`, exclude that.
- Detector.Power: computed over exact reals. The model does not cover `Float` readings widened to `Double`, `Math.pow` rounding, NaN or infinity.
- `System.currentTimeMillis()`: replaced by the per-reading parameter `now`. Time is an unbounded integer, so the 64-bit `Long` subtraction is modelled without overflow. This matches real clock values.
- The sensor event's array of values is modelled as exactly three components. A shorter array, which would throw in the code, is not modelled.
- `onAccuracyChanged`: its body is empty.
