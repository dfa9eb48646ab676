# colorwarm, modelled in Dafny

colorwarm is a screen colour-temperature daemon for X11. Every minute it
takes today's sunrise and sunset from a seasonal table, picks a Kelvin
value and loads matching gamma ramps on every CRTC. The table has one entry
per month, shifted by the timezone's longitude offset, and is smoothed
day by day. The Kelvin value is a night value outside the window and a
linear ramp up to the day value at midday and back down inside it. The
program also contains a clone of `xsct`, a command that sets, shifts,
toggles or reports the colour temperature of chosen screens and CRTCs.

The model has eight modules:

- `Kelvin` (kelvin.dfy): the daytime schedule, both as written and with the guard its division needs.
- `Seasons` (seasons.dfy): the monthly table and its day-by-day interpolation, kept exact, with the program's rounding of halves away from zero.
- `GammaMath` (gamma_math.dfy): clamping, `bound_temp`, the per-channel factors, the gamma ramps, and the branch structure of the status estimate read back from ramps.
- `Display` (display.dfy): the X server as a `Port` class. It holds each CRTC's current ramp and a log of every gamma write.
- `Engine` (engine.dfy): `sct_for_screen` and `get_sct_for_screen`, with their CRTC selection, as methods on the port. Each is proved against a specification function.
- `Xsct` (xsct.dfy): the argument checks and the three per-screen loops of `xsct_standalone`.
- `Daemon` (daemon.dfy): `xsct_set_temperature` and the minute tick `manage_brightness_cycle`.
- `ClockFormat` (clock_format.dfy): `format_number` and `format_time`, with Rust's truncating `/` and `%`.

The program's `f64` and `f32` values are exact reals. `ln` and `exp` are
parameters. `ln` is a partial function defined on the positive reals, so
the verifier checks that every logarithm the program takes has a positive
argument. Float-to-integer casts (`as u16`, `as i32`) are modelled as
saturating truncations. The clock, the timezone's offset and the parsed
command line are inputs.

## Model

| member | source | states |
|---|---|---|
| Kelvin.Clamp | src/main.rs:843 | the result lies in [lo, hi] and equals k when k already lies there |
| Kelvin.RawKelvinAsWritten | src/main.rs:820-840 | night (4500) outside [sunrise, sunset), so also for an empty window; the division panics exactly for a one-minute window at its sunrise |
| Kelvin.RawKelvin | src/main.rs:820-840 | night outside the window; the 5500 fallback inside a window shorter than two minutes; night at the sunrise of a longer window |
| Kelvin.TargetKelvinAsWritten | src/main.rs:820-843 | the expression as written, clamped: any value it yields lies in [4500, 6500] |
| Kelvin.TargetKelvin | src/main.rs:820-843 | always in [4500, 6500]; exactly 4500 at or after sunset and before sunrise; every minute is night when sunrise equals sunset, so the 5500 fallback is never reached |
| Kelvin.ClampInactiveInsideWindow | src/main.rs:829-843 | inside a window of two minutes or more the unclamped ramp already lies in [4500, 6500], so the clamp changes nothing |
| Kelvin.KelvinAtSunrise | src/main.rs:832-834 | the value at sunrise is 4500 |
| Kelvin.KelvinAtMidpoint | src/main.rs:829-834 | the value at the midpoint sunrise + (sunset - sunrise) / 2 is 6500 |
| Kelvin.KelvinNonDecreasingBeforeMidpoint | src/main.rs:820-843 | for any two minutes up to the midpoint, the later never has a lower value |
| Kelvin.KelvinNonIncreasingAfterMidpoint | src/main.rs:835-843 | for any two minutes from the midpoint on, the later never has a higher value |
| Kelvin.AsWrittenDividesByZeroIff | src/main.rs:824-838 | the expression as written divides by zero if and only if the window is one minute long and the current minute is sunrise |
| Kelvin.AsWrittenPanicsOnOneMinuteWindow | src/main.rs:824-834 | sunrise 600, sunset 601, current 600 divides by zero |
| Kelvin.AsWrittenAgreesElsewhere | src/main.rs:820-843 | on every other input the expression as written yields the guarded schedule's value |
| Seasons.NewForTimezone | src/main.rs:61-96 | twelve sunrises and twelve sunsets; every day is at least 477 minutes long, and December's is exactly 477 |
| Seasons.TableShiftsWithOffset | src/main.rs:61-96 | changing the offset moves every entry by the difference, so no day length depends on the timezone |
| Seasons.RoundThirtieths | src/main.rs:783-789 | 30 times the result is within 15 of p, and an exact half rounds away from zero |
| Seasons.Interpolate | src/main.rs:780-789 | the result is the nearest minute to a + (b - a) * n / 30; it lies between a and b, equals a at n = 0 and equals b at n = 30 |
| Seasons.Neighbours | src/main.rs:766-778 | days 1-15 blend the previous month (January wraps to December) into this one by day + 15 thirtieths; later days blend this month into the next (December wraps to January) by day - 15 |
| Seasons.SmoothedDayTimes | src/main.rs:764-795 | sunrise and sunset are each the nearest minute to the exact blend of the two neighbouring months; on the 15th they are exactly the month's own entries |
| Seasons.SmoothedBetweenEntries | src/main.rs:780-793 | each smoothed time lies between the two table entries it blends |
| Seasons.EarlyJanuaryUsesDecember | src/main.rs:768-772 | January 1-15 interpolates from December to January |
| Seasons.LateDecemberUsesJanuary | src/main.rs:774-778 | December 16-31 interpolates from December to January |
| Seasons.SmoothedWindowLength | src/main.rs:764-795 | if every table day is at least L minutes, every smoothed day is at least L - 1 minutes |
| Seasons.TimezoneWindowLength | src/main.rs:61-96 | for every offset and every day, the smoothed window is at least 476 minutes, so its half-day is never zero |
| GammaMath.DoubleTrim | src/main.rs:106-114 | the result lies in [a, b], is x itself when x already does, and is always one of x, a and b |
| GammaMath.DoubleTrimIdempotent | src/main.rs:106-114 | clamping twice equals clamping once |
| GammaMath.DoubleTrimMonotone | src/main.rs:106-114 | clamping preserves order |
| GammaMath.Bound | src/main.rs:291-310 | a temperature of 0 or below becomes 6500; one in (0, 700) becomes 700; any other is kept; brightness is clamped to [0, 1] |
| GammaMath.BoundIdempotent | src/main.rs:291-310 | correcting twice equals correcting once |
| GammaMath.BoundTemp | src/main.rs:291-310 | the status is updated to `Bound`'s; each warning is issued exactly when its correction applies; no warning means the status was already in range |
| GammaMath.ChannelFactors | src/main.rs:225-247 | every factor lies in [0, 1]; below 6500 K red is 1.0, and green and blue are 0 at or below 700 K; from 6500 K up blue is 1.0; the logarithm is only taken of positive values |
| GammaMath.SynthesizeRamp | src/main.rs:275-284 | the three channels have the CRTC's gamma size |
| GammaMath.CastU16 | src/main.rs:280-282 | the `as u16` cast never rounds up, and falls short of its argument by less than one unless it saturates at 65535 |
| GammaMath.RampLevel | src/main.rs:279 | the level of entry 0, or at brightness 0, is 0 |
| GammaMath.RampEntry | src/main.rs:279-282 | entry 0, brightness 0 and a channel factor of 0 each give 0 |
| GammaMath.RampChannel | src/main.rs:274-283 | a channel has exactly the CRTC's gamma size of entries |
| GammaMath.RampStartsAtBlack | src/main.rs:279-283 | entry 0 of every channel is 0 |
| GammaMath.ZeroFactorIsBlack | src/main.rs:279-283 | a channel with factor 0 is all zeros |
| GammaMath.RampEntryRounded | src/main.rs:279-283 | with brightness and factor in [0, 1] the cast never saturates, and each entry is the level rounded half up |
| GammaMath.EntryMonotone | src/main.rs:279-283 | a later entry of a channel is never below an earlier one |
| GammaMath.RampNonDecreasing | src/main.rs:279-283 | every channel is non-decreasing in the entry index |
| GammaMath.SynthesizedRampShape | src/main.rs:225-284 | every synthesized channel starts at 0 and is non-decreasing |
| GammaMath.CastI32 | src/main.rs:206 | the result lies in the `i32` range |
| GammaMath.EstimateFromPeaks | src/main.rs:157-208 | brightness lies in [0, 1]; temperature lies in the `i32` range; all-zero peaks give (0, 0.0); with no CRTC the temperature is 0 |
| GammaMath.EstimateRedOnlyIsFloor | src/main.rs:181-190 | peaks in red only are estimated as 700 K |
| GammaMath.EstimateAtLeastFloor | src/main.rs:176-198 | for a non-negative exponential, any lit screen is estimated at 700 K or more, and at 5800 K or more when blue is at least red |
| Display.Port.SetCrtcGamma | src/main.rs:286-287 | the CRTC holds the new ramp, no other CRTC changes, and the write is appended to the log |
| Engine.CrtcSpan | src/main.rs:129-143 | a valid index selects exactly that CRTC; any other index, negative or too large, selects all of them; the selected range is always in bounds |
| Engine.AppliedRowShape | src/main.rs:256-288 | `sct_for_screen` keeps the screen's CRTCs, and each CRTC's ramp stays well formed at its own gamma size |
| Engine.ScreenWritesInBounds | src/main.rs:256-288 | every write goes to that screen, to an existing CRTC, at that CRTC's gamma size; one write with a valid index and one per CRTC otherwise |
| Engine.FillRamps | src/main.rs:275-284 | each filled array equals the specified channel for that size, brightness and factor |
| Engine.SctForScreen | src/main.rs:211-288 | the selected CRTCs hold the synthesized ramps, every other CRTC and screen is unchanged, and the writes are logged in CRTC order |
| Engine.PeakSum | src/main.rs:145-155 | the sum of the selected CRTCs' peaks is non-negative |
| Engine.EstimateOf | src/main.rs:116-208 | a screen's estimated brightness lies in [0, 1] |
| Engine.GetSctForScreen | src/main.rs:116-208 | returns the estimate of the selected CRTCs' summed peaks, without changing the port |
| Xsct.WrapI32 | src/main.rs:1068 | the result is in the `i32` range, congruent to x modulo 2^32, and x itself when x is in range |
| Xsct.ToggleTarget | src/main.rs:1010-1029 | the brightness is kept; the temperature is 4500 if and only if the estimate is above 6400, and 6500 if and only if it is not |
| Xsct.ShiftTarget | src/main.rs:1066-1071 | the shifted status is always displayable; its brightness is the clamped sum; its temperature is the sum whenever that sum is between 700 and the `i32` maximum |
| Xsct.ShiftByZeroIsBound | src/main.rs:1066-1071 | a zero shift only corrects the estimate |
| Xsct.RequestedBrightness | src/main.rs:1031-1038 | a missing brightness means 1.0 outside delta mode and is kept as the sentinel in delta mode |
| Xsct.AbsoluteStatus | src/main.rs:1052-1056 | a temperature of 0 becomes 6500 with the brightness uncorrected; any other request is corrected by `bound_temp` |
| Xsct.ResetSkipsBoundHarmlessly | src/main.rs:1052-1056 | the ramps of the uncorrected reset equal those of the corrected request, because `sct_for_screen` clamps brightness itself |
| Xsct.StatusFor | src/main.rs:1010-1071 | a toggled status is 4500 K or 6500 K and a shifted one at least 700 K, each with a brightness in [0, 1] |
| Xsct.PolicyCrtcsAt | src/main.rs:1010-1072 | after a per-screen loop every visited screen holds its row as `sct_for_screen` leaves it for the status the policy assigns to that screen's own ramps; every other screen is untouched |
| Xsct.FixedIgnoresEstimate | src/main.rs:1057-1072 | under a fixed status the loop's ramps and writes are the same whatever estimate function is passed |
| Xsct.PolicyCrtcsValid | src/main.rs:1010-1072 | a per-screen loop keeps every ramp well formed and every screen's CRTCs and their gamma sizes |
| Xsct.PolicyWritesInBounds | src/main.rs:1010-1072 | every write of a per-screen loop goes to a visited screen, an existing CRTC of it, at that CRTC's gamma size |
| Xsct.ApplyToScreens | src/main.rs:1057-1072 | after a per-screen loop every visited screen holds the ramps for its chosen status; the writes are logged screen by screen; the estimate function `exp` is consulted only under the toggle and delta policies |
| Xsct.ChooseStatus | src/main.rs:1010-1070 | the status the loop applies to a screen is the one the policy assigns to that screen's current ramps |
| Xsct.NextStatus | src/main.rs:1057-1071 | the status chosen for the next screen, which still holds its ramps from before the loop, extends the statuses chosen so far by the one the policy assigns it |
| Xsct.VisitScreen | src/main.rs:1057-1072 | applying a status to the next screen extends the loop's ramps by that screen's new row and its write log by that screen's writes |
| Xsct.LoopDone | src/main.rs:1057-1072 | once every screen of the range is visited, the ramps and the writes are those of the loop's specification |
| Xsct.Reports | src/main.rs:1040-1048 | one report per selected screen, in order, with the screen's index and an estimated brightness in [0, 1] |
| Xsct.ReportScreens | src/main.rs:1040-1048 | returns the estimate of each selected screen and writes nothing |
| Xsct.Decide | src/main.rs:992-1074 | help gives usage; an out-of-range screen index is rejected; otherwise a run covers that one screen or all screens; it reports if and only if no temperature is given outside delta mode; a delta is rejected as incomplete if and only if either argument is missing |
| Xsct.UnparseableScreenRejected | src/main.rs:975-1005 | a screen index that does not parse is always rejected |
| Xsct.ModeCrtcs | src/main.rs:1040-1074 | a report run and an incomplete delta leave the ramps as they are |
| Xsct.ModeWrites | src/main.rs:1040-1074 | a report run and an incomplete delta write nothing |
| Xsct.ModeReports | src/main.rs:1040-1048 | only a report run reports, once per selected screen |
| Xsct.AfterToggle | src/main.rs:1008-1030 | the toggle phase keeps every ramp well formed and, when not asked for, changes nothing |
| Xsct.ModeOfPolicy | src/main.rs:1049-1072 | a run with an absolute or delta action runs that policy's loop over the selected screens and reports nothing |
| Xsct.PolicyPhase | src/main.rs:1049-1072 | the second loop of a run with an absolute or delta action leaves the ramps and writes of that run's specification, and the run reports nothing |
| Xsct.ToggleWritesWithin | src/main.rs:1008-1030 | the toggle phase writes only to selected screens, existing CRTCs and their gamma sizes, and keeps every screen's shape |
| Xsct.RunWritesWithin | src/main.rs:1010-1074 | every write of a run goes to a selected screen, an existing CRTC of it, at that CRTC's gamma size; without the toggle, a report or an incomplete delta writes nothing |
| Xsct.XsctStandalone | src/main.rs:912-1076 | usage and an invalid screen index return before any write; otherwise the toggle loop runs first and is followed by the report, absolute or delta loop; an incomplete delta then returns without further writes |
| Xsct.RunPhases | src/main.rs:1006-1074 | a run over the selected screens ends with the ramps, writes and reports of its toggle phase followed by its mode |
| Xsct.ModePhase | src/main.rs:1031-1074 | the phase after the toggle applies the absolute status or each screen's shifted estimate, reports, or rejects an incomplete delta without writing |
| Daemon.SetStatus | src/main.rs:315-318 | brightness 1.0; Kelvin 0 means 6500; any other Kelvin value is used as given |
| Daemon.SetTemperature | src/main.rs:312-327 | every screen is visited with the CRTC index -1 and the fixed status; under a fixed status no estimate is taken, so the estimate function passed is never used |
| Daemon.SetTemperatureCoversEveryCrtc | src/main.rs:320-323 | afterwards every CRTC of every screen holds the ramp for the status, at its own gamma size |
| Daemon.DaemonNeverDividesByZero | src/main.rs:814-843 | for every offset, day and minute, the expression as written never divides by zero and equals the guarded schedule |
| Daemon.ManageBrightnessCycle | src/main.rs:814-846 | the window is today's smoothed window; the Kelvin value lies in [4500, 6500] and equals the expression as written whenever every table day is at least three minutes long; it is applied to every CRTC |
| ClockFormat.TruncDiv | src/main.rs:808-810 | Rust's quotient: Euclidean division for a non-negative dividend, truncated toward zero otherwise |
| ClockFormat.TruncMod | src/main.rs:808-810 | a equals quotient times b plus the remainder, and the remainder takes the dividend's sign |
| ClockFormat.NatToString | src/main.rs:798-804 | at least one digit, and exactly one for values below ten |
| ClockFormat.DigitsRoundTrip | src/main.rs:798-804 | reading the printed digits back gives the number |
| ClockFormat.IntToString | src/main.rs:800-803 | Rust's `to_string`: a leading minus exactly for negative values, then digits that read back as the magnitude; one digit exactly for values in (-10, 10) |
| ClockFormat.FormatNumber | src/main.rs:798-804 | with "00", a value in [0, 10) gets one leading zero, and so does a negative value; otherwise the plain number |
| ClockFormat.PaddedNumber | src/main.rs:798-804 | a non-negative value prints as at least two digits that read back as the value, and exactly two below 100 |
| ClockFormat.FormatTimeReadsBack | src/main.rs:807-811 | a non-negative count prints as hours, a colon and two minute digits, which read back as count / 60 and count % 60 |
| ClockFormat.FormatTime | src/main.rs:807-811 | every minute count, negative ones included, prints as at least five characters with a colon |
| ClockFormat.NegativeMinutesGarbled | src/main.rs:807-811 | minute -271 prints as "0-4:0-31" |
| ClockFormat.FormatClock | src/main.rs:807-811 | the corrected format always prints five characters with the colon third |
| ClockFormat.FormatClockIsHHMM | src/main.rs:807-811 | the corrected format always prints HH:MM with hours below 24, naming the minute of the day |
| ClockFormat.FormatClockOfNegative | src/main.rs:807-811 | under the corrected format, minute -271 prints as "19:29" |

## Left out

- The X11/RandR transport is left out. Connecting, querying resources and the replies' error paths (`connect()?`, `expect`) are replaced by the `Port` class, which is always connected.
- A server with no screen, or a CRTC with gamma size 0, is excluded by `Port.Valid`. With no screen, `screens - 1` underflows. With gamma size 0, `get_sct_for_screen` indexes entry -1. Neither is modelled.
- `sct_for_screen` asks the server for each CRTC's gamma size. The model uses the size of the ramp the CRTC currently holds, which is the same quantity.
- The numeric values of the estimate inversion in `get_sct_for_screen` and of ramp entries are left out. Only their branch structure and bounds are modelled, with `ln` and `exp` as parameters. IEEE rounding, NaN and infinities are not modelled.
- Seasons.Interpolate: uses exact rational interpolation with round-half-away-from-zero, not `f32` arithmetic. The two can differ by a minute wherever `f32` misrounds a value close to a half.
- Xsct.WrapI32: models `tempd.temp += temp.temp` with release-build wrap-around. A debug build panics on overflow instead.
- The `i32` arithmetic of the Kelvin expression and the `i32` cast of `get_smoothed_day_times` are taken unbounded. On table-derived windows every value involved is far inside the range.
- The timezone-offset and location-name match tables, `guess_location_from_system`, and the chrono clock reads are left out. The offset, month, day and minute are parameters.
- The clap command-line parser is left out. `Options` holds the parsed values with the sentinels the program substitutes for missing or unparseable arguments.
- The daemon's process control is left out: daemonizing, termios ESC polling, the 100 ms sleep and minute-change loop, and `main`.
- All `println!`/`eprintln!` output is left out: help text, diagnostics and the verbose messages. `BoundTemp` returns its warnings and `ReportScreens` its report lines instead.
- The error branch of `xsct_set_temperature` in `manage_brightness_cycle` is left out. Its only failure is the connection, which is not modelled.

## Findings

| source | as written | input that shows it | evidently intended | confidence | as-written member | corrected member |
|---|---|---|---|---|---|---|
| src/main.rs:824-834 | the guard only tests `day_length == 0`, which cannot happen inside the window, and then divides by `half_day = day_length / 2` | sunrise 600, sunset 601, current 600: `half_day` is 0 and the morning branch divides by zero (integer-division panic) | guard the division on `half_day == 0` | high for the expression; not executed; the daemon's own table never produces a one-minute window (Daemon.DaemonNeverDividesByZero) | Kelvin.AsWrittenPanicsOnOneMinuteWindow | Kelvin.TargetKelvin |
| src/main.rs:807-811 | `format_time` of a negative minute count pads each negative part with "0" before the minus sign | offset -600 (Pacific/Honolulu) puts June's sunrise at minute -271, printed as "0-4:0-31" | print the time of day, minute count modulo 1440 ("19:29") | medium; not executed | ClockFormat.NegativeMinutesGarbled | ClockFormat.FormatClock |
