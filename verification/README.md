# Verified model of the drivebase motion core and the btsensor transmit core

The repository runs a two-wheel robot on a small real-time hub. This project
models three parts of it in Dafny and proves properties of them.

1. **The drivebase motion core** (`apps/drivebase`). A move is planned as a
   trapezoidal speed profile in integer milli-degrees and microseconds
   (`Profile`, `Trajectory`, `Envelope`, `Kinematics`, `EndGap`, `Stretching`,
   `StretchBounds`, `StretchSearch`, `StretchOrigin`, `StretchPeak`,
   `Retargeting`), sampled on a reference clock that can be paused (`Aggregate`,
   `AxisLaws`, `Clock`), followed by a PID with anti-windup, a completion window
   and a passive latch (`Pid`, `PidLaws`, `PidRuns`), and the outputs of two such
   axes - distance and heading - are composed into two wheels (`Drive`,
   `WheelLaws`, `DriveRuns`, `Completion`, `Breakaway`, `Curve`, `CurveRuns`).
   Encoder samples come in through a glitch gate (`Servo`) and a slope observer
   over a ring buffer (`Observer`, `ObserverRuns`). `Angle` holds the unit
   conversions.
2. **The Bluetooth transmit core** (`apps/btsensor`). A bundle emitter splits
   drained IMU samples into runs of one configuration and serialises them
   (`Wire`, `Bundle`, `BundleRuns`); a send arbiter with two rings, synchronous
   re-entry and a single-shot drain hook puts the frames on the air (`Tx`,
   `TxRuns`, `TxLaws`). `Delivery` joins the two.
3. **The freeze handshake** (`Freeze`, `FreezeRuns`) with which the daemon's idle
   loop stops the real-time tick while it reclaims a motor port, as interleaved
   steps of two threads.

## How the model is built

A C struct that is updated in place is a class with the same fields. Each of its
methods is proved against a function on a value of the same fields (`View`), and
the properties are lemmas about runs of those functions. So `Trajectory.InitPosition`
is proved to leave `Plan(...)`, and `Envelope.PlannedEnvelope` is about every `Plan`.

What such a function computes is itself pinned by laws that do not mention its
formula: the sampled speed by the position it belongs to (`Kinematics`), the duty
by the textbook controller on real numbers (`PidLaws`), the pause by the demanded
duty and the side the reference lies on (`AxisLaws`), the arbiter's answers by its
history (`TxLaws`), the recovery by what a run passes through (`FreezeRuns`).

Integers are unbounded; where C's width shows, it is written out: the wrap of the
uint64 clock subtractions (`Sub64`), the uint32 counters, the int32 clamps and
casts, division that truncates toward zero (`TruncDiv`), bytes and their
little-endian order. `Overflow` proves that inside the limits documented at the
top of `drivebase_trajectory.c` every product of the planner fits its C type;
`Angles.MmNeverOverflows` does so for the conversions.

Clock readings, encoder samples, the battery gauge, port faults, the result of a
motor command or of `rfcomm_send`, and whether a can-send request calls back at
once are all parameters, so every theorem holds for every behaviour of them.

## Where the code and its description differ

The model follows the code. Each difference is a theorem here.

- `board_drivebase.h:112` numbers COAST as 0, and `drivebase_drivebase.c:1064`
  uses 0 for "nothing to propagate". So a COAST is never propagated to the other
  axis, and a COAST on one axis also masks a BRAKE on the other
  (`DriveRuns.PropagatesExactly`). A straight or turn stops the base when it
  completes if and only if its mode is BRAKE or BRAKE_SMART
  (`Completions.CompletionExactly`, with a coasted robot that is driven in
  `CoastCompletionWitness`). A curve in a braking mode stops the base as soon as
  either axis has completed (`CurveRuns.CurveCompletionExactly`).
- After an explicit COAST stop the motors are not left coasting but driven, with
  zero duty exactly when the friction assist has no effect at speed zero
  (`DriveRuns.CoastStopDutyExactly`). The settings accept an entry threshold of
  zero, and with it a stopped robot drives off (`CoastStopDrivesOff`).
- The residual gate of a stretch samples the absolute time `T_target_us - 1`
  (`drivebase_trajectory.c:603`), not the end of the profile. It is the search,
  not the gate, that keeps the profile near its endpoint: for a move of at least
  200 mdeg inside the documented speed limit and a target of up to two minutes,
  an accepted stretch ends at most 96 mdeg past and 101 short of its endpoint
  whatever its origin (`StretchSearch.StretchEndsNear`). For longer targets it may
  end 399 mdeg past it (`Stretching.StretchOvershootsUngated`);
  `StretchBounds.StretchMeetsBoundExactly` and `StretchOvershootGrows` hold there.
- What the gate does is to refuse: a move longer than 100 mdeg planned at or
  after the target time always (`Stretching.StretchGateAfterTarget`), and before
  it every move whose distance times the square of the origin exceeds 400 times
  the square of the target (`StretchOrigin.StretchNeedsEarlyOrigin`). So a curve
  keeps two plans of unequal length unless it is commanded right after boot
  (`Curves.EarlyCurveEqualised`, `LateCurveEqualised`); the curve of
  `Curves.CurveWitness` does from 82 ms after boot on.
- The header promises that a stretch makes the peak strictly smaller. It does
  whenever the next lower peak fits at least as well (`Stretching.StretchLowersPeak`),
  and for every target of at least one and a half times the duration, as the
  curve command asks, and at most two minutes, with accelerations of at least 10
  mdeg/s^2 (`StretchPeak.CurveLowersPeak`).
  It can stay equal otherwise (`Stretching.StretchMayKeepPeak`,
  `StretchPeak.LowAccelerationKeepsPeak`).
- The -ERANGE of a stretch for ramps that do not fit is dead code
  (`Stretching.RampsAlwaysFit`).
- A retarget is continuous in position only while the clock is past the ramp it
  anchors in the past, because the anchor is a uint64 subtraction
  (`Retargeting.RetargetKeepsPosition`).
- The SMART hold time counts all done ticks since the reset; a disturbance does
  not restart it (`PidRuns.SmartHoldSurvivesDisturbance`).
- Idle ticks do not let the speed estimate decay, against the comment at
  `drivebase_observer.c:261-265` (`ObserverRuns.IdleKeepsEstimate`).
- The freeze handshake is safe because the tick's load of the freeze flag and
  store of its acknowledgement are not separated by the daemon; as two steps it
  is not (`Freeze.SplitGateUnsafe`).

## Model

| member | source | states |
|---|---|---|
| `Profiles.TrianglePeakInRange` | apps/drivebase/drivebase_trajectory.c:92-195 | In the triangular branch the peak is the exact floor square root and lies between 1 and the requested speed, so the saturation guard and the int32 cast change nothing |
| `Trajectories.TrianglePeak` | apps/drivebase/drivebase_trajectory.c:92-141 | The guards and the bisection return the peak defined by the floor square root, for every uint64 distance |
| `Trajectories.BisectRoot` | apps/drivebase/drivebase_trajectory.c:113-140 | The bisection terminates with the floor square root of every uint64 |
| `Trajectories.Trajectory.InitPosition` | apps/drivebase/drivebase_trajectory.c:147-218 | All fields after planning, zero-length moves and defaulted accelerations included |
| `Trajectories.Trajectory.InitForever` | apps/drivebase/drivebase_trajectory.c:220-245 | All fields of an infinite move |
| `Trajectories.Trajectory.RetargetForever` | apps/drivebase/drivebase_trajectory.c:247-315 | All fields after an in-flight retarget; a finite move is left alone |
| `Trajectories.Trajectory.StretchToTotal` | apps/drivebase/drivebase_trajectory.c:473-622 | Result code and all fields, on success and on each error path |
| `Trajectories.SearchPeak` | apps/drivebase/drivebase_trajectory.c:498-546 | The two search loops terminate with the peak the specification names |
| `Envelope.PlannedEnvelope` | apps/drivebase/drivebase_trajectory.c:147-413 | Every planned move, every time from its origin on: the reference stays between x0 and x1 with at most 1 mdeg of overshoot, its speed within the planned peak and that within the requested speed, and the decel clamp at zero is never taken |
| `Envelope.OffsetAlmostMono` | apps/drivebase/drivebase_trajectory.c:371-412 | Before its end a profile never moves back by more than 1 mdeg between any two times |
| `Envelope.SegmentsFit` | apps/drivebase/drivebase_trajectory.c:178-217 | Accel ramp, cruise and any part of the decel add up to at most the distance plus 1 |
| `Kinematics.PositionFollowsSpeed` | apps/drivebase/drivebase_trajectory.c:317-413 | Between two times in one segment of any moving profile the position covers a distance between the slower and the faster end's speed times the time, up to 2 mdeg and 1 mdeg/s for the floors |
| `Kinematics.SpeedFollowsAcceleration` | apps/drivebase/drivebase_trajectory.c:317-413 | In each segment the reported acceleration is constant and the speed changes by it times the time, to within one |
| `Kinematics.SpeedAtSeams` | apps/drivebase/drivebase_trajectory.c:317-413 | Speed starts at rest, is the peak throughout the cruise and where the decel starts, and is within 2a/10^6 + 1 of the peak at the end of the ramp and of rest at the end of the decel |
| `Kinematics.PositionAtRampEnd` | apps/drivebase/drivebase_trajectory.c:348-386 | Across the end of the ramp the position moves on by at most the peak speed and 2 mdeg |
| `Kinematics.PositionAtDecel` | apps/drivebase/drivebase_trajectory.c:374-404 | The same across the start of the decel |
| `Kinematics.RestsOutside` | apps/drivebase/drivebase_trajectory.c:322-412 | Before the origin the reference rests at the start, from the end on it rests done at the endpoint, and it is not done in between |
| `Kinematics.PlannedMoves` | apps/drivebase/drivebase_trajectory.c:147-218 | Every planned move obeys these laws with the accelerations asked for; without a deceleration it slows down as it sped up, and without an acceleration it takes 1 |
| `EndGap.EndGapBound` | apps/drivebase/drivebase_trajectory.c:196-217 | One microsecond before the end of any cruising move the reference is at most 2v/10^6 + 3 mdeg short and 1 mdeg past x1; then it is x1 and done |
| `EndGap.TriangleEndGap` | apps/drivebase/drivebase_trajectory.c:92-195 | The same for a move too short to cruise: at most (D + 2v)/(k + 1) + v/10^6 + 4 mdeg short, with k the floored factor 2ad/(a+d) |
| `Overflow.PlanningFits` | apps/drivebase/drivebase_trajectory.c:8-18 | Inside the documented limits every product of the planner, its two segment positions included, fits its C type |
| `Overflow.SamplingFits` | apps/drivebase/drivebase_trajectory.c:371-412 | The same for every product formed while sampling a planned move |
| `Retargeting.RetargetKeepsPosition` | apps/drivebase/drivebase_trajectory.c:247-315 | The position reference is the same before and after a retarget if and only if the clock has passed the anchored part of the ramp, or that part covers nothing |
| `Retargeting.RetargetSpeed` | apps/drivebase/drivebase_trajectory.c:274-314 | Speed across a retarget: within accel/10^6 + 1 towards a target at or above the current speed; a lower target takes effect at once; from the wrong direction the ramp restarts; a zero target, or a clock still inside the anchored part of the ramp, gives speed zero |
| `Retargeting.RunKeepsPosition` | apps/drivebase/drivebase_trajectory.c:247-315 | In any run of retargets at non-decreasing times, each at least one of its ramps after clock zero, each one keeps the position exactly |
| `Retargeting.RunKeepsPositionExactly` | apps/drivebase/drivebase_trajectory.c:247-315 | In any run at all each retarget keeps the position if and only if the clock has passed the anchored part of its ramp, or that part covers nothing |
| `Retargeting.RunTravel` | apps/drivebase/drivebase_trajectory.c:348-370 | Over such a run the reference travels no further than the fastest commanded speed allows, plus 1 mdeg per profile |
| `Stretching.StretchKeepsTheMove` | apps/drivebase/drivebase_trajectory.c:473-622 | On success the total is the target and the sum of its segments, the move is unchanged and the peak is not larger; on every error nothing changed |
| `Stretching.StretchCodesExactly` | apps/drivebase/drivebase_trajectory.c:473-622 | A target that is not longer, and a profile without duration, are invalid; every other refusal is out of range |
| `Stretching.StretchPeakBeatsItsWindow` | apps/drivebase/drivebase_trajectory.c:531-546 | The committed peak fits the target at least as well as every peak in the probed window |
| `Stretching.StretchLowersPeakExactly` | apps/drivebase/drivebase_trajectory.h:154 | The peak shrinks if and only if the probed window ends below the old peak or holds a lower one that fits at least as well |
| `Stretching.StretchLowersPeak` | apps/drivebase/drivebase_trajectory.h:154 | It shrinks whenever the next lower peak fits the target at least as well as the old one |
| `StretchPeak.CurveLowersPeak` | apps/drivebase/drivebase_trajectory.h:154 | It shrinks on every accepted stretch to at least one and a half times the planned duration and at most two minutes, for moves of at least 250 mdeg and accelerations of at least 10 mdeg/s^2 |
| `StretchPeak.LowAccelerationKeepsPeak` | apps/drivebase/drivebase_trajectory.h:154 | A concrete such stretch with an acceleration of 1 mdeg/s^2 that keeps its peak of 3 |
| `Stretching.StretchMayKeepPeak` | apps/drivebase/drivebase_trajectory.h:154 | A concrete planned move whose stretch keeps its peak |
| `Stretching.StretchResidualAtOriginZero` | apps/drivebase/drivebase_trajectory.c:593-615 | With origin 0 an accepted stretch ends within 100 mdeg and never overshoots by more than 101 |
| `Stretching.StretchUndershoot` | apps/drivebase/drivebase_trajectory.c:593-615 | With an origin before the target it ends at most 101 mdeg short |
| `Stretching.RampsAlwaysFit` | apps/drivebase/drivebase_trajectory.c:548-577 | For every stretch that passes the preconditions the chosen ramps fit the target: that error branch is dead |
| `Stretching.StretchGateAfterTarget` | apps/drivebase/drivebase_trajectory.c:603 | With an origin at or after the target it is accepted exactly when the move is at most 100 mdeg long; otherwise all fields are restored |
| `Stretching.StretchOvershootsUngated` | apps/drivebase/drivebase_trajectory.c:603 | A concrete planned move whose accepted stretch is 399 mdeg past its endpoint just before it latches |
| `StretchBounds.OffsetGrowth` | apps/drivebase/drivebase_trajectory.c:371-412 | Between any two times before its end a profile moves forward no faster than its peak, up to 1 mdeg |
| `StretchBounds.StretchOvershootGrows` | apps/drivebase/drivebase_trajectory.c:593-615 | With an origin before the target the overshoot is at most 101 mdeg plus peak times origin, and at least that product over the cruise less 101 |
| `StretchBounds.BoundNeedsEarlyOrigin` | apps/drivebase/drivebase_trajectory.h:159-161 | So an accepted stretch keeps the documented 100 mdeg only if its peak travels at most 201 mdeg between decel end and origin, within the cruise |
| `StretchBounds.StretchMeetsBoundExactly` | apps/drivebase/drivebase_trajectory.h:159-161 | For every origin an accepted stretch keeps the documented bound if and only if the distance its peak, ramps and target determine is within 100 of the commanded one |
| `StretchBounds.EndOffsetNearCovered` | apps/drivebase/drivebase_trajectory.c:580-591 | That distance is the kinematic v^2/2a + cruise + v^2/2d to within 1 above and 2 + v/10^6 below |
| `StretchBounds.StretchMeetsBound` | apps/drivebase/drivebase_trajectory.h:159-161 | The bound in kinematic terms, sufficient and necessary up to the rounding of the segments |
| `StretchSearch.StretchEndsNear` | apps/drivebase/drivebase_trajectory.c:473-622 | Every accepted stretch of a planned move of at least 200 mdeg, peak speed up to 1.5e6 mdeg/s, target up to two minutes, any origin: one microsecond before the end it is at most 96 mdeg past and 101 short of the endpoint |
| `StretchSearch.BisectEnds` | apps/drivebase/drivebase_trajectory.c:498-523 | The bisection closes in on two adjacent peaks around the target, and its candidate is no worse than those it has measured |
| `StretchSearch.SearchError` | apps/drivebase/drivebase_trajectory.c:498-546 | Peak times the time by which the chosen peak is too fast is at most 93.5 mdeg, in the same range |
| `StretchSearch.LowerTakesLonger` | apps/drivebase/drivebase_trajectory.c:449-471 | Up to its floors the duration falls as the peak rises |
| `StretchOrigin.LeftToGo` | apps/drivebase/drivebase_trajectory.c:388-412 | What a profile still covers in its last t0 microseconds is at least peak times t0 squared over twice its duration, less 4 mdeg |
| `StretchOrigin.StretchNeedsEarlyOrigin` | apps/drivebase/drivebase_trajectory.c:593-615 | In that range a stretch is accepted only if origin < target and (distance - 102) origin^2 <= 400 target^2 |
| `Aggregate.AggregateControl.GetRefTime` | apps/drivebase/drivebase_aggregate.c:48-61 | The pausable clock reads the pause begin or now, less the accumulated pause |
| `Aggregate.AggregateControl.CommandPosition` | apps/drivebase/drivebase_aggregate.c:112-155 | The whole state after a finite command, with SMART continuation from the last endpoint |
| `Aggregate.AggregateControl.CommandForever` | apps/drivebase/drivebase_aggregate.c:157-190 | The whole state after a speed command, retargeting in reference time when one is under way |
| `Aggregate.AggregateControl.CommandStop` | apps/drivebase/drivebase_aggregate.c:216-252 | The whole state after each kind of stop: a latch or a hold at the current position |
| `Aggregate.AggregateControl.Tick` | apps/drivebase/drivebase_aggregate.c:254-408 | Next state and output of a tick; what they mean is stated by the laws below |
| `AxisLaws.PausedExactly` | apps/drivebase/drivebase_aggregate.c:362-408 | A tick of an active axis leaves the clock paused if and only if the controller has not let go, the demanded duty is beyond the limit on the side the reference lies, the axis is not catching up and the reference is not slowing down there |
| `AxisLaws.BlockedFreezes` | apps/drivebase/drivebase_aggregate.c:254-408 | A wheel blocked in its move freezes its reference: over any later ticks that find it in the same place the clock stays paused and the reference does not move |
| `AxisLaws.DemandNearTextbook` | apps/drivebase/drivebase_aggregate.c:296-360 | The demanded duty is PID on the errors against the reference plus the feed-forward of its speed and acceleration over real numbers, up to the truncated quotients |
| `AxisLaws.AxisReports` | apps/drivebase/drivebase_aggregate.c:362-408 | An active axis reports the reference speed, whether the reference is done, and the limited position error |
| `AxisLaws.MoveEndpoints` | apps/drivebase/drivebase_aggregate.c:112-155 | A finite command moves by exactly its distance, from the last endpoint if that is valid and within the window of the origin, else from the origin |
| `AxisLaws.MovesAccumulate` | apps/drivebase/drivebase_aggregate.c:112-155 | Any chain of finite commands that each find the axis within the window ends at the exact sum of the distances |
| `AxisLaws.SpeedCommandStarts` | apps/drivebase/drivebase_aggregate.c:157-190 | A fresh speed command starts at its origin, keeps its signed speed from the time the acceleration allows, and forgets the last endpoint |
| `AxisLaws.SpeedCommandContinues` | apps/drivebase/drivebase_aggregate.c:166-179 | One that finds another under way keeps position reference, controller and clock |
| `AxisLaws.StopHolds` | apps/drivebase/drivebase_aggregate.c:192-252 | A stop that is not passive holds the position at which it came, from then on |
| `AxisLaws.StopLetsGo` | apps/drivebase/drivebase_aggregate.c:227-240 | After a passive stop every tick reports zero duty with the brake or coast asked for, done, and changes nothing |
| `AxisLaws.BaseHolds` | apps/drivebase/drivebase_drivebase.c:968-1010 | A hold of the base holds each axis where that axis is |
| `AxisLaws.ResetForgets` | apps/drivebase/drivebase_aggregate.c:101-110 | After a reset every tick coasts and is not done, and the next finite move starts at its origin |
| `Clock.RunKeepsClock` | apps/drivebase/drivebase_aggregate.c:48-408 | Over any run of commands, stops, resets, stretches and ticks whose ramps the clock had run at the start, no clock subtraction wraps, the reference time has reached the plan's origin, and an inactive axis is never paused |
| `Clock.RunNeverWraps` | apps/drivebase/drivebase_aggregate.c:48-83 | Over any run at all in time order no clock subtraction wraps and an inactive axis is never paused |
| `Clock.PauseContinuous` | apps/drivebase/drivebase_aggregate.c:63-76 | Pausing and resuming do not change the reference time of that instant |
| `Clock.ReferenceTimeMonotone` | apps/drivebase/drivebase_aggregate.c:254-408 | Within a command the reference time never goes back and never runs faster than real time |
| `Clock.DoneUntilNextCommand` | apps/drivebase/drivebase_aggregate.c:254-408 | A reference that reports done does so, at the same position, on every later tick until the next command |
| `Clock.NoEarlyLetGo` | apps/drivebase/drivebase_aggregate.c:112-408 | An axis that has latched passive did so no sooner than the planned duration after its command, whatever was measured and paused |
| `Clock.ReferenceStaysInEnvelope` | apps/drivebase/drivebase_aggregate.c:254-408 | The envelope through the pausable clock: after any run of ticks the reference an axis follows lies between start and endpoint with at most 1 mdeg of overshoot, within the requested speed |
| `Clock.DoneTestsAgree` | apps/drivebase/drivebase_trajectory.c:415-423 | The two completion tests agree on moving plans; on a zero-length one they differ |
| `PidControl.Pid.Update` | apps/drivebase/drivebase_control.c:137-341 | Next state and output of one update, truncating divisions and clamps included; what they mean is stated by the laws below |
| `PidLaws.DemandNearIdeal` | apps/drivebase/drivebase_control.c:158-189 | The demand before saturation is the textbook sum - P and D on position, P on speed, integral, feed-forward - over real numbers, to within 4 |
| `PidLaws.DutyIsDemand` | apps/drivebase/drivebase_control.c:158-201 | A driving tick's duty is that demand limited to the output range, to within 4 |
| `PidLaws.DutyNeverFalls` | apps/drivebase/drivebase_control.c:158-201 | With non-negative gains the duty never falls when the axis is further behind, slower or pushed harder |
| `PidLaws.DutyFollowsIntegral` | apps/drivebase/drivebase_control.c:188-201 | Nor when the integral is larger |
| `PidLaws.IntegralOverRun` | apps/drivebase/drivebase_control.c:203-231 | Over any run the integral is the clipped sum of the steps of the ticks that were not latched, paused, in the deadband or beyond a limit on the error's side, and the next derivative is taken against the last error |
| `PidLaws.IncrementNear` | apps/drivebase/drivebase_control.c:209-218 | Such a step is both errors times gain and tick per second, to within 2 |
| `PidLaws.ToleranceExactly` | apps/drivebase/drivebase_control.c:233-251 | A tick counts as in tolerance if and only if the trajectory is done and both errors are within their tolerances |
| `PidControl.Pid.Pause` | apps/drivebase/drivebase_control.c:109-124 | Sets the pause flag; unpausing also clears the latch and its actuation, nothing else |
| `PidLaws.UnpauseReleases` | apps/drivebase/drivebase_control.c:109-124 | An unpaused controller drives again on the next tick out of tolerance, with the integral it had |
| `PidControl.Pid.StopPassive` | apps/drivebase/drivebase_control.c:126-135 | The stopped state |
| `PidRuns.IntegratorAndDutyBounded` | apps/drivebase/drivebase_control.c:191-235 | From reset the integrator stays within 256 times the output limit and the duty within its limits, over any run |
| `PidRuns.LatchExactly` | apps/drivebase/drivebase_control.c:237-341 | The latch is set if and only if some tick ended an unbroken in-tolerance block of the done window - for SMART modes with the hold time spent in done ticks - with the actuation of the mode; HOLD and CONTINUE never latch |
| `PidRuns.OutputExactly` | apps/drivebase/drivebase_control.c:143-341 | From the tick that lets go on, zero duty, the passive actuation and done; before it the controller drives and reports done exactly on done ticks |
| `PidRuns.LatchedForGood` | apps/drivebase/drivebase_control.c:143-157 | A latched controller ignores all further inputs |
| `PidRuns.SmartHoldSurvivesDisturbance` | apps/drivebase/drivebase_control.c:289-325 | A disturbance between two done ticks does not restart the hold |
| `PidRuns.UndisturbedHold` | apps/drivebase/drivebase_control.c:289-325 | Without one the hold is the time in tolerance since the first done tick |
| `DriveBase.Drivebase.UpdateTick` | apps/drivebase/drivebase_drivebase.c:1045-1245 | Next state of both axes and wheels, done, and the last command to each motor |
| `DriveBase.Drivebase.StopNow` | apps/drivebase/drivebase_drivebase.c:968-1010 | A stop reaches both axes, and both motors at once unless it is a hold |
| `DriveBase.WheelState.ApplyBreakawayFloor` | apps/drivebase/drivebase_drivebase.c:170-223 | The floored command and the episode bookkeeping of one tick |
| `WheelLaws.SignExactly` | apps/drivebase/drivebase_drivebase.c:124-132 | The friction sign after any sequence of speeds: non-zero if and only if one reached the entry threshold with none below the exit threshold since, and then the sign of that one |
| `WheelLaws.CorrectedNear` | apps/drivebase/drivebase_drivebase.c:1183-1230 | The sag correction multiplies the duty by nominal over measured voltage, to within one and limited to full duty |
| `WheelLaws.FloorPushesHome` | apps/drivebase/drivebase_drivebase.c:170-223 | Where the floor changes a command it pushes towards the target, from more than 3 degrees away, with exactly the floor |
| `DriveRuns.PropagatesExactly` | apps/drivebase/drivebase_drivebase.c:1064-1106 | A tick on which an axis turns passive lets go of the whole base if and only if neither axis reports COAST |
| `DriveRuns.BrakedForGood` | apps/drivebase/drivebase_drivebase.c:1064-1106 | After a propagated brake every later tick keeps both axes latched, gives both motors one passive command and reports done |
| `DriveRuns.CoastStopDutyExactly` | apps/drivebase/drivebase_drivebase.c:1064-1230 | After an explicit COAST stop every fault-free tick drives each motor, with zero duty if and only if the friction sign held at speed zero is 0 or the assist is lost in the sag correction; signs never change |
| `DriveRuns.CoastStopDrivesOff` | apps/drivebase/drivebase_settings.c:743-771 | With the entry threshold 0 that the settings accept, both motors of any stopped robot get duty 500 |
| `DriveRuns.ExplicitStop` | apps/drivebase/drivebase_drivebase.c:968-1010 | What each passive stop mode makes of every later fault-free tick |
| `DriveRuns.CoastLeavesHeadingDriving` | apps/drivebase/drivebase_drivebase.c:1064-1106 | On a tick with the distance axis coasted out the heading axis stays active and both motors stay driven |
| `Completions.CompletionExactly` | apps/drivebase/drivebase_drivebase.c:617-730 | After a straight or turn, over any fault-free run: both motors brake, and both axes are latched, from the tick on whose history lets go if and only if the mode is BRAKE or BRAKE_SMART; otherwise both axes stay active and every tick drives both motors |
| `Completions.CoastCompletionWitness` | boards/spike-prime-hub/include/board_drivebase.h:110-118 | A run from reset: a straight COAST move of one wheel turn, ten ticks on target, then twisted ten degrees - the wheels are driven in opposite directions |
| `Breakaways.BreakawayExactly` | apps/drivebase/drivebase_drivebase.c:170-223 | Over any sequence of offered ticks with both profiles done the floor is applied if and only if the tick is eligible and the episode is not spent, towards the target |
| `Breakaways.DrivebaseBreakaway` | apps/drivebase/drivebase_drivebase.c:1108-1245 | The same over every run of the drivebase: a wheel's episode is that of the ticks it was offered, and the motor is sent the duty so determined after clamp and sag correction, never more than full duty |
| `Breakaways.MovingTickArms` | apps/drivebase/drivebase_drivebase.c:1157-1165 | A tick of a move still under way re-arms both wheels |
| `Breakaways.OneShot` | apps/drivebase/drivebase_drivebase.c:170-223 | Any two applications push the same way, with the error on one side throughout between them, and never reverse the command |
| `Curves.CurveEqualised` | apps/drivebase/drivebase_drivebase.c:846-901 | A curve's plans end together if and only if they already did, or the longer one lasts at least one and a half times as long and the shorter plan's stretch is accepted; else both are unchanged, and endpoints never change |
| `Curves.LateCurveEqualised` | apps/drivebase/drivebase_drivebase.c:846-901 | Once the clock has passed the longer duration: if and only if they already did, or the longer one lasts at least one and a half times as long and the shorter one moves at most 100 mdeg |
| `Curves.EarlyCurveEqualised` | apps/drivebase/drivebase_drivebase.c:846-901 | Before it: different plans end together only if distance times origin^2 is within 400 times duration^2, and then the stretched one ends within 101 mdeg |
| `Curves.CurveWitness` | apps/drivebase/drivebase_drivebase.c:846-901 | A curve at 500 deg/s, commanded at any time from 82 ms after boot on, whose plans stay at 1.22 and 0.6 seconds |
| `CurveRuns.CurveCompletionExactly` | apps/drivebase/drivebase_drivebase.c:823-832 | After a curve, over any fault-free run: both motors brake, and both axes are latched, from the first tick on which either axis' history lets go if and only if the mode is BRAKE or BRAKE_SMART; otherwise both axes stay active and every tick drives both motors |
| `Observers.Observer.UpdateSample` | apps/drivebase/drivebase_observer.c:213-251 | The ring, the estimate and the stall state after a sample; late ones are dropped |
| `Observers.Observer.SlopeRaw` | apps/drivebase/drivebase_observer.c:65-115 | The backward walk over the circular array computes the slope from the nearest older sample that meets both criteria, else the oldest |
| `ObserverRuns.RingHoldsLastAccepted` | apps/drivebase/drivebase_observer.c:213-251 | After any run the ring holds exactly the last 128 accepted samples in order of strictly increasing time |
| `ObserverRuns.StartsFresh` | apps/drivebase/drivebase_observer.c:176-251 | A new observer waits for its first sample, and a reset one starts from the given sample with estimate zero and no stall |
| `ObserverRuns.EstimateIsZeroOrFast` | apps/drivebase/drivebase_observer.c:122-142 | Over any run a non-zero estimate is the raw slope and at least 30000 mdeg/s, right after a zero one above 60000 |
| `ObserverRuns.IdleKeepsEstimate` | apps/drivebase/drivebase_observer.c:253-269 | Idle ticks never change the estimate |
| `ObserverRuns.RawSlopeAccurate` | apps/drivebase/drivebase_observer.c:65-115 | For constant-speed motion quantised to half a step the slope is within 10^9/dt + 1 of the true speed |
| `ObserverRuns.SlopeWindow` | apps/drivebase/drivebase_observer.c:65-115 | The raw slope is that from the latest sample at least the window old and 3000 mdeg away, or from the oldest if there is none |
| `ObserverRuns.EstimateAccurate` | apps/drivebase/drivebase_observer.c:65-142 | The same for the estimate after any run; a zero estimate means the motion is slow |
| `ObserverRuns.StalledExactly` | apps/drivebase/drivebase_observer.c:152-170 | Over any run from a reset the wheel counts as stalled if and only if the last pass found it slow under duty and the unbroken passes that did add up to the stall window |
| `Servos.Servo.Update` | apps/drivebase/drivebase_servo.c:128-228 | Tracked position, gate, observer and clock after data, no data and a lost port |
| `Servos.JumpsExactly` | apps/drivebase/drivebase_servo.c:147-203 | The tracked position moves by more than 5000 degrees if and only if the sample completes a chain of ten; nearer samples are followed at once |
| `Servos.JumpNeedsTen` | apps/drivebase/drivebase_servo.c:147-203 | So the last ten samples were all that far away and each within 100 degrees of its predecessor |
| `Angles.MmRoundTrip` | apps/drivebase/drivebase_angle.h:66-91 | mm to milli-degrees and back is exact for every int32 distance and every wheel up to 72 m |
| `Angles.MmRoundTripFailsOnHugeWheels` | apps/drivebase/drivebase_angle.h:66-91 | One micrometre more, and a distance does not come back |
| `Angles.MmNeverOverflows` | apps/drivebase/drivebase_angle.h:66-91 | For wheels of 10 um to 70 m no step of the round trip leaves int64 |
| `Angles.DegRoundTrip` | apps/drivebase/drivebase_angle.h:48-60 | Degrees to milli-degrees and back is exact for every int32 |
| `Angles.MdegToDegNearest` | apps/drivebase/drivebase_angle.h:48-60 | Milli-degrees become the nearest whole degree |
| `Angles.MmToMdegAccurate` | apps/drivebase/drivebase_angle.h:80-91 | The angle is 360000 mdeg per circumference with pi = 355/113, sign included, to within 0.66 mdeg |
| `Angles.MdegToMmAccurate` | apps/drivebase/drivebase_angle.h:66-78 | The distance is the angle times the circumference per turn, sign included, up to two roundings |
| `Angles.MmOverflowsBelowTen` | apps/drivebase/drivebase_angle.h:80-91 | At 9 um the largest distance does |
| `Tx.Arbiter.OnCanSendNow` | apps/btsensor/btsensor_tx.c:333-373 | One callback on the real rings, with its nested re-entry, is the specified step; it terminates by the queued items |
| `Tx.Arbiter.TryEnqueueResponse` | apps/btsensor/btsensor_tx.c:285-305 | Result code and state for long, refused and accepted responses |
| `TxLaws.ResponseAcceptedExactly` | apps/btsensor/btsensor_tx.c:285-305 | After any run a response is accepted if and only if it has at most 64 bytes and fewer than three are waiting, and exactly then it joins the accepted ones; otherwise nothing changes and the result code says why |
| `TxLaws.FrameAnswer` | apps/btsensor/btsensor_tx.c:307-331 | After any run a frame is refused if and only if it is empty or too long; every other one is stored, and the result reports a full ring exactly when a frame was dropped for it |
| `TxLaws.CallbackSendsHead` | apps/btsensor/btsensor_tx.c:333-373 | A callback that can send sends the oldest response, or without one the oldest frame, before anything else |
| `TxLaws.SynchronousStackDrains` | apps/btsensor/btsensor_tx.c:188-203 | A stack that calls back at once, often enough, empties both queues within one request |
| `TxLaws.ChannelFollows` | apps/btsensor/btsensor_tx.c:264-283 | Over any run the channel is that of the last open or close, and none after a stop |
| `TxLaws.CallbackServesHook` | apps/btsensor/btsensor_tx.c:158-186 | A callback on an open channel that leaves the queues empty has fired the drain hook |
| `TxLaws.ArmExactly` | apps/btsensor/btsensor_tx.c:391-429 | Arming: each result code exactly, immediate firing exactly on empty queues without a request, and the timer running exactly when a timeout was asked for |
| `TxLaws.TimeoutRuns` | apps/btsensor/btsensor_tx.c:136-156 | The expiry of a running timer runs the timeout callback of the hook it was armed with and ends both |
| `TxLaws.ClearClears` | apps/btsensor/btsensor_tx.c:431-442 | Clearing ends hook and timer and touches nothing else |
| `Tx.Arbiter.TryEnqueueFrame` | apps/btsensor/btsensor_tx.c:307-331 | Result code and state, the oldest frame dropped from a full ring |
| `Tx.Arbiter.SetRfcommCid` | apps/btsensor/btsensor_tx.c:264-283 | Opening requests a send, closing discards both queues |
| `Tx.Arbiter.ArmPostDrainCallback` | apps/btsensor/btsensor_tx.c:391-429 | Arming, refusals included, with the immediate firing on empty queues |
| `Tx.Arbiter.DrainTimerHandler` | apps/btsensor/btsensor_tx.c:136-156 | The timeout ends the hook and calls back if there is a callback |
| `Tx.LivePush` | apps/btsensor/btsensor_tx.c:116-134 | Writing at the head of a modular ring appends to its contents |
| `Tx.LivePop` | apps/btsensor/btsensor_tx.c:116-134 | Advancing the tail removes the oldest |
| `TxRuns.EveryRunIsLegal` | apps/btsensor/btsensor_tx.c:188-442 | After every operation of every run the history obeys the queue, priority and hook rules, the rings hold what it implies, an armed timer has a callback, and a request is outstanding if and only if the channel is open with something queued |
| `TxRuns.CanSendNowConsistent` | apps/btsensor/btsensor_tx.c:333-373 | The same after a callback at any depth of re-entry |
| `Tx.FailingCallbackRepeats` | apps/btsensor/btsensor_tx.c:333-373 | The limit of termination: a callback whose send fails asks again in the very state it was called in |
| `TxRuns.ResponsesConserved` | apps/btsensor/btsensor_tx.c:285-373 | Responses accepted are, in order, those sent or discarded followed by those queued |
| `TxRuns.ResponsesSentInOrder` | apps/btsensor/btsensor_tx.c:285-373 | From any point on, until the channel is next closed, the responses queued then and accepted since are sent exactly once and in order, or still queued in that order |
| `TxRuns.FramesConserved` | apps/btsensor/btsensor_tx.c:307-373 | Frames likewise, and stored = sent + dropped + discarded + queued |
| `TxRuns.FiresAtMostOnce` | apps/btsensor/btsensor_tx.c:136-186 | Each arm has at most one callback, at most once |
| `TxRuns.NeverAfterClear` | apps/btsensor/btsensor_tx.c:431-442 | No callback of an earlier arm after a clear |
| `TxRuns.DrainMeansSent` | apps/btsensor/btsensor_tx.c:158-186 | When the drain callback runs both queues are empty and, without a close since the arm, everything queued at the arm and accepted since was sent in order |
| `Wire.FrameRoundTrip` | apps/btsensor/btsensor_wire.h:45-96 | A decoder of the wire layout recovers header, samples with absolute times and every TLV from each frame; the length field is the size, at most 401 |
| `Wire.ImusRoundTrip` | apps/btsensor/bundle_emitter.c:132-142 | The IMU subsection decodes to its samples, times modulo 2^32 |
| `Wire.TlvsRoundTrip` | apps/btsensor/bundle_emitter.c:151-179 | The variable-length TLV subsection decodes to its classes, payload only when fresh and at most 32 bytes |
| `Wire.TlvPayloadExactly` | apps/btsensor/btsensor_wire.h:69-105 | The k-th TLV of a decoded frame carries class k's fields, and the first bytes of its payload, 32 at the most, exactly when flag bit 1 is set |
| `Bundle.Emitter.EmitOneFrame` | apps/btsensor/bundle_emitter.c:198-323 | The bytes written into the scratch buffer are the encoded frame; sequence number and configuration cache move on |
| `Bundle.Emitter.EmitBundle` | apps/btsensor/bundle_emitter.c:334-377 | A tick emits one frame per part of the drain |
| `Bundle.RunFrom` | apps/btsensor/bundle_emitter.c:356-363 | The inner walk stops at the first sample of another configuration or at the end |
| `BundleRuns.RunsPartition` | apps/btsensor/bundle_emitter.c:354-374 | The runs concatenate to the drain, each is non-empty and of one configuration, and none could be joined with the next |
| `BundleRuns.FramesPerTick` | apps/btsensor/bundle_emitter.c:334-377 | A tick emits one frame, and one more for each change of configuration within what it drained with the IMU on |
| `BundleRuns.FrameDecodes` | apps/btsensor/bundle_emitter.c:198-377 | The i-th frame of a tick decodes to its run, its configuration's rate and ranges, its snapshot's TLVs, the sequence number s + i modulo 2^16, the two switches in flag bits 0 and 1, and the tick's time if it is empty; it fits the arbiter |
| `BundleRuns.ReceiverSeesEverySample` | apps/btsensor/bundle_emitter.c:198-377 | Over any run of ticks a receiver recovers exactly the samples drained while the IMU was on, once each and in order |
| `BundleRuns.ConsecutiveSequence` | apps/btsensor/bundle_emitter.c:320 | The k-th frame ever emitted carries the start number plus k modulo 2^16 |
| `BundleRuns.EmptyFrameAnnouncesCache` | apps/btsensor/bundle_emitter.c:86-96 | A tick that drains nothing announces the configuration of the last sample ever sent |
| `Delivery.TickReachesTheRing` | apps/btsensor/bundle_emitter.c:315-377 | Whatever the arbiter has been through, it stores every frame of a tick in order and refuses none; stored frames leave in order or are still queued |
| `Delivery.CanSendStoresNothing` | apps/btsensor/btsensor_tx.c:333-373 | Sending at any depth of re-entry adds no frame to the ring |
| `Freeze.RunKeepsInv` | apps/drivebase/drivebase_daemon.c:168-382 | The protocol invariant over every interleaving |
| `Freeze.MutualExclusion` | apps/drivebase/drivebase_daemon.c:286-382 | The tick body never runs while the daemon reclaims or resets, and throughout a reset every frozen side has been reclaimed |
| `Freeze.ResetEntry` | apps/drivebase/drivebase_daemon.c:366-381 | The reset is entered only with no request bit set; a port lost while it drains keeps its bit beyond the release |
| `FreezeRuns.CleanCheckResets` | apps/drivebase/drivebase_daemon.c:366-381 | A freeze whose pending check finds no request bit passes through a reset before the flag falls, in every interleaving |
| `FreezeRuns.ReleaseWithoutReset` | apps/drivebase/drivebase_daemon.c:326-381 | A release after an acknowledgement without a reset means some request bit is set when the flag falls |
| `FreezeRuns.ReachesReset` | apps/drivebase/drivebase_daemon.c:326-381 | From an acknowledged freeze, with every reclaim successful and no stop, the daemon reaches the reset within its rank of own steps, whatever the RT thread does |
| `FreezeRuns.GateAcknowledges` | apps/drivebase/drivebase_daemon.c:168-189 | One gate between ticks is all the waiting daemon needs to go on |
| `FreezeRuns.RecoveryWitness` | apps/drivebase/drivebase_daemon.c:286-382 | A run from start: port lost, freeze acknowledged, one reclaim, reset, and the next tick enters its body |
| `Freeze.BitClearedAfterReclaim` | apps/drivebase/drivebase_motor.c:532-571 | A request bit disappears only right after its own side was reclaimed |
| `Freeze.FreezeEnds` | apps/drivebase/drivebase_daemon.c:286-382 | The daemon is at rest with the freeze flag down within a bounded number of its steps, whatever the RT thread does |
| `Freeze.SplitGateUnsafe` | apps/drivebase/drivebase_daemon.c:168-189 | With the gate's load and store apart there is an interleaving that breaks the exclusion |

## Left out

- Madgwick fusion, the gyro heading and its injection into the heading axis: floating point; the tick takes both axes' positions and speeds as given.
- Device, uORB, HCI, FIFO and task calls: their results are parameters.
- Starting, stopping and tearing down the daemon, the command line, configuration parsing and the LED, button, battery and crash reporting code.
- The drive commands' conversion from mm and robot degrees to motor milli-degrees beyond `Angles`: straight, turn and curve enter the model as planned profiles.
- Gains and settings setters: settings are constants of an axis; a theorem that needs a range the setters enforce says so.
- Fixed-width overflow outside the two no-overflow modules: PID sums are unbounded integers, and negating INT32_MIN is outside the commands' domain.
- Optimality of a stretch over all peaks: the duration has plateaus, so only the probed window is compared.
- The observer's ring depth is the default of 128 and its window is per instance.
- Callbacks of the drain hook that call back into the arbiter, and a failing `rfcomm_send` inside a synchronous callback: a synchronous callback sends successfully (`FailingCallbackRepeats` says why it has to).
- The bundle timer, its switches' command interface and the single-sensor capture frames: a tick takes the switches, the drain and the sensor snapshots as given.
- Memory ordering of the handshake's atomics: steps interleave sequentially.
- EmitBundle: returns the frames; the hand-over to the arbiter is `Delivery`, and the first error code it passes on is not modelled.
- DrivePosition: the endpoint arithmetic is required to stay in int64.
- RunKeepsClock: takes speed commands whose ramp the clock had run at the start; before that the anchor of a retarget wraps and its origin lies in the future, so only `RunNeverWraps` holds.
- RunKeepsPosition: takes the same; `RunKeepsPositionExactly` has the general condition.
- PidControl.Pid.Update: leaves out that C's abs32 overflows on an error clamped to INT32_MIN, and that the int32 speed and position error differences may overflow; the model takes their exact values.
- InTolerance: for the same reason an error of INT32_MIN is far from the target in the model.
- UpdateTick: takes the two axes' states as given and leaves out the published distance, angle, speeds, stall flag and active command.
- StopNow: leaves out the active command.
- StretchEndsNear: takes moves of at least 200 mdeg, the documented speed limit and targets of up to two minutes; shorter moves and longer targets are bounded by `StretchOvershootGrows` and decided by `StretchMeetsBoundExactly`.
- CurveLowersPeak: takes moves of at least 250 mdeg and the limits of `StretchEndsNear`; `StretchLowersPeak` has none of them.
- StretchNeedsEarlyOrigin: one way; an early origin alone does not make the gate accept.
- StretchMeetsBound: leaves the few mdeg between its sufficient and its necessary side open; `StretchMeetsBoundExactly` decides them by the floored segments.
- OneShot: is about the ticks a wheel is offered; `DrivebaseBreakaway` ties those to runs of the drivebase.
- CompletionExactly: takes fault-free runs and tick lengths for which the two 32-bit streak counters do not wrap.
- LatchExactly: takes tick lengths for which the two 32-bit streak counters do not wrap.
- StalledExactly: takes runs whose streaks stay below 2^32 milliseconds.
- ReachesReset: takes runs in which no port is lost during the reset; after such a loss the next wake starts over.
- EstimateAccurate: takes motion for which the slope fits int32, since the clamp hides the true slope otherwise.
