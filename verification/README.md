# Significant-motion detector of the AWARE significant motion sensor

This project models the detector inside `SignificantMotionSensor.onSensorChanged`
of the AWARE Android significant-motion sensor, and proves its properties in Dafny.

For each accelerometer sample, the handler does the following:

- it appends the sample's deviation from gravity, `|‖(x,y,z)‖ − g|`, to a per-instance buffer;
- once the buffer reaches 40 elements, it removes the oldest one and takes the maximum of the rest;
- it classifies the device as moving when that maximum is at least 1.0;
- when the classification differs from the previous one, it emits a start or end event;
- it then records the classification as the last one.

The project has four files:

- `wrappers.dfy`: an `Option` type.
- `motion_detector.dfy` (module `MotionDetector`): the detector as values.
  - `Step` handles one sample and `Run` handles a stream of samples.
  - `Peak` is the result of the maximum search.
  - `Window` is what the buffer should hold after a history of deviations.
- `detector_properties.dfy` (module `DetectorProperties`): lemmas about whole sample streams.
- `significant_motion_sensor.dfy` (module `SignificantMotion`): the imperative form of the handler.
  - `CompanionState` holds the two flags of the companion object: `lastSignificantMotionState` and `currentSignificantMotionState`. Every sensor instance shares them.
  - `SignificantMotionSensor` has the per-instance `buffer` (a `seq<real>` that the handler reassigns) and a reference to the shared `CompanionState`.
  - `OnSensorChanged` is proved to act exactly as `Step`. It keeps the invariant that every event the shared state has produced alternates, starting with `Started`. This holds even when several instances drive the same companion state.
  - `MaxEnergy` is the maximum loop. It is proved against `Peak`.

A sample enters the model as its signed energy: a `real` equal to the magnitude minus gravity (line 169). The model then takes the absolute value itself (line 170). A missing sensor event (line 162) is `None`.

Four points about the handler shape the model:

- An evaluation looks at 39 deviations. Eviction (line 174) comes before the maximum (lines 176-179), so the buffer returns to 39 elements after every evaluation. `Window` and `FreshBufferIsWindow` state this.
- A non-finite deviation is stored like any other. The handler has no check for one.
- The handler has no reset operation.
- The two flags live in the companion object (lines 67-68), not in the instance, so the model shares one `CompanionState` between instances.

The paths in the table below are written in full; "line N" above refers to `library/src/main/java/com/awareframework/android/sensor/significantmotion/SignificantMotionSensor.kt`.

## Model

| member | source | states |
|---|---|---|
| MotionDetector.Abs | library/src/main/java/com/awareframework/android/sensor/significantmotion/SignificantMotionSensor.kt:169-170 | the stored deviation is non-negative and equals the signed energy or its negation |
| MotionDetector.RecordOf | library/src/main/java/com/awareframework/android/sensor/significantmotion/SignificantMotionSensor.kt:188-190 | the persisted record has `isMoving` true exactly for a start event |
| MotionDetector.Peak | library/src/main/java/com/awareframework/android/sensor/significantmotion/SignificantMotionSensor.kt:176-179 | the result of the maximum search that starts at -1 is never below -1 |
| MotionDetector.Classify | library/src/main/java/com/awareframework/android/sensor/significantmotion/SignificantMotionSensor.kt:181-185 | the if / else-if classification is total: the new flag is true exactly when the maximum is at least the threshold 1.0 |
| MotionDetector.Transition | library/src/main/java/com/awareframework/android/sensor/significantmotion/SignificantMotionSensor.kt:187-201 | an event is due exactly when the new classification differs from the last one; its record says moving exactly when the new classification is moving |
| MotionDetector.Evaluate | library/src/main/java/com/awareframework/android/sensor/significantmotion/SignificantMotionSensor.kt:181-204 | one evaluation leaves the buffer alone, sets current to (max >= 1.0), sets last equal to current, and emits an event exactly when current differs from the old last: Started when moving, Ended otherwise |
| MotionDetector.Push | library/src/main/java/com/awareframework/android/sensor/significantmotion/SignificantMotionSensor.kt:170-174 | a buffer below 40 stays below 40; the deviation is appended, and when that makes 40 elements the oldest is removed |
| MotionDetector.Step | library/src/main/java/com/awareframework/android/sensor/significantmotion/SignificantMotionSensor.kt:170-205 | the new buffer is the pushed one; below the trigger the flags are unchanged and there is no event; at the trigger current is (Peak of the new buffer >= 1.0), last equals current, and an event is emitted exactly when current differs from the old last, Started when moving and Ended otherwise |
| MotionDetector.Run | library/src/main/java/com/awareframework/android/sensor/significantmotion/SignificantMotionSensor.kt:161-206 | feeding a stream gives exactly one output (at most one event) per sample |
| DetectorProperties.WindowIsRecentSuffix | library/src/main/java/com/awareframework/android/sensor/significantmotion/SignificantMotionSensor.kt:170-174 | the buffer contents after a history are its suffix of length min(length, 39), in arrival order |
| DetectorProperties.PeakIsMaximum | library/src/main/java/com/awareframework/android/sensor/significantmotion/SignificantMotionSensor.kt:176-179 | the maximum search bounds every element of the buffer from above and is either its starting value -1 or an element of the buffer |
| DetectorProperties.PeakReachesThreshold | library/src/main/java/com/awareframework/android/sensor/significantmotion/SignificantMotionSensor.kt:176-185 | the window classifies as moving if and only if one of its deviations reaches 1.0 |
| DetectorProperties.RunKeepsBufferBound | library/src/main/java/com/awareframework/android/sensor/significantmotion/SignificantMotionSensor.kt:170-174 | a buffer below 40 elements stays below 40 over any stream |
| DetectorProperties.PushKeepsNonNegative | library/src/main/java/com/awareframework/android/sensor/significantmotion/SignificantMotionSensor.kt:170-174 | the buffer only ever holds absolute values: pushing a sample keeps every element non-negative |
| DetectorProperties.PushIsWindow | library/src/main/java/com/awareframework/android/sensor/significantmotion/SignificantMotionSensor.kt:170-174 | one sample turns the window of a history into the window of the history extended by its deviation |
| DetectorProperties.RunBufferIsWindow | library/src/main/java/com/awareframework/android/sensor/significantmotion/SignificantMotionSensor.kt:170-174 | FIFO: after a stream, the buffer is the window of the earlier history followed by the stream's deviations, in arrival order |
| DetectorProperties.FreshBufferIsWindow | library/src/main/java/com/awareframework/android/sensor/significantmotion/SignificantMotionSensor.kt:170-174 | on a new instance, the buffer holds all deviations so far until 39 have arrived, and then the 39 most recent; it never reaches 40 |
| DetectorProperties.AppendOnlyBeforeTrigger | library/src/main/java/com/awareframework/android/sensor/significantmotion/SignificantMotionSensor.kt:170-172 | while the buffer has not reached 40, samples are only appended, in order, and the flags are unchanged |
| DetectorProperties.SilentBeforeTrigger | library/src/main/java/com/awareframework/android/sensor/significantmotion/SignificantMotionSensor.kt:172 | while the buffer has not reached 40, no sample produces an event |
| DetectorProperties.RunOutputAt | library/src/main/java/com/awareframework/android/sensor/significantmotion/SignificantMotionSensor.kt:161-206 | the output of the k-th sample of a stream is that of one Step from the state reached after the first k - 1 samples |
| DetectorProperties.NoEventBeforeFortieth | library/src/main/java/com/awareframework/android/sensor/significantmotion/SignificantMotionSensor.kt:172 | on a new instance, none of the first 39 samples produces an event |
| DetectorProperties.ClassificationFromFortieth | library/src/main/java/com/awareframework/android/sensor/significantmotion/SignificantMotionSensor.kt:172-204 | from the 40th sample on, current is the classification of the 39 most recent deviations, and last equals current |
| DetectorProperties.FreshPeakIsDeviation | library/src/main/java/com/awareframework/android/sensor/significantmotion/SignificantMotionSensor.kt:170-179 | from the 40th sample on, the maximum compared with the threshold is non-negative and is one of the buffered deviations |
| DetectorProperties.EdgeTriggered | library/src/main/java/com/awareframework/android/sensor/significantmotion/SignificantMotionSensor.kt:187-204 | from the 40th sample on, a sample emits an event if and only if its classification differs from that of the previous sample (still before the first evaluation); the event is Started when moving and Ended when still |
| DetectorProperties.StepAlternates | library/src/main/java/com/awareframework/android/sensor/significantmotion/SignificantMotionSensor.kt:187-204 | one sample keeps last == current and extends an alternating event history, with the flags recording the classification its last event announced |
| DetectorProperties.ConsistentStep | library/src/main/java/com/awareframework/android/sensor/significantmotion/SignificantMotionSensor.kt:187-204 | the same invariant is kept by one more sample appended to the outputs of a stream |
| DetectorProperties.RunAlternates | library/src/main/java/com/awareframework/android/sensor/significantmotion/SignificantMotionSensor.kt:187-204 | over any stream, the emitted events alternate starting from the opposite of the initial classification, and the final flags equal the classification of the last event |
| DetectorProperties.FreshEventsAlternate | library/src/main/java/com/awareframework/android/sensor/significantmotion/SignificantMotionSensor.kt:187-204 | with the flags starting false, the first event emitted is Started and no two consecutive events are of the same kind |
| SignificantMotion.MaxEnergy | library/src/main/java/com/awareframework/android/sensor/significantmotion/SignificantMotionSensor.kt:176-179 | the loop computes Peak; the result bounds every element; on a non-empty buffer of deviations it is non-negative and is an element of the buffer |
| SignificantMotion.CompanionState.constructor | library/src/main/java/com/awareframework/android/sensor/significantmotion/SignificantMotionSensor.kt:67-68 | both shared flags start false and no event has been emitted |
| SignificantMotion.SignificantMotionSensor.constructor | library/src/main/java/com/awareframework/android/sensor/significantmotion/SignificantMotionSensor.kt:81 | a new instance has an empty buffer and uses the given shared companion state |
| SignificantMotion.SignificantMotionSensor.OnSensorChanged | library/src/main/java/com/awareframework/android/sensor/significantmotion/SignificantMotionSensor.kt:161-206 | a missing event changes nothing; otherwise the new buffer, flags and returned event are exactly those of Step; the buffer stays below 40 and holds only non-negative deviations, the flags stay equal, and the shared event history stays alternating, beginning with Started |

## Left out

- Computing the signed energy from the raw sample (lines 164-169) is not modelled. This covers `sqrt`, `Float` arithmetic, `SensorManager.GRAVITY_EARTH`, NaN and rounding. The model takes the energy as a `real` input, and the comparisons are exact real comparisons.
- The Android service lifecycle is not modelled: `onCreate`, `onStartCommand`, `onDestroy`, `onBind` and `onAccuracyChanged`. This includes listener registration, the `HandlerThread`/`Handler`, the broadcast receivers and the `isSignificantMotionActive` flag. These are operating-system plumbing.
- The side effects of an event are not modelled: `dbEngine?.save`, `sendBroadcast`, the observer callbacks and logging (lines 192-200, 265-271). These are calls into code outside this component. `OnSensorChanged` returns the event instead, and `RecordOf` gives the record that would be saved.
- `Config` and `replaceWith`, `onSync`, and the companion `start`/`stop` helpers are not modelled. They are framework glue.
- The Gson serialisation of `SignificantMotionData` is not modelled. Only its `isMoving` field is kept, as `MotionDetector.SignificantMotionData`.
- The model assumes that calls to the handler are serialized. Two service instances on different handler threads would share the companion flags without synchronization.
- External writes to the public `currentSignificantMotionState` are not modelled. `CompanionState.Valid` assumes that the flag is changed only by the handler, so `last == current` between calls. Such writes would not change any event, because the handler overwrites `current` before comparing it.
- `NoEventBeforeFortieth`, `ClassificationFromFortieth` and `EdgeTriggered` are stated for an instance whose companion flags are still at their initial values. With a shared companion state, another instance may have moved the flags. For that case, `OnSensorChanged` and `RunAlternates` give the per-sample and alternation guarantees.
