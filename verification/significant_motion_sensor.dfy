/**
 * The sensor service's sample handler: a per-instance buffer of deviations
 * and the two classification flags its companion object shares between
 * all instances.
 */
module SignificantMotion {
  import opened Wrappers
  import opened MotionDetector
  import DetectorProperties

  /**
   * The maximum search over the buffer: starts at InitialMaxEnergy and takes
   * every element at least as large as the running maximum.
   */
  method MaxEnergy(buffer: seq<real>) returns (maxEnergy: real)
    ensures maxEnergy == Peak(buffer)
    ensures forall i :: 0 <= i < |buffer| ==> buffer[i] <= maxEnergy
    ensures buffer != [] && (forall i :: 0 <= i < |buffer| ==> buffer[i] >= 0.0) ==>
              maxEnergy >= 0.0 && maxEnergy in buffer
  {
    maxEnergy := InitialMaxEnergy;
    for i := 0 to |buffer|
      invariant maxEnergy == Peak(buffer[..i])
    {
      assert buffer[..i + 1][..i] == buffer[..i];
      if buffer[i] >= maxEnergy {
        maxEnergy := buffer[i];
      }
    }
    assert buffer[..|buffer|] == buffer;
    DetectorProperties.PeakIsMaximum(buffer);
  }

  /**
   * The companion object's classification flags, shared by every sensor
   * instance. `emitted` is the history of events all instances have produced.
   */
  class CompanionState {
    var lastSignificantMotionState: bool
    var currentSignificantMotionState: bool
    ghost var emitted: seq<MotionEvent>

    /** The flags agree and record the last event of an alternating history that began with Started. */
    ghost predicate Valid()
      reads this
    {
      && lastSignificantMotionState == currentSignificantMotionState
      && AlternatesFrom(false, emitted)
      && lastSignificantMotionState == Settled(false, emitted)
    }

    constructor ()
      ensures Valid()
      ensures !lastSignificantMotionState && !currentSignificantMotionState
      ensures emitted == []
    {
      lastSignificantMotionState := false;
      currentSignificantMotionState := false;
      emitted := [];
    }
  }

  class SignificantMotionSensor {
    var buffer: seq<real>
    const companion: CompanionState

    /** The buffer stays below BufferTrigger and holds deviations, which are never negative. */
    ghost predicate Valid()
      reads this, companion
    {
      && |buffer| < BufferTrigger
      && NonNegative(buffer)
      && companion.Valid()
    }

    /** The detector state this instance sees. */
    ghost function State(): Detector
      reads this, companion
    {
      Detector(buffer, companion.lastSignificantMotionState, companion.currentSignificantMotionState)
    }

    constructor (companion: CompanionState)
      requires companion.Valid()
      ensures Valid()
      ensures this.companion == companion && buffer == []
    {
      this.companion := companion;
      buffer := [];
    }

    /**
     * Handles one accelerometer event, given as its signed energy (magnitude
     * minus standard gravity), or None for a missing event. Returns the
     * transition event, if any, that the service persists and broadcasts.
     */
    method OnSensorChanged(event: Option<real>) returns (ev: Option<MotionEvent>)
      requires Valid()
      modifies this, companion
      ensures Valid()
      ensures event.None? ==> ev.None? && State() == old(State())
      ensures event.Some? ==> (State(), ev) == Step(old(State()), event.value)
      ensures companion.emitted == old(companion.emitted) + ev.ToSeq()
    {
      if event.None? {
        return None;
      }
      ghost var before := State();
      var energy := event.value;
      ghost var expected := Step(before, energy);
      DetectorProperties.PushKeepsNonNegative(buffer, energy);
      buffer := buffer + [Abs(energy)];
      ev := None;
      if |buffer| == BufferTrigger {
        buffer := buffer[1..];
        assert buffer == expected.0.buffer;
        var maxEnergy := MaxEnergy(buffer);
        assert maxEnergy >= 0.0 && maxEnergy in buffer;
        if maxEnergy >= SignificantMotionThreshold {
          companion.currentSignificantMotionState := true;
        } else if maxEnergy < SignificantMotionThreshold {
          companion.currentSignificantMotionState := false;
        }
        if companion.currentSignificantMotionState != companion.lastSignificantMotionState {
          ev := Some(if companion.currentSignificantMotionState then Started else Ended);
        }
        companion.lastSignificantMotionState := companion.currentSignificantMotionState;
      }
      assert (State(), ev) == expected;
      DetectorProperties.StepAlternates(before, energy, false, companion.emitted);
      companion.emitted := companion.emitted + ev.ToSeq();
    }
  }
}
