/**
 * Value-level specification of the significant-motion detector of
 * SignificantMotionSensor.onSensorChanged: the per-sample buffer update,
 * the window maximum, the threshold classification and the edge-triggered
 * start/end events.
 *
 * A sample enters the model as its signed energy, the magnitude of the
 * acceleration vector minus standard gravity; the detector itself takes
 * the absolute value.
 */
module MotionDetector {
  import opened Wrappers

  /** Buffer size at which the oldest value is dropped and the window evaluated. */
  const BufferTrigger: nat := 40
  /** Number of deviations an evaluation looks at: eviction precedes the maximum. */
  const WindowSize: nat := BufferTrigger - 1
  /** A window maximum at or above this value classifies the device as moving. */
  const SignificantMotionThreshold: real := 1.0
  /** Starting value of the maximum search. */
  const InitialMaxEnergy: real := -1.0

  /** The transition broadcast when the classification flips. */
  datatype MotionEvent = Started | Ended

  /** The record persisted for an event. */
  datatype SignificantMotionData = SignificantMotionData(isMoving: bool)

  /**
   * Detector state: the per-instance buffer and the two classification
   * flags (the last evaluated classification and the current one).
   */
  datatype Detector = Detector(buffer: seq<real>, last: bool, current: bool)

  /** State of a newly created sensor whose companion flags are still at their initial values. */
  const Fresh: Detector := Detector([], false, false)

  function Abs(x: real): (r: real)
    ensures r >= 0.0
    ensures r == x || r == -x
  {
    if x < 0.0 then -x else x
  }

  /** The record saved for an event: moving exactly for a start event. */
  function RecordOf(ev: MotionEvent): (d: SignificantMotionData)
    ensures d.isMoving <==> ev == Started
  {
    SignificantMotionData(ev.Started?)
  }

  /**
   * Result of the maximum search that starts at InitialMaxEnergy and scans
   * the window from front to back, taking every element that is at least the
   * running maximum.
   */
  function Peak(w: seq<real>): (m: real)
    ensures InitialMaxEnergy <= m
  {
    if w == [] then InitialMaxEnergy
    else
      var m' := Peak(w[..|w| - 1]);
      if w[|w| - 1] >= m' then w[|w| - 1] else m'
  }

  /**
   * Threshold classification as written: the two guarded branches, and
   * the previous value kept when neither guard holds.
   */
  function Classify(current: bool, maxEnergy: real): (moving: bool)
    ensures moving <==> maxEnergy >= SignificantMotionThreshold
  {
    if maxEnergy >= SignificantMotionThreshold then true
    else if maxEnergy < SignificantMotionThreshold then false
    else current
  }

  /** The event due when the classification goes from `last` to `current`. */
  function Transition(last: bool, current: bool): (ev: Option<MotionEvent>)
    ensures ev.Some? <==> current != last
    ensures ev.Some? ==> RecordOf(ev.value).isMoving == current
  {
    if current != last then Some(if current then Started else Ended) else None
  }

  /** One evaluation of a window whose maximum is `maxEnergy`. */
  function Evaluate(s: Detector, maxEnergy: real): (r: (Detector, Option<MotionEvent>))
    ensures r.0.buffer == s.buffer
    ensures r.0.current <==> maxEnergy >= SignificantMotionThreshold
    ensures r.0.last == r.0.current
    ensures r.1.Some? <==> r.0.current != s.last
    ensures r.1.Some? ==> (r.1.value == Started <==> r.0.current)
  {
    var current := Classify(s.current, maxEnergy);
    (Detector(s.buffer, current, current), Transition(s.last, current))
  }

  /**
   * The buffer after one sample: its deviation appended and, once the buffer
   * reaches BufferTrigger elements, the oldest element removed.
   */
  function Push(buffer: seq<real>, energy: real): (b: seq<real>)
    ensures |buffer| < BufferTrigger ==> |b| < BufferTrigger
    ensures |buffer| + 1 != BufferTrigger ==> b == buffer + [Abs(energy)]
    ensures |buffer| + 1 == BufferTrigger ==> b == buffer[1..] + [Abs(energy)]
  {
    var appended := buffer + [Abs(energy)];
    if |appended| == BufferTrigger then appended[1..] else appended
  }

  /**
   * Handling of one sample: update the buffer and, when it has reached
   * BufferTrigger elements, evaluate what is left after the eviction.
   */
  function Step(s: Detector, energy: real): (r: (Detector, Option<MotionEvent>))
    ensures r.0.buffer == Push(s.buffer, energy)
    ensures |s.buffer| + 1 != BufferTrigger ==>
              r.0.last == s.last && r.0.current == s.current && r.1 == None
    ensures |s.buffer| + 1 == BufferTrigger ==>
              && (r.0.current <==> Peak(r.0.buffer) >= SignificantMotionThreshold)
              && r.0.last == r.0.current
              && (r.1.Some? <==> r.0.current != s.last)
              && (r.1.Some? ==> (r.1.value == Started <==> r.0.current))
  {
    var buffer := Push(s.buffer, energy);
    if |s.buffer| + 1 == BufferTrigger then
      Evaluate(s.(buffer := buffer), Peak(buffer))
    else
      (s.(buffer := buffer), None)
  }

  /**
   * A stream of samples fed to the detector one by one: the final state and
   * the output of each sample, in order.
   */
  function Run(s: Detector, energies: seq<real>): (r: (Detector, seq<Option<MotionEvent>>))
    ensures |r.1| == |energies|
    decreases |energies|
  {
    if energies == [] then (s, [])
    else
      var prefix := Run(s, energies[..|energies| - 1]);
      var next := Step(prefix.0, energies[|energies| - 1]);
      (next.0, prefix.1 + [next.1])
  }

  /** The events a sequence of per-sample outputs carries, in order. */
  function Emitted(outs: seq<Option<MotionEvent>>): (evs: seq<MotionEvent>)
    ensures |evs| <= |outs|
  {
    if outs == [] then []
    else Emitted(outs[..|outs| - 1]) + outs[|outs| - 1].ToSeq()
  }

  /** The deviation of each sample of a stream. */
  function Deviations(energies: seq<real>): (ds: seq<real>)
    ensures |ds| == |energies|
    ensures forall i :: 0 <= i < |energies| ==> ds[i] == Abs(energies[i])
  {
    if energies == [] then []
    else Deviations(energies[..|energies| - 1]) + [Abs(energies[|energies| - 1])]
  }

  /**
   * What the buffer holds after a history of deviations: all of them while
   * fewer than BufferTrigger have arrived, and the WindowSize most recent ones
   * from then on.
   */
  function Window(history: seq<real>): seq<real>
  {
    if |history| < BufferTrigger then history else history[|history| - WindowSize..]
  }

  /** A buffer of deviations: no element is negative. */
  ghost predicate NonNegative(buffer: seq<real>)
  {
    forall i :: 0 <= i < |buffer| ==> buffer[i] >= 0.0
  }

  /** Classification after a stream that has filled the buffer at least once. */
  ghost predicate MovingAfter(energies: seq<real>)
  {
    Peak(Window(Deviations(energies))) >= SignificantMotionThreshold
  }

  /**
   * The emitted events alternate, the first being Started when the
   * classification before them was still (`start` false) and Ended otherwise.
   */
  ghost predicate AlternatesFrom(start: bool, evs: seq<MotionEvent>)
  {
    && (evs != [] ==> (evs[0] == Started <==> !start))
    && forall i :: 0 < i < |evs| ==> evs[i] != evs[i - 1]
  }

  /** The classification after a sequence of events that began from `start`. */
  ghost predicate Settled(start: bool, evs: seq<MotionEvent>)
  {
    if evs == [] then start else evs[|evs| - 1] == Started
  }
}
