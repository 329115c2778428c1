/**
 * Properties of the detector over whole sample streams: the window maximum,
 * the buffer bound, its FIFO contents, the first evaluation on the 40th
 * sample, edge-triggered emission and the alternation of events.
 */
module DetectorProperties {
  import opened Wrappers
  import opened MotionDetector

  /**
   * The maximum search finds the maximum: it bounds every element and is
   * either an element or, for an empty window, the starting value.
   */
  lemma {:induction false} PeakIsMaximum(w: seq<real>)
    ensures forall i :: 0 <= i < |w| ==> w[i] <= Peak(w)
    ensures Peak(w) == InitialMaxEnergy || Peak(w) in w
  {
    if w != [] {
      var init := w[..|w| - 1];
      PeakIsMaximum(init);
      assert forall i :: 0 <= i < |init| ==> w[i] == init[i];
    }
  }

  /** The window classifies as moving exactly when one of its deviations reaches the threshold. */
  lemma PeakReachesThreshold(w: seq<real>)
    ensures Peak(w) >= SignificantMotionThreshold <==>
            exists i :: 0 <= i < |w| && w[i] >= SignificantMotionThreshold
  {
    PeakIsMaximum(w);
    if Peak(w) >= SignificantMotionThreshold {
      var i :| 0 <= i < |w| && w[i] == Peak(w);
    }
  }

  // Sequence facts the solver does not find on its own; each is called where
  // one sequence has to be recognised as another.

  /** Appending after a suffix is the suffix of the appended sequence. */
  lemma DropAppend<T>(s: seq<T>, x: T, k: nat)
    requires k <= |s|
    ensures (s + [x])[k..] == s[k..] + [x]
  {
  }

  /** Dropping one more element from a suffix. */
  lemma DropDrop<T>(s: seq<T>, k: nat)
    requires k < |s|
    ensures s[k..][1..] == s[k + 1..]
  {
  }

  /** A prefix of a prefix. */
  lemma TakeTake<T>(s: seq<T>, j: nat, k: nat)
    requires k <= j <= |s|
    ensures s[..j][..k] == s[..k]
  {
  }

  /** Concatenation is associative at a final element. */
  lemma AppendSnoc<T>(a: seq<T>, b: seq<T>, x: T)
    ensures a + (b + [x]) == (a + b) + [x]
  {
  }

  /** The deviations of a stream end with that of its last sample. */
  lemma DeviationsSnoc(energies: seq<real>)
    requires energies != []
    ensures Deviations(energies) == Deviations(energies[..|energies| - 1]) + [Abs(energies[|energies| - 1])]
  {
  }

  /** A stream's last sample is one Step from the state after the others. */
  lemma RunSnoc(s: Detector, energies: seq<real>)
    requires energies != []
    ensures Run(s, energies).0 == Step(Run(s, energies[..|energies| - 1]).0, energies[|energies| - 1]).0
    ensures Run(s, energies).1 ==
            Run(s, energies[..|energies| - 1]).1 + [Step(Run(s, energies[..|energies| - 1]).0, energies[|energies| - 1]).1]
  {
  }

  /** The outputs of a stream's earlier samples do not depend on its last sample. */
  lemma RunOutputPrefix(s: Detector, energies: seq<real>, i: nat)
    requires i < |energies| - 1
    ensures Run(s, energies).1[i] == Run(s, energies[..|energies| - 1]).1[i]
  {
    RunSnoc(s, energies);
  }

  /** The events of a stream are those of its earlier samples followed by that of its last one. */
  lemma EmittedSnoc(outs: seq<Option<MotionEvent>>, o: Option<MotionEvent>)
    ensures Emitted(outs + [o]) == Emitted(outs) + o.ToSeq()
  {
    assert (outs + [o])[..|outs|] == outs;
  }

  /** While the buffer is below BufferTrigger, it stays there whatever the stream. */
  lemma {:induction false} RunKeepsBufferBound(s: Detector, energies: seq<real>)
    requires |s.buffer| < BufferTrigger
    ensures |Run(s, energies).0.buffer| < BufferTrigger
    decreases |energies|
  {
    if energies != [] {
      RunKeepsBufferBound(s, energies[..|energies| - 1]);
      RunSnoc(s, energies);
    }
  }

  /** The window is the most recent min(|history|, WindowSize) elements of the history, in order. */
  lemma WindowIsRecentSuffix(history: seq<real>)
    ensures |Window(history)| == if |history| < WindowSize then |history| else WindowSize
    ensures Window(history) == history[|history| - |Window(history)|..]
  {
  }

  /** One sample moves a buffer that holds Window(history) to the window of the extended history. */
  lemma PushIsWindow(history: seq<real>, energy: real)
    ensures Push(Window(history), energy) == Window(history + [Abs(energy)])
  {
    var n := |history|;
    if n >= WindowSize {
      DropAppend(history, Abs(energy), n + 1 - WindowSize);
      DropDrop(history, n - WindowSize);
    }
  }

  /** Pushing a sample keeps a buffer of deviations one. */
  lemma PushKeepsNonNegative(buffer: seq<real>, energy: real)
    requires NonNegative(buffer)
    ensures NonNegative(Push(buffer, energy))
  {
  }

  /**
   * FIFO contents: from a buffer holding Window(history), the buffer after
   * a stream holds the window of the history followed by the stream's deviations.
   */
  lemma {:induction false} RunBufferIsWindow(history: seq<real>, s: Detector, energies: seq<real>)
    requires s.buffer == Window(history)
    ensures Run(s, energies).0.buffer == Window(history + Deviations(energies))
    decreases |energies|
  {
    if energies == [] {
      assert history + Deviations(energies) == history;
    } else {
      var n := |energies|;
      var init := energies[..n - 1];
      var d := Deviations(init);
      RunBufferIsWindow(history, s, init);
      RunSnoc(s, energies);
      PushIsWindow(history + d, energies[n - 1]);
      DeviationsSnoc(energies);
      AppendSnoc(history, d, Abs(energies[n - 1]));
    }
  }

  /** On a new sensor, the buffer holds the deviations of the last WindowSize samples (all of them before that). */
  lemma FreshBufferIsWindow(energies: seq<real>)
    ensures Run(Fresh, energies).0.buffer == Window(Deviations(energies))
    ensures |Run(Fresh, energies).0.buffer| == if |energies| < WindowSize then |energies| else WindowSize
  {
    assert Window([]) == [];
    RunBufferIsWindow([], Fresh, energies);
    assert [] + Deviations(energies) == Deviations(energies);
    WindowIsRecentSuffix(Deviations(energies));
  }

  /**
   * While the buffer has not reached BufferTrigger, samples are only appended
   * and the flags do not change.
   */
  lemma {:induction false} AppendOnlyBeforeTrigger(s: Detector, energies: seq<real>)
    requires |s.buffer| + |energies| < BufferTrigger
    ensures Run(s, energies).0 == s.(buffer := s.buffer + Deviations(energies))
    decreases |energies|
  {
    if energies == [] {
      assert s.buffer + Deviations(energies) == s.buffer;
    } else {
      var n := |energies|;
      AppendOnlyBeforeTrigger(s, energies[..n - 1]);
      RunSnoc(s, energies);
      DeviationsSnoc(energies);
      AppendSnoc(s.buffer, Deviations(energies[..n - 1]), Abs(energies[n - 1]));
    }
  }

  /** While the buffer has not reached BufferTrigger, no sample produces an event. */
  lemma SilentBeforeTrigger(s: Detector, energies: seq<real>)
    requires |s.buffer| + |energies| < BufferTrigger
    ensures forall i :: 0 <= i < |energies| ==> Run(s, energies).1[i] == None
  {
    forall i | 0 <= i < |energies|
      ensures Run(s, energies).1[i] == None
    {
      RunOutputAt(s, energies, i + 1);
      AppendOnlyBeforeTrigger(s, energies[..i]);
    }
  }

  /** The output of sample k (1-based) is decided by the state after the first k - 1 samples. */
  lemma {:induction false} RunOutputAt(s: Detector, energies: seq<real>, k: nat)
    requires 0 < k <= |energies|
    ensures Run(s, energies).1[k - 1] == Step(Run(s, energies[..k - 1]).0, energies[k - 1]).1
    decreases |energies|
  {
    if k < |energies| {
      RunOutputAt(s, energies[..|energies| - 1], k);
      RunOutputShift(s, energies, k);
    } else {
      RunSnoc(s, energies);
    }
  }

  /** The step of RunOutputAt: an output of the stream without its last sample carries over. */
  lemma RunOutputShift(s: Detector, energies: seq<real>, k: nat)
    requires 0 < k < |energies|
    requires var init := energies[..|energies| - 1];
             Run(s, init).1[k - 1] == Step(Run(s, init[..k - 1]).0, init[k - 1]).1
    ensures Run(s, energies).1[k - 1] == Step(Run(s, energies[..k - 1]).0, energies[k - 1]).1
  {
    var init := energies[..|energies| - 1];
    TakeTake(energies, |energies| - 1, k - 1);
    assert init[..k - 1] == energies[..k - 1] && init[k - 1] == energies[k - 1];
    RunOutputPrefix(s, energies, k - 1);
  }

  /** Sample k of a stream moves the state reached after the first k - 1 samples to the one after k. */
  lemma RunTakeSnoc(s: Detector, energies: seq<real>, k: nat)
    requires 0 < k <= |energies|
    ensures Run(s, energies[..k]).0 == Step(Run(s, energies[..k - 1]).0, energies[k - 1]).0
  {
    TakeTake(energies, k, k - 1);
    RunSnoc(s, energies[..k]);
  }

  /** On a new sensor no sample before the 40th produces an event. */
  lemma NoEventBeforeFortieth(energies: seq<real>, k: nat)
    requires 0 < k < BufferTrigger && k <= |energies|
    ensures Run(Fresh, energies).1[k - 1] == None
  {
    RunOutputAt(Fresh, energies, k);
    FreshBufferIsWindow(energies[..k - 1]);
  }

  /**
   * From the 40th sample on, every sample evaluates: the current flag is the
   * classification of the WindowSize most recent deviations and the last flag equals it.
   */
  lemma ClassificationFromFortieth(energies: seq<real>)
    requires |energies| >= BufferTrigger
    ensures Run(Fresh, energies).0.current == MovingAfter(energies)
    ensures Run(Fresh, energies).0.last == Run(Fresh, energies).0.current
  {
    FreshBufferIsWindow(energies[..|energies| - 1]);
    FreshBufferIsWindow(energies);
    RunSnoc(Fresh, energies);
  }

  /**
   * From the 40th sample on, the maximum the evaluation compares with the
   * threshold is never negative and is one of the buffered deviations.
   */
  lemma FreshPeakIsDeviation(energies: seq<real>)
    requires |energies| >= BufferTrigger
    ensures var b := Run(Fresh, energies).0.buffer;
            Peak(b) >= 0.0 && Peak(b) in b
  {
    var ds := Deviations(energies);
    var b := Run(Fresh, energies).0.buffer;
    FreshBufferIsWindow(energies);
    WindowIsRecentSuffix(ds);
    assert b[0] == ds[|ds| - WindowSize] >= 0.0;
    PeakIsMaximum(b);
  }

  /** The last flag before sample k: still until the first evaluation, then the previous classification. */
  lemma LastBeforeSample(prefix: seq<real>)
    requires |prefix| >= WindowSize
    ensures Run(Fresh, prefix).0.last == (|prefix| >= BufferTrigger && MovingAfter(prefix))
  {
    if |prefix| >= BufferTrigger {
      ClassificationFromFortieth(prefix);
    } else {
      AppendOnlyBeforeTrigger(Fresh, prefix);
    }
  }

  /**
   * Edge-triggered emission: sample k (k >= 40) produces an event exactly when
   * its classification differs from that of the previous evaluated sample
   * (still before the first evaluation), Started when it is moving and Ended otherwise.
   */
  lemma EdgeTriggered(energies: seq<real>, k: nat)
    requires BufferTrigger <= k <= |energies|
    ensures var ev := Run(Fresh, energies).1[k - 1];
            var now := MovingAfter(energies[..k]);
            var before := k > BufferTrigger && MovingAfter(energies[..k - 1]);
            && (ev.Some? <==> now != before)
            && (ev.Some? ==> (ev.value == Started <==> now))
  {
    var prefix := energies[..k - 1];
    RunOutputAt(Fresh, energies, k);
    RunTakeSnoc(Fresh, energies, k);
    FreshBufferIsWindow(prefix);
    FreshBufferIsWindow(energies[..k]);
    LastBeforeSample(prefix);
  }

  /**
   * The invariant of a state reached after the events `evs`: its two flags
   * agree, the events alternate from `start`, and the flags hold the
   * classification the last event announced.
   */
  ghost predicate Consistent(start: bool, d: Detector, evs: seq<MotionEvent>)
  {
    && d.last == d.current
    && AlternatesFrom(start, evs)
    && d.last == Settled(start, evs)
  }

  /** One sample keeps the flags equal and extends an alternating event history. */
  lemma StepAlternates(s: Detector, energy: real, start: bool, evs: seq<MotionEvent>)
    requires Consistent(start, s, evs)
    ensures var r := Step(s, energy);
            Consistent(start, r.0, evs + r.1.ToSeq())
  {
    var r := Step(s, energy);
    if r.1.Some? {
      var evs' := evs + [r.1.value];
      forall i | 0 < i < |evs'|
        ensures evs'[i] != evs'[i - 1]
      {
        if i < |evs| {
          assert evs'[i] == evs[i] && evs'[i - 1] == evs[i - 1];
        }
      }
    }
  }

  /** The same step, on the per-sample outputs of a stream. */
  lemma ConsistentStep(start: bool, d: Detector, outs: seq<Option<MotionEvent>>, energy: real)
    requires Consistent(start, d, Emitted(outs))
    ensures var r := Step(d, energy);
            Consistent(start, r.0, Emitted(outs + [r.1]))
  {
    var r := Step(d, energy);
    StepAlternates(d, energy, start, Emitted(outs));
    EmittedSnoc(outs, r.1);
  }

  /**
   * Over any stream, the emitted events alternate starting from the opposite
   * of the initial classification, and the final classification is that
   * of the last event.
   */
  lemma {:induction false} RunAlternates(s: Detector, energies: seq<real>)
    requires s.last == s.current
    ensures Consistent(s.last, Run(s, energies).0, Emitted(Run(s, energies).1))
    decreases |energies|
  {
    if energies != [] {
      var n := |energies|;
      RunAlternates(s, energies[..n - 1]);
      RunSnoc(s, energies);
      ConsistentStep(s.last, Run(s, energies[..n - 1]).0, Run(s, energies[..n - 1]).1, energies[n - 1]);
    }
  }

  /** On a new sensor the first event is Started and no two consecutive events are equal. */
  lemma FreshEventsAlternate(energies: seq<real>)
    ensures var evs := Emitted(Run(Fresh, energies).1);
            && (evs != [] ==> evs[0] == Started)
            && forall i :: 0 < i < |evs| ==> evs[i] != evs[i - 1]
  {
    RunAlternates(Fresh, energies);
  }
}
