/** What the reader's queue loses: nothing while the capture loop keeps up, and the oldest frames when it does not. */
module ReaderQueue {
  import opened Sequences
  import opened AnnexB
  import opened Delivery
  import opened Pipeline

  ghost predicate HoldsNewest(s: State) {
    var n := |s.emitted| - if s.producer == Ready then 0 else 1;
    |s.readerQueue| <= n && s.readerQueue == Range(n - |s.readerQueue|, n)
  }

  lemma StepHoldsNewest(s: State, step: Step)
    requires Inv(s) && HoldsNewest(s) && Apply(s, step).Some?
    ensures HoldsNewest(Apply(s, step).value)
  {
  }

  /** On every schedule the reader's queue holds the newest of the frames it was given, in order and without a gap. */
  lemma {:induction false} QueueHoldsNewest(enc: Encoding, texts: SeedTexts, steps: seq<Step>, s: State)
    requires Run(Init(enc, texts), steps) == Some(s)
    ensures HoldsNewest(s)
  {
    if steps != [] {
      var front := steps[..|steps| - 1];
      QueueHoldsNewest(enc, texts, front, Run(Init(enc, texts), front).value);
      RunKeepsInv(enc, texts, front);
      StepHoldsNewest(Run(Init(enc, texts), front).value, steps[|steps| - 1]);
    }
  }

  /** No frame was made while eight others waited for the capture loop. */
  predicate ReaderNeverFull(s: State, steps: seq<Step>) {
    steps != [] ==>
      var front := steps[..|steps| - 1];
      && ReaderNeverFull(s, front)
      && (Run(s, front).Some? && steps[|front|].Produce? ==> |Run(s, front).value.readerQueue| < 8)
  }

  ghost predicate NoneLost(s: State) {
    s.producer == Ready && s.taken + s.readerQueue == Range(0, |s.emitted|)
  }

  lemma StepLosesNone(s: State, step: Step)
    requires NoneLost(s) && Apply(s, step).Some? && (step.Produce? ==> |s.readerQueue| < 8)
    ensures NoneLost(Apply(s, step).value)
  {
    if step.Produce? {
      RangeSnoc(0, |s.emitted|);
    } else if step.Take? {
      assert s.taken + s.readerQueue == (s.taken + [s.readerQueue[0]]) + s.readerQueue[1..];
    }
  }

  /** The capture loop gets every frame, in order, as long as no frame is made while eight others wait. */
  lemma {:induction false} ReaderLosesNone(enc: Encoding, texts: SeedTexts, steps: seq<Step>, s: State)
    requires Run(Init(enc, texts), steps) == Some(s) && ReaderNeverFull(Init(enc, texts), steps)
    ensures s.producer == Ready && s.taken + s.readerQueue == Range(0, |s.emitted|)
  {
    if steps == [] {
      assert [] + [] == Range(0, 0);
    } else {
      var front := steps[..|steps| - 1];
      ReaderLosesNone(enc, texts, front, Run(Init(enc, texts), front).value);
      StepLosesNone(Run(Init(enc, texts), front).value, steps[|steps| - 1]);
    }
  }

  // At most one frame was taken and not broadcast yet.
  ghost predicate Pending(s: State) {
    |s.taken| == |s.shared| && s.fanned <= |s.shared| <= s.fanned + 1
  }

  lemma StepKeepsPending(s: State, step: Step, t: State)
    requires Pending(s) && Apply(s, step) == Some(t)
    ensures Pending(t)
  {
  }

  lemma {:induction false} OnePending(enc: Encoding, texts: SeedTexts, steps: seq<Step>, s: State)
    requires Run(Init(enc, texts), steps) == Some(s)
    ensures Pending(s)
  {
    if steps != [] {
      var front := steps[..|steps| - 1];
      var before := Run(Init(enc, texts), front).value;
      OnePending(enc, texts, front, before);
      StepKeepsPending(before, steps[|steps| - 1], s);
    }
  }

  lemma HeadIsMade(emitted: nat, producer: Producer, taken: seq<nat>, queue: seq<nat>)
    requires QueueOk(emitted, producer, taken, queue) && queue != []
    ensures queue[0] < emitted
  {
  }

  lemma TakeIsEnabled(s: State)
    requires s.readerQueue != [] && s.readerQueue[0] < |s.emitted| && s.fanned == |s.shared|
    ensures Apply(s, Take).Some?
  {
  }

  /** The capture loop is never stuck: with a frame waiting it can take it, and then broadcasts it. */
  lemma LoopMoves(enc: Encoding, texts: SeedTexts, steps: seq<Step>, s: State)
    requires Run(Init(enc, texts), steps) == Some(s)
    ensures s.fanned == |s.taken| && s.readerQueue != [] ==> Apply(s, Take).Some?
    ensures s.fanned < |s.taken| ==> Apply(s, Step.FanOut).Some?
    ensures |s.taken| <= s.fanned + 1
  {
    OnePending(enc, texts, steps, s);
    if s.readerQueue != [] {
      RunKeepsInv(enc, texts, steps);
      HeadIsMade(|s.emitted|, s.producer, s.taken, s.readerQueue);
      if s.fanned == |s.taken| {
        TakeIsEnabled(s);
      }
    }
  }
}
