/**
  OSVRButton, one entry of the binding table, and the two sample callbacks the
  client invokes with a binding as userdata. The callbacks run on the client's
  thread and append to the binding's FIFO queues; SendControllerEvents drains
  them on the game thread. Here the two sides are method calls in any order.
*/
module Buttons {
  import opened InputTypes
  import opened Threshold

  class Button {
    const kind: ButtonType
    const thresholdType: ThresholdType
    const threshold: real
    const key: Key
    const ifacePath: Path

    /** The latched level of a Threshold binding. */
    var oldState: bool
    /** Cleared when resolving the interface or registering the callback fails. */
    var isValid: bool
    var digitalStateQueue: seq<bool>
    var analogStateQueue: seq<real>

    /** Every analog sample delivered to this binding, in arrival order. */
    ghost var samples: seq<real>
    /** Every value ever pushed onto each queue, in push order. */
    ghost var digitalPushed: seq<bool>
    ghost var analogPushed: seq<real>
    /** Every value popped from each queue by the dispatcher, in pop order. */
    ghost var digitalDrained: seq<bool>
    ghost var analogDrained: seq<real>

    /** The state of a binding just built: valid, latch false, no samples, queues empty. */
    ghost predicate Pristine()
      reads this
    {
      && !oldState && isValid
      && digitalStateQueue == [] && analogStateQueue == []
      && samples == [] && digitalPushed == [] && analogPushed == []
      && digitalDrained == [] && analogDrained == []
    }

    /** The three-argument constructor: the threshold settings take their defaults. */
    constructor (kind: ButtonType, key: Key, ifacePath: Path)
      ensures this.kind == kind && this.key == key && this.ifacePath == ifacePath
      ensures thresholdType == GreaterThan && threshold == DEFAULT_THRESHOLD
      ensures Pristine()
    {
      this.kind, this.key, this.ifacePath := kind, key, ifacePath;
      thresholdType, threshold := GreaterThan, DEFAULT_THRESHOLD;
      oldState, isValid := false, true;
      digitalStateQueue, analogStateQueue := [], [];
      samples, digitalPushed, analogPushed, digitalDrained, analogDrained := [], [], [], [], [];
    }

    /** The five-argument constructor, giving the threshold settings explicitly. */
    constructor WithThreshold(kind: ButtonType, thresholdType: ThresholdType, threshold: real, key: Key, ifacePath: Path)
      ensures this.kind == kind && this.key == key && this.ifacePath == ifacePath
      ensures this.thresholdType == thresholdType && this.threshold == threshold
      ensures Pristine()
    {
      this.kind, this.key, this.ifacePath := kind, key, ifacePath;
      this.thresholdType, this.threshold := thresholdType, threshold;
      oldState, isValid := false, true;
      digitalStateQueue, analogStateQueue := [], [];
      samples, digitalPushed, analogPushed, digitalDrained, analogDrained := [], [], [], [], [];
    }

    /** Both queues are FIFO: what was drained, followed by what is queued, is everything pushed. */
    ghost predicate QueuesConsistent()
      reads this
    {
      && digitalDrained + digitalStateQueue == digitalPushed
      && analogDrained + analogStateQueue == analogPushed
    }

    /**
      What a binding's queues and latch hold, given the callback its type
      registers: a Digital binding gets only button reports, an Analog binding
      queues every sample, and a Threshold binding queues the edges of the
      levels its samples read and latches the last level.
    */
    ghost predicate Consistent()
      reads this
    {
      && QueuesConsistent()
      && match kind
         case Digital => samples == [] && analogPushed == [] && !oldState
         case Analog => digitalPushed == [] && analogPushed == samples && !oldState
         case Threshold =>
           && analogPushed == []
           && digitalPushed == Edges(Levels(thresholdType, threshold, samples))
           && oldState == LatchAfter(Levels(thresholdType, threshold, samples))
    }
  }

  /** buttonCallback: queue whether the reported state is "pressed". */
  method ButtonCallback(button: Button, state: uint8)
    modifies button
    ensures button.digitalStateQueue == old(button.digitalStateQueue) + [state == BUTTON_PRESSED]
    ensures button.digitalPushed == old(button.digitalPushed) + [state == BUTTON_PRESSED]
    ensures button.analogStateQueue == old(button.analogStateQueue)
    ensures button.oldState == old(button.oldState) && button.isValid == old(button.isValid)
    ensures button.samples == old(button.samples) && button.analogPushed == old(button.analogPushed)
    ensures button.digitalDrained == old(button.digitalDrained) && button.analogDrained == old(button.analogDrained)
    ensures old(button.Consistent()) && button.kind == Digital ==> button.Consistent()
  {
    var pressed := state == BUTTON_PRESSED;
    button.digitalStateQueue := button.digitalStateQueue + [pressed];
    button.digitalPushed := button.digitalPushed + [pressed];
  }

  /**
    analogCallback: a Threshold binding pushes the level the sample reads only
    when it differs from the latch, then latches it; any other binding queues
    the raw sample.
  */
  method AnalogCallback(button: Button, sample: real)
    modifies button
    ensures button.kind == Threshold ==>
      var level := Crossed(button.thresholdType, button.threshold, sample);
      && button.digitalStateQueue == old(button.digitalStateQueue) + (if level != old(button.oldState) then [level] else [])
      && button.digitalPushed == old(button.digitalPushed) + (if level != old(button.oldState) then [level] else [])
      && button.oldState == level
      && button.analogStateQueue == old(button.analogStateQueue)
      && button.analogPushed == old(button.analogPushed)
    ensures button.kind != Threshold ==>
      && button.analogStateQueue == old(button.analogStateQueue) + [sample]
      && button.analogPushed == old(button.analogPushed) + [sample]
      && button.digitalStateQueue == old(button.digitalStateQueue)
      && button.digitalPushed == old(button.digitalPushed)
      && button.oldState == old(button.oldState)
    ensures button.samples == old(button.samples) + [sample]
    ensures button.isValid == old(button.isValid)
    ensures button.digitalDrained == old(button.digitalDrained) && button.analogDrained == old(button.analogDrained)
    ensures old(button.Consistent()) && button.kind != Digital ==> button.Consistent()
  {
    LevelsSnoc(button.thresholdType, button.threshold, button.samples, sample);
    EdgesSnoc(Levels(button.thresholdType, button.threshold, button.samples), Crossed(button.thresholdType, button.threshold, sample));
    button.samples := button.samples + [sample];
    if button.kind == Threshold {
      var level := Crossed(button.thresholdType, button.threshold, sample);
      if level != button.oldState {
        button.digitalStateQueue := button.digitalStateQueue + [level];
        button.digitalPushed := button.digitalPushed + [level];
      }
      button.oldState := level;
    } else {
      button.analogStateQueue := button.analogStateQueue + [sample];
      button.analogPushed := button.analogPushed + [sample];
    }
  }

  /**
    For a Threshold binding, the states waiting in the digital queue alternate,
    and the last of them is the latched level.
  */
  lemma ThresholdQueueAlternates(button: Button)
    requires button.Consistent() && button.kind == Threshold
    ensures forall k :: 0 < k < |button.digitalStateQueue| ==>
      button.digitalStateQueue[k] != button.digitalStateQueue[k - 1]
    ensures button.digitalStateQueue != [] ==>
      button.digitalStateQueue[|button.digitalStateQueue| - 1] == button.oldState
  {
    var levels := Levels(button.thresholdType, button.threshold, button.samples);
    var pushed := Edges(levels);
    EdgesAlternate(levels);
    var q, d := button.digitalStateQueue, button.digitalDrained;
    assert d + q == pushed;
    forall k | 0 < k < |q|
      ensures q[k] != q[k - 1]
    {
      assert q[k] == pushed[|d| + k] && q[k - 1] == pushed[|d| + k - 1];
    }
    if q != [] {
      assert q[|q| - 1] == pushed[|pushed| - 1];
    }
  }
}
