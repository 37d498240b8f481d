/**
  Threshold-to-digital demotion done by analogCallback for Threshold bindings.
  A Threshold binding reads each analog sample as a level (is the sample past
  the threshold?) and pushes a digital state only when that level differs from
  the one latched in `oldState`, which starts false. `Edges` gives everything
  such a binding has pushed after a stream of levels.
*/
module Threshold {
  import opened InputTypes

  /** The level a Threshold binding reads from one sample: strictly past the threshold, on its side. */
  function Crossed(t: ThresholdType, threshold: real, sample: real): (pressed: bool)
    ensures pressed <==> if t == GreaterThan then sample > threshold else sample < threshold
    ensures sample == threshold ==> !pressed
  {
    (t == GreaterThan && sample > threshold) || (t == LessThan && sample < threshold)
  }

  /** The levels read from a stream of samples, one per sample. */
  function Levels(t: ThresholdType, threshold: real, samples: seq<real>): (levels: seq<bool>)
    ensures |levels| == |samples|
    ensures forall k :: 0 <= k < |samples| ==> levels[k] == Crossed(t, threshold, samples[k])
  {
    seq(|samples|, k requires 0 <= k < |samples| => Crossed(t, threshold, samples[k]))
  }

  /**
    The latch after a stream of levels: false before any sample, then the
    level of the most recent sample, whatever came before it.
  */
  function LatchAfter(levels: seq<bool>): (latch: bool)
    ensures levels == [] ==> !latch
    ensures levels != [] ==> latch == levels[|levels| - 1]
  {
    if levels == [] then false else levels[|levels| - 1]
  }

  /**
    The digital states pushed while the levels arrive one by one, starting
    from a false latch. The latch is the last state pushed, and false while
    nothing has been pushed.
  */
  function Edges(levels: seq<bool>): (edges: seq<bool>)
    ensures LatchAfter(levels) <==> edges != [] && edges[|edges| - 1]
  {
    if levels == [] then []
    else
      var earlier := levels[..|levels| - 1];
      var level := levels[|levels| - 1];
      Edges(earlier) + (if level != LatchAfter(earlier) then [level] else [])
  }

  /** Receiving one more level pushes it exactly when it differs from the latch, and latches it. */
  lemma EdgesSnoc(levels: seq<bool>, level: bool)
    ensures Edges(levels + [level]) == Edges(levels) + (if level != LatchAfter(levels) then [level] else [])
    ensures LatchAfter(levels + [level]) == level
  {
    assert (levels + [level])[..|levels|] == levels;
  }

  /** The levels of one more sample are the earlier levels and the new sample's level. */
  lemma LevelsSnoc(t: ThresholdType, threshold: real, samples: seq<real>, sample: real)
    ensures Levels(t, threshold, samples + [sample]) == Levels(t, threshold, samples) + [Crossed(t, threshold, sample)]
  {
  }

  /**
    Edge-triggering: the pushed states alternate and the first is true (index k
    holds true exactly when k is even), and the latch is true exactly when an
    odd number of states has been pushed, so the latch always equals the last
    pushed state and is false while nothing has been pushed.
  */
  lemma {:induction false} EdgesAlternate(levels: seq<bool>)
    ensures forall k :: 0 <= k < |Edges(levels)| ==> Edges(levels)[k] == (k % 2 == 0)
    ensures LatchAfter(levels) <==> |Edges(levels)| % 2 == 1
  {
    if levels != [] {
      var earlier, level := levels[..|levels| - 1], levels[|levels| - 1];
      EdgesAlternate(earlier);
      assert levels == earlier + [level];
      EdgesSnoc(earlier, level);
      var e := Edges(earlier);
      if level != LatchAfter(earlier) {
        assert Edges(levels) == e + [level];
        assert level == (|e| % 2 == 0);
      } else {
        assert Edges(levels) == e;
      }
    }
  }

  /** A binding never pushes more digital states than it received samples. */
  lemma {:induction false} EdgesBound(levels: seq<bool>)
    ensures |Edges(levels)| <= |levels|
  {
    if levels != [] {
      EdgesBound(levels[..|levels| - 1]);
    }
  }

  /** A sample on the same side as the latched level pushes nothing. */
  lemma SameSidePushesNothing(levels: seq<bool>, level: bool)
    requires level == LatchAfter(levels)
    ensures Edges(levels + [level]) == Edges(levels)
  {
    EdgesSnoc(levels, level);
  }

  /**
    A GreaterThan binding fed the samples T-e, T+e, T+2e, T-e pushes exactly
    [true, false]: the repeated sample above the threshold pushes nothing.
  */
  lemma ThresholdExample(threshold: real, e: real)
    requires e > 0.0
    ensures Edges(Levels(GreaterThan, threshold, [threshold - e, threshold + e, threshold + 2.0 * e, threshold - e])) == [true, false]
  {
    var levels := Levels(GreaterThan, threshold, [threshold - e, threshold + e, threshold + 2.0 * e, threshold - e]);
    assert levels == [false, true, true, false];
    EdgesSnoc([], false);
    assert [] + [false] == [false];
    EdgesSnoc([false], true);
    assert [false] + [true] == [false, true];
    EdgesSnoc([false, true], true);
    assert [false, true] + [true] == [false, true, true];
    EdgesSnoc([false, true, true], false);
    assert [false, true, true] + [false] == levels;
  }
}
