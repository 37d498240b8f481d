/**
  What SendControllerEvents emits, as a function of what the bindings hold
  when it runs: for each valid binding in table order, its whole digital
  queue (pressed for true, released for false) and then its whole analog
  queue, every event tagged with the binding's key and controller 0.
*/
module Dispatch {
  import opened InputTypes

  /** What one binding holds when dispatch reaches it. */
  datatype Pending = Pending(valid: bool, key: Key, digital: seq<bool>, analog: seq<real>)

  /** The notification for one digital state: pressed for true, released for false, never a repeat. */
  function DigitalEvent(key: Key, state: bool): (e: Event)
    ensures e.key == key && e.controllerId == CONTROLLER_ID
    ensures (e.ButtonPressed? <==> state) && (e.ButtonReleased? <==> !state)
    ensures !e.AnalogChanged? && !e.isRepeat
  {
    if state then ButtonPressed(key, CONTROLLER_ID, false) else ButtonReleased(key, CONTROLLER_ID, false)
  }

  /** Draining a digital queue: one event per state, in queue order. */
  function DigitalEvents(key: Key, states: seq<bool>): (events: seq<Event>)
    ensures |events| == |states|
  {
    if states == [] then []
    else DigitalEvents(key, states[..|states| - 1]) + [DigitalEvent(key, states[|states| - 1])]
  }

  /**
    The k-th event of a drained digital queue reports its k-th state:
    pressed for true, released for false, with the binding's key and
    controller 0, never as a repeat.
  */
  lemma {:induction false} DigitalEventsPointwise(key: Key, states: seq<bool>)
    ensures forall k :: 0 <= k < |states| ==>
      var e := DigitalEvents(key, states)[k];
      && e.key == key && e.controllerId == CONTROLLER_ID
      && (e.ButtonPressed? <==> states[k])
      && (e.ButtonReleased? <==> !states[k])
      && !e.AnalogChanged? && !e.isRepeat
  {
    if states != [] {
      DigitalEventsPointwise(key, states[..|states| - 1]);
    }
  }

  /** Draining an analog queue: one event per sample, in queue order. */
  function AnalogEvents(key: Key, values: seq<real>): (events: seq<Event>)
    ensures |events| == |values|
  {
    if values == [] then []
    else AnalogEvents(key, values[..|values| - 1]) + [AnalogChanged(key, CONTROLLER_ID, values[|values| - 1])]
  }

  /** The k-th event of a drained analog queue carries its k-th sample unchanged, none merged. */
  lemma {:induction false} AnalogEventsPointwise(key: Key, values: seq<real>)
    ensures forall k :: 0 <= k < |values| ==>
      AnalogEvents(key, values)[k] == AnalogChanged(key, CONTROLLER_ID, values[k])
  {
    if values != [] {
      AnalogEventsPointwise(key, values[..|values| - 1]);
    }
  }

  /** Popping one more digital state appends its event to what the first `n` produced. */
  lemma DigitalEventsStep(sent: seq<Event>, before: seq<Event>, key: Key, queue: seq<bool>, n: nat)
    requires n < |queue| && sent == before + DigitalEvents(key, queue[..n])
    ensures sent + [DigitalEvent(key, queue[n])] == before + DigitalEvents(key, queue[..n + 1])
  {
    assert queue[..n + 1][..n] == queue[..n];
  }

  /** Popping one more analog sample appends its event to what the first `n` produced. */
  lemma AnalogEventsStep(sent: seq<Event>, before: seq<Event>, key: Key, queue: seq<real>, n: nat)
    requires n < |queue| && sent == before + AnalogEvents(key, queue[..n])
    ensures sent + [AnalogChanged(key, CONTROLLER_ID, queue[n])] == before + AnalogEvents(key, queue[..n + 1])
  {
    assert queue[..n + 1][..n] == queue[..n];
  }

  /**
    The events of one binding: nothing if it is invalid, else one event per
    digital state, then one per analog sample (see BindingEventsPointwise).
  */
  function BindingEvents(p: Pending): (events: seq<Event>)
    ensures !p.valid ==> events == []
    ensures p.valid ==> |events| == |p.digital| + |p.analog|
  {
    if p.valid then DigitalEvents(p.key, p.digital) + AnalogEvents(p.key, p.analog) else []
  }

  /**
    A valid binding's digital states come first, each as a press or a
    release, then its analog samples, each unchanged and in queue order.
  */
  lemma BindingEventsPointwise(p: Pending)
    requires p.valid
    ensures forall k :: 0 <= k < |p.digital| ==>
      var e := BindingEvents(p)[k];
      && e.key == p.key && !e.AnalogChanged? && (e.ButtonPressed? <==> p.digital[k])
    ensures forall k :: 0 <= k < |p.analog| ==>
      BindingEvents(p)[|p.digital| + k] == AnalogChanged(p.key, CONTROLLER_ID, p.analog[k])
  {
    DigitalEventsPointwise(p.key, p.digital);
    AnalogEventsPointwise(p.key, p.analog);
  }

  /**
    The events of a whole dispatch, binding after binding in table order.
    Nothing is dropped or duplicated: one event per state or sample held by a
    valid binding.
  */
  function DispatchEvents(ps: seq<Pending>): (events: seq<Event>)
    ensures |events| == PendingCount(ps)
  {
    if ps == [] then [] else DispatchEvents(ps[..|ps| - 1]) + BindingEvents(ps[|ps| - 1])
  }

  /** How many samples the valid bindings hold. */
  function PendingCount(ps: seq<Pending>): nat
  {
    if ps == [] then 0
    else
      var p := ps[|ps| - 1];
      PendingCount(ps[..|ps| - 1]) + (if p.valid then |p.digital| + |p.analog| else 0)
  }

  /** Dispatching two runs of bindings is dispatching the first run, then the second. */
  lemma {:induction false} DispatchAppend(a: seq<Pending>, b: seq<Pending>)
    ensures DispatchEvents(a + b) == DispatchEvents(a) + DispatchEvents(b)
  {
    if b == [] {
      assert a + b == a;
    } else {
      var b' := b[..|b| - 1];
      assert (a + b)[..|a + b| - 1] == a + b';
      DispatchAppend(a, b');
    }
  }

  /**
    Table order: the events of binding j come after those of every earlier
    binding and before those of every later one, as one contiguous block.
  */
  lemma {:induction false} DispatchOrder(ps: seq<Pending>, j: nat)
    requires j < |ps|
    ensures DispatchEvents(ps) == DispatchEvents(ps[..j]) + BindingEvents(ps[j]) + DispatchEvents(ps[j + 1..])
  {
    assert ps == ps[..j + 1] + ps[j + 1..];
    DispatchAppend(ps[..j + 1], ps[j + 1..]);
    assert ps[..j + 1][..j] == ps[..j];
  }

  /** The events of one binding carry its key and controller 0, and there are none if it is invalid. */
  lemma BindingEventsTagged(p: Pending)
    ensures forall e :: e in BindingEvents(p) ==> p.valid && e.key == p.key && e.controllerId == CONTROLLER_ID
  {
    if p.valid {
      var d, a := DigitalEvents(p.key, p.digital), AnalogEvents(p.key, p.analog);
      DigitalEventsPointwise(p.key, p.digital);
      AnalogEventsPointwise(p.key, p.analog);
      forall e: Event | e in d + a
        ensures e.key == p.key && e.controllerId == CONTROLLER_ID
      {
        if e in d {
          var k :| 0 <= k < |d| && d[k] == e;
        } else {
          var k :| 0 <= k < |a| && a[k] == e;
        }
      }
    }
  }

  /**
    Every event carries controller 0 and the key of a valid binding, so an
    invalid binding contributes nothing.
  */
  lemma {:induction false} DispatchEventsTagged(ps: seq<Pending>)
    ensures forall e :: e in DispatchEvents(ps) ==>
      e.controllerId == CONTROLLER_ID && exists j :: 0 <= j < |ps| && ps[j].valid && ps[j].key == e.key
  {
    if ps != [] {
      var init, p := ps[..|ps| - 1], ps[|ps| - 1];
      DispatchEventsTagged(init);
      BindingEventsTagged(p);
      forall e | e in DispatchEvents(ps)
        ensures e.controllerId == CONTROLLER_ID && exists j :: 0 <= j < |ps| && ps[j].valid && ps[j].key == e.key
      {
        if e in DispatchEvents(init) {
          var j :| 0 <= j < |init| && init[j].valid && init[j].key == e.key;
          assert ps[j] == init[j];
        } else {
          assert e in BindingEvents(p);
          assert ps[|ps| - 1].valid && ps[|ps| - 1].key == e.key;
        }
      }
    }
  }
}
