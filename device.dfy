/**
  FOSVRInputDevice: owns the binding table, the path-to-handle map and the
  hand interfaces; the constructor resolves and registers every binding, the
  client then delivers reports to the registered callbacks, SendControllerEvents
  drains every valid binding once per tick, and teardown frees the handles.
  `calls` records every call made into the client library and `events` every
  notification delivered to the message handler.
*/
module Devices {
  import opened Wrappers
  import opened InputTypes
  import opened Threshold
  import opened Buttons
  import opened Dispatch
  import opened BindingTable
  import opened Setup

  const LEFT_HAND_PATH: Path := "/me/hands/left"
  const RIGHT_HAND_PATH: Path := "/me/hands/right"

  /** What dispatch sees of one binding. */
  ghost function PendingOf(b: Button): Pending
    reads b
  {
    PendingFrom(b.key, SnapshotOf(b))
  }

  /** What dispatch sees of every binding, in table order. */
  ghost function PendingAll(bs: seq<Button>): (ps: seq<Pending>)
    reads bs
    ensures |ps| == |bs| && forall i :: 0 <= i < |bs| ==> ps[i] == PendingOf(bs[i])
  {
    if bs == [] then [] else PendingAll(bs[..|bs| - 1]) + [PendingOf(bs[|bs| - 1])]
  }

  /** Everything about a binding that the device changes, at one moment. */
  datatype Snapshot = Snapshot(
    isValid: bool, oldState: bool, digital: seq<bool>, analog: seq<real>,
    samples: seq<real>, digitalPushed: seq<bool>, analogPushed: seq<real>,
    digitalDrained: seq<bool>, analogDrained: seq<real>)

  ghost function SnapshotOf(b: Button): Snapshot
    reads b
  {
    Snapshot(b.isValid, b.oldState, b.digitalStateQueue, b.analogStateQueue,
             b.samples, b.digitalPushed, b.analogPushed, b.digitalDrained, b.analogDrained)
  }

  ghost function SnapshotAll(bs: seq<Button>): (snaps: seq<Snapshot>)
    reads bs
    ensures |snaps| == |bs| && forall i :: 0 <= i < |bs| ==> snaps[i] == SnapshotOf(bs[i])
  {
    if bs == [] then [] else SnapshotAll(bs[..|bs| - 1]) + [SnapshotOf(bs[|bs| - 1])]
  }

  /** What dispatch sees of a binding with the given key, at the moment `s` was taken. */
  function PendingFrom(key: Key, s: Snapshot): Pending
  {
    Pending(s.isValid, key, s.digital, s.analog)
  }

  /**
    A dispatched binding: if it was valid, both queues were emptied into the
    drained histories; if not, nothing about it changed.
  */
  ghost predicate DrainedFrom(b: Button, s: Snapshot)
    reads b
  {
    if s.isValid then
      SnapshotOf(b) == s.(digital := [], analog := [],
                          digitalDrained := s.digitalDrained + s.digital,
                          analogDrained := s.analogDrained + s.analog)
    else SnapshotOf(b) == s
  }

  /** Freeing the hand interfaces that were resolved, left first: one free per resolved hand, none for the others. */
  function HandFrees(leftHand: Option<Handle>, rightHand: Option<Handle>): (frees: seq<ClientCall>)
    ensures |frees| == (if leftHand.Some? then 1 else 0) + (if rightHand.Some? then 1 else 0)
    ensures leftHand.Some? ==> frees[0] == FreeInterface(leftHand.value)
    ensures rightHand.Some? ==> frees[|frees| - 1] == FreeInterface(rightHand.value)
  {
    (if leftHand.Some? then [FreeInterface(leftHand.value)] else [])
    + (if rightHand.Some? then [FreeInterface(rightHand.value)] else [])
  }

  /** Freeing the handles of the given paths of the map, in the given order. */
  function FreeCalls(interfaces: map<Path, Handle>, order: seq<Path>): (frees: seq<ClientCall>)
    requires forall k :: 0 <= k < |order| ==> order[k] in interfaces
    ensures |frees| == |order|
    ensures forall k :: 0 <= k < |order| ==> frees[k] == FreeInterface(interfaces[order[k]])
  {
    if order == [] then []
    else FreeCalls(interfaces, order[..|order| - 1]) + [FreeInterface(interfaces[order[|order| - 1]])]
  }

  /** Dispatching one more binding appends its events to what the first `i` produced. */
  lemma DispatchPrefixStep(sent: seq<Event>, before: seq<Event>, ps: seq<Pending>, i: nat)
    requires i < |ps| && sent == before + DispatchEvents(ps[..i])
    ensures sent + BindingEvents(ps[i]) == before + DispatchEvents(ps[..i + 1])
  {
    var prefix := ps[..i + 1];
    assert prefix[..i] == ps[..i] && prefix[i] == ps[i];
    assert DispatchEvents(prefix) == DispatchEvents(ps[..i]) + BindingEvents(ps[i]);
  }

  /** Freeing one more path appends its free call. */
  lemma FreeCallsSnoc(interfaces: map<Path, Handle>, order: seq<Path>, p: Path)
    requires forall k :: 0 <= k < |order| ==> order[k] in interfaces
    requires p in interfaces
    ensures FreeCalls(interfaces, order + [p]) == FreeCalls(interfaces, order) + [FreeInterface(interfaces[p])]
  {
    assert (order + [p])[..|order|] == order;
  }

  /** No path occurs twice. */
  predicate Distinct(order: seq<Path>)
  {
    forall j, k :: 0 <= j < k < |order| ==> order[j] != order[k]
  }

  /** A run of distinct paths that are exactly the keys of a map is as long as the map. */
  lemma {:induction false} DistinctKeysLength(order: seq<Path>, keys: set<Path>)
    requires Distinct(order)
    requires forall p :: p in order <==> p in keys
    ensures |order| == |keys|
  {
    if order != [] {
      var last := order[|order| - 1];
      var init := order[..|order| - 1];
      forall p ensures p in init <==> p in keys - {last}
      {
        if p in init {
          var j :| 0 <= j < |init| && init[j] == p;
          assert order[j] == p;
        }
        if p in keys - {last} {
          assert p in order;
          var j :| 0 <= j < |order| && order[j] == p;
          assert j < |order| - 1;
          assert init[j] == p;
        }
      }
      DistinctKeysLength(init, keys - {last});
    }
  }

  /** The loop state after binding `i` is one SetupOne step from the state before it. */
  lemma SetupStep(client: Client, decls: seq<Decl>, i: nat)
    requires i < |decls|
    ensures var s0, s1 := SetupAll(client, decls[..i]), SetupAll(client, decls[..i + 1]);
      && s1 == SetupOne(client, s0, decls[i].kind, decls[i].path)
      && forall j :: 0 <= j < i ==> s1.valid[j] == s0.valid[j]
  {
    assert decls[..i + 1][..i] == decls[..i];
    var s0, s1 := SetupAll(client, decls[..i]), SetupAll(client, decls[..i + 1]);
    forall j | 0 <= j < i
      ensures s1.valid[j] == s0.valid[j]
    {
      assert s1.valid[..i][j] == s1.valid[j];
    }
  }

  /** A binding holds what its samples say, and an invalid one has never received anything. */
  ghost predicate ButtonOk(b: Button)
    reads b
  {
    b.Consistent() && (!b.isValid ==> b.samples == [] && b.digitalPushed == [] && b.analogPushed == [])
  }

  /** The isValid flag of each binding, in table order. */
  ghost function ValidFlags(bs: seq<Button>): (flags: seq<bool>)
    reads bs
    ensures |flags| == |bs| && forall i :: 0 <= i < |bs| ==> flags[i] == bs[i].isValid
  {
    if bs == [] then [] else ValidFlags(bs[..|bs| - 1]) + [bs[|bs| - 1].isValid]
  }

  /** The type of each binding, in table order. */
  function Kinds(bs: seq<Button>): (kinds: seq<ButtonType>)
    ensures |kinds| == |bs| && forall i :: 0 <= i < |bs| ==> kinds[i] == bs[i].kind
  {
    if bs == [] then [] else Kinds(bs[..|bs| - 1]) + [bs[|bs| - 1].kind]
  }

  /**
    Every registration the client accepted names a binding that is still
    valid, with the callback that binding's type calls for.
  */
  predicate RegistrationsMatch(calls: seq<ClientCall>, flags: seq<bool>, kinds: seq<ButtonType>)
  {
    forall k :: 0 <= k < |calls| && calls[k].Register? && calls[k].ok ==>
      && calls[k].binding < |flags| && calls[k].binding < |kinds|
      && flags[calls[k].binding]
      && calls[k].callback == CallbackFor(kinds[calls[k].binding])
  }

  /** Builds the binding for one table entry, with the constructor the entry was written with. */
  method NewButton(d: Decl) returns (b: Button)
    ensures fresh(b) && b.Pristine()
    ensures b.kind == d.kind && b.key == d.key && b.ifacePath == d.path
    ensures d.Plain? ==> b.thresholdType == GreaterThan && b.threshold == DEFAULT_THRESHOLD
    ensures d.WithThreshold? ==> b.thresholdType == d.thresholdType && b.threshold == d.threshold
  {
    if d.Plain? {
      b := new Button(d.kind, d.key, d.path);
    } else {
      b := new Button.WithThreshold(d.kind, d.thresholdType, d.threshold, d.key, d.path);
    }
  }

  /** A binding built from table entry `d` that has not received anything yet. */
  ghost predicate BuiltFrom(b: Button, d: Decl)
    reads b
  {
    && b.kind == d.kind && b.key == d.key && b.ifacePath == d.path
    && (d.Plain? ==> b.thresholdType == GreaterThan && b.threshold == DEFAULT_THRESHOLD)
    && (d.WithThreshold? ==> b.thresholdType == d.thresholdType && b.threshold == d.threshold)
    && !b.oldState && b.digitalStateQueue == [] && b.analogStateQueue == []
    && b.samples == [] && b.digitalPushed == [] && b.analogPushed == []
    && b.digitalDrained == [] && b.analogDrained == []
  }

  /** The bindings are distinct objects built from `decls`, entry by entry. */
  ghost predicate BindingsFrom(bs: seq<Button>, decls: seq<Decl>)
    reads bs
  {
    && |bs| == |decls|
    && (forall j, k :: 0 <= j < k < |bs| ==> bs[j] != bs[k])
    && (forall j :: 0 <= j < |bs| ==> BuiltFrom(bs[j], decls[j]))
  }

  /** Builds the bindings of a table, one fresh object per entry, all valid. */
  method NewButtons(decls: seq<Decl>) returns (bs: seq<Button>)
    ensures |bs| == |decls|
    ensures forall i :: 0 <= i < |bs| ==> fresh(bs[i]) && BuiltFrom(bs[i], decls[i]) && bs[i].isValid
    ensures forall i, j :: 0 <= i < j < |bs| ==> bs[i] != bs[j]
  {
    bs := [];
    var i := 0;
    while i < |decls|
      invariant 0 <= i <= |decls| && |bs| == i
      invariant forall j :: 0 <= j < i ==> fresh(bs[j]) && BuiltFrom(bs[j], decls[j]) && bs[j].isValid
      invariant forall j, k :: 0 <= j < k < i ==> bs[j] != bs[k]
    {
      var b := NewButton(decls[i]);
      bs := bs + [b];
      i := i + 1;
    }
  }

  class InputDevice {
    /** Whether the client context exists at all (`context` is non-null). */
    const hasContext: bool
    /** Whether the context exists and the client reported itself ready. */
    const contextValid: bool

    var buttons: seq<Button>
    var interfaces: map<Path, Handle>
    var leftHand: Option<Handle>
    var rightHand: Option<Handle>
    var leftHandValid: bool
    var rightHandValid: bool

    /** Every call made into the client library, in order. */
    var calls: seq<ClientCall>
    /** Every notification delivered to the message handler, in order. */
    var events: seq<Event>

    /** How each binding got its handle during construction. */
    ghost var resolutions: seq<Resolution>

    /** A registration of callback `cb` for binding `i` that the client accepted. */
    ghost predicate Registered(i: nat, cb: CallbackKind)
      reads this
    {
      exists k :: 0 <= k < |calls| && calls[k].Register? && calls[k].binding == i && calls[k].callback == cb && calls[k].ok
    }

    /**
      The device invariant: bindings are distinct objects, each holds what its
      type and its samples say, an invalid binding has never received
      anything, and every accepted registration belongs to a valid binding and
      carries the callback its type calls for.
    */
    ghost predicate Valid()
      reads this, buttons
    {
      && (forall i, j :: 0 <= i < j < |buttons| ==> buttons[i] != buttons[j])
      && (contextValid ==> hasContext)
      && leftHandValid == leftHand.Some? && rightHandValid == rightHand.Some?
      && (forall i :: 0 <= i < |buttons| ==> ButtonOk(buttons[i]))
      && RegistrationsMatch(calls, ValidFlags(buttons), Kinds(buttons))
    }

    /**
      The state the constructor leaves once the context is ready: bindings
      built from `decls`, flags, map and resolutions as the binding loop
      describes, then one lookup for each hand interface, left first.
    */
    ghost predicate ConstructedFrom(client: Client, decls: seq<Decl>)
      reads this, buttons
    {
      var s := SetupAll(client, decls);
      && BindingsFrom(buttons, decls)
      && ValidFlags(buttons) == s.valid
      && interfaces == s.interfaces && resolutions == s.resolutions
      && leftHand == client.getInterface(s.calls, LEFT_HAND_PATH)
      && rightHand == client.getInterface(s.calls + [GetInterface(LEFT_HAND_PATH, leftHand)], RIGHT_HAND_PATH)
      && calls == s.calls + [GetInterface(LEFT_HAND_PATH, leftHand), GetInterface(RIGHT_HAND_PATH, rightHand)]
    }

    /**
      The constructor. With no ready context nothing is built, resolved or
      registered. Otherwise the table is built, every binding is resolved and
      registered as SetupAll describes, and then the two hand interfaces are
      resolved.
    */
    constructor (hasContext: bool, statusOk: bool, client: Client)
      ensures this.hasContext == hasContext && contextValid == (hasContext && statusOk)
      ensures Valid() && events == []
      ensures !contextValid ==>
        && buttons == [] && interfaces == map[] && calls == []
        && leftHand == None && rightHand == None
      ensures contextValid ==>
        ConstructedFrom(client, Table()) && forall i :: 0 <= i < |buttons| ==> fresh(buttons[i])
    {
      this.hasContext := hasContext;
      contextValid := hasContext && statusOk;
      buttons, interfaces, calls, events := [], map[], [], [];
      leftHand, rightHand, leftHandValid, rightHandValid := None, None, false, false;
      resolutions := [];
      new;
      if contextValid {
        Build(client, Table());
      }
    }

    /**
      The constructor's work once the context is ready: build the bindings
      of `decls`, run the binding loop, then resolve the two hand interfaces.
    */
    method Build(client: Client, decls: seq<Decl>)
      requires contextValid && hasContext && interfaces == map[] && calls == [] && resolutions == []
      modifies this`buttons, this`interfaces, this`calls, this`resolutions
      modifies this`leftHand, this`rightHand, this`leftHandValid, this`rightHandValid
      ensures Valid() && ConstructedFrom(client, decls)
      ensures forall i :: 0 <= i < |buttons| ==> fresh(buttons[i])
    {
      ghost var s := BuildBindings(client, decls);
      var extra := ResolveHands(client);
      ConstructedValid(client, decls, s, extra);
    }

    /** Builds the bindings of `decls` and runs the binding loop over them. */
    method BuildBindings(client: Client, decls: seq<Decl>) returns (ghost s: SetupState)
      requires interfaces == map[] && calls == [] && resolutions == []
      modifies this`buttons, this`interfaces, this`calls, this`resolutions
      ensures s == SetupAll(client, decls)
      ensures BindingsFrom(buttons, decls) && (forall i :: 0 <= i < |buttons| ==> fresh(buttons[i]))
      ensures ValidFlags(buttons) == s.valid
      ensures interfaces == s.interfaces && resolutions == s.resolutions && calls == s.calls
    {
      var bs := NewButtons(decls);
      buttons := bs;
      ResolveBindings(client, decls);
      s := ResolvedAll(client, decls);
    }

    /**
      Looks up the left and then the right hand interface, recording both
      lookups and whether each one resolved.
    */
    method ResolveHands(client: Client) returns (extra: seq<ClientCall>)
      modifies this`calls, this`leftHand, this`rightHand, this`leftHandValid, this`rightHandValid
      ensures leftHand == client.getInterface(old(calls), LEFT_HAND_PATH)
      ensures rightHand == client.getInterface(old(calls) + [GetInterface(LEFT_HAND_PATH, leftHand)], RIGHT_HAND_PATH)
      ensures leftHandValid == leftHand.Some? && rightHandValid == rightHand.Some?
      ensures extra == [GetInterface(LEFT_HAND_PATH, leftHand), GetInterface(RIGHT_HAND_PATH, rightHand)]
      ensures calls == old(calls) + extra
      ensures unchanged(buttons)
    {
      var left := client.getInterface(calls, LEFT_HAND_PATH);
      var right := client.getInterface(calls + [GetInterface(LEFT_HAND_PATH, left)], RIGHT_HAND_PATH);
      extra := [GetInterface(LEFT_HAND_PATH, left), GetInterface(RIGHT_HAND_PATH, right)];
      calls := calls + extra;
      leftHand, leftHandValid := left, left.Some?;
      rightHand, rightHandValid := right, right.Some?;
    }

    /**
      After the binding loop and the hand lookups the invariant holds: fresh
      bindings are consistent, and every registration the client accepted is
      for a binding the loop left valid, with the callback its type calls for.
    */
    lemma ConstructedValid(client: Client, decls: seq<Decl>, s: SetupState, extra: seq<ClientCall>)
      requires s == SetupAll(client, decls)
      requires contextValid ==> hasContext
      requires leftHandValid == leftHand.Some? && rightHandValid == rightHand.Some?
      requires BindingsFrom(buttons, decls)
      requires forall k :: 0 <= k < |extra| ==> extra[k].GetInterface?
      requires calls == s.calls + extra
      requires ValidFlags(buttons) == s.valid
      ensures Valid()
    {
      SetupRegistrationsMatch(client, decls);
      var flags, kinds := ValidFlags(buttons), Kinds(buttons);
      forall k | 0 <= k < |calls| && calls[k].Register? && calls[k].ok
        ensures calls[k].binding < |flags| && calls[k].binding < |kinds| && flags[calls[k].binding]
        ensures calls[k].callback == CallbackFor(kinds[calls[k].binding])
      {
        if k >= |s.calls| {
          assert false;
        }
        assert calls[k] == s.calls[k];
      }
    }

    /**
      One iteration of the binding loop, for binding `i`: resolve its path
      through the map, then register the callback its type calls for,
      clearing isValid when either step fails.
    */
    method ResolveBinding(client: Client, i: nat, ghost valid: seq<bool>, ghost d: Decl)
      requires i < |buttons| && |resolutions| == |valid| == i
      requires BuiltFrom(buttons[i], d) && buttons[i].isValid
      modifies this`interfaces, this`calls, this`resolutions, buttons[i]
      ensures BuiltFrom(buttons[i], d)
      ensures
        var s := SetupOne(client, SetupState(old(interfaces), old(resolutions), valid, old(calls)), d.kind, d.path);
        && interfaces == s.interfaces && resolutions == s.resolutions && calls == s.calls
        && buttons[i].isValid == s.valid[i]
    {
      var button := buttons[i];
      var iface: Option<Handle> := None;
      if button.ifacePath !in interfaces {
        var answer := client.getInterface(calls, button.ifacePath);
        calls := calls + [GetInterface(button.ifacePath, answer)];
        if answer.None? {
          button.isValid := false;
          resolutions := resolutions + [Failed];
        } else {
          iface := answer;
          interfaces := interfaces[button.ifacePath := answer.value];
          resolutions := resolutions + [Resolved(answer.value)];
        }
      } else {
        iface := Some(interfaces[button.ifacePath]);
        resolutions := resolutions + [Reused(interfaces[button.ifacePath])];
      }
      if button.isValid {
        if button.kind == Digital {
          var ok := client.register(calls, iface.value, ButtonCb, i);
          calls := calls + [Register(iface.value, ButtonCb, i, ok)];
          if !ok {
            button.isValid := false;
          }
        }
        if button.kind == Analog || button.kind == Threshold {
          var ok := client.register(calls, iface.value, AnalogCb, i);
          calls := calls + [Register(iface.value, AnalogCb, i, ok)];
          if !ok {
            button.isValid := false;
          }
        }
      }
    }

    /**
      The first `i` bindings have been through the loop: the map, the
      resolutions, the calls and their isValid flags are those of SetupAll,
      and the rest are still valid.
    */
    ghost predicate ResolvedUpTo(client: Client, decls: seq<Decl>, i: nat)
      requires i <= |decls| == |buttons|
      reads this, buttons
    {
      var s := SetupAll(client, decls[..i]);
      && interfaces == s.interfaces && resolutions == s.resolutions && calls == s.calls
      && (forall j :: 0 <= j < i ==> buttons[j].isValid == s.valid[j])
      && (forall j :: i <= j < |buttons| ==> buttons[j].isValid)
    }

    /** Once the loop has covered every binding, the state is the one SetupAll describes. */
    lemma ResolvedAll(client: Client, decls: seq<Decl>) returns (s: SetupState)
      requires |decls| == |buttons| && ResolvedUpTo(client, decls, |decls|)
      ensures s == SetupAll(client, decls)
      ensures ValidFlags(buttons) == s.valid
      ensures interfaces == s.interfaces && resolutions == s.resolutions && calls == s.calls
    {
      assert decls[..|decls|] == decls;
      s := SetupAll(client, decls);
    }

    /** One turn of the binding loop, as a step from ResolvedUpTo(i) to ResolvedUpTo(i + 1). */
    method ResolveNext(client: Client, ghost decls: seq<Decl>, i: nat)
      requires i < |decls| && BindingsFrom(buttons, decls) && ResolvedUpTo(client, decls, i)
      modifies this`interfaces, this`calls, this`resolutions, buttons[i]
      ensures BindingsFrom(buttons, decls) && ResolvedUpTo(client, decls, i + 1)
    {
      ghost var s0 := SetupAll(client, decls[..i]);
      ghost var before := buttons[i];
      ResolveBinding(client, i, s0.valid, decls[i]);
      SetupStep(client, decls, i);
      forall j | 0 <= j < |buttons| && j != i
        ensures buttons[j].isValid == old(buttons[j].isValid) && BuiltFrom(buttons[j], decls[j])
      {
        assert buttons[j] != before;
      }
    }

    /** The binding loop of the constructor, over the bindings built from `decls`. */
    method ResolveBindings(client: Client, ghost decls: seq<Decl>)
      requires BindingsFrom(buttons, decls) && interfaces == map[] && calls == [] && resolutions == []
      requires forall i :: 0 <= i < |buttons| ==> buttons[i].isValid
      modifies this`interfaces, this`calls, this`resolutions, buttons
      ensures BindingsFrom(buttons, decls) && ResolvedUpTo(client, decls, |decls|)
    {
      var i := 0;
      assert decls[..0] == [];
      while i < |buttons|
        invariant 0 <= i <= |buttons|
        invariant BindingsFrom(buttons, decls) && ResolvedUpTo(client, decls, i)
      {
        ResolveNext(client, decls, i);
        i := i + 1;
      }
    }

    /** The registration of `cb` for binding `i` that the client accepted, if any, makes it a valid binding of the matching type. */
    lemma RegisteredBinding(i: nat, cb: CallbackKind)
      requires Valid() && Registered(i, cb)
      ensures i < |buttons| && buttons[i].isValid && CallbackFor(buttons[i].kind) == cb
    {
    }

    /**
      The client delivers a button report to the binding it was registered
      for: buttonCallback runs on that binding and the invariant is kept.
    */
    method DeliverButtonReport(i: nat, state: uint8)
      requires Valid() && Registered(i, ButtonCb)
      modifies buttons
      ensures Valid() && i < |buttons|
      ensures buttons[i].digitalStateQueue == old(buttons[i].digitalStateQueue) + [state == BUTTON_PRESSED]
      ensures buttons[i].analogStateQueue == old(buttons[i].analogStateQueue)
      ensures buttons[i].oldState == old(buttons[i].oldState) && buttons[i].isValid == old(buttons[i].isValid)
      ensures forall j :: 0 <= j < |buttons| && j != i ==> SnapshotOf(buttons[j]) == old(SnapshotOf(buttons[j]))
    {
      RegisteredBinding(i, ButtonCb);
      var b := buttons[i];
      ButtonCallback(b, state);
      forall j | 0 <= j < |buttons| && j != i
        ensures SnapshotOf(buttons[j]) == old(SnapshotOf(buttons[j]))
      {
        assert buttons[j] != b;
      }
      ReportKeepsValid(i);
    }

    /**
      The client delivers an analog report to the binding it was registered
      for: analogCallback runs on that binding and the invariant is kept, so
      a Threshold binding's queue still holds the edges of its levels.
    */
    method DeliverAnalogReport(i: nat, sample: real)
      requires Valid() && Registered(i, AnalogCb)
      modifies buttons
      ensures Valid() && i < |buttons|
      ensures buttons[i].samples == old(buttons[i].samples) + [sample]
      ensures buttons[i].kind == Analog ==>
        && buttons[i].analogStateQueue == old(buttons[i].analogStateQueue) + [sample]
        && buttons[i].digitalStateQueue == old(buttons[i].digitalStateQueue)
        && buttons[i].oldState == old(buttons[i].oldState)
      ensures buttons[i].kind == Threshold ==>
        var level := Crossed(buttons[i].thresholdType, buttons[i].threshold, sample);
        && buttons[i].digitalStateQueue == old(buttons[i].digitalStateQueue) + (if level != old(buttons[i].oldState) then [level] else [])
        && buttons[i].analogStateQueue == old(buttons[i].analogStateQueue)
        && buttons[i].oldState == level
      ensures buttons[i].isValid == old(buttons[i].isValid)
      ensures forall j :: 0 <= j < |buttons| && j != i ==> SnapshotOf(buttons[j]) == old(SnapshotOf(buttons[j]))
    {
      RegisteredBinding(i, AnalogCb);
      var b := buttons[i];
      AnalogCallback(b, sample);
      forall j | 0 <= j < |buttons| && j != i
        ensures SnapshotOf(buttons[j]) == old(SnapshotOf(buttons[j]))
      {
        assert buttons[j] != b;
      }
      ReportKeepsValid(i);
    }

    /**
      A report keeps the invariant: it changes one valid binding, which stays
      consistent, and leaves every other binding, the registrations and the
      hand interfaces as they were.
    */
    twostate lemma ReportKeepsValid(i: nat)
      requires old(Valid()) && i < |buttons| && buttons == old(buttons) && calls == old(calls)
      requires leftHand == old(leftHand) && rightHand == old(rightHand)
      requires leftHandValid == old(leftHandValid) && rightHandValid == old(rightHandValid)
      requires buttons[i].Consistent() && buttons[i].isValid && old(buttons[i].isValid)
      requires forall j :: 0 <= j < |buttons| && j != i ==> SnapshotOf(buttons[j]) == old(SnapshotOf(buttons[j]))
      ensures Valid()
    {
      forall j | 0 <= j < |buttons|
        ensures buttons[j].isValid == old(buttons[j].isValid)
      {
      }
      assert ValidFlags(buttons) == old(ValidFlags(buttons));
    }

    /** Pops the digital queue of `b` front to back, notifying pressed or released for each state. */
    method DrainDigitalQueue(b: Button)
      modifies this`events, b
      ensures events == old(events) + DigitalEvents(b.key, old(b.digitalStateQueue))
      ensures SnapshotOf(b) == old(SnapshotOf(b)).(
        digital := [], digitalDrained := old(b.digitalDrained) + old(b.digitalStateQueue))
    {
      ghost var queue := b.digitalStateQueue;
      ghost var n := 0;
      while b.digitalStateQueue != []
        invariant 0 <= n <= |queue| && b.digitalStateQueue == queue[n..]
        invariant events == old(events) + DigitalEvents(b.key, queue[..n])
        invariant SnapshotOf(b) == old(SnapshotOf(b)).(
          digital := queue[n..], digitalDrained := old(b.digitalDrained) + queue[..n])
        decreases |b.digitalStateQueue|
      {
        var state := b.digitalStateQueue[0];
        DigitalEventsStep(events, old(events), b.key, queue, n);
        assert queue[..n + 1] == queue[..n] + [state] && queue[n + 1..] == b.digitalStateQueue[1..];
        b.digitalStateQueue := b.digitalStateQueue[1..];
        b.digitalDrained := b.digitalDrained + [state];
        events := events + [DigitalEvent(b.key, state)];
        n := n + 1;
      }
      assert queue[..n] == queue;
    }

    /** Pops the analog queue of `b` front to back, notifying one analog value for each sample. */
    method DrainAnalogQueue(b: Button)
      modifies this`events, b
      ensures events == old(events) + AnalogEvents(b.key, old(b.analogStateQueue))
      ensures SnapshotOf(b) == old(SnapshotOf(b)).(
        analog := [], analogDrained := old(b.analogDrained) + old(b.analogStateQueue))
    {
      ghost var queue := b.analogStateQueue;
      ghost var n := 0;
      while b.analogStateQueue != []
        invariant 0 <= n <= |queue| && b.analogStateQueue == queue[n..]
        invariant events == old(events) + AnalogEvents(b.key, queue[..n])
        invariant SnapshotOf(b) == old(SnapshotOf(b)).(
          analog := queue[n..], analogDrained := old(b.analogDrained) + queue[..n])
        decreases |b.analogStateQueue|
      {
        var state := b.analogStateQueue[0];
        AnalogEventsStep(events, old(events), b.key, queue, n);
        assert queue[..n + 1] == queue[..n] + [state] && queue[n + 1..] == b.analogStateQueue[1..];
        b.analogStateQueue := b.analogStateQueue[1..];
        b.analogDrained := b.analogDrained + [state];
        events := events + [AnalogChanged(b.key, CONTROLLER_ID, state)];
        n := n + 1;
      }
      assert queue[..n] == queue;
    }

    /** Dispatches one binding: if it is valid, its digital queue and then its analog queue. */
    method DrainBinding(b: Button)
      modifies this`events, b
      ensures events == old(events) + BindingEvents(old(PendingOf(b)))
      ensures DrainedFrom(b, old(SnapshotOf(b)))
      ensures old(ButtonOk(b)) ==> ButtonOk(b)
    {
      if b.isValid {
        DrainDigitalQueue(b);
        DrainAnalogQueue(b);
      }
      assert b.samples == old(b.samples) && b.oldState == old(b.oldState);
      assert b.digitalPushed == old(b.digitalPushed) && b.analogPushed == old(b.analogPushed);
      assert b.digitalDrained + b.digitalStateQueue == old(b.digitalDrained + b.digitalStateQueue);
      assert b.analogDrained + b.analogStateQueue == old(b.analogDrained + b.analogStateQueue);
    }

    /**
      The first `i` bindings have been dispatched: those bindings are
      drained and the rest are as they were. `pending` is what dispatch saw
      of each binding and `before` the binding as it was.
    */
    ghost predicate DispatchedUpTo(before: seq<Snapshot>, pending: seq<Pending>, i: nat)
      reads this, buttons
    {
      && |before| == |pending| == |buttons| && i <= |buttons|
      && (forall j, k :: 0 <= j < k < |buttons| ==> buttons[j] != buttons[k])
      && (forall j :: 0 <= j < |buttons| ==> pending[j] == PendingFrom(buttons[j].key, before[j]))
      && (forall j :: 0 <= j < |buttons| ==> ButtonOk(buttons[j]) && buttons[j].isValid == before[j].isValid)
      && (forall j :: 0 <= j < i ==> DrainedFrom(buttons[j], before[j]))
      && (forall j :: i <= j < |buttons| ==> SnapshotOf(buttons[j]) == before[j])
    }

    /** One turn of the dispatch loop: drain binding `i` if it is valid. */
    method DispatchNext(ghost before: seq<Snapshot>, ghost pending: seq<Pending>, i: nat)
      requires i < |buttons| && DispatchedUpTo(before, pending, i)
      modifies this`events, buttons[i]
      ensures DispatchedUpTo(before, pending, i + 1)
      ensures events == old(events) + BindingEvents(pending[i])
    {
      var b := buttons[i];
      assert pending[i] == PendingOf(b);
      DrainBinding(b);
      forall j | 0 <= j < |buttons|
        ensures ButtonOk(buttons[j]) && buttons[j].isValid == before[j].isValid
        ensures j <= i ==> DrainedFrom(buttons[j], before[j])
        ensures i < j ==> SnapshotOf(buttons[j]) == before[j]
      {
        if j != i {
          assert buttons[j] != b;
          assert old(SnapshotOf(buttons[j])) == SnapshotOf(buttons[j]);
          assert old(ButtonOk(buttons[j]));
          if j < i {
            assert old(DrainedFrom(buttons[j], before[j]));
          }
        }
      }
    }

    /**
      SendControllerEvents: for each valid binding in table order, drain its
      digital queue and then its analog queue into the message handler.
      The events are DispatchEvents of what the bindings held; valid bindings
      end with empty queues, invalid ones are untouched, and the invariant is
      kept.
    */
    method SendControllerEvents()
      requires Valid()
      modifies this`events, buttons
      ensures Valid()
      ensures events == old(events) + DispatchEvents(old(PendingAll(buttons)))
      ensures forall i :: 0 <= i < |buttons| ==> DrainedFrom(buttons[i], old(SnapshotAll(buttons))[i])
    {
      ghost var before := SnapshotAll(buttons);
      ghost var pending := PendingAll(buttons);
      DispatchStart(before, pending);
      DispatchAll(before, pending);
      DispatchKeepsValid(before);
    }

    /** Before the loop nothing is drained yet and every binding is as it is now. */
    lemma DispatchStart(before: seq<Snapshot>, pending: seq<Pending>)
      requires Valid() && before == SnapshotAll(buttons) && pending == PendingAll(buttons)
      ensures DispatchedUpTo(before, pending, 0)
    {
    }

    /**
      Draining keeps the invariant: it changes no flag, no registration and
      no hand interface, and every binding is drained relative to a state
      that satisfied it.
    */
    twostate lemma DispatchKeepsValid(before: seq<Snapshot>)
      requires old(Valid()) && before == old(SnapshotAll(buttons))
      requires buttons == old(buttons) && calls == old(calls)
      requires leftHand == old(leftHand) && rightHand == old(rightHand)
      requires leftHandValid == old(leftHandValid) && rightHandValid == old(rightHandValid)
      requires forall i :: 0 <= i < |buttons| ==> ButtonOk(buttons[i])
      requires forall i :: 0 <= i < |buttons| ==> DrainedFrom(buttons[i], before[i])
      ensures Valid()
    {
      forall j | 0 <= j < |buttons|
        ensures buttons[j].isValid == old(buttons[j].isValid)
      {
        assert before[j] == old(SnapshotOf(buttons[j]));
      }
      assert ValidFlags(buttons) == old(ValidFlags(buttons));
    }

    /** The loop of SendControllerEvents, over every binding in table order. */
    method DispatchAll(ghost before: seq<Snapshot>, ghost pending: seq<Pending>)
      requires DispatchedUpTo(before, pending, 0)
      modifies this`events, buttons
      ensures DispatchedUpTo(before, pending, |buttons|)
      ensures events == old(events) + DispatchEvents(pending)
    {
      var i := 0;
      while i < |buttons|
        invariant DispatchedUpTo(before, pending, i)
        invariant events == old(events) + DispatchEvents(pending[..i])
      {
        ghost var sent := events;
        DispatchNext(before, pending, i);
        DispatchPrefixStep(sent, old(events), pending, i);
        i := i + 1;
      }
      assert pending[..i] == pending;
    }

    /**
      The hand interface the pose query reads: the left one for Left, the
      right one otherwise. While the flags agree with the handles, as Valid()
      keeps them, it is present exactly when that hand's flag is set.
    */
    function HandInterface(hand: Hand): (iface: Option<Handle>)
      reads this
      ensures hand == Left ==> iface == leftHand
      ensures hand == Right ==> iface == rightHand
      ensures leftHandValid == leftHand.Some? && rightHandValid == rightHand.Some? ==>
        (iface.Some? <==> if hand == Left then leftHandValid else rightHandValid)
    {
      if hand == Left then leftHand else rightHand
    }

    /**
      GetControllerTrackingStatus: tracked when the context is valid and
      either hand interface was resolved, whatever controller and hand are asked.
    */
    function GetControllerTrackingStatus(controllerIndex: int, hand: Hand): (status: TrackingStatus)
      reads this
      ensures status == Tracked <==> contextValid && (leftHandValid || rightHandValid)
    {
      if contextValid && (leftHandValid || rightHandValid) then Tracked else NotTracked
    }

    /**
      GetControllerOrientationAndPosition, reduced to whether a pose is
      reported: only for controller 0, only while the client status check
      succeeds, and only when the pose query on that hand's interface
      succeeds. `poseQuery` stands for osvrGetPoseState on an interface.
    */
    function GetControllerOrientationAndPosition(controllerIndex: int, hand: Hand, statusOk: bool, poseQuery: Option<Handle> -> bool): (tracked: bool)
      reads this
      ensures tracked ==> controllerIndex == POSE_CONTROLLER_INDEX && statusOk && poseQuery(HandInterface(hand))
    {
      controllerIndex == POSE_CONTROLLER_INDEX && statusOk && poseQuery(HandInterface(hand))
    }

    /**
      The tracking status does not depend on the controller or the hand, and
      "tracked" means a hand interface is held.
    */
    lemma TrackingStatusUniform(index1: int, hand1: Hand, index2: int, hand2: Hand)
      requires Valid()
      ensures GetControllerTrackingStatus(index1, hand1) == GetControllerTrackingStatus(index2, hand2)
      ensures GetControllerTrackingStatus(index1, hand1) == Tracked ==> hasContext && (leftHand.Some? || rightHand.Some?)
    {
    }

    /**
      A hand whose interface was not resolved never reports a pose, provided
      the pose query fails on a null interface.
    */
    lemma UnresolvedHandNotPosed(controllerIndex: int, hand: Hand, statusOk: bool, poseQuery: Option<Handle> -> bool)
      requires Valid() && !poseQuery(None)
      requires if hand == Left then !leftHandValid else !rightHandValid
      ensures !GetControllerOrientationAndPosition(controllerIndex, hand, statusOk, poseQuery)
    {
    }

    /**
      The destructor: with a context, free the left and right hand
      interfaces that were resolved, then every handle in the interface map
      once, in the map's iteration order (returned as `order`); without a
      context, free nothing.
    */
    method Release() returns (order: seq<Path>)
      modifies this`calls
      ensures !hasContext ==> calls == old(calls) && order == []
      ensures hasContext ==>
        && Distinct(order) && (forall p :: p in order <==> p in interfaces) && |order| == |interfaces|
        && calls == old(calls) + HandFrees(leftHand, rightHand) + FreeCalls(interfaces, order)
    {
      order := [];
      if hasContext {
        if leftHand.Some? {
          calls := calls + [FreeInterface(leftHand.value)];
        }
        if rightHand.Some? {
          calls := calls + [FreeInterface(rightHand.value)];
        }
        assert calls == old(calls) + HandFrees(leftHand, rightHand);
        order := FreeMapInterfaces();
      }
    }

    /** The loop over the interface map: free each handle once, in an order the map chooses. */
    method FreeMapInterfaces() returns (order: seq<Path>)
      modifies this`calls
      ensures Distinct(order) && (forall p :: p in order <==> p in interfaces) && |order| == |interfaces|
      ensures calls == old(calls) + FreeCalls(interfaces, order)
    {
      order := [];
      var remaining := interfaces.Keys;
      while remaining != {}
        invariant remaining <= interfaces.Keys
        invariant Distinct(order)
        invariant forall p :: p in order <==> p in interfaces && p !in remaining
        invariant calls == old(calls) + FreeCalls(interfaces, order)
        decreases |remaining|
      {
        var p :| p in remaining;
        FreeCallsSnoc(interfaces, order, p);
        assert calls + [FreeInterface(interfaces[p])] == old(calls) + FreeCalls(interfaces, order + [p]);
        calls := calls + [FreeInterface(interfaces[p])];
        order := order + [p];
        remaining := remaining - {p};
      }
      DistinctKeysLength(order, interfaces.Keys);
    }
  }
}
