/**
  The fixed binding table the device builds when the client context is ready:
  58 entries, each naming a key, the interface path it reads and how it reads
  it. Entries built with three arguments take the default threshold settings.
*/
module BindingTable {
  import opened InputTypes

  /** One table entry, as written with OSVRButton's three- or five-argument constructor. */
  datatype Decl =
    | Plain(kind: ButtonType, key: Key, path: Path)
    | WithThreshold(kind: ButtonType, thresholdType: ThresholdType, threshold: real, key: Key, path: Path)

  /**
    The table, in declaration order: left hand, right hand, then the
    gamepad-style aliases. It has 58 entries; every entry that gives its own
    threshold is a thumbstick direction of a Threshold binding, and the
    Threshold entries written without one (so with the default settings) are
    the two triggers.
  */
  function Table(): (table: seq<Decl>)
    ensures |table| == 58
    ensures ThresholdsWellFormed(table)
  {
    WellFormedAppend(LeftHandBindings(), RightHandBindings());
    WellFormedAppend(LeftHandBindings() + RightHandBindings(), GamepadButtons());
    WellFormedAppend(LeftHandBindings() + RightHandBindings() + GamepadButtons(), GamepadAxes());
    LeftHandBindings() + RightHandBindings() + GamepadButtons() + GamepadAxes()
  }

  /** The left hand controller: 15 entries, all reading the left controller's interfaces. */
  function LeftHandBindings(): (ds: seq<Decl>)
    ensures |ds| == 15
    ensures forall k :: 0 <= k < |ds| ==> "/controller/left/" <= ds[k].path
    ensures ThresholdsWellFormed(ds)
  {
    [
      Plain(Digital, "SpecialLeft", "/controller/left/middle"),
      Plain(Digital, "MotionController_Left_Shoulder", "/controller/left/bumper"),
      Plain(Digital, "MotionController_Left_Thumbstick", "/controller/left/joystick/button"),
      Plain(Digital, "MotionController_Left_FaceButton1", "/controller/left/1"),
      Plain(Digital, "MotionController_Left_FaceButton2", "/controller/left/2"),
      Plain(Digital, "MotionController_Left_FaceButton3", "/controller/left/3"),
      Plain(Digital, "MotionController_Left_FaceButton4", "/controller/left/4"),
      Plain(Analog, "MotionController_Left_Thumbstick_X", "/controller/left/joystick/x"),
      WithThreshold(Threshold, GreaterThan, STICK_THRESHOLD, "MotionController_Left_Thumbstick_Right", "/controller/left/joystick/x"),
      WithThreshold(Threshold, LessThan, -STICK_THRESHOLD, "MotionController_Left_Thumbstick_Left", "/controller/left/joystick/x"),
      Plain(Analog, "MotionController_Left_Thumbstick_Y", "/controller/left/joystick/y"),
      WithThreshold(Threshold, GreaterThan, STICK_THRESHOLD, "MotionController_Left_Thumbstick_Up", "/controller/left/joystick/y"),
      WithThreshold(Threshold, LessThan, -STICK_THRESHOLD, "MotionController_Left_Thumbstick_Down", "/controller/left/joystick/y"),
      Plain(Analog, "MotionController_Left_TriggerAxis", "/controller/left/trigger"),
      Plain(Threshold, "MotionController_Left_Trigger", "/controller/left/trigger")
    ]
  }

  /** The right hand controller: 15 entries, all reading the right controller's interfaces. */
  function RightHandBindings(): (ds: seq<Decl>)
    ensures |ds| == 15
    ensures forall k :: 0 <= k < |ds| ==> "/controller/right/" <= ds[k].path
    ensures ThresholdsWellFormed(ds)
  {
    [
      Plain(Digital, "SpecialRight", "/controller/right/middle"),
      Plain(Digital, "MotionController_Right_Shoulder", "/controller/right/bumper"),
      Plain(Digital, "MotionController_Right_Thumbstick", "/controller/right/joystick/button"),
      Plain(Digital, "MotionController_Right_FaceButton1", "/controller/right/1"),
      Plain(Digital, "MotionController_Right_FaceButton2", "/controller/right/2"),
      Plain(Digital, "MotionController_Right_FaceButton3", "/controller/right/3"),
      Plain(Digital, "MotionController_Right_FaceButton4", "/controller/right/4"),
      Plain(Analog, "MotionController_Right_Thumbstick_X", "/controller/right/joystick/x"),
      WithThreshold(Threshold, GreaterThan, STICK_THRESHOLD, "MotionController_Right_Thumbstick_Right", "/controller/right/joystick/x"),
      WithThreshold(Threshold, LessThan, -STICK_THRESHOLD, "MotionController_Right_Thumbstick_Left", "/controller/right/joystick/x"),
      Plain(Analog, "MotionController_Right_Thumbstick_Y", "/controller/right/joystick/y"),
      WithThreshold(Threshold, GreaterThan, STICK_THRESHOLD, "MotionController_Right_Thumbstick_Up", "/controller/right/joystick/y"),
      WithThreshold(Threshold, LessThan, -STICK_THRESHOLD, "MotionController_Right_Thumbstick_Down", "/controller/right/joystick/y"),
      Plain(Analog, "MotionController_Right_TriggerAxis", "/controller/right/trigger"),
      Plain(Threshold, "MotionController_Right_Trigger", "/controller/right/trigger")
    ]
  }

  /** Gamepad-style aliases of the face buttons, bumpers and stick clicks: 12 Digital entries. */
  function GamepadButtons(): (ds: seq<Decl>)
    ensures |ds| == 12
    ensures forall k :: 0 <= k < |ds| ==> ds[k].kind == Digital
    ensures ThresholdsWellFormed(ds)
  {
    [
      Plain(Digital, "RightShoulder", "/controller/right/bumper"),
      Plain(Digital, "RightThumb", "/controller/right/joystick/button"),
      Plain(Digital, "FaceButtonBottom", "/controller/right/1"),
      Plain(Digital, "FaceButtonRight", "/controller/right/2"),
      Plain(Digital, "FaceButtonLeft", "/controller/right/3"),
      Plain(Digital, "FaceButtonTop", "/controller/right/4"),
      Plain(Digital, "LeftShoulder", "/controller/left/bumper"),
      Plain(Digital, "LeftThumb", "/controller/left/joystick/button"),
      Plain(Digital, "DPadDown", "/controller/left/1"),
      Plain(Digital, "DPadRight", "/controller/left/2"),
      Plain(Digital, "DPadLeft", "/controller/left/3"),
      Plain(Digital, "DPadUp", "/controller/left/4")
    ]
  }

  /** Gamepad-style aliases of the sticks and triggers: 16 entries, none of them Digital. */
  function GamepadAxes(): (ds: seq<Decl>)
    ensures |ds| == 16
    ensures forall k :: 0 <= k < |ds| ==> ds[k].kind != Digital
    ensures ThresholdsWellFormed(ds)
  {
    [
      Plain(Analog, "LeftAnalogX", "/controller/left/joystick/x"),
      WithThreshold(Threshold, GreaterThan, STICK_THRESHOLD, "LeftStickRight", "/controller/left/joystick/x"),
      WithThreshold(Threshold, LessThan, -STICK_THRESHOLD, "LeftStickLeft", "/controller/left/joystick/x"),
      Plain(Analog, "LeftAnalogY", "/controller/left/joystick/y"),
      WithThreshold(Threshold, GreaterThan, STICK_THRESHOLD, "LeftStickUp", "/controller/left/joystick/y"),
      WithThreshold(Threshold, LessThan, -STICK_THRESHOLD, "LeftStickDown", "/controller/left/joystick/y"),
      Plain(Analog, "RightAnalogX", "/controller/right/joystick/x"),
      WithThreshold(Threshold, GreaterThan, STICK_THRESHOLD, "RightStickRight", "/controller/right/joystick/x"),
      WithThreshold(Threshold, LessThan, -STICK_THRESHOLD, "RightStickLeft", "/controller/right/joystick/x"),
      Plain(Analog, "RightAnalogY", "/controller/right/joystick/y"),
      WithThreshold(Threshold, GreaterThan, STICK_THRESHOLD, "RightStickUp", "/controller/right/joystick/y"),
      WithThreshold(Threshold, LessThan, -STICK_THRESHOLD, "RightStickDown", "/controller/right/joystick/y"),
      Plain(Analog, "LeftTriggerAnalog", "/controller/left/trigger"),
      Plain(Analog, "RightTriggerAnalog", "/controller/right/trigger"),
      Plain(Threshold, "LeftTriggerThreshold", "/controller/left/trigger"),
      Plain(Threshold, "RightTriggerThreshold", "/controller/right/trigger")
    ]
  }

  /** A thumbstick direction: GreaterThan at +0.25 or LessThan at -0.25, on a Threshold binding. */
  predicate IsStickDirection(d: Decl)
  {
    d.WithThreshold? ==>
      && d.kind == Threshold
      && ((d.thresholdType == GreaterThan && d.threshold == STICK_THRESHOLD)
       || (d.thresholdType == LessThan && d.threshold == -STICK_THRESHOLD))
  }

  /** A Threshold entry written without a threshold reads one of the two triggers. */
  predicate IsTriggerIfDefaulted(d: Decl)
  {
    d.Plain? && d.kind == Threshold ==>
      d.path == "/controller/left/trigger" || d.path == "/controller/right/trigger"
  }

  /** Every entry of `ds` is a stick direction and, if defaulted, a trigger. */
  predicate ThresholdsWellFormed(ds: seq<Decl>)
  {
    forall i :: 0 <= i < |ds| ==> IsStickDirection(ds[i]) && IsTriggerIfDefaulted(ds[i])
  }

  /** Well-formedness carries over to a concatenation. */
  lemma WellFormedAppend(a: seq<Decl>, b: seq<Decl>)
    requires ThresholdsWellFormed(a) && ThresholdsWellFormed(b)
    ensures ThresholdsWellFormed(a + b)
  {
    forall i | 0 <= i < |a + b|
      ensures IsStickDirection((a + b)[i]) && IsTriggerIfDefaulted((a + b)[i])
    {
      if i >= |a| { assert (a + b)[i] == b[i - |a|]; }
    }
  }
}
