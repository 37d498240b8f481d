/**
  Vocabulary of the OSVR input device: the kinds of binding, the values the
  OSVR client library hands back, the calls made into it, and the events
  delivered to the engine's message handler.
*/
module InputTypes {
  import opened Wrappers

  /** OSVRButtonType: how a binding reads its interface. */
  datatype ButtonType = Digital | Analog | Threshold

  /** OSVRThresholdType: which side of the threshold counts as pressed. */
  datatype ThresholdType = GreaterThan | LessThan

  /** An engine key name (an FName taken from FGamepadKeyNames). */
  type Key = string

  /** An OSVR interface path such as "/controller/left/trigger". */
  type Path = string

  /** A non-null OSVR_ClientInterface; the value itself is opaque. */
  type Handle = nat

  /** OSVR_ButtonState is an 8-bit unsigned value. */
  newtype uint8 = x: int | 0 <= x < 0x100

  /** OSVR_BUTTON_PRESSED; every other button state reads as released. */
  const BUTTON_PRESSED: uint8 := 1

  /** Threshold of a binding built without one (member initialiser of OSVRButton). */
  const DEFAULT_THRESHOLD: real := 0.75

  /** `defaultThreshold` of the binding table: the thumbstick deflection that counts as a press. */
  const STICK_THRESHOLD: real := 0.25

  /** `controllerId` of SendControllerEvents: the controller (player) index every dispatched event carries. */
  const CONTROLLER_ID: int := 0

  /** The one controller index GetControllerOrientationAndPosition answers for; unrelated to CONTROLLER_ID. */
  const POSE_CONTROLLER_INDEX: int := 0

  /** The two sample callbacks a binding can register with the client. */
  datatype CallbackKind = ButtonCb | AnalogCb

  /** The callback a binding of the given type registers: buttons for Digital, analog otherwise. */
  function CallbackFor(kind: ButtonType): (cb: CallbackKind)
    ensures cb == ButtonCb <==> kind == Digital
  {
    if kind == Digital then ButtonCb else AnalogCb
  }

  /** One call made into the OSVR client library, with the answer it gave. */
  datatype ClientCall =
    | GetInterface(path: Path, result: Option<Handle>)        // osvrClientGetInterface
    | Register(handle: Handle, callback: CallbackKind, binding: nat, ok: bool)
                                                              // osvrRegisterButtonCallback / osvrRegisterAnalogCallback,
                                                              // with the binding passed as userdata
    | FreeInterface(handle: Handle)                           // osvrClientFreeInterface

  /**
    The client library as an oracle. Each answer may depend on every call made
    so far (the log) as well as on the arguments of the call itself.
  */
  datatype Client = Client(
    getInterface: (seq<ClientCall>, Path) -> Option<Handle>,
    register: (seq<ClientCall>, Handle, CallbackKind, nat) -> bool)

  /** A notification sent to the engine's FGenericApplicationMessageHandler. */
  datatype Event =
    | ButtonPressed(key: Key, controllerId: int, isRepeat: bool)    // OnControllerButtonPressed
    | ButtonReleased(key: Key, controllerId: int, isRepeat: bool)   // OnControllerButtonReleased
    | AnalogChanged(key: Key, controllerId: int, value: real)       // OnControllerAnalog

  /** EControllerHand. */
  datatype Hand = Left | Right

  /** ETrackingStatus values GetControllerTrackingStatus can return. */
  datatype TrackingStatus = Tracked | NotTracked
}
