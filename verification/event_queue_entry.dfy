/** Entries of the event queue: what an event says, and how an entry is classified. */
module EventQueueEntries {
  import opened Types

  // HID usage pages and usages, as numbered by the HID Usage Tables and Apple's extension of them.
  const GENERIC_DESKTOP := 0x01
  const KEYBOARD_OR_KEYPAD := 0x07
  const LEDS := 0x08
  const BUTTON := 0x09
  const CONSUMER := 0x0c
  const APPLE_VENDOR_TOP_CASE := 0x00ff
  const APPLE_VENDOR_KEYBOARD := 0xff01
  const APPLE_VENDOR_KEYBOARD_FUNCTION := 0x03
  const APPLE_VENDOR_TOP_CASE_FN := 0x03

  /** A momentary switch: a key, a consumer control, a pointing button, ... */
  datatype Switch = Switch(page: int, usage: int)
  {
    function MakeModifierFlag(): Option<ModifierFlag> {
      if page == KEYBOARD_OR_KEYPAD then
        (match usage
         case 0xe0 => Some(LeftControl)
         case 0xe1 => Some(LeftShift)
         case 0xe2 => Some(LeftOption)
         case 0xe3 => Some(LeftCommand)
         case 0xe4 => Some(RightControl)
         case 0xe5 => Some(RightShift)
         case 0xe6 => Some(RightOption)
         case 0xe7 => Some(RightCommand)
         case _ => None)
      else if page == APPLE_VENDOR_KEYBOARD then
        (if usage == APPLE_VENDOR_KEYBOARD_FUNCTION then Some(Fn) else None)
      else if page == APPLE_VENDOR_TOP_CASE then
        (if usage == APPLE_VENDOR_TOP_CASE_FN then Some(Fn) else None)
      else None
    }

    predicate IsModifierFlag() {
      MakeModifierFlag().Some?
    }

    predicate IsPointingButton() {
      page == BUTTON
    }

    predicate IsValid() {
      page != 0 && usage != 0
    }
  }

  datatype StickyType = On | Off | Toggle

  datatype Motion = Motion(x: int, y: int, verticalWheel: int, horizontalWheel: int)

  datatype EventKind =
    | NoEvent
    | MomentarySwitchEvent
    | PointingMotion
    | ShellCommand
    | SendUserCommand
    | SelectInputSource
    | SetVariable
    | SetNotificationMessage
    | MouseKey
    | StickyModifier
    | SoftwareFunction
    | StopKeyboardRepeat
    | DeviceKeysAndPointingButtonsAreReleased
    | DeviceGrabbed
    | DeviceUngrabbed
    | CapsLockStateChanged
    | PointingDeviceEventFromEventTap
    | FrontmostApplicationChanged
    | InputSourceChanged
    | SystemPreferencesPropertiesChanged
    | VirtualHidDevicesStateChanged

  datatype EventValue =
    | SwitchValue(switch: Switch)
    | MotionValue(motion: Motion)
    | IntegerValue(integer: int)
    | StickyValue(flag: ModifierFlag, stickyType: StickyType)
    | OtherValue(code: int)

  /** The kind and the value are separate fields: an event read from JSON can mix them. */
  datatype Event = Event(kind: EventKind, value: EventValue)
  {
    predicate IsSwitch() {
      value.SwitchValue?
    }
  }

  datatype State = Original | Manipulated | VirtualEvent

  datatype Entry = Entry(
    device: DeviceId,
    timeStamp: int,
    inputDelay: int,
    event: Event,
    eventType: EventType,
    integerValue: Option<int>,
    originalEvent: Event,
    state: State,
    isLazy: bool,
    validity: Validity)

  // ----- The three classes of switch events that reordering tells apart -----

  predicate IsModifier(e: Entry) {
    e.event.IsSwitch() && e.event.value.switch.IsModifierFlag()
  }

  predicate IsKey(e: Entry) {
    e.event.IsSwitch() && !e.event.value.switch.IsModifierFlag()
  }

  predicate IsRelease(e: Entry) {
    IsModifier(e) && e.eventType == KeyUp
  }

  predicate IsPress(e: Entry) {
    IsModifier(e) && e.eventType != KeyUp
  }
}
