/** Value types shared by the keypad model: colours, pixels, commands and output events. */
module Values {

  datatype Option<T> = None | Some(value: T) {
    /** The wrapped value, or `default` when there is none (Python's `x if x is not None else d`). */
    function GetOr(default: T): T {
      if Some? then value else default
    }
  }

  /** An RGB colour (class RGB). Channels are stored exactly as given: the source never range-checks them. */
  datatype Rgb = Rgb(red: int, green: int, blue: int)

  const Black := Rgb(0, 0, 0)

  /** One slot of the DotStar pixel buffer: (red, green, blue, brightness), the key's `pixel_tuple`. */
  datatype Pixel = Pixel(red: int, green: int, blue: int, brightness: real)

  /** The pixel buffer before anything has been painted. */
  const Dark := Pixel(0, 0, 0, 0.0)

  /** The range every brightness setter accepts: 0.0 to 1.0 inclusive. */
  predicate InUnit(v: real) {
    0.0 <= v <= 1.0
  }

  /** A USB HID keycode; the concrete values come from the keyboard library and are not modelled. */
  type Keycode = nat

  /** The `action` of a KeypadAction: either a string or a list of key names. */
  datatype Payload = Text(text: string) | Names(names: seq<string>)

  /** A KeypadAction: a type tag ('keyboardShortcut', 'enterText', anything else) and its payload. */
  datatype Action = Action(actionType: string, action: Payload)

  /** A KeypadCommand: the ordered actions run together when its slot is pressed. */
  datatype Command = Command(actions: seq<Action>)

  /** What the keypad does to the outside world: a HID chord, a typed string, or a blocking pause. */
  datatype Event = Chord(codes: seq<Keycode>) | Write(payload: Payload) | Sleep(seconds: real)
}
