/**
 The records the replay engine works on: the fixed LED layout, the recorded
 race events, and the colours drawn for each driver. All of them are loaded
 once and never change afterwards.
 */
module Race {

  /** One channel of an 8-bit colour. */
  newtype byte = x: int | 0 <= x < 0x100

  /** Rust `u32`, the type of a driver number. */
  type U32 = n: nat | n < 0x1_0000_0000

  /** Rust `u64`, the type of the recorded gap between two events. */
  type U64 = n: nat | n < 0x1_0000_0000_0000_0000

  /** An RGBA colour as the renderer stores it. */
  datatype Color32 = Color32(r: byte, g: byte, b: byte, a: byte)

  /** An opaque colour given by its red, green and blue channels. */
  function FromRgb(r: byte, g: byte, b: byte): Color32
  {
    Color32(r, g, b, 255)
  }

  /** The colour shown for a driver that has no entry in the colour table. */
  const WHITE: Color32 := FromRgb(255, 255, 255)

  /** One physical LED position of the track layout (used only for drawing). */
  datatype LedCoordinate = LedCoordinate(xLed: real, yLed: real)

  /**
   One recorded position of one driver. `date` is the recorded instant in
   milliseconds; `timeDelta` is the gap in milliseconds since the previous
   event, and it is this gap, not `date`, that drives the replay.
   */
  datatype RunRace = RunRace(date: int, driverNumber: U32, xLed: real, yLed: real, timeDelta: U64)

  /** The table from driver number to display colour. */
  type ColorTable = map<U32, Color32>

  /** The integer key an event's position is quantised to. */
  type CoordKey = (int, int)
}
