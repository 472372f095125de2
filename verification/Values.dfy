/** Small value types shared by every component. */
module Values {

  datatype Option<+T> = None | Some(value: T)

  /** A C float as the firmware distinguishes it with isfinite(). */
  datatype Float = Finite(c: real) | NonFinite

  /** One thermistor sample: a temperature, or any status other than OK. */
  datatype Reading = Valid(c: real) | Invalid

  function Min(x: real, y: real): real {
    if x <= y then x else y
  }

  function Clamp(v: real, lo: real, hi: real): real {
    if v < lo then lo else if v > hi then hi else v
  }

  function ClampInt(v: int, lo: int, hi: int): int {
    if v < lo then lo else if v > hi then hi else v
  }

  const UINT32 := 0x1_0000_0000

  function Front<T>(s: seq<T>): seq<T>
    requires s != []
  {
    s[..|s| - 1]
  }

  function Final<T>(s: seq<T>): T
    requires s != []
  {
    s[|s| - 1]
  }
}
