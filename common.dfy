/** Values shared by every layer of the display emulator. */
module Common {

  /** A Go `byte`: every arithmetic or shift on it wraps modulo 256. */
  type byte = bv8

  /** The error conditions of the emulator, one tag per kind of failure. */
  datatype Error =
    | PixelOutOfBounds    // a coordinate outside the plane or viewport
    | VramOutOfBounds     // a byte offset beyond the end of VRAM
    | NotInDataMode       // payload written before a Write RAM command
    | InvalidArgument     // a negative size or radius given to a drawing call
    | UnknownCommand      // an opcode missing from the command catalogue
    | GlyphNotFound       // a rune missing from a bitmap font

  /** The (value, error) pair a Go function returns. */
  datatype Result<T> = Ok(value: T) | Err(error: Error) {
    predicate IsFailure() { Err? }
    function PropagateFailure<U>(): Result<U>
      requires Err?
    {
      Err(error)
    }
    function Extract(): T
      requires Ok?
    {
      value
    }
  }

  /** A lookup that may find nothing, as a Go map read with its `ok` flag. */
  datatype Option<T> = None | Some(value: T)

  /** The bare `error` a Go function returns: nil or an error. */
  datatype Outcome = Pass | Fail(error: Error)

  /** A pixel coordinate. */
  datatype Point = Point(x: int, y: int)

  /** Go's integer division, which truncates toward zero. */
  function GoDiv(a: int, b: int): (q: int)
    requires b > 0
    ensures a >= 0 ==> q == a / b
    ensures a < 0 ==> q == -((-a) / b)
  {
    if a >= 0 then a / b else -((-a) / b)
  }
}
