/** Shared value types: optional values, the Java exceptions the model
    surfaces as error results, and the unsigned view of a Java byte. */
module Common {

  /** A nullable reference: `None` stands for Java's `null`. */
  datatype Option<+T> = None | Some(value: T)

  /** The runtime exceptions that the modelled code can raise. */
  datatype Exception =
    | IllegalArgument       // IllegalArgumentException
    | IndexOutOfBounds      // ArrayIndexOutOfBoundsException / IndexOutOfBoundsException
    | IllegalState          // IllegalStateException

  /** Either a normal return value or the exception that escaped. */
  datatype Result<+T> = Ok(value: T) | Err(error: Exception)

  /** A Java byte, seen as its unsigned value `b & 0xFF`. */
  type Byte = b: int | 0 <= b < 256

  /** The signed value Java reads when a byte is widened to an int. */
  function Signed(b: Byte): (v: int)
    ensures -128 <= v < 128
    ensures v % 256 == b
  {
    if b < 128 then b else b - 256
  }
}
