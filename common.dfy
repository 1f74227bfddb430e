/** Small value types shared by the whole model. */
module Common {

  /** A Java reference that may be `null`. */
  datatype Option<T> = None | Some(value: T)

  /** The unchecked exceptions the solver throws. */
  datatype JavaException = IllegalStateException | ClassCastException

  /** The outcome of a call that either returns a value or throws. */
  datatype Result<T> = Ok(value: T) | Err(error: JavaException)

  /**
   * The argument of a Java `equals(Object)`: `null`, an object of the
   * receiver's own class, or an object of some other class.
   */
  datatype Ref<T> = Null | Instance(value: T) | OtherClass

  /** `Math.min` on Java ints (overflow is not modelled). */
  function Min(a: int, b: int): (r: int)
    ensures r <= a && r <= b && (r == a || r == b)
  {
    if a <= b then a else b
  }

  function Max(a: int, b: int): (r: int)
    ensures r >= a && r >= b && (r == a || r == b)
  {
    if a >= b then a else b
  }
}
