/** The Java vocabulary the model shares between the builder and the binder:
    nullable references, the exceptions the core can raise, and the two shapes
    of a call that may throw. */
module JavaLang {

  datatype Option<+T> = None | Some(value: T)

  /** A Java object reference as the core sees it: `null`, or a string. */
  datatype Obj = Null | Str(s: string)

  /** The exceptions that can escape the modelled operations. */
  datatype Exception =
    | NullPointerException
    | NumberFormatException
    | StringIndexOutOfBoundsException
    | PropertiesException

  /** A call that returns a value or throws. */
  datatype Result<+T> = Ok(value: T) | Throws(ex: Exception)

  /** A `void` call: it returns normally or throws. */
  datatype Outcome = Completes | Raises(ex: Exception)

  /** The contents of a `java.util.Properties`: string keys to string values.
      A `Properties` never holds a null key or a null value. */
  type Props = map<string, string>
}
