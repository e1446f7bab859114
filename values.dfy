/** Values, argument bags and errors shared by the factory and the injector. */
module Values {

  datatype Option<+T> = None | Some(value: T)

  /** The outcome of an operation that may throw: a value, or the exception it raised. */
  datatype Result<+T> = Ok(value: T) | Err(error: Error)

  /** A PHP value as the container passes it around: null, a scalar, or a reference to an object. */
  datatype Value = Null | Scalar(text: string) | Obj(ref: object)

  /** A key of a PHP argument array: a parameter name or a position. */
  datatype ArgKey = Named(name: string) | Position(index: int)

  /** The caller's argument bag, keyed by parameter name or by position. */
  type Args = map<ArgKey, Value>

  /** The throwables the resolution engine raises, carrying the data of their messages. */
  datatype Error =
    | InstanceNotFound(requested: string)
      // getSingleton on a class with no (non-null) singleton
    | MissingArgument(parameter: string, supplied: set<ArgKey>)
      // a parameter with no argument, no default and no class
    | ConstructorFailed(owner: string, cause: Error)
      // injectConstructor rethrowing with the class name as prefix
    | UnresolvedClass(property: string, owner: string, typeName: string)
      // injectProperty when the resolver finds no class
    | UnknownClass(requested: string)
      // reflection on a class that does not exist
    | Thrown(message: string)
      // an `\Exception` raised by code outside the model (a provider, a constructor body)
    | Fatal(message: string)
      // a PHP `\Error` (a TypeError, say), which `catch (\Exception $e)` does not catch

  /** Whether `catch (\Exception $e)` catches the throwable: everything but a PHP `\Error`. */
  predicate IsException(e: Error)
  {
    !e.Fatal?
  }

  /** PHP truthiness of a string-or-false value: false, "" and "0" are falsy. */
  predicate Truthy(s: Option<string>)
  {
    s.Some? && s.value != "" && s.value != "0"
  }
}
