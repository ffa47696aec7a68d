/** Failures raised by the injector, and a failure-compatible result type. */
module Errors {

  /** Each constructor names the exception the Java code raises, and why. */
  datatype Error =
      // StringIndexOutOfBoundsException from `charAt` in the naming-convention engine
    | StringIndexOutOfBounds
      // NumberFormatException from `Integer.parseInt` (no digits, or above 2^31 - 1)
    | NumberFormat
      // NullPointerException from `Field.getBoolean(null)` on an instance field
    | NullPointer
      // IllegalArgumentException raised by the configuration builder
    | NotAnImplementation
    | ImplementationIsInterface
    | ImplementationIsAbstract
    | NullInterceptorProvider
      // IllegalArgumentException raised by the component-definition constructors
    | MissingImplementation
    | NullProvider
    | AbstractWithoutImplementation
      // IllegalArgumentException raised when an interception handler gets a null instance
    | NullComponentInstance
      // IllegalStateException raised by constructor selection
    | NoPublicConstructor
    | NoDefaultConstructor
    | SeveralInjectConstructors
      // InjectorException: no binding, provider or convention for an interface/abstract type
    | Unresolvable(name: string)
      // InjectorException wrapping the InstantiationException of an abstract class
    | InstantiationFailed(name: string)
      // NoClassDefFoundError: a referenced type the class loader cannot supply
    | NoClassDefFound(name: string)
      // StackOverflowError: the recursion of the resolver ran out of fuel
    | StackOverflow

  datatype Result<+T> = Ok(value: T) | Err(error: Error) {

    predicate IsFailure() {
      Err?
    }

    function PropagateFailure<U>(): Result<U>
      requires Err?
    {
      Err(error)
    }

    function Extract(): T
      requires Ok?
    {
      value
    }
  }

  datatype Option<+T> = None | Some(value: T)
}
