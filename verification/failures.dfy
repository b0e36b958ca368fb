/**
 * The error kinds raised by the tensor library, and the result type that
 * carries either a value or one of them.
 */
module Failures {

  datatype Error =
    | IndexDimensionMismatch   // coordinate arity differs from the rank (std::invalid_argument)
    | IndexOutOfBounds         // some coordinate entry is not below its extent (std::out_of_range)
    | LinearIndexOutOfBounds   // linear index not below the element count (std::out_of_range)
    | MalformedStream          // token stream too short, or a negative rank or extent
    | RankMismatch             // loaded tensor has the wrong rank for Vector / Matrix
    | DimensionMismatch        // matrix column count differs from the vector size

  datatype Result<T> = Ok(value: T) | Err(error: Error)
}
