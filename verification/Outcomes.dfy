/** The result of an operation that rejects some arguments: std::invalid_argument in the C++ code,
    ValueError in the Python code. */
module Outcomes {
  datatype Result<T> = Ok(value: T) | InvalidArgument
}
