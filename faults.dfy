/** Outcomes of the record engine's operations. The source panics (through
    `assert!` or `unwrap`) or aborts (through `handle_alloc_error`) instead of
    returning errors; the model returns the reason as a value instead. */
module Faults {

  /** Why an operation panicked or aborted instead of completing. */
  datatype Fault =
    | LayoutError             // layout arithmetic overflowed or exceeded `isize::MAX`; `unwrap` panics
    | AllocFailure            // the allocator returned null; `handle_alloc_error` aborts
    | LengthMismatch          // `write_footer` was given a slice of the wrong length
    | RecordIndexOutOfBounds  // an array index was not below the array length
    | FooterIndexOutOfBounds  // a footer index was not below the footer length

  /** Either the value an operation produced, or the fault that stopped it. */
  datatype Result<+T> = Ok(value: T) | Err(error: Fault)
}
