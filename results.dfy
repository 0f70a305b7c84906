/** Result shapes for the places where the program either yields a value or aborts. */
module Results {

  datatype Option<+T> = None | Some(value: T)

  /** What an `.unwrap()` produces: the value, or a panic that aborts the process. */
  datatype Outcome<+T> = Ok(value: T) | Panic

  /**
   * What a `FromStr::from_str` implementation of the program returns: a value, its own
   * `Err` (a structural rejection), or a panic raised by an `.unwrap()` inside it.
   */
  datatype FromStr<+T> = Parsed(value: T) | Rejected | Panicked
}
