module Options {
  datatype Option<+T> = None | Some(value: T)

  datatype Result<+T, +E> = Ok(value: T) | Err(error: E)

  function OrEmpty(s: Option<string>): string {
    if s.Some? then s.value else ""
  }
}
