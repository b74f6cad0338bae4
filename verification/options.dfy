/** The optional value used wherever the worker's records have a field that
    may be absent, and wherever the store answers `null`. */
module Options {

  datatype Option<+T> = None | Some(value: T)
}
