/** Values that may be missing: SQL NULLs, nil references, and results that are errors. */
module Options {

  datatype Option<+T> = None | Some(value: T)
}
