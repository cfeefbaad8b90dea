/** The Some/None datatype used wherever the program returns a value with an ok flag. */
module Options {
  datatype Option<+T> = None | Some(value: T)
}
