/** The optional value used wherever the sources return `std::optional`, `None` or a null reference. */
module Options {
  datatype Option<+T> = None | Some(value: T)
}
