/** Small vocabulary shared by the other modules. */
module Common {

  /** The source's `std::optional`, null reference or absent map entry. */
  datatype Option<+T> = None | Some(value: T)

  function Max(x: int, y: int): int {
    if x < y then y else x
  }
}
