/** What the modules share. */
module Common {
  datatype Option<+T> = None | Some(value: T)

  function Power2(n: nat): nat {
    if n == 0 then 1 else 2 * Power2(n - 1)
  }
}
