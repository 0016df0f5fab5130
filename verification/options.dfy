/** An optional value, used where the firmware has "nothing to do" as an outcome. */
module Options {

  datatype Option<+T> = None | Some(value: T)
}
