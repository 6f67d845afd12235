/** The usual optional value, used for "no molecule", "no index" and "no place". */
module Options {

  datatype Option<+T> = None | Some(value: T)
}
