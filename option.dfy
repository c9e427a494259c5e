/** The usual optional value, used for absent record fields and for beat labels that do not parse. */
module Options {

  datatype Option<+T> = None | Some(value: T)
}
