/** The optional value used wherever the .NET code returns -1 or null for "not found". */
module Options {

  datatype Option<+T> = None | Some(value: T)
}
