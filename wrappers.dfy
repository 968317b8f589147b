/** The optional value every parser of the model returns: `None` stands for the
    exception the C# parsing routines would throw. */
module Wrappers {

  datatype Option<+T> = None | Some(value: T)
}
