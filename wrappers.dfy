/** The optional value shared by the other modules: `None` stands for
    Python's `None` and for a generator that has finished. */
module Wrappers {

  datatype Option<T> = None | Some(value: T)
}
