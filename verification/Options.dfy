/** Optional values: the results of `try_pop`, and slots that may be uninitialised. */
module Options {
  datatype Option<T> = None | Some(value: T)
}
