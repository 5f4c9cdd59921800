/** Optional values, shared by every module. */
module Base {

  /** An optional value; stands in for Go's nil slices, the comma-ok map
      lookup and the zero-time "not set" sentinel. */
  datatype Option<+T> = None | Some(value: T)
}
