/** Python's `None` next to a value, as the planner's predecessor map and the pickup scan use it. */
module Options {
  datatype Option<T> = None | Some(value: T)
}
