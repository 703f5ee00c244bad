/**
 * Reading a bean property by name (`PropertyUtils.getProperty`). The
 * reflection itself is outside the model: callers pass the reader as a
 * function, and its outcome is one of the four cases below.
 */
module Beans {
  /**
   * `Found`: a non-null value; `Null`: the property is null;
   * `NestedNull`: a `NestedNullException`, an intermediate bean on a
   * dotted path is null; `Error`: any other exception (no such property,
   * access denied, invocation failure).
   */
  datatype Access<+V> = Found(value: V) | Null | NestedNull | Error
}
