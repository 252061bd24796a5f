/** An optional value: a request parameter that may be absent, a route that may not match. */
module Optional {

  datatype Option<+T> = None | Some(value: T)
}
