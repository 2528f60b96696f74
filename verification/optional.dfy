/** A value that may be absent: an Android `Bundle` that may be null, a
    trace whose next event cannot happen. */
module Optional {

  datatype Option<+T> = None | Some(value: T)
}
