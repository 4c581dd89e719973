/** A value that may be missing: the source's None, and its exceptions where nothing else is known of them. */
module Optional {

  datatype Option<+T> = None | Some(value: T)
}
