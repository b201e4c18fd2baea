/** The absent-or-present value used wherever the source answers "not there"
    without raising: a dictionary `get` on a missing key, a spaz that has no
    ability attached. */
module Optional {

  datatype Option<+T> = None | Some(value: T)

}
