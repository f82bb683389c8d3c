/** The absent-or-present value shared by the relay and the phone client:
    an empty role slot, a haptic level that has been reset. */
module Options {

  datatype Option<+T> = None | Some(value: T)
}
