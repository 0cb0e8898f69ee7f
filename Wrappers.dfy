/** The optional values the component keeps in its state (a date or `null`)
    and the optional capture groups of the locale pattern. */
module Wrappers {

  datatype Option<+T> = None | Some(value: T)
}
