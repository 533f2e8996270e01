/** The "maybe a number" values of the tracker: a price that could not be
    fetched, and every derived figure that depends on it, is `None`. */
module Optional {

  datatype Option<+T> = None | Some(value: T)

}
