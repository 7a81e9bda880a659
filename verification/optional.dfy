/** Absent values. The fetcher's JavaScript distinguishes `undefined` and
    `null` from a present string only by truthiness, so one "absent" case is
    enough for every optional field of the model. */
module Optional {

  datatype Option<T> = None | Some(value: T)
}
