/** The optional value used for results that may be absent: a failed fetch,
    a text `JSON.parse` rejects, a position with no regex match. */
module Options {
  datatype Option<T> = None | Some(value: T)
}
