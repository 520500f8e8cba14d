/** Python's `None` next to a real value: a game result that is not decided
    yet, an action that was never assigned, a board hash not computed yet. */
module Options {

  datatype Option<T> = None | Some(value: T)

}
