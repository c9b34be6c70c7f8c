/** The browser's local storage as the three stores use it: one slot per key
    (`cart`, `orders`, `user`). The JSON text itself is abstracted away: a
    slot is missing (this also covers an empty string, which the loaders
    treat as absent), holds text that does not parse, or holds a saved
    value that parses back to exactly that value. */
module Storage {
  import opened Common
  import opened Cart
  import opened Orders
  import opened Session

  datatype Slot<T> = Missing | Unparsable | Saved(value: T)

  datatype Store = Store(cart: Slot<Lines>, orders: Slot<seq<Order>>, user: Slot<User>)

  /** The cart and order loaders: a saved list comes back as it was; a
      missing or unparsable one falls back to the empty list (the parse
      error is caught and only logged). */
  function LoadList<T>(s: Slot<seq<T>>): (r: seq<T>)
    ensures s.Saved? ==> r == s.value
    ensures s.Missing? || s.Unparsable? ==> r == []
  {
    match s
    case Saved(v) => v
    case _ => []
  }

  datatype LoadError = UserUnparsable

  /** The session loader: no stored user means nobody is signed in. Its
      parse is not guarded, so unparsable text is an uncaught error. */
  function LoadUser(s: Slot<User>): (r: Result<Option<User>, LoadError>)
    ensures r == Ok(None) <==> s.Missing?
    ensures s.Saved? ==> r == Ok(Some(s.value))
    ensures r.Err? <==> s.Unparsable?
  {
    match s
    case Missing => Ok(None)
    case Unparsable => Err(UserUnparsable)
    case Saved(u) => Ok(Some(u))
  }
}
