/** Results that may be missing. */
module Options {
  datatype Option<T> = None | Some(value: T)

  /** The elements before those that follow, if these exist. */
  ghost function Prepended<T>(front: seq<T>, rest: Option<seq<T>>): Option<seq<T>> {
    match rest
    case None => None
    case Some(elements) => Some(front + elements)
  }

  lemma NothingPrepended<T>(rest: Option<seq<T>>)
    ensures Prepended([], rest) == rest
  {
    if rest.Some? {
      assert [] + rest.value == rest.value;
    }
  }

  lemma PrependedTwice<T>(front: seq<T>, element: T, rest: Option<seq<T>>)
    ensures Prepended(front, Prepended([element], rest)) == Prepended(front + [element], rest)
  {
    if rest.Some? {
      assert front + ([element] + rest.value) == front + [element] + rest.value;
    }
  }
}
