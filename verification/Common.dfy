/** What several of the modules need. */
module Common {

  datatype Option<T> = None | Some(value: T)

  /** How much a case that holds adds to a count. */
  ghost function One(b: bool): (n: nat) {
    if b then 1 else 0
  }

  lemma Assoc<T>(a: seq<T>, b: seq<T>, c: seq<T>)
    ensures (a + b) + c == a + (b + c)
  {
  }
}
