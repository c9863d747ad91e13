// What the models share: the optional value, the answer of a store, and one law of sequences.
module Prelude {
  datatype Option<T> = None | Some(value: T)

  /** What became of a write to a store: it was saved; it failed; or it was saved and an error came back. */
  datatype Stored = Saved | Rejected | Unconfirmed {
    /** Did it take effect? */
    predicate Applied() {
      !Rejected?
    }

    /** Did the caller see no error? */
    predicate Ok() {
      Saved?
    }
  }

  lemma Assoc<T>(a: seq<T>, b: seq<T>, c: seq<T>)
    ensures a + (b + c) == a + b + c
  {
  }
}
