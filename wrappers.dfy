/** The usual optional-value datatype, and a fact about sequences that loops use. */
module Wrappers {
  datatype Option<+T> = None | Some(value: T)

  /** Concatenation is associative; the loops that build a sequence piece by piece rely on it. */
  lemma AppendAssoc<T>(a: seq<T>, b: seq<T>, c: seq<T>)
    ensures a + (b + c) == (a + b) + c
  {
  }

  /** The head and tail of a concatenation whose first part is not empty. */
  lemma ConsParts<T>(a: seq<T>, b: seq<T>)
    requires a != []
    ensures (a + b)[0] == a[0] && (a + b)[1..] == a[1..] + b
  { }

  /** The two parts of a sequence with one element appended. */
  lemma SnocParts<T>(a: seq<T>, x: T)
    ensures (a + [x])[..|a|] == a && (a + [x])[|a|] == x
  {
  }
}
