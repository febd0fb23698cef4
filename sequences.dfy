/** Facts about sequences shared by the string and list models. */
module Sequences {

  /** Concatenation is associative. */
  lemma ConcatAssoc<T>(p: seq<T>, q: seq<T>, r: seq<T>)
    ensures (p + q) + r == p + (q + r)
  {
  }
}
