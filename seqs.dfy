/** Facts about sequences that several modules need. */
module Seqs {
  /** Concatenation is associative; stated for sequences given as variables, where the solver needs it spelled out. */
  lemma AppendAssoc<T>(a: seq<T>, b: seq<T>, c: seq<T>)
    ensures a + b + c == a + (b + c)
  {
  }

  /** `f` applied to every item, in order. */
  function MapSeq<A, B>(f: A -> B, xs: seq<A>): seq<B> {
    seq(|xs|, i requires 0 <= i < |xs| => f(xs[i]))
  }

  /** Mapping a sequence with one more item in front puts its image in front. */
  lemma MapSeqCons<A, B>(f: A -> B, x: A, rest: seq<A>)
    ensures MapSeq(f, [x] + rest) == [f(x)] + MapSeq(f, rest)
  {
    var l := [x] + rest;
    assert forall i :: 0 < i < |l| ==> l[i] == rest[i - 1];
  }
}
