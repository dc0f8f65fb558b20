/** Facts about sequences that hold whatever they hold: text, lines,
    records or chart points. */
module Seqs {
  lemma AppendAssoc<T>(x: seq<T>, y: seq<T>, z: seq<T>)
    ensures x + (y + z) == (x + y) + z
  {
  }

  lemma DropAppend<T>(x: seq<T>, y: seq<T>, k: nat)
    requires k <= |y|
    ensures (x + y)[|x| + k..] == y[k..]
  {
  }

  /** An element taken out of the middle of a sequence leaves the multiset
      less that one element. */
  lemma MultisetMiddle<T>(front: seq<T>, x: T, back: seq<T>)
    ensures multiset(front + [x] + back) == multiset(front + back) + multiset{x}
  {
    calc {
      multiset(front + [x] + back);
      multiset(front) + multiset{x} + multiset(back);
      multiset(front + back) + multiset{x};
    }
  }

  /** The same element added to two multisets can be cancelled. */
  lemma MultisetCancel<T>(a: multiset<T>, b: multiset<T>, x: T)
    requires a + multiset{x} == b + multiset{x}
    ensures a == b
  {
    assert a == a + multiset{x} - multiset{x};
    assert b == b + multiset{x} - multiset{x};
  }
}
