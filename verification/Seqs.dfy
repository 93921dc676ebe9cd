/** Small facts about sequences that several modules need. */
module Seqs {

  /** Removing one occurrence of the head from a permutation leaves a permutation of the tail. */
  lemma {:induction false} RemoveHead<T>(a: seq<T>, b: seq<T>) returns (i: nat)
    requires a != [] && multiset(a) == multiset(b)
    ensures i < |b| && b[i] == a[0]
    ensures b == b[..i] + ([b[i]] + b[i+1..])
    ensures multiset(a[1..]) == multiset(b[..i] + b[i+1..])
  {
    assert a[0] in multiset(b);
    i :| 0 <= i < |b| && b[i] == a[0];
    assert a == [a[0]] + a[1..];
    assert b == b[..i] + ([b[i]] + b[i+1..]);
    assert multiset(b[..i] + b[i+1..]) == multiset(b[..i]) + multiset(b[i+1..]);
    calc {
      multiset(a[1..]) + multiset{a[0]};
      multiset(a);
      multiset(b);
      multiset(b[..i]) + multiset([b[i]] + b[i+1..]);
      multiset(b[..i] + b[i+1..]) + multiset{a[0]};
    }
    assert multiset(a[1..]) == multiset(a[1..]) + multiset{a[0]} - multiset{a[0]};
    assert multiset(b[..i] + b[i+1..]) == multiset(b[..i] + b[i+1..]) + multiset{a[0]} - multiset{a[0]};
  }
}
