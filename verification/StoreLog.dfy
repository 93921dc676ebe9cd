/** The stores a multiplication routine makes, one after the other. */
module StoreLog {
  /** One store of the routine: entry `at` of the memory is increased. */
  datatype Store = Store(at: nat, amount: real)

  function Played(m: seq<real>, stores: seq<Store>): (r: seq<real>)
    ensures |r| == |m|
  {
    if stores == [] then m
    else
      var before, s := Played(m, stores[..|stores| - 1]), stores[|stores| - 1];
      if s.at < |m| then before[s.at := before[s.at] + s.amount] else before
  }

  /** A thread owns the entries lo..hi of the vector, which are its rows, and the first `lo`
      entries of its local buffer, which starts behind the n entries of the vector. */
  predicate Owned(at: nat, lo: nat, hi: nat, n: nat) { lo <= at < hi || n <= at < n + lo }

  /** The stores made so far, all of them to entries the thread owns.  The program has no such
      record. */
  class Log {
    ghost const start: seq<real>
    ghost const lo: nat
    ghost const hi: nat
    ghost const n: nat
    ghost var stores: seq<Store>

    ghost predicate Shows(now: seq<real>)
      reads this
    {
      && now == Played(start, stores)
      && forall k :: 0 <= k < |stores| ==> Owned(stores[k].at, lo, hi, n) && stores[k].at < |start|
    }

    ghost constructor (start: seq<real>, lo: nat, hi: nat, n: nat)
      ensures this.start == start && this.lo == lo && this.hi == hi && this.n == n && stores == [] && Shows(start)
    {
      this.start, this.lo, this.hi, this.n, stores := start, lo, hi, n, [];
    }

    ghost method Record(at: nat, amount: real, now: seq<real>)
      requires Shows(now) && Owned(at, lo, hi, n) && at < |now|
      modifies this
      ensures Shows(now[at := now[at] + amount])
    {
      ghost var more := stores + [Store(at, amount)];
      assert more[..|more| - 1] == stores;
      stores := more;
    }
  }

  /** What the stores add to entry `at`. */
  function Amount(stores: seq<Store>, at: nat): real {
    if stores == [] then 0.0
    else Amount(stores[..|stores| - 1], at) + if stores[|stores| - 1].at == at then stores[|stores| - 1].amount else 0.0
  }

  lemma {:induction false} PlayedAt(m: seq<real>, stores: seq<Store>, at: nat)
    requires at < |m|
    ensures Played(m, stores)[at] == m[at] + Amount(stores, at)
  {
    if stores != [] {
      PlayedAt(m, stores[..|stores| - 1], at);
    }
  }
}
