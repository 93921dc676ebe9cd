/** Scaling and multiplying as steps of a thread. */
module ThreadSteps {
  import opened Cells
  import opened Interleaving
  import opened StoreLog

  /** VecScalePart. */
  function ScaleOps(lo: nat, hi: nat, beta: real): (ops: seq<Op>)
    requires lo <= hi
    ensures |ops| == hi - lo
  {
    seq(hi - lo, k requires 0 <= k < hi - lo => Scale(Addr(0, lo + k), beta))
  }

  /** Where entry `at` of the memory of thread `id` is: the vector, then its local buffer. */
  function AddrOf(id: nat, n: nat, at: nat): Addr { if at < n then Addr(0, at) else Addr(id, at - n) }

  function StoreOp(id: nat, n: nat, s: Store): Op { Add(AddrOf(id, n, s.at), s.amount) }

  /** The stores of the generated routine. */
  function StoreOps(id: nat, n: nat, stores: seq<Store>): (ops: seq<Op>)
    ensures |ops| == |stores|
  {
    seq(|stores|, k requires 0 <= k < |stores| => StoreOp(id, n, stores[k]))
  }

  lemma {:induction false} StoresAlone(m: Memory, id: nat, n: nat, stores: seq<Store>, at: nat)
    requires Has(m, AddrOf(id, n, at))
    requires id == 0 ==> at < n && forall k :: 0 <= k < |stores| ==> stores[k].at < n
    ensures At(Alone(m, StoreOps(id, n, stores)), AddrOf(id, n, at)) == At(m, AddrOf(id, n, at)) + Amount(stores, at)
    decreases |stores|
  {
    if stores != [] {
      hide At, Has, NewValue, Exec;
      var k, a := |stores| - 1, AddrOf(id, n, at);
      var ops := StoreOps(id, n, stores);
      assert ops[..k] == StoreOps(id, n, stores[..k]);
      StoresAlone(m, id, n, stores[..k], at);
      AloneHas(m, ops[..k], a);
      AtExec(Alone(m, ops[..k]), ops[k], a);
      AddValue(Alone(m, ops[..k]), ops[k]);
    }
  }

  lemma {:induction false} AddValue(m: Memory, op: Op)
    requires op.Add?
    ensures NewValue(m, op) == At(m, op.at) + op.value
  {
  }

  lemma {:induction false} ScaleAlone(m: Memory, lo: nat, hi: nat, beta: real, a: Addr)
    requires lo <= hi && Has(m, a)
    ensures At(Alone(m, ScaleOps(lo, hi, beta)), a)
         == if a.vec == 0 && lo <= a.pos < hi then Prod(At(m, a), beta) else At(m, a)
    decreases hi
  {
    if lo < hi {
      hide At, Has, NewValue, Exec;
      var ops := ScaleOps(lo, hi, beta);
      assert ops[..|ops| - 1] == ScaleOps(lo, hi - 1, beta);
      ScaleAlone(m, lo, hi - 1, beta, a);
      AloneHas(m, ops[..|ops| - 1], a);
      AtExec(Alone(m, ops[..|ops| - 1]), ops[|ops| - 1], a);
      ScaleValue(Alone(m, ops[..|ops| - 1]), ops[|ops| - 1]);
    }
  }

  lemma {:induction false} ScaleValue(m: Memory, op: Op)
    requires op.Scale?
    ensures NewValue(m, op) == Prod(At(m, op.at), op.value)
  {
  }

  lemma {:induction false} ScaledOrNot(m: Memory, lo: nat, hi: nat, beta: real, a: Addr)
    requires lo <= hi && Has(m, a)
    ensures At(Alone(m, if beta == 1.0 then [] else ScaleOps(lo, hi, beta)), a)
         == if a.vec == 0 && lo <= a.pos < hi then Prod(At(m, a), beta) else At(m, a)
  {
    hide At, Has, ScaleOps;
    if beta != 1.0 {
      ScaleAlone(m, lo, hi, beta, a);
    } else {
      assert Prod(At(m, a), 1.0) == At(m, a);
    }
  }

  // ----- A thread with rows of its own -----

  /** Scaling the rows lo + 1..hi, then the stores of the routine. */
  function RowOps(lo: nat, hi: nat, n: nat, beta: real, stores: seq<Store>): seq<Op>
    requires lo <= hi
  {
    (if beta == 1.0 then [] else ScaleOps(lo, hi, beta)) + StoreOps(0, n, stores)
  }

  /** The stores go to the rows lo + 1..hi, and add up to the product with the cells. */
  ghost predicate RowStores(stores: seq<Store>, lo: nat, hi: nat, n: nat, cells: seq<Cell>, x: seq<real>, alpha: real) {
    && ColsWithin(cells, |x|)
    && (forall k :: 0 <= k < |stores| ==> lo <= stores[k].at < hi)
    && (forall at: nat :: at < n ==> Amount(stores, at) == Dot(cells, at + 1, x, alpha))
  }

  lemma {:induction false} RowAlone(m: Memory, lo: nat, hi: nat, n: nat, beta: real, stores: seq<Store>, r: nat)
    requires lo <= hi <= n && Has(m, Addr(0, r)) && r < n && forall k :: 0 <= k < |stores| ==> stores[k].at < n
    ensures At(Alone(m, RowOps(lo, hi, n, beta, stores)), Addr(0, r))
         == (if lo <= r < hi then Prod(At(m, Addr(0, r)), beta) else At(m, Addr(0, r))) + Amount(stores, r)
  {
    hide At, Has, Alone, ScaleOps, StoreOps, Amount;
    var scale := if beta == 1.0 then [] else ScaleOps(lo, hi, beta);
    AloneConcat(m, scale, StoreOps(0, n, stores));
    AloneHas(m, scale, Addr(0, r));
    ScaledOrNot(m, lo, hi, beta, Addr(0, r));
    StoresAlone(Alone(m, scale), 0, n, stores, r);
  }

  /** A thread touches its own rows only. */
  lemma {:induction false} RowOpsTouch(lo: nat, hi: nat, n: nat, beta: real, stores: seq<Store>, a: Addr)
    requires lo <= hi <= n && forall k :: 0 <= k < |stores| ==> lo <= stores[k].at < hi
    ensures TouchedBy(RowOps(lo, hi, n, beta, stores), a) ==> a.vec == 0 && lo <= a.pos < hi
    ensures WrittenBy(RowOps(lo, hi, n, beta, stores), a) ==> a.vec == 0 && lo <= a.pos < hi
  {
  }

  lemma {:induction false} AloneSize(m: Memory, ops: seq<Op>)
    ensures |Alone(m, ops)| == |m| && forall i :: 0 <= i < |m| ==> |Alone(m, ops)[i]| == |m[i]|
  {
    if ops != [] {
      AloneSize(m, ops[..|ops| - 1]);
    }
  }

  /** What the thread leaves of a vector. */
  lemma {:induction false} RowsStepped(y0: seq<real>, y1: seq<real>, lo: nat, hi: nat, beta: real, stores: seq<Store>)
    requires lo <= hi <= |y0| == |y1| && forall k :: 0 <= k < |stores| ==> stores[k].at < |y0|
    requires forall r :: 0 <= r < |y0| ==>
      y1[r] == (if lo <= r < hi then Prod(y0[r], beta) else y0[r]) + Amount(stores, r)
    ensures Alone([y0], RowOps(lo, hi, |y0|, beta, stores)) == [y1]
  {
    hide RowOps, Alone, Amount, Prod;
    var m := Alone([y0], RowOps(lo, hi, |y0|, beta, stores));
    AloneSize([y0], RowOps(lo, hi, |y0|, beta, stores));
    forall r | 0 <= r < |y0| ensures m[0][r] == y1[r] {
      RowAlone([y0], lo, hi, |y0|, beta, stores, r);
      assert At(m, Addr(0, r)) == m[0][r] && At([y0], Addr(0, r)) == y0[r];
    }
    assert m[0] == y1;
  }
}
