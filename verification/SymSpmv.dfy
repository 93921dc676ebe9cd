/** The job of one thread in a symmetric product, part by part. */
module SymSpmv {
  import opened Cells
  import opened Units
  import opened Sides
  import Kernels
  import opened CsxSpmv
  import opened SymKernels
  import opened Interleaving
  import I = Interleaving
  import opened ReductionMap
  import opened StoreLog
  import opened SymPhases
  import opened ThreadSteps
  import Seqs

  // ----- The vectors -----

  function Contents(bufs: seq<array<real>>): (m: Memory)
    reads bufs
    ensures |m| == |bufs| && forall i :: 0 <= i < |bufs| ==> m[i] == bufs[i][..]
  {
    if bufs == [] then [] else Contents(bufs[..|bufs| - 1]) + [bufs[|bufs| - 1][..]]
  }

  /** The vector and the local buffers; buffer 0 is the vector itself. */
  predicate Buffers(bufs: seq<array<real>>, n: nat) {
    && |bufs| >= 1
    && (forall i :: 0 <= i < |bufs| ==> bufs[i].Length == n)
    && (forall i, j :: 0 <= i < j < |bufs| ==> bufs[i] != bufs[j])
  }

  /** bufs[i][p] = v */
  method Write(bufs: seq<array<real>>, ghost n: nat, i: nat, p: nat, v: real)
    requires Buffers(bufs, n) && i < |bufs| && p < n
    modifies bufs[i]
    ensures Contents(bufs) == Put(old(Contents(bufs)), Addr(i, p), v)
  {
    ghost var was := Contents(bufs);
    bufs[i][p] := v;
    forall k | 0 <= k < |bufs| ensures Contents(bufs)[k] == Put(was, Addr(i, p), v)[k] {
      if k == i {
        assert bufs[i][..] == was[i][p := v];
      } else {
        assert bufs[k] != bufs[i];
      }
    }
    assert Contents(bufs) == Put(was, Addr(i, p), v);
  }

  // ----- Parts 1 and 3 -----

  /** The entries of the map are entries of the buffers. */
  predicate MapInside(m: Map, nbufs: nat, n: nat) {
    MapOk(m) && forall k :: 0 <= k < |m.cpus| ==> m.cpus[k] < nbufs && m.pos[k] < n
  }

  method VecInitFromMap(bufs: seq<array<real>>, val: real, m: Map, ghost n: nat)
    requires Buffers(bufs, n) && MapInside(m, |bufs|, n)
    modifies bufs
    ensures Contents(bufs) == Alone(old(Contents(bufs)), InitOps(m, val))
  {
    hide Put, Contents;
    ghost var was, ops := Contents(bufs), InitOps(m, val);
    var i := 0;
    while i < |m.cpus|
      invariant i <= |m.cpus|
      invariant Contents(bufs) == Alone(was, ops[..i])
    {
      AloneNext(was, ops, i);
      Write(bufs, n, m.cpus[i], m.pos[i], val);
      i := i + 1;
    }
    assert ops[..i] == ops;
  }

  /** The vector is both the sum and the first summand. */
  method VecAddFromMap(bufs: seq<array<real>>, m: Map, ghost n: nat)
    requires Buffers(bufs, n) && MapInside(m, |bufs|, n)
    modifies bufs
    ensures Contents(bufs) == Alone(old(Contents(bufs)), GatherOps(m))
  {
    hide Put, Contents;
    ghost var was, ops := Contents(bufs), GatherOps(m);
    var i := 0;
    while i < |m.cpus|
      invariant i <= |m.cpus|
      invariant Contents(bufs) == Alone(was, ops[..i])
    {
      AloneNext(was, ops, i);
      ValueAt(bufs, n, 0, m.pos[i]);
      ValueAt(bufs, n, m.cpus[i], m.pos[i]);
      Write(bufs, n, 0, m.pos[i], bufs[0][m.pos[i]] + bufs[m.cpus[i]][m.pos[i]]);
      i := i + 1;
    }
    assert ops[..i] == ops;
  }

  lemma {:induction false} ValueAt(bufs: seq<array<real>>, n: nat, i: nat, p: nat)
    requires Buffers(bufs, n) && i < |bufs| && p < n
    ensures I.At(Contents(bufs), Addr(i, p)) == bufs[i][p]
  {
  }

  // ----- Part 2 -----

  /** The memory of the generated routine. */
  function MemOf(m: Memory, id: nat): seq<real>
    requires id < |m|
  {
    m[0] + if id == 0 then [] else m[id]
  }

  predicate Shape(m: Memory, id: nat, n: nat) { id < |m| && |m[0]| == |m[id]| == n }

  lemma {:induction false} StoresContents(m: Memory, id: nat, n: nat, stores: seq<Store>, lo: nat, hi: nat)
    requires Shape(m, id, n) && lo <= hi <= n && (id == 0 ==> lo == 0)
    requires forall k :: 0 <= k < |stores| ==> Owned(stores[k].at, lo, hi, n)
    ensures var r := Alone(m, StoreOps(id, n, stores));
            && Shape(r, id, n) && |r| == |m| && MemOf(r, id) == Played(MemOf(m, id), stores)
            && forall i :: 0 < i < |m| && i != id ==> r[i] == m[i]
    decreases |stores|
  {
    if stores == [] {
    } else {
      var k, ops := |stores| - 1, StoreOps(id, n, stores);
      assert ops[..k] == StoreOps(id, n, stores[..k]);
      StoresContents(m, id, n, stores[..k], lo, hi);
      StoreContents(Alone(m, ops[..k]), id, n, stores[k], lo, hi);
    }
  }

  lemma {:induction false} StoreContents(m: Memory, id: nat, n: nat, s: Store, lo: nat, hi: nat)
    requires Shape(m, id, n) && lo <= hi <= n && (id == 0 ==> lo == 0) && Owned(s.at, lo, hi, n)
    ensures var r := Exec(m, StoreOp(id, n, s));
            && Shape(r, id, n) && |r| == |m| && s.at < |MemOf(m, id)|
            && MemOf(r, id) == MemOf(m, id)[s.at := MemOf(m, id)[s.at] + s.amount]
            && forall i :: 0 < i < |m| && i != id ==> r[i] == m[i]
  {
  }

  lemma {:induction false} MemoryFrom(a: Memory, b: Memory, id: nat, n: nat)
    requires Shape(a, id, n) && Shape(b, id, n) && |a| == |b| && MemOf(a, id) == MemOf(b, id)
    requires forall i :: 0 < i < |a| && i != id ==> a[i] == b[i]
    ensures a == b
  {
    assert a[0] == MemOf(a, id)[..n] == b[0];
    if id > 0 {
      assert a[id] == MemOf(a, id)[n..] == b[id];
    }
  }

  lemma {:induction false} ScaledContents(m: Memory, r: Memory, lo: nat, hi: nat, beta: real, n: nat)
    requires |m| == |r| >= 1 && |r[0]| == |m[0]| == n && lo <= hi <= n
    requires forall i :: 0 < i < |m| ==> r[i] == m[i]
    requires forall i :: 0 <= i < n ==> r[0][i] == if lo <= i < hi then Prod(m[0][i], beta) else m[0][i]
    ensures r == Alone(m, ScaleOps(lo, hi, beta))
  {
    hide Prod;
    var s := Alone(m, ScaleOps(lo, hi, beta));
    AloneShape(m, ScaleOps(lo, hi, beta));
    forall i, p | 0 <= i < |m| && 0 <= p < |m[i]| ensures s[i][p] == r[i][p] {
      AloneHas(m, ScaleOps(lo, hi, beta), Addr(i, p));
      ScaleAlone(m, lo, hi, beta, Addr(i, p));
    }
    forall i | 0 <= i < |m| ensures s[i] == r[i] {
    }
  }

  lemma {:induction false} AloneShape(m: Memory, ops: seq<Op>)
    ensures |Alone(m, ops)| == |m| && forall i :: 0 <= i < |m| ==> |Alone(m, ops)[i]| == |m[i]|
  {
    if ops != [] {
      AloneShape(m, ops[..|ops| - 1]);
    }
  }

  // ----- What the stores add up to -----

  lemma {:induction false} PairsPermuted(a: seq<Cell>, b: seq<Cell>, rs: nat, n: nat)
    requires multiset(a) == multiset(b)
    ensures multiset(AllPairs(a, rs, n)) == multiset(AllPairs(b, rs, n))
  {
    hide AllPairs;
    if a == [] {
      assert |multiset(b)| == 0;
      assert b == [];
    } else {
      var i := Seqs.RemoveHead(a, b);
      var front, back, one := b[..i], b[i + 1..], [a[0]];
      PairsPermuted(a[1..], front + back, rs, n);
      assert a == one + a[1..] && b == front + one + back;
      AllPairsConcat(one, a[1..], rs, n);
      AllPairsConcat(front, back, rs, n);
      AllPairsConcat(front, one, rs, n);
      AllPairsConcat(front + one, back, rs, n);
    }
  }

  lemma {:induction false} SameKernelDot(a: Thread, b: Thread, n: nat, row: int, x: seq<real>, alpha: real)
    requires multiset(a.cells) == multiset(b.cells) && a.rs == b.rs && a.dvals == b.dvals
    requires ColsWithin(KernelCells(a, n), |x|)
    ensures KernelDot(a, n, row, x, alpha) == KernelDot(b, n, row, x, alpha)
  {
    hide AllPairs, DiagFrom, ColsWithin, Dot;
    PairsPermuted(a.cells, b.cells, a.rs, n);
    DotPermuted(KernelCells(a, n), KernelCells(b, n), row, x, alpha);
  }

  /** The same share, with the cells in another order. */
  predicate Reordered(a: Thread, b: Thread) {
    multiset(a.cells) == multiset(b.cells) && a.rs == b.rs && a.dvals == b.dvals
  }

  lemma {:induction false} AmountIs(before: seq<real>, now: seq<real>, stores: seq<Store>, run: Thread, t: Thread,
                                    n: nat, x: seq<real>, alpha: real, at: nat)
    requires now == Played(before, stores) && at < |before|
    requires Kernels.AddsProduct(before, now, KernelCells(run, n), x, alpha)
    requires Reordered(run, t)
    ensures Amount(stores, at) == KernelDot(t, n, at + 1, x, alpha)
  {
    hide KernelCells, Amount, Dot, Kernels.AddsProduct, Played, KernelDot;
    PlayedAt(before, stores, at);
    AddedAt(before, now, run, n, at, x, alpha);
    SameKernelDot(run, t, n, at + 1, x, alpha);
  }

  /** The effect of the routine, read off its stores. */
  lemma {:induction false} StoresAddUp(before: seq<real>, now: seq<real>, stores: seq<Store>, id: nat, run: Thread,
                                       t: Thread, n: nat, x: seq<real>, alpha: real)
    requires |before| == MemSize(id, n) && now == Played(before, stores) && (id == 0 ==> t.rs == 0)
    requires forall k :: 0 <= k < |stores| ==> Owned(stores[k].at, t.rs, t.rs + t.nrows, n)
    requires Kernels.AddsProduct(before, now, KernelCells(run, n), x, alpha)
    requires Reordered(run, t)
    ensures StoresOf(stores, id, t, n, x, alpha)
  {
    hide KernelCells, Amount, Owned, Kernels.AddsProduct, Played, KernelDot, Reordered;
    forall at: nat | at < MemSize(id, n) ensures Amount(stores, at) == KernelDot(t, n, at + 1, x, alpha) {
      AmountIs(before, now, stores, run, t, n, x, alpha, at);
    }
  }

  lemma {:induction false} AddedAt(before: seq<real>, now: seq<real>, run: Thread, n: nat, at: nat, x: seq<real>,
                                   alpha: real)
    requires Kernels.AddsProduct(before, now, KernelCells(run, n), x, alpha) && at < |before|
    ensures |now| == |before| && ColsWithin(KernelCells(run, n), |x|)
    ensures now[at] == before[at] + KernelDot(run, n, at + 1, x, alpha)
  {
    hide KernelCells, Dot;
    assert now[at + 1 - 1] == before[at + 1 - 1] + Dot(KernelCells(run, n), at + 1, x, alpha);
  }

  /** The partition that `t` stands for has been compiled to `sm`. */
  ghost predicate Compiled(sm: CsxSym, us: seq<Unit>, lower: seq<Cell>, t: Thread) {
    && Encodes(sm.lower, us) && us != []
    && multiset(Run(us, ORIGIN, sm.lower.values, sm.lower.full)) == multiset(lower)
    && Sided(us, ORIGIN, sm.lower.values, sm.lower.full, sm.lower.rowStart, false)
    && t == Thread(sm.lower.rowStart, sm.lower.nrows, Shifted(lower, sm.lower.rowStart), sm.dvalues)
  }

  /** Cells of a partition that starts behind row `rs`, below the diagonal of the matrix. */
  predicate BelowDiagonal(cs: seq<Cell>, rs: nat) { forall i :: 0 <= i < |cs| ==> 1 <= cs[i].col < cs[i].row + rs }

  /** What building a partition gives is what its thread needs, if it has cells below the
      diagonal at all. */
  lemma {:induction false} BuiltThread(sm: CsxSym, us: seq<Unit>, lower: seq<Cell>, t: Thread, n: nat)
    requires Encodes(sm.lower, us) && lower != []
    requires multiset(Run(us, ORIGIN, sm.lower.values, sm.lower.full)) == multiset(lower)
    requires Sided(us, ORIGIN, sm.lower.values, sm.lower.full, sm.lower.rowStart, false)
    requires BelowDiagonal(lower, sm.lower.rowStart) && RowsWithin(lower, 1, sm.lower.nrows)
    requires |sm.dvalues| == sm.lower.nrows && sm.lower.rowStart + sm.lower.nrows <= n
    requires t == Thread(sm.lower.rowStart, sm.lower.nrows, Shifted(lower, sm.lower.rowStart), sm.dvalues)
    ensures Compiled(sm, us, lower, t) && ThreadOk(t, n)
  {
    hide Run, Encodes, Sided;
    SomeUnits(sm.lower, us, lower);
    SomeRows(lower, sm.lower.nrows);
  }

  lemma {:induction false} CompiledFacts(sm: CsxSym, us: seq<Unit>, lower: seq<Cell>, t: Thread, n: nat)
    requires Compiled(sm, us, lower, t) && ThreadOk(t, n)
    ensures var m, p := sm.lower, Pos(sm.lower.rowStart + 1, 0);
            && Encodes(m, us) && us != [] && AllWellFormed(us, m.full) && |m.values| == NrValues(us)
            && multiset(Run(us, p, m.values, m.full)) == multiset(t.cells)
            && Within(Run(us, p, m.values, m.full), t.rs, t.rs + t.nrows)
            && Sided(us, p, m.values, m.full, m.rowStart, false)
            && t.rs == m.rowStart && t.nrows == m.nrows == |sm.dvalues| && t.dvals == sm.dvalues
  {
    hide Run, AllWellFormed, Bytes, Shifted, Sided, NrValues;
    var m, p := sm.lower, Pos(sm.lower.rowStart + 1, 0);
    Kernels.EncodesFacts(m, us);
    RunShift(us, ORIGIN, m.rowStart, m.values, m.full);
    ShiftedPermuted(Run(us, ORIGIN, m.values, m.full), lower, m.rowStart);
    InsidePermuted(t.cells, Run(us, p, m.values, m.full), t.rs + 1, t.rs + t.nrows, t.rs + t.nrows);
    SidedShift(us, ORIGIN, p, m.values, m.full, m.rowStart, false);
  }

  lemma {:induction false} CompiledSizes(sm: CsxSym, us: seq<Unit>, lower: seq<Cell>, t: Thread)
    requires Compiled(sm, us, lower, t)
    ensures t.rs == sm.lower.rowStart && t.nrows == sm.lower.nrows
  {
  }

  /** Scales the rows of the thread. */
  method ScalePart(bufs: seq<array<real>>, start: nat, end: nat, beta: real, ghost n: nat)
    requires Buffers(bufs, n) && start <= end <= n
    modifies bufs[0]
    ensures Contents(bufs) == Alone(old(Contents(bufs)), if beta == 1.0 then [] else ScaleOps(start, end, beta))
  {
    hide ScaleOps, Alone;
    ghost var was := Contents(bufs);
    if beta != 1.0 {
      VecScalePart(bufs[0], beta, start, end);
      forall i | 0 < i < |bufs| ensures bufs[i][..] == was[i] {
        assert bufs[i] != bufs[0];
      }
      ScaledContents(was, Contents(bufs), start, end, beta, n);
    }
    AloneNothing(was);
  }

  /** Runs the generated routine; it says which stores that takes. */
  method RoutinePart(sm: CsxSym, id: nat, bufs: seq<array<real>>, x: seq<real>, alpha: real, ghost us: seq<Unit>,
                     ghost lower: seq<Cell>, ghost t: Thread, ghost n: nat)
    returns (ghost stores: seq<Store>)
    requires Buffers(bufs, n) && id < |bufs| && |x| == n
    requires Compiled(sm, us, lower, t) && ThreadOk(t, n) && (id == 0 ==> t.rs == 0)
    modifies bufs[0], bufs[id]
    ensures StoresOf(stores, id, t, n, x, alpha)
    ensures Contents(bufs) == Alone(old(Contents(bufs)), StoreOps(id, n, stores))
  {
    hide Compiled, Run, Within, StoreOps, Alone, AllPairs, DiagFrom, StoresOf, Kernels.AddsProduct, Encodes, Sided,
         Played, Mem, MemOf;
    CompiledFacts(sm, us, lower, t, n);
    ghost var was, before := Contents(bufs), Mem(bufs[0], bufs[id]);
    ghost var log := new Log(before, t.rs, t.rs + t.nrows, n);
    MemIs(bufs, n, id);
    SpmCsxSymMultiply(sm, x, bufs[0], bufs[id], alpha, us, log);
    stores := log.stores;
    forall i | 0 < i < |bufs| && i != id ensures bufs[i][..] == was[i] {
      assert bufs[i] != bufs[0] && bufs[i] != bufs[id];
    }
    MemIs(bufs, n, id);
    LogFacts(log, Mem(bufs[0], bufs[id]));
    StoresContents(was, id, n, stores, t.rs, t.rs + t.nrows);
    MemoryFrom(Alone(was, StoreOps(id, n, stores)), Contents(bufs), id, n);
    ghost var run := Thread(t.rs, t.nrows, Run(us, Pos(t.rs + 1, 0), sm.lower.values, sm.lower.full), t.dvals);
    StoresAddUp(before, Mem(bufs[0], bufs[id]), stores, id, run, t, n, x, alpha);
  }

  /** Part 2 of the job. */
  method MultiplyPart(sm: CsxSym, id: nat, bufs: seq<array<real>>, x: seq<real>, alpha: real, beta: real,
                      ghost us: seq<Unit>, ghost lower: seq<Cell>, ghost t: Thread, ghost n: nat)
    returns (ghost stores: seq<Store>)
    requires Buffers(bufs, n) && id < |bufs| && |x| == n
    requires Compiled(sm, us, lower, t) && ThreadOk(t, n) && (id == 0 ==> t.rs == 0)
    modifies bufs
    ensures StoresOf(stores, id, t, n, x, alpha)
    ensures Contents(bufs) == Alone(old(Contents(bufs)), KernelOps(t, id, n, beta, stores))
  {
    hide Compiled, StoreOps, ScaleOps, Alone, StoresOf, Contents, Within;
    CompiledSizes(sm, us, lower, t);
    ghost var was := Contents(bufs);
    ghost var scale := if beta == 1.0 then [] else ScaleOps(t.rs, t.rs + t.nrows, beta);
    ScalePart(bufs, sm.lower.rowStart, sm.lower.rowStart + sm.lower.nrows, beta, n);
    stores := RoutinePart(sm, id, bufs, x, alpha, us, lower, t, n);
    AloneConcat(was, scale, StoreOps(id, n, stores));
  }

  lemma {:induction false} AloneNothing(m: Memory)
    ensures Alone(m, []) == m
  {
  }

  lemma {:induction false} MemIs(bufs: seq<array<real>>, n: nat, id: nat)
    requires Buffers(bufs, n) && id < |bufs|
    ensures Mem(bufs[0], bufs[id]) == MemOf(Contents(bufs), id) && Shape(Contents(bufs), id, n)
    ensures |Mem(bufs[0], bufs[id])| == MemSize(id, n)
  {
  }

  lemma {:induction false} LogFacts(log: Log, now: seq<real>)
    requires log.Shows(now)
    ensures now == Played(log.start, log.stores)
    ensures forall k :: 0 <= k < |log.stores| ==> Owned(log.stores[k].at, log.lo, log.hi, log.n)
  {
  }

  // ----- All threads -----

  lemma {:induction false} MapsInside(parts: seq<Part>, maps: seq<Map>, ends: seq<nat>, n: nat, i: nat)
    requires MapsOk(parts, maps, ends, n) && PartsOk(parts, n) && i < |maps|
    ensures MapInside(maps[i], |parts|, n)
  {
    hide EntriesIn, Marked, PartsOk;
    var es := EntriesIn(parts, ends[i], ends[i + 1]);
    MapsMapOk(parts, maps, ends, n);
    assert MapIs(maps[i], es);
    forall k | 0 <= k < |maps[i].cpus| ensures maps[i].cpus[k] < |parts| && maps[i].pos[k] < n {
      MapEntry(maps[i], es, k);
      EntriesAre(parts, ends[i], ends[i + 1], es[k]);
      MarkedBound(parts, es[k].0, es[k].1 + 1);
      LastEnd(parts, maps, ends, n, i);
    }
  }

  /** Part 1 of all threads. */
  method ClearAll(maps: seq<Map>, bufs: seq<array<real>>, ghost n: nat)
    requires Buffers(bufs, n) && forall i :: 0 <= i < |maps| ==> MapOk(maps[i]) && MapInside(maps[i], |bufs|, n)
    modifies bufs
    ensures Contents(bufs) == Folded(old(Contents(bufs)), ClearProgs(maps))
  {
    hide Contents, Alone, ClearOps, InitOps;
    ghost var was, progs := Contents(bufs), ClearProgs(maps);
    var i := 0;
    while i < |maps|
      invariant i <= |maps|
      invariant Contents(bufs) == Folded(was, progs[..i])
    {
      FoldedNext(was, progs, i);
      ClearIsInit(maps[i]);
      VecInitFromMap(bufs, 0.0, maps[i], n);
      i := i + 1;
    }
    assert progs[..i] == progs;
  }

  lemma {:induction false} ClearIsInit(m: Map)
    requires MapOk(m)
    ensures ClearOps(m) == InitOps(m, 0.0)
  {
  }

  /** Part 3 of all threads. */
  method GatherAll(maps: seq<Map>, bufs: seq<array<real>>, ghost n: nat)
    requires Buffers(bufs, n) && forall i :: 0 <= i < |maps| ==> MapOk(maps[i]) && MapInside(maps[i], |bufs|, n)
    modifies bufs
    ensures Contents(bufs) == Folded(old(Contents(bufs)), GatherProgs(maps))
  {
    hide Contents, Alone, GatherOps;
    ghost var was, progs := Contents(bufs), GatherProgs(maps);
    var i := 0;
    while i < |maps|
      invariant i <= |maps|
      invariant Contents(bufs) == Folded(was, progs[..i])
    {
      FoldedNext(was, progs, i);
      VecAddFromMap(bufs, maps[i], n);
      i := i + 1;
    }
    assert progs[..i] == progs;
  }

  /** What is known of the threads of a matrix. */
  ghost predicate AllCompiled(sms: seq<CsxSym>, uss: seq<seq<Unit>>, lowers: seq<seq<Cell>>, ts: seq<Thread>) {
    && |sms| == |uss| == |lowers| == |ts|
    && forall i :: 0 <= i < |sms| ==> Compiled(sms[i], uss[i], lowers[i], ts[i])
  }

  /** Part 2 of all threads. */
  method MultiplyAll(sms: seq<CsxSym>, bufs: seq<array<real>>, x: seq<real>, alpha: real, beta: real,
                     ghost uss: seq<seq<Unit>>, ghost lowers: seq<seq<Cell>>, ghost ts: seq<Thread>, ghost n: nat)
    returns (ghost stores: seq<seq<Store>>)
    requires Buffers(bufs, n) && |bufs| == |sms| && |x| == n && ThreadsOk(ts, n) && AllCompiled(sms, uss, lowers, ts)
    modifies bufs
    ensures AllStores(ts, n, stores, x, alpha)
    ensures Contents(bufs) == Folded(old(Contents(bufs)), KernelProgs(ts, n, beta, stores))
  {
    hide Contents, Alone, Compiled, KernelOps, StoresOf, ThreadOk, ThreadsOk;
    ghost var was := Contents(bufs);
    stores := [];
    var i := 0;
    while i < |sms|
      invariant i <= |sms| && |stores| == i
      invariant forall k :: 0 <= k < i ==> StoresOf(stores[k], k, ts[k], n, x, alpha)
      invariant Contents(bufs) == Folded(was, KernelProgs(ts[..i], n, beta, stores))
    {
      ThreadFacts(ts, n, i);
      ghost var more := MultiplyPart(sms[i], i, bufs, x, alpha, beta, uss[i], lowers[i], ts[i], n);
      MoreProgs(was, ts, n, beta, stores, more, i);
      stores := stores + [more];
      i := i + 1;
    }
    assert ts[..i] == ts;
  }

  lemma {:induction false} ThreadFacts(ts: seq<Thread>, n: nat, i: nat)
    requires ThreadsOk(ts, n) && i < |ts|
    ensures ThreadOk(ts[i], n) && (i == 0 ==> ts[i].rs == 0)
  {
  }

  lemma {:induction false} MoreProgs(m: Memory, ts: seq<Thread>, n: nat, beta: real, stores: seq<seq<Store>>,
                                     more: seq<Store>, i: nat)
    requires i < |ts| && |stores| == i
    ensures Folded(m, KernelProgs(ts[..i + 1], n, beta, stores + [more]))
         == Alone(Folded(m, KernelProgs(ts[..i], n, beta, stores)), KernelOps(ts[i], i, n, beta, more))
  {
    hide Alone, KernelOps;
    var progs := KernelProgs(ts[..i + 1], n, beta, stores + [more]);
    assert progs[..i] == KernelProgs(ts[..i], n, beta, stores);
  }

  lemma {:induction false} SerialProduct(m: Memory, ts: seq<Thread>, maps: seq<Map>, ends: seq<nat>, n: nat, beta: real,
                                         stores: seq<seq<Store>>, x: seq<real>, alpha: real, r: nat)
    requires ThreadsOk(ts, n) && |x| == n && MapsOk(PartsOf(ts, n), maps, ends, n)
    requires forall i :: 0 <= i < |maps| ==> MapOk(maps[i])
    requires AllStores(ts, n, stores, x, alpha) && MemoryOk(m, |ts|, n) && r < n
    ensures ColsWithin(Whole(ts), n)
    ensures I.At(Folded(Folded(Folded(m, ClearProgs(maps)), KernelProgs(ts, n, beta, stores)), GatherProgs(maps)),
                 Addr(0, r))
         == (if RowOwned(ts, r) then Prod(I.At(m, Addr(0, r)), beta) else I.At(m, Addr(0, r)))
           + Dot(Whole(ts), r + 1, x, alpha)
  {
    hide I.At, Folded, Complete, Mixed, ThreadsOk, MapsOk, AllStores, MapOk, Whole, Dot, ColsWithin, RowOwned,
         PartsOf, MemoryOk, ClearProgs, GatherProgs, KernelProgs;
    StoresCount(ts, n, stores, x, alpha);
    var p1, p2, p3 := ClearProgs(maps), KernelProgs(ts, n, beta, stores), GatherProgs(maps);
    var m1 := Folded(m, p1);
    var m2 := Folded(m1, p2);
    ThreadAfterThread(m, p1);
    ThreadAfterThread(m1, p2);
    ThreadAfterThread(m2, p3);
    SymmetricProduct(m, ts, maps, ends, n, beta, stores, Lap(p1, |p1|, 0), Lap(p2, |p2|, 0), Lap(p3, |p3|, 0), x, alpha,
                     r);
  }

  lemma {:induction false} ManyFacts(sms: seq<CsxSym>, uss: seq<seq<Unit>>, lowers: seq<seq<Cell>>, ts: seq<Thread>,
                                     parts: seq<Part>, maps: seq<Map>, ends: seq<nat>, n: nat)
    requires AllCompiled(sms, uss, lowers, ts) && MapsOk(parts, maps, ends, n)
    ensures |ts| == |sms| && |maps| == |parts|
  {
  }

  lemma {:induction false} BuffersMemory(bufs: seq<array<real>>, n: nat)
    requires Buffers(bufs, n)
    ensures MemoryOk(Contents(bufs), |bufs|, n)
  {
  }

  /** Under every interleaving of the threads in each part, the vector ends as `y`. */
  ghost predicate InAnyOrder(m: Memory, ts: seq<Thread>, maps: seq<Map>, n: nat, beta: real, stores: seq<seq<Store>>,
                             y: seq<real>) {
    && |stores| == |ts| && |y| == n && (forall i :: 0 <= i < |maps| ==> MapOk(maps[i]))
    && forall s1, s2, s3, r :: 0 <= r < n
         && Complete(ClearProgs(maps), s1) && Complete(KernelProgs(ts, n, beta, stores), s2)
              && Complete(GatherProgs(maps), s3)
         ==> I.At(AfterAll(m, ts, maps, n, beta, stores, s1, s2, s3), Addr(0, r)) == y[r]
  }

  lemma {:induction false} OrderDoesNotMatter(m: Memory, ts: seq<Thread>, maps: seq<Map>, ends: seq<nat>, n: nat,
                                              beta: real, stores: seq<seq<Store>>, x: seq<real>, alpha: real,
                                              y: seq<real>)
    requires ThreadsOk(ts, n) && |x| == n && MapsOk(PartsOf(ts, n), maps, ends, n)
    requires forall i :: 0 <= i < |maps| ==> MapOk(maps[i])
    requires AllStores(ts, n, stores, x, alpha) && MemoryOk(m, |ts|, n) && |y| == n && ColsWithin(Whole(ts), n)
    requires forall r: nat :: r < n ==>
      y[r] == (if RowOwned(ts, r) then Prod(I.At(m, Addr(0, r)), beta) else I.At(m, Addr(0, r)))
        + Dot(Whole(ts), r + 1, x, alpha)
    ensures InAnyOrder(m, ts, maps, n, beta, stores, y)
  {
    hide I.At, Complete, AfterAll, ThreadsOk, MapsOk, AllStores, MapOk, Whole, Dot, ColsWithin, RowOwned, PartsOf,
         MemoryOk, ClearProgs, GatherProgs, KernelProgs, Prod;
    StoresCount(ts, n, stores, x, alpha);
    forall s1, s2, s3, r: nat | r < n
      && Complete(ClearProgs(maps), s1) && Complete(KernelProgs(ts, n, beta, stores), s2)
      && Complete(GatherProgs(maps), s3)
      ensures I.At(AfterAll(m, ts, maps, n, beta, stores, s1, s2, s3), Addr(0, r)) == y[r]
    {
      SymmetricProduct(m, ts, maps, ends, n, beta, stores, s1, s2, s3, x, alpha, r);
    }
  }

  /** The whole job, thread after thread: what it leaves is what every interleaving leaves. */
  method MatVecKernelSym(sms: seq<CsxSym>, maps: seq<Map>, bufs: seq<array<real>>, x: seq<real>, alpha: real,
                         beta: real, ghost uss: seq<seq<Unit>>, ghost lowers: seq<seq<Cell>>, ghost ts: seq<Thread>,
                         ghost ends: seq<nat>)
    returns (ghost stores: seq<seq<Store>>)
    requires Buffers(bufs, |x|) && |bufs| == |sms| && ThreadsOk(ts, |x|) && AllCompiled(sms, uss, lowers, ts)
    requires MapsOk(PartsOf(ts, |x|), maps, ends, |x|)
    modifies bufs
    ensures ColsWithin(Whole(ts), |x|)
    ensures forall r: nat :: r < |x| ==>
      bufs[0][r] == (if RowOwned(ts, r) then Prod(old(bufs[0][r]), beta) else old(bufs[0][r]))
        + Dot(Whole(ts), r + 1, x, alpha)
    ensures AllStores(ts, |x|, stores, x, alpha)
    ensures InAnyOrder(old(Contents(bufs)), ts, maps, |x|, beta, stores, bufs[0][..])
  {
    hide Contents, Folded, AllCompiled, ThreadsOk, MapsOk, AllStores, MapOk, Whole, Dot, ColsWithin, RowOwned,
         PartsOf, MapInside, Prod, InAnyOrder, I.At, MemoryOk, ClearProgs, GatherProgs, KernelProgs;
    ghost var n, was := |x|, Contents(bufs);
    ghost var parts := PartsOf(ts, n);
    FirstPart(ts, n);
    ManyFacts(sms, uss, lowers, ts, parts, maps, ends, n);
    MapsMapOk(parts, maps, ends, n);
    BuffersMemory(bufs, n);
    forall i | 0 <= i < |maps| ensures MapInside(maps[i], |bufs|, n) {
      MapsInside(parts, maps, ends, n, i);
    }
    ClearAll(maps, bufs, n);
    stores := MultiplyAll(sms, bufs, x, alpha, beta, uss, lowers, ts, n);
    GatherAll(maps, bufs, n);
    SerialProduct(was, ts, maps, ends, n, beta, stores, x, alpha, 0);
    forall r: nat | r < n
      ensures bufs[0][r] == (if RowOwned(ts, r) then Prod(was[0][r], beta) else was[0][r])
        + Dot(Whole(ts), r + 1, x, alpha)
    {
      ValueAt(bufs, n, 0, r);
      SerialProduct(was, ts, maps, ends, n, beta, stores, x, alpha, r);
      ValueIn(was, r);
    }
    forall r: nat | r < n ensures I.At(was, Addr(0, r)) == was[0][r] {
      ValueIn(was, r);
    }
    OrderDoesNotMatter(was, ts, maps, ends, n, beta, stores, x, alpha, bufs[0][..]);
  }

  lemma {:induction false} ValueIn(m: Memory, r: nat)
    requires |m| >= 1 && r < |m[0]|
    ensures I.At(m, Addr(0, r)) == m[0][r]
  {
  }

  method VecInit(y: array<real>, val: real)
    modifies y
    ensures forall i :: 0 <= i < y.Length ==> y[i] == val
  {
    for i := 0 to y.Length
      invariant forall k :: 0 <= k < i ==> y[k] == val
    {
      y[i] := val;
    }
  }

  /** The product alone: the vector is cleared first, and nothing is scaled. */
  method MatVecMultSym(sms: seq<CsxSym>, maps: seq<Map>, bufs: seq<array<real>>, x: seq<real>, alpha: real,
                       ghost uss: seq<seq<Unit>>, ghost lowers: seq<seq<Cell>>, ghost ts: seq<Thread>,
                       ghost ends: seq<nat>)
    returns (ghost stores: seq<seq<Store>>)
    requires Buffers(bufs, |x|) && |bufs| == |sms| && ThreadsOk(ts, |x|) && AllCompiled(sms, uss, lowers, ts)
    requires MapsOk(PartsOf(ts, |x|), maps, ends, |x|)
    modifies bufs
    ensures ColsWithin(Whole(ts), |x|)
    ensures forall r: nat :: r < |x| ==> bufs[0][r] == Dot(Whole(ts), r + 1, x, alpha)
    ensures AllStores(ts, |x|, stores, x, alpha)
    ensures InAnyOrder(old(Contents(bufs))[0 := seq(|x|, _ => 0.0)], ts, maps, |x|, 1.0, stores, bufs[0][..])
  {
    hide AllCompiled, ThreadsOk, MapsOk, Whole, Dot, ColsWithin, RowOwned, PartsOf, InAnyOrder, AllStores;
    ghost var was := Contents(bufs);
    VecInit(bufs[0], 0.0);
    assert Contents(bufs) == was[0 := seq(|x|, _ => 0.0)] by {
      assert bufs[0][..] == seq(|x|, _ => 0.0);
    }
    stores := MatVecKernelSym(sms, maps, bufs, x, alpha, 1.0, uss, lowers, ts, ends);
  }
}
