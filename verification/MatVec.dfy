/** From the partitions of a matrix to its product with a vector. */
module MatVec {
  import opened Encodings
  import opened Cells
  import I = Interleaving
  import opened StoreLog
  import opened ThreadSteps
  import opened Units
  import opened RowsInfo
  import opened CsxManager
  import opened SparsePartition
  import opened CtlCodec
  import opened RowEncoder
  import opened Sampling
  import opened EncodingManager
  import opened CsxBuild
  import opened CsxSpmv
  import opened Partitions

  /** What one thread has: the elements lo..hi of the input, compiled. */
  ghost predicate CompiledPart(m: Csx, us: seq<Unit>, cells: seq<Cell>, lo: nat, hi: nat, nrCols: nat) {
    && lo < hi <= |cells| && Encodes(m, us)
    && m.rowStart == RowBefore(cells, lo) && m.rowStart + m.nrows == RowBefore(cells, hi) && m.ncols == nrCols
    && multiset(Run(us, ORIGIN, m.values, m.full)) == multiset(Shifted(cells[lo..hi], 0 - m.rowStart))
  }

  ghost predicate CompiledParts(ms: seq<Csx>, uss: seq<seq<Unit>>, cells: seq<Cell>, cuts: seq<nat>, nrCols: nat) {
    && |ms| == |uss| && |cuts| == |ms| + 1 && cuts[0] == 0
    && forall i :: 0 <= i < |ms| ==> CompiledPart(ms[i], uss[i], cells, cuts[i], cuts[i + 1], nrCols)
  }

  /** A fresh manager of a partition, configured as planned. */
  ghost predicate ManagerOk(mgr: EncodingManager, partition: SparsePartition, plan: Plan,
                            surveys: nat -> Encoding -> Report)
    reads mgr
  {
    && mgr.spm == partition && mgr.LimitsOk() && PlanOk(plan, mgr)
    && mgr.encodedInst == {} && mgr.xformsIgnore == Types(NR_TYPES)
    && forall n: nat :: mgr.SurveyOk(surveys(n))
  }

  ghost predicate ManagersOk(partitions: seq<SparsePartition>, mgrs: seq<EncodingManager>, plan: Plan,
                             surveys: nat -> nat -> Encoding -> Report, from: nat)
    requires |mgrs| == |partitions|
    reads mgrs
  {
    forall i :: from <= i < |mgrs| ==> ManagerOk(mgrs[i], partitions[i], plan, surveys(i))
  }

  ghost predicate AllDifferent(partitions: seq<SparsePartition>, mgrs: seq<EncodingManager>) {
    && |partitions| == |mgrs|
    && (forall i, j :: 0 <= i < j < |partitions| ==> partitions[i] != partitions[j] && mgrs[i] != mgrs[j])
  }

  /** The partitions from `from` on are as they were loaded. */
  ghost predicate PartsLoaded(partitions: seq<SparsePartition>, cells: seq<Cell>, cuts: seq<nat>, nrCols: nat,
                              from: nat)
    requires |cuts| == |partitions| + 1
    reads partitions
  {
    forall i :: from <= i < |partitions| ==>
      IsPartition(partitions[i], cells, cuts[i], cuts[i + 1], nrCols) && cuts[i] < cuts[i + 1]
  }

  /** The elements lo..hi of the input as their partition holds them. */
  ghost function PartCells(cells: seq<Cell>, lo: nat, hi: nat): seq<Cell>
    requires lo <= hi <= |cells|
  {
    Shifted(cells[lo..hi], 0 - RowBefore(cells, lo))
  }

  /** Nothing can keep the elements lo..hi of the input from being built. */
  ghost predicate Buildable(mgr: EncodingManager, plan: Plan, surveys: nat -> Encoding -> Report, cells: seq<Cell>,
                            lo: nat, hi: nat) {
    && lo <= hi <= |cells|
    && NoWindowMissed(plan, mgr, PartCells(cells, lo, hi)) && RoomFor(plan, surveys, mgr)
  }

  ghost predicate AllBuildable(mgrs: seq<EncodingManager>, plan: Plan, surveys: nat -> nat -> Encoding -> Report,
                               cells: seq<Cell>, cuts: seq<nat>)
    requires |cuts| == |mgrs| + 1
  {
    forall i :: 0 <= i < |mgrs| ==> Buildable(mgrs[i], plan, surveys(i), cells, cuts[i], cuts[i + 1])
  }

  /** Each partition has its row table. */
  ghost predicate Tables(ms: seq<Csx>, uss: seq<seq<Unit>>, blockss: seq<seq<seq<Unit>>>) {
    && |ms| == |uss| == |blockss|
    && forall i :: 0 <= i < |ms| ==>
         TableOk(ms[i].rowsInfo, blockss[i], uss[i], ms[i].full) && |ms[i].rowsInfo| == ms[i].nrows
  }

  /** Mines and compiles all partitions. */
  method BuildCsx(partitions: seq<SparsePartition>, mgrs: seq<EncodingManager>, plan: Plan,
                  surveys: nat -> nat -> Encoding -> Report, full: bool, ghost cells: seq<Cell>, ghost cuts: seq<nat>,
                  ghost nrCols: nat)
    returns (ms: seq<Csx>, ok: bool, ghost uss: seq<seq<Unit>>, ghost blockss: seq<seq<seq<Unit>>>)
    requires AllDifferent(partitions, mgrs) && ManagersOk(partitions, mgrs, plan, surveys, 0)
    requires |cuts| == |partitions| + 1 && cuts[0] == 0 && PartsLoaded(partitions, cells, cuts, nrCols, 0)
    modifies mgrs, partitions
    ensures ok ==> |ms| == |partitions| && CompiledParts(ms, uss, cells, cuts, nrCols) && Tables(ms, uss, blockss)
    ensures ok ==> |mgrs| == |ms| && forall i :: 0 <= i < |ms| && NarrowPlan(plan, surveys(i), mgrs[i]) ==>
      NarrowPids(uss[i])
    ensures |mgrs| == |partitions| && (AllBuildable(mgrs, plan, surveys, cells, cuts) ==> ok)
  {
    hide AllDifferent, ManagersOk, PartsLoaded, CompiledPart, Buildable, TableOk, NarrowPlan, NarrowPids;
    ms, uss, blockss, ok := [], [], [], true;
    SameCount(partitions, mgrs);
    var i := 0;
    while i < |partitions|
      invariant i <= |partitions| && |ms| == i
      invariant CompiledParts(ms, uss, cells, cuts[..i + 1], nrCols) && Tables(ms, uss, blockss)
      invariant forall k :: 0 <= k < i && NarrowPlan(plan, surveys(k), mgrs[k]) ==> NarrowPids(uss[k])
      invariant ManagersOk(partitions, mgrs, plan, surveys, i) && PartsLoaded(partitions, cells, cuts, nrCols, i)
    {
      var outcome, us, blocks := BuildNext(partitions, mgrs, plan, surveys, full, i, cells, cuts, nrCols);
      if !outcome.Built? {
        ok := false;
        return;
      }
      MoreParts(ms, uss, cells, cuts, nrCols, i, outcome.m, us);
      ms, uss, blockss := ms + [outcome.m], uss + [us], blockss + [blocks];
      i := i + 1;
    }
    assert cuts[..i + 1] == cuts;
  }

  lemma {:induction false} MoreParts(ms: seq<Csx>, uss: seq<seq<Unit>>, cells: seq<Cell>, cuts: seq<nat>, nrCols: nat,
                                     i: nat, m: Csx, us: seq<Unit>)
    requires i + 1 < |cuts| && |ms| == i && CompiledParts(ms, uss, cells, cuts[..i + 1], nrCols)
    requires CompiledPart(m, us, cells, cuts[i], cuts[i + 1], nrCols)
    ensures CompiledParts(ms + [m], uss + [us], cells, cuts[..i + 2], nrCols)
  {
    hide CompiledPart;
  }

  method BuildOne(partition: SparsePartition, mgr: EncodingManager, plan: Plan, surveys: nat -> Encoding -> Report,
                  full: bool, ghost cells: seq<Cell>, ghost lo: nat, ghost hi: nat, ghost nrCols: nat)
    returns (outcome: Outcome, ghost us: seq<Unit>, ghost blocks: seq<seq<Unit>>)
    requires ManagerOk(mgr, partition, plan, surveys) && IsPartition(partition, cells, lo, hi, nrCols) && lo < hi
    modifies mgr, partition
    ensures outcome.Built? ==> CompiledPart(outcome.m, us, cells, lo, hi, nrCols)
    ensures outcome.Built? ==>
      TableOk(outcome.m.rowsInfo, blocks, us, outcome.m.full) && |outcome.m.rowsInfo| == outcome.m.nrows
    ensures outcome.Built? && NarrowPlan(plan, surveys, mgr) ==> NarrowPids(us)
    ensures Buildable(mgr, plan, surveys, cells, lo, hi) ==> outcome.Built?
  {
    hide IsPartition, EncodingManager.LimitsOk, PlanOk, EncodingManager.SurveyOk, Types, Encodes, Run, Shifted,
         NoWindowMissed, RoomFor, BuildsWithin, NeededIds, Compilable;
    PartitionLoaded(partition, cells, lo, hi, nrCols);
    RowsOfPartition(partition, cells, lo, hi, nrCols);
    PartitionConserves(partition, cells, lo, hi, nrCols);
    ShiftedBack(partition.CellsOf(), partition.rowStart);
    outcome, us, blocks := PreprocessThread(partition, mgr, plan, surveys, full);
  }

  method BuildNext(partitions: seq<SparsePartition>, mgrs: seq<EncodingManager>, plan: Plan,
                   surveys: nat -> nat -> Encoding -> Report, full: bool, i: nat, ghost cells: seq<Cell>,
                   ghost cuts: seq<nat>, ghost nrCols: nat)
    returns (outcome: Outcome, ghost us: seq<Unit>, ghost blocks: seq<seq<Unit>>)
    requires AllDifferent(partitions, mgrs) && i < |partitions| && ManagersOk(partitions, mgrs, plan, surveys, i)
    requires |cuts| == |partitions| + 1 && PartsLoaded(partitions, cells, cuts, nrCols, i)
    modifies mgrs[i], partitions[i]
    ensures ManagersOk(partitions, mgrs, plan, surveys, i + 1) && PartsLoaded(partitions, cells, cuts, nrCols, i + 1)
    ensures outcome.Built? ==> CompiledPart(outcome.m, us, cells, cuts[i], cuts[i + 1], nrCols)
    ensures outcome.Built? ==>
      TableOk(outcome.m.rowsInfo, blocks, us, outcome.m.full) && |outcome.m.rowsInfo| == outcome.m.nrows
    ensures |mgrs| == |partitions| && (outcome.Built? && NarrowPlan(plan, surveys(i), mgrs[i]) ==> NarrowPids(us))
    ensures Buildable(mgrs[i], plan, surveys(i), cells, cuts[i], cuts[i + 1]) ==> outcome.Built?
  {
    hide ManagerOk, IsPartition, CompiledPart, Buildable, TableOk, NarrowPlan, NarrowPids;
    outcome, us, blocks := BuildOne(partitions[i], mgrs[i], plan, surveys(i), full, cells, cuts[i], cuts[i + 1],
                                    nrCols);
  }

  lemma {:induction false} SameCount(partitions: seq<SparsePartition>, mgrs: seq<EncodingManager>)
    requires AllDifferent(partitions, mgrs)
    ensures |partitions| == |mgrs|
  {
  }

  lemma {:induction false} ShiftedBack(cs: seq<Cell>, k: int)
    ensures Shifted(Shifted(cs, k), 0 - k) == cs
  {
  }

  // ----- The product -----

  /** Scaling and multiplying the rows lo..hi after the rows before them. */
  lemma {:induction false} MultipliedNext(y0: seq<real>, y1: seq<real>, y2: seq<real>, lo: nat, hi: nat, beta: real,
                                          a: seq<Cell>, b: seq<Cell>, x: seq<real>, alpha: real)
    requires Multiplied(y0, y1, 0, lo, beta, a, x, alpha) && Multiplied(y1, y2, lo, hi, beta, b, x, alpha)
    requires RowsWithin(a, 1, lo) && RowsWithin(b, lo + 1, hi) && lo <= hi
    ensures Multiplied(y0, y2, 0, hi, beta, a + b, x, alpha)
  {
    forall r | 1 <= r <= |y0|
      ensures ColsWithin(a + b, |x|)
      ensures y2[r - 1] == (if r <= hi then Prod(y0[r - 1], beta) else y0[r - 1]) + Dot(a + b, r, x, alpha)
    {
      RowOfBoth(y0, y1, y2, lo, hi, beta, a, b, x, alpha, r);
    }
    if |y0| == 0 {
      DotConcat(a, b, 0, x, alpha);
    }
  }

  lemma {:induction false} RowOfBoth(y0: seq<real>, y1: seq<real>, y2: seq<real>, lo: nat, hi: nat, beta: real,
                                     a: seq<Cell>, b: seq<Cell>, x: seq<real>, alpha: real, r: nat)
    requires Multiplied(y0, y1, 0, lo, beta, a, x, alpha) && Multiplied(y1, y2, lo, hi, beta, b, x, alpha)
    requires RowsWithin(a, 1, lo) && RowsWithin(b, lo + 1, hi) && lo <= hi && 1 <= r <= |y0|
    ensures ColsWithin(a + b, |x|)
    ensures y2[r - 1] == (if r <= hi then Prod(y0[r - 1], beta) else y0[r - 1]) + Dot(a + b, r, x, alpha)
  {
    hide Prod, Dot;
    DotConcat(a, b, r, x, alpha);
    assert y1[r - 1] == (if r <= lo then Prod(y0[r - 1], beta) else y0[r - 1]) + Dot(a, r, x, alpha);
    assert y2[r - 1] == (if lo < r <= hi then Prod(y1[r - 1], beta) else y1[r - 1]) + Dot(b, r, x, alpha);
    if r > lo {
      DotOutside(a, r, x, alpha);
    } else {
      DotOutside(b, r, x, alpha);
    }
  }

  lemma {:induction false} NothingMultiplied(y: seq<real>, beta: real, x: seq<real>, alpha: real)
    ensures Multiplied(y, y, 0, 0, beta, [], x, alpha)
  {
  }

  /** Cells of the rows between two cuts. */
  lemma {:induction false} RowsBetween(cells: seq<Cell>, lo: nat, hi: nat, nrRows: nat, nrCols: nat)
    requires Input(cells, nrRows, nrCols) && lo < hi <= |cells| && BetweenRows(cells, lo)
    ensures RowsWithin(cells[lo..hi], RowBefore(cells, lo) + 1, RowBefore(cells, hi))
    ensures ColsWithin(cells[lo..hi], nrCols)
    ensures 0 <= RowBefore(cells, lo) < RowBefore(cells, hi) <= nrRows
  {
    CutFollows(cells, nrRows, nrCols, lo);
    forall k | lo <= k < hi ensures RowBefore(cells, lo) < cells[k].row <= cells[hi - 1].row {
      if k < hi - 1 {
        assert Before(Coord(cells[k].row, cells[k].col), Coord(cells[hi - 1].row, cells[hi - 1].col));
      }
    }
  }

  lemma {:induction false} RowsBefore(cells: seq<Cell>, lo: nat, nrRows: nat, nrCols: nat)
    requires Input(cells, nrRows, nrCols) && lo <= |cells|
    ensures 0 <= RowBefore(cells, lo) <= nrRows && RowsWithin(cells[..lo], 1, RowBefore(cells, lo))
  {
    forall k | 0 <= k < lo ensures 1 <= cells[k].row <= RowBefore(cells, lo) {
      if k < lo - 1 {
        assert Before(Coord(cells[k].row, cells[k].col), Coord(cells[lo - 1].row, cells[lo - 1].col));
      }
    }
  }

  /** The steps of the threads. */
  function ThreadOps(ms: seq<Csx>, n: nat, beta: real, stores: seq<seq<Store>>): (progs: seq<seq<I.Op>>)
    requires |stores| == |ms|
    ensures |progs| == |ms|
  {
    seq(|ms|, i requires 0 <= i < |ms| => RowOps(ms[i].rowStart, ms[i].rowStart + ms[i].nrows, n, beta, stores[i]))
  }

  lemma {:induction false} ThreadOpsSnoc(ms: seq<Csx>, n: nat, beta: real, stores: seq<seq<Store>>, i: nat,
                                         s: seq<Store>)
    requires i < |ms| && |stores| == i
    ensures ThreadOps(ms[..i + 1], n, beta, stores + [s])
         == ThreadOps(ms[..i], n, beta, stores) + [RowOps(ms[i].rowStart, ms[i].rowStart + ms[i].nrows, n, beta, s)]
  {
  }

  /** Rows of the partitions follow one another. */
  lemma {:induction false} RowsFollow(ms: seq<Csx>, uss: seq<seq<Unit>>, cells: seq<Cell>, cuts: seq<nat>, nrCols: nat,
                                      i: nat, j: nat)
    requires CompiledParts(ms, uss, cells, cuts, nrCols) && i < j < |ms|
    ensures ms[i].rowStart + ms[i].nrows <= ms[j].rowStart
    decreases j - i
  {
    hide CompiledPart, RowBefore;
    PartRows(ms, uss, cells, cuts, nrCols, j - 1);
    PartRows(ms, uss, cells, cuts, nrCols, j);
    if i + 1 < j {
      RowsFollow(ms, uss, cells, cuts, nrCols, i, j - 1);
    }
  }

  lemma {:induction false} PartRows(ms: seq<Csx>, uss: seq<seq<Unit>>, cells: seq<Cell>, cuts: seq<nat>, nrCols: nat,
                                    i: nat)
    requires CompiledParts(ms, uss, cells, cuts, nrCols) && i < |ms|
    ensures cuts[i] <= cuts[i + 1] <= |cells|
    ensures ms[i].rowStart == RowBefore(cells, cuts[i]) && ms[i].rowStart + ms[i].nrows == RowBefore(cells, cuts[i + 1])
  {
    hide Encodes, Run, Shifted;
    assert CompiledPart(ms[i], uss[i], cells, cuts[i], cuts[i + 1], nrCols);
  }

  /** Every thread stores in its own rows. */
  predicate OwnStores(ms: seq<Csx>, n: nat, stores: seq<seq<Store>>) {
    && |stores| == |ms|
    && forall i, k :: 0 <= i < |ms| && 0 <= k < |stores[i]| ==>
         ms[i].rowStart <= stores[i][k].at < ms[i].rowStart + ms[i].nrows <= n
  }

  lemma {:induction false} ThreadsApart(ms: seq<Csx>, uss: seq<seq<Unit>>, cells: seq<Cell>, cuts: seq<nat>,
                                        nrCols: nat, n: nat, beta: real, stores: seq<seq<Store>>)
    requires CompiledParts(ms, uss, cells, cuts, nrCols) && OwnStores(ms, n, stores)
    requires forall i :: 0 <= i < |ms| ==> ms[i].rowStart + ms[i].nrows <= n
    ensures I.Apart(ThreadOps(ms, n, beta, stores))
  {
    hide CompiledParts, I.TouchedBy, I.WrittenBy, RowOps;
    var progs := ThreadOps(ms, n, beta, stores);
    forall i, j, a {:trigger I.TouchedBy(progs[i], a), I.WrittenBy(progs[j], a)} |
      0 <= i < |progs| && 0 <= j < |progs| && i != j && I.TouchedBy(progs[i], a)
      ensures !I.WrittenBy(progs[j], a)
    {
      RowOpsTouch(ms[i].rowStart, ms[i].rowStart + ms[i].nrows, n, beta, stores[i], a);
      RowOpsTouch(ms[j].rowStart, ms[j].rowStart + ms[j].nrows, n, beta, stores[j], a);
      if i < j {
        RowsFollow(ms, uss, cells, cuts, nrCols, i, j);
      } else {
        RowsFollow(ms, uss, cells, cuts, nrCols, j, i);
      }
    }
  }

  /** The threads one after the other; each changes only its own rows.  What they leave is what
      they leave in any interleaving of their steps. */
  method MatVecKernel(ms: seq<Csx>, x: seq<real>, y: array<real>, alpha: real, beta: real, ghost uss: seq<seq<Unit>>,
                      ghost cells: seq<Cell>, ghost cuts: seq<nat>, ghost nrRows: nat, ghost nrCols: nat)
    returns (ghost stores: seq<seq<Store>>)
    requires Input(cells, nrRows, nrCols) && CompiledParts(ms, uss, cells, cuts, nrCols)
    requires forall i :: 0 <= i < |cuts| ==> BetweenRows(cells, cuts[i])
    requires nrRows <= y.Length && nrCols <= |x|
    modifies y
    ensures cuts[|ms|] <= |cells|
    ensures Multiplied(old(y[..]), y[..], 0, RowBefore(cells, cuts[|ms|]), beta, cells[..cuts[|ms|]], x, alpha)
    ensures OwnStores(ms, y.Length, stores)
    ensures forall sched, r :: I.Complete(ThreadOps(ms, y.Length, beta, stores), sched) && 0 <= r < y.Length ==>
      I.At(I.Mixed([old(y[..])], ThreadOps(ms, y.Length, beta, stores), sched), I.Addr(0, r)) == y[r]
  {
    hide Multiplied, Encodes, Run, Shifted, Input, RowsWithin, ColsWithin, RowOps, ThreadOps, I.Alone, I.Folded,
         I.Mixed, I.Feasible, I.Taken, I.Apart;
    ghost var y0, n := y[..], y.Length;
    stores := [];
    assert ms[..0] == [];
    NoThreads(y0, n, beta);
    NothingMultiplied(y0, beta, x, alpha);
    assert cells[..cuts[0]] == [];
    var i := 0;
    while i < |ms|
      invariant i <= |ms| && cuts[i] <= |cells| && RowBefore(cells, cuts[i]) >= 0
      invariant Multiplied(y0, y[..], 0, RowBefore(cells, cuts[i]), beta, cells[..cuts[i]], x, alpha)
      invariant OwnStores(ms[..i], n, stores) && I.Folded([y0], ThreadOps(ms[..i], n, beta, stores)) == [y[..]]
      invariant forall k :: 0 <= k < i ==> ms[k].rowStart + ms[k].nrows <= n
    {
      ghost var lo, hi := cuts[i], cuts[i + 1];
      assert CompiledPart(ms[i], uss[i], cells, lo, hi, nrCols);
      ghost var s := MultiplyPart(ms[i], x, y, alpha, beta, uss[i], cells, lo, hi, nrRows, nrCols, y0);
      ThreadOpsSnoc(ms, n, beta, stores, i, s);
      I.FoldedOneMore([y0], ThreadOps(ms[..i], n, beta, stores),
                      RowOps(ms[i].rowStart, ms[i].rowStart + ms[i].nrows, n, beta, s));
      stores := stores + [s];
      i := i + 1;
    }
    assert ms[..i] == ms;
    ThreadsApart(ms, uss, cells, cuts, nrCols, n, beta, stores);
    forall sched, r | I.Complete(ThreadOps(ms, n, beta, stores), sched) && 0 <= r < n
      ensures I.At(I.Mixed([y0], ThreadOps(ms, n, beta, stores), sched), I.Addr(0, r)) == y[r]
    {
      I.AnyOrder([y0], ThreadOps(ms, n, beta, stores), [y[..]], sched, I.Addr(0, r));
    }
  }

  lemma {:induction false} NoThreads(y0: seq<real>, n: nat, beta: real)
    ensures I.Folded([y0], ThreadOps([], n, beta, [])) == [y0]
  {
  }

  method MultiplyPart(m: Csx, x: seq<real>, y: array<real>, alpha: real, beta: real, ghost us: seq<Unit>,
                      ghost cells: seq<Cell>, ghost lo: nat, ghost hi: nat, ghost nrRows: nat, ghost nrCols: nat,
                      ghost y0: seq<real>)
    returns (ghost stores: seq<Store>)
    requires Input(cells, nrRows, nrCols) && CompiledPart(m, us, cells, lo, hi, nrCols)
    requires BetweenRows(cells, lo)
    requires nrRows <= y.Length && nrCols <= |x| && RowBefore(cells, lo) >= 0
    requires Multiplied(y0, y[..], 0, RowBefore(cells, lo), beta, cells[..lo], x, alpha)
    modifies y
    ensures RowBefore(cells, hi) >= 0
    ensures Multiplied(y0, y[..], 0, RowBefore(cells, hi), beta, cells[..hi], x, alpha)
    ensures m.rowStart + m.nrows <= y.Length
    ensures forall k :: 0 <= k < |stores| ==> m.rowStart <= stores[k].at < m.rowStart + m.nrows
    ensures I.Alone([old(y[..])], RowOps(m.rowStart, m.rowStart + m.nrows, y.Length, beta, stores)) == [y[..]]
  {
    hide Multiplied, Encodes, Run, Shifted, Input, RowsWithin, ColsWithin, RowBefore, RowOps, I.Alone;
    ghost var rel, y1 := Shifted(cells[lo..hi], 0 - m.rowStart), y[..];
    RowsBetween(cells, lo, hi, nrRows, nrCols);
    RowsBefore(cells, lo, nrRows, nrCols);
    ShiftedInside(cells[lo..hi], m.rowStart, m.nrows, nrCols);
    stores := MultiplyBuilt(m, x, y, alpha, beta, us, rel);
    MultipliedNext(y0, y1, y[..], m.rowStart, m.rowStart + m.nrows, beta, cells[..lo], cells[lo..hi], x, alpha);
    assert cells[..lo] + cells[lo..hi] == cells[..hi];
  }

  lemma {:induction false} ShiftedInside(cs: seq<Cell>, rs: nat, rows: nat, n: nat)
    requires RowsWithin(cs, rs + 1, rs + rows) && ColsWithin(cs, n)
    ensures RowsWithin(Shifted(cs, 0 - rs), 1, rows) && ColsWithin(Shifted(cs, 0 - rs), n)
    ensures Shifted(Shifted(cs, 0 - rs), rs) == cs
  {
  }

  /** The cuts of BuildPartitions, for an input with as many elements as it was said to have,
      fit: if no partition is empty, BuildCsx and MatVecKernel take it from there, and together
      they multiply the whole input. */
  lemma {:induction false} CutsReady(cells: seq<Cell>, nr: nat) returns (cuts: seq<nat>)
    requires nr >= 1 && |cells| < TWO_TO_THE_64
    ensures |cuts| == nr + 1 && cuts[0] == 0 && cuts[nr] == |cells| && cells[..cuts[nr]] == cells
    ensures forall i :: 0 <= i < |cuts| ==> cuts[i] == CutAt(cells, |cells|, nr, i) && BetweenRows(cells, cuts[i])
    ensures forall i :: 0 <= i < nr ==> (cuts[i] < cuts[i + 1] <==> cuts[i] < |cells|)
  {
    cuts := seq(nr + 1, i requires 0 <= i < nr + 1 => CutAt(cells, |cells|, nr, i));
    AllTaken(cells, nr);
    forall i | 0 <= i < |cuts| ensures BetweenRows(cells, cuts[i]) {
      CutBetweenRows(cells, |cells|, nr, i);
    }
    forall i | 0 <= i < nr ensures cuts[i] < cuts[i + 1] <==> cuts[i] < |cells| {
      EmptyPartition(cells, |cells|, nr, i);
      Balance(cells, |cells|, nr, i);
    }
  }

  // ----- The whole way -----

  /** A manager that is configured like `config`. */
  ghost predicate Alike(mgr: EncodingManager, config: EncodingManager) {
    && mgr.minLimit == config.minLimit && mgr.maxLimit == config.maxLimit && mgr.splitBlocks == config.splitBlocks
    && mgr.useNuma == config.useNuma && mgr.samplingEnabled == config.samplingEnabled && mgr.samples == config.samples
  }

  /** What is configured is right for the plan and the surveys. */
  ghost predicate Configured(config: EncodingManager, plan: Plan, surveys: nat -> nat -> Encoding -> Report)
    reads config
  {
    && config.LimitsOk() && PlanOk(plan, config)
    && forall i: nat, n: nat :: config.SurveyOk(surveys(i)(n))
  }

  lemma {:induction false} LikeConfig(mgr: EncodingManager, config: EncodingManager, plan: Plan,
                                      surveys: nat -> nat -> Encoding -> Report, i: nat)
    requires Alike(mgr, config) && Configured(config, plan, surveys)
    requires mgr.encodedInst == {} && mgr.xformsIgnore == Types(NR_TYPES)
    ensures ManagerOk(mgr, mgr.spm, plan, surveys(i))
  {
    hide Types, InstOk;
    forall n: nat ensures mgr.SurveyOk(surveys(i)(n)) {
      assert config.SurveyOk(surveys(i)(n));
    }
  }

  /** A manager and one configured like it may leave the same instantiations. */
  lemma {:induction false} LikeMayBuild(mgr: EncodingManager, config: EncodingManager, plan: Plan,
                                        surveys: nat -> Encoding -> Report)
    requires Alike(mgr, config)
    ensures forall i :: MayBuild(i, plan, surveys, mgr) ==> MayBuild(i, plan, surveys, config)
    ensures NarrowPlan(plan, surveys, config) ==> NarrowPlan(plan, surveys, mgr)
  {
    hide Picked, EncodingManager.AskedFor;
    forall i | MayBuild(i, plan, surveys, mgr) ensures MayBuild(i, plan, surveys, config) {
      match plan {
        case Explicit(s) =>
          var j :| EncodingManager.AskedFor(j, s) && Picked(i, mgr.CfgOf({j}));
          assert Picked(i, config.CfgOf({j}));
        case Mine(ts) =>
          var n: nat :| mgr.Selectable(i, surveys(n));
          var t: Encoding :| Picked(i, mgr.CfgOf(surveys(n)(t).insts));
          assert Picked(i, config.CfgOf(surveys(n)(t).insts));
          assert config.Selectable(i, surveys(n));
      }
    }
  }

  lemma {:induction false} LikeBuildable(mgr: EncodingManager, config: EncodingManager, plan: Plan,
                                         surveys: nat -> Encoding -> Report, cells: seq<Cell>, lo: nat, hi: nat)
    requires Alike(mgr, config) && Buildable(config, plan, surveys, cells, lo, hi)
    ensures Buildable(mgr, plan, surveys, cells, lo, hi)
  {
    hide MayBuild, AllAnchored, PartCells;
    var room :| InRoom(room, plan, surveys, config) && |room| + 4 <= MAX_PATTERNS;
    LikeMayBuild(mgr, config, plan, surveys);
    assert InRoom(room, plan, surveys, mgr);
  }

  /** A fresh manager for every partition. */
  method Managers(partitions: seq<SparsePartition>, config: EncodingManager, ghost plan: Plan,
                  ghost surveys: nat -> nat -> Encoding -> Report)
    returns (mgrs: seq<EncodingManager>)
    requires Configured(config, plan, surveys)
    requires forall i, j :: 0 <= i < j < |partitions| ==> partitions[i] != partitions[j]
    ensures AllDifferent(partitions, mgrs) && ManagersOk(partitions, mgrs, plan, surveys, 0)
    ensures forall i :: 0 <= i < |mgrs| ==> fresh(mgrs[i]) && Alike(mgrs[i], config)
  {
    hide Configured, ManagerOk, Types;
    mgrs := [];
    for i := 0 to |partitions|
      invariant |mgrs| == i
      invariant forall k :: 0 <= k < i ==>
        fresh(mgrs[k]) && Alike(mgrs[k], config) && ManagerOk(mgrs[k], partitions[k], plan, surveys(k))
      invariant forall j, k :: 0 <= j < k < i ==> mgrs[j] != mgrs[k]
    {
      var mgr := new EncodingManager(partitions[i], config.minLimit, config.maxLimit, config.splitBlocks,
                                     config.useNuma,
                                     config.samplingEnabled, config.samples);
      LikeConfig(mgr, config, plan, surveys, i);
      mgrs := mgrs + [mgr];
    }
  }

  /** What the input must be like: no partition is empty, for which it suffices that the last one
      is not. */
  ghost predicate Divisible(cells: seq<Cell>, nrRows: nat, nrCols: nat, nr: nat) {
    && Input(cells, nrRows, nrCols) && nrCols <= MAX_INDEX && |cells| < TWO_TO_THE_64
    && nr >= 1 && CutAt(cells, |cells|, nr, nr - 1) < |cells|
  }

  /** Rows that are short for the number of elements suffice. */
  lemma {:induction false} ShortRowsDivisible(cells: seq<Cell>, nrRows: nat, nrCols: nat, nr: nat, most: nat)
    requires Input(cells, nrRows, nrCols) && nrCols <= MAX_INDEX && |cells| < TWO_TO_THE_64
    requires nr >= 1 && most >= 1 && RowsUpTo(cells, most) && |cells| >= nr * (1 + (nr - 1) * (most - 1))
    ensures Divisible(cells, nrRows, nrCols, nr)
  {
    hide CutAt;
    NoneEmpty(cells, nr, most);
  }

  /** Every part of the input can be built. */
  ghost predicate PartsBuildable(config: EncodingManager, plan: Plan, surveys: nat -> nat -> Encoding -> Report,
                                 cells: seq<Cell>, nr: nat) {
    forall i :: 0 <= i < nr ==>
      Buildable(config, plan, surveys(i), cells, CutAt(cells, |cells|, nr, i), CutAt(cells, |cells|, nr, i + 1))
  }

  /** From the triplets to the compiled partitions. */
  method TuneMatrix(cells: seq<Cell>, ghost nrRows: nat, nrCols: nat, nr: nat, config: EncodingManager, plan: Plan,
                    surveys: nat -> nat -> Encoding -> Report, full: bool)
    returns (ms: seq<Csx>, ok: bool, ghost uss: seq<seq<Unit>>, ghost blockss: seq<seq<seq<Unit>>>,
             ghost cuts: seq<nat>)
    requires Divisible(cells, nrRows, nrCols, nr) && Configured(config, plan, surveys)
    ensures ok ==> |ms| == nr && CompiledParts(ms, uss, cells, cuts, nrCols) && Tables(ms, uss, blockss)
    ensures |cuts| == nr + 1 && cuts[nr] == |cells|
    ensures forall i :: 0 <= i <= nr ==> cuts[i] == CutAt(cells, |cells|, nr, i) && BetweenRows(cells, cuts[i])
    ensures ok ==> forall i :: 0 <= i < nr && NarrowPlan(plan, surveys(i), config) ==> NarrowPids(uss[i])
    ensures PartsBuildable(config, plan, surveys, cells, nr) ==> ok
  {
    hide Input, Configured, IsPartition, CompiledPart, Buildable, ManagerOk, CutAt, BetweenRows, Alike, Tables,
         NarrowPlan, NarrowPids;
    cuts := CutsReady(cells, nr);
    forall i | 0 <= i < nr ensures cuts[i] < cuts[i + 1] {
      CutsGrow(cells, |cells|, nr, i, nr - 1);
    }
    var partitions;
    partitions, ok := BuildPartitions(cells, |cells|, nrRows, nrCols, nr);
    var mgrs := Managers(partitions, config, plan, surveys);
    ms, ok, uss, blockss := BuildCsx(partitions, mgrs, plan, surveys, full, cells, cuts, nrCols);
    forall i | 0 <= i < nr && NarrowPlan(plan, surveys(i), config) ensures NarrowPlan(plan, surveys(i), mgrs[i]) {
      LikeMayBuild(mgrs[i], config, plan, surveys(i));
    }
    if PartsBuildable(config, plan, surveys, cells, nr) {
      forall i | 0 <= i < nr ensures Buildable(mgrs[i], plan, surveys(i), cells, cuts[i], cuts[i + 1]) {
        LikeBuildable(mgrs[i], config, plan, surveys(i), cells, cuts[i], cuts[i + 1]);
      }
    }
  }

  /** From the triplets to the product: the input is cut, every part is mined and compiled, and
      the threads multiply.  When the parts can be built, y becomes beta * y + alpha * A * x in
      all rows up to the last one that has an element. */
  method TuneAndMatVec(cells: seq<Cell>, ghost nrRows: nat, nrCols: nat, nr: nat, config: EncodingManager, plan: Plan,
                       surveys: nat -> nat -> Encoding -> Report, full: bool, x: seq<real>, y: array<real>, alpha: real,
                       beta: real)
    returns (ok: bool)
    requires Divisible(cells, nrRows, nrCols, nr) && Configured(config, plan, surveys)
    requires nrRows <= y.Length && nrCols <= |x|
    modifies y
    ensures ok ==>
      RowBefore(cells, |cells|) >= 0
        && Multiplied(old(y[..]), y[..], 0, RowBefore(cells, |cells|), beta, cells, x, alpha)
    ensures !ok ==> y[..] == old(y[..])
    ensures PartsBuildable(config, plan, surveys, cells, nr) ==> ok
  {
    hide Multiplied, Input, Configured, CompiledPart, CutAt, RowBefore, BetweenRows, Tables, NarrowPlan, NarrowPids,
         PartsBuildable, OwnStores, ThreadOps, I.Mixed, I.At;
    RowsBefore(cells, |cells|, nrRows, nrCols);
    var ms;
    ghost var uss, blockss, cuts;
    ms, ok, uss, blockss, cuts := TuneMatrix(cells, nrRows, nrCols, nr, config, plan, surveys, full);
    if ok {
      assert cells[..|cells|] == cells;
      ghost var stores := MatVecKernel(ms, x, y, alpha, beta, uss, cells, cuts, nrRows, nrCols);
    }
  }
}
