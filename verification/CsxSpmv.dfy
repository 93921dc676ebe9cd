/** The job of one thread in a matrix-vector product. */
module CsxSpmv {
  import opened Encodings
  import opened Cells
  import opened Elements
  import opened Units
  import I = Interleaving
  import opened StoreLog
  import opened ThreadSteps
  import opened Kernels
  import opened CsxManager
  import opened SparsePartition
  import opened EncodingManager
  import opened CsxBuild

  // ----- Where the partition stands in the matrix -----

  function Shifted(cells: seq<Cell>, k: int): (r: seq<Cell>)
    ensures |r| == |cells|
  {
    seq(|cells|, i requires 0 <= i < |cells| => cells[i].(row := cells[i].row + k))
  }

  lemma {:induction false} ShiftedConcat(a: seq<Cell>, b: seq<Cell>, k: int)
    ensures Shifted(a + b, k) == Shifted(a, k) + Shifted(b, k)
  {
  }

  lemma {:induction false} UnitCellsShift(u: Unit, s: Pos, k: int, vals: seq<real>, full: bool)
    requires WellFormed(u, full) && |vals| == u.size
    ensures UnitCells(u, Pos(s.row + k, s.col), vals, full) == Shifted(UnitCells(u, s, vals, full), k)
  {
    var a, b := UnitCells(u, Pos(s.row + k, s.col), vals, full), Shifted(UnitCells(u, s, vals, full), k);
    forall i | 0 <= i < |vals| ensures a[i] == b[i] {
    }
  }

  lemma {:induction false} NextShift(u: Unit, p: Pos, k: int, full: bool)
    requires WellFormed(u, full)
    ensures Start(u, Pos(p.row + k, p.col), full) == Pos(Start(u, p, full).row + k, Start(u, p, full).col)
    ensures Next(u, Pos(p.row + k, p.col), full) == Pos(Next(u, p, full).row + k, Next(u, p, full).col)
  {
  }

  /** Running the units from another row moves all their cells. */
  lemma {:induction false} RunShift(us: seq<Unit>, p: Pos, k: int, vals: seq<real>, full: bool)
    requires AllWellFormed(us, full) && |vals| == NrValues(us)
    ensures Run(us, Pos(p.row + k, p.col), vals, full) == Shifted(Run(us, p, vals, full), k)
    decreases |us|
  {
    hide UnitCells, Start, Next, Shifted, Run, NrValues, WellFormed, AllWellFormed;
    var moved := Pos(p.row + k, p.col);
    if us != [] {
      var u := us[0];
      RunHead(us, p, vals, full);
      RunHead(us, moved, vals, full);
      var s, next := Start(u, p, full), Next(u, p, full);
      NextShift(u, p, k, full);
      UnitCellsShift(u, s, k, vals[..u.size], full);
      RunShift(us[1..], next, k, vals[u.size..], full);
      ShiftedConcat(UnitCells(u, s, vals[..u.size], full), Run(us[1..], next, vals[u.size..], full), k);
    } else {
      NoUnits(us, p, vals, full);
      NoUnits(us, moved, vals, full);
      assert Shifted([], k) == [];
    }
  }

  lemma {:induction false} ShiftedPermuted(a: seq<Cell>, b: seq<Cell>, k: int)
    requires multiset(a) == multiset(b)
    ensures multiset(Shifted(a, k)) == multiset(Shifted(b, k))
  {
    hide Shifted;
    if a == [] {
      assert |multiset(b)| == 0;
      assert b == [];
    } else {
      var i := Seqs.RemoveHead(a, b);
      var front, back, one := b[..i], b[i + 1..], [a[0]];
      ShiftedPermuted(a[1..], front + back, k);
      assert a == one + a[1..] && b == front + one + back;
      ShiftedConcat(one, a[1..], k);
      ShiftedConcat(front, back, k);
      ShiftedConcat(front, one, k);
      ShiftedConcat(front + one, back, k);
    }
  }

  import Seqs

  // ----- The job -----

  /** y[start..end] *= num */
  method VecScalePart(y: array<real>, num: real, start: nat, end: nat)
    requires start <= end <= y.Length
    modifies y
    ensures forall i :: 0 <= i < y.Length ==>
      y[i] == if start <= i < end then Prod(old(y[i]), num) else old(y[i])
  {
    for i := start to end
      invariant forall k :: 0 <= k < y.Length ==>
        y[k] == if start <= k < i then Prod(old(y[k]), num) else old(y[k])
    {
      y[i] := Prod(y[i], num);
    }
  }

  /** Rows lo + 1..hi are scaled by beta, and every row gets its part of alpha * cells * x. */
  ghost predicate Multiplied(before: seq<real>, now: seq<real>, lo: nat, hi: nat, beta: real,
                             cells: seq<Cell>, x: seq<real>, alpha: real)
  {
    && |now| == |before|
    && ColsWithin(cells, |x|)
    && forall r {:trigger now[r - 1]} {:trigger Dot(cells, r, x, alpha)} :: 1 <= r <= |now| ==>
         now[r - 1] == (if lo < r <= hi then Prod(before[r - 1], beta) else before[r - 1]) + Dot(cells, r, x, alpha)
  }

  /** The units of a partition stand in its rows. */
  ghost predicate InRows(m: Csx, us: seq<Unit>, n: nat)
    requires Encodes(m, us)
  {
    && RowsWithin(Run(us, Pos(m.rowStart + 1, 0), m.values, m.full), m.rowStart + 1, m.rowStart + m.nrows)
    && ColsWithin(Run(us, Pos(m.rowStart + 1, 0), m.values, m.full), n)
  }

  lemma {:induction false} RowsOwned(m: Csx, us: seq<Unit>, ylen: nat, n: nat, log: Log)
    requires Encodes(m, us) && InRows(m, us, n) && m.rowStart + m.nrows <= ylen
    requires log.lo == m.rowStart && log.hi == m.rowStart + m.nrows
    ensures Inside(Run(us, Pos(m.rowStart + 1, 0), m.values, m.full), ylen, n)
    ensures OwnRows(Run(us, Pos(m.rowStart + 1, 0), m.values, m.full), log)
  {
    hide Run;
  }

  method DoMvThread(m: Csx, x: seq<real>, y: array<real>, alpha: real, ghost us: seq<Unit>)
    requires Encodes(m, us) && us != [] && m.nrows >= 1 && m.rowStart + m.nrows <= y.Length && InRows(m, us, |x|)
    modifies y
    ensures AddsProduct(old(y[..]), y[..], Run(us, Pos(m.rowStart + 1, 0), m.values, m.full), x, alpha)
  {
    hide Run, Encodes, Inside, InRows, OwnRows;
    ghost var log := new Log(y[..], m.rowStart, m.rowStart + m.nrows, y.Length);
    RowsOwned(m, us, y.Length, |x|, log);
    ghost var ctlEnd, valuesEnd := SpmCsxMultiply(m, x, y, alpha, us, log);
  }

  /** Scales the rows of the partition and adds the product, by steps that touch no other row. */
  method DoKernelThread(m: Csx, x: seq<real>, y: array<real>, alpha: real, beta: real, ghost us: seq<Unit>)
    returns (ghost stores: seq<Store>)
    requires Encodes(m, us) && us != [] && m.nrows >= 1 && m.rowStart + m.nrows <= y.Length && InRows(m, us, |x|)
    modifies y
    ensures Multiplied(old(y[..]), y[..], m.rowStart, m.rowStart + m.nrows, beta,
                       Run(us, Pos(m.rowStart + 1, 0), m.values, m.full), x, alpha)
    ensures RowStores(stores, m.rowStart, m.rowStart + m.nrows, y.Length,
                      Run(us, Pos(m.rowStart + 1, 0), m.values, m.full), x, alpha)
    ensures I.Alone([old(y[..])], RowOps(m.rowStart, m.rowStart + m.nrows, y.Length, beta, stores)) == [y[..]]
  {
    hide Run, Encodes, Inside, InRows, OwnRows, RowOps, I.Alone, AllWellFormed, NrValues, Bytes;
    EncodesFacts(m, us);
    var start := m.rowStart;
    var end := start + m.nrows;
    if beta != 1.0 {
      VecScalePart(y, beta, start, end);
    }
    ghost var scaled := y[..];
    ScaledByOne(old(y[..]), beta);
    ghost var log := new Log(scaled, start, end, y.Length);
    RowsOwned(m, us, y.Length, |x|, log);
    ghost var ctlEnd, valuesEnd := SpmCsxMultiply(m, x, y, alpha, us, log);
    stores := log.stores;
    StoresAdd(scaled, y[..], log, Run(us, Pos(m.rowStart + 1, 0), m.values, m.full), x, alpha);
    RowsStepped(old(y[..]), y[..], start, end, beta, stores);
  }

  /** The stores of the routine add up to the product. */
  lemma {:induction false} StoresAdd(before: seq<real>, now: seq<real>, log: Log, cells: seq<Cell>, x: seq<real>,
                                     alpha: real)
    requires log.Shows(now) && log.start == before && log.n == |before| && log.lo <= log.hi <= log.n
    requires AddsProduct(before, now, cells, x, alpha)
    requires forall k :: 0 <= k < |log.stores| ==> log.stores[k].at < log.n
    ensures RowStores(log.stores, log.lo, log.hi, log.n, cells, x, alpha)
    ensures forall r :: 0 <= r < |before| ==> now[r] == before[r] + Amount(log.stores, r)
  {
    hide Amount, Dot, Played;
    forall at: nat | at < log.n
      ensures now[at] == before[at] + Amount(log.stores, at) && Amount(log.stores, at) == Dot(cells, at + 1, x, alpha)
    {
      PlayedAt(before, log.stores, at);
      assert now[at + 1 - 1] == before[at + 1 - 1] + Dot(cells, at + 1, x, alpha);
    }
  }

  lemma {:induction false} ScaledByOne(y: seq<real>, beta: real)
    ensures beta == 1.0 ==> forall i :: 0 <= i < |y| ==> Prod(y[i], beta) == y[i]
  {
  }

  /** Cells of a loaded partition lie inside it. */
  lemma {:induction false} LoadedInside(spm: SparsePartition)
    requires Loaded(spm)
    ensures RowsWithin(spm.CellsOf(), 1, spm.nrRows) && ColsWithin(spm.CellsOf(), spm.nrCols)
    ensures |spm.CellsOf()| == spm.nrNonzeros
  {
    hide IsRowptr, Sorted, Tight;
    SinglesInside(spm.Live(), spm.D());
    CellsOfSingles(spm.Live(), Horizontal, spm.D());
  }

  lemma {:induction false} SinglesInside(es: seq<Element>, d: Dims)
    requires d.rows >= 0 && d.cols >= 0
    requires AllShaped(es) && StartsInBounds(es, Horizontal, d)
    requires forall i :: 0 <= i < |es| ==> !es[i].IsPattern()
    ensures RowsWithin(AllCells(es, Horizontal, d), 1, d.rows) && ColsWithin(AllCells(es, Horizontal, d), d.cols)
  {
    if es != [] {
      SinglesInside(es[1..], d);
      var head := ElemCells(es[0], Horizontal, d);
      assert head == [Cell(es[0].row, es[0].col, es[0].vals[0])];
      assert InBounds(ToHoriz(Horizontal, es[0].At(), d), d);
    }
  }

  lemma {:induction false} InsidePermuted(a: seq<Cell>, b: seq<Cell>, lo: int, hi: int, n: nat)
    requires multiset(a) == multiset(b) && RowsWithin(a, lo, hi) && ColsWithin(a, n)
    ensures RowsWithin(b, lo, hi) && ColsWithin(b, n)
  {
    forall i | 0 <= i < |b| ensures lo <= b[i].row <= hi && 1 <= b[i].col <= n {
      assert b[i] in multiset(a);
    }
  }

  /** What the compiled units stand for, moved to where the partition stands. */
  lemma {:induction false} CompiledCells(m: Csx, us: seq<Unit>, cells: seq<Cell>, ylen: nat, xlen: nat)
    requires Encodes(m, us)
    requires multiset(Run(us, ORIGIN, m.values, m.full)) == multiset(cells)
    requires RowsWithin(cells, 1, m.nrows) && ColsWithin(cells, m.ncols)
    requires m.rowStart + m.nrows <= ylen && m.ncols <= xlen
    ensures var run := Run(us, Pos(m.rowStart + 1, 0), m.values, m.full);
            multiset(run) == multiset(Shifted(cells, m.rowStart)) && Inside(run, ylen, xlen) && InRows(m, us, xlen)
  {
    hide Run, AllWellFormed, Bytes;
    var base := Run(us, ORIGIN, m.values, m.full);
    RunShift(us, ORIGIN, m.rowStart, m.values, m.full);
    ShiftedPermuted(base, cells, m.rowStart);
    InsidePermuted(Shifted(cells, m.rowStart), Shifted(base, m.rowStart), m.rowStart + 1, m.rowStart + m.nrows, xlen);
  }

  lemma {:induction false} MultipliedPermuted(before: seq<real>, now: seq<real>, lo: nat, hi: nat, beta: real,
                                              a: seq<Cell>, b: seq<Cell>, x: seq<real>, alpha: real)
    requires Multiplied(before, now, lo, hi, beta, a, x, alpha) && multiset(a) == multiset(b)
    ensures Multiplied(before, now, lo, hi, beta, b, x, alpha)
  {
    ColsPermuted(a, b, |x|);
    forall r | 1 <= r <= |now| ensures Dot(a, r, x, alpha) == Dot(b, r, x, alpha) {
      DotPermuted(a, b, r, x, alpha);
    }
  }

  lemma {:induction false} RowStoresPermuted(stores: seq<Store>, lo: nat, hi: nat, n: nat, a: seq<Cell>, b: seq<Cell>,
                                             x: seq<real>, alpha: real)
    requires RowStores(stores, lo, hi, n, a, x, alpha) && multiset(a) == multiset(b)
    ensures RowStores(stores, lo, hi, n, b, x, alpha)
  {
    hide Amount, Dot;
    ColsPermuted(a, b, |x|);
    forall at: nat | at < n ensures Amount(stores, at) == Dot(b, at + 1, x, alpha) {
      DotPermuted(a, b, at + 1, x, alpha);
    }
  }

  /** Multiplying with the compiled form of some cells. */
  method MultiplyBuilt(m: Csx, x: seq<real>, y: array<real>, alpha: real, beta: real, ghost us: seq<Unit>,
                       ghost cells: seq<Cell>)
    returns (ghost stores: seq<Store>)
    requires Encodes(m, us) && multiset(Run(us, ORIGIN, m.values, m.full)) == multiset(cells) && |cells| > 0
    requires RowsWithin(cells, 1, m.nrows) && ColsWithin(cells, m.ncols)
    requires m.rowStart + m.nrows <= y.Length && m.ncols <= |x|
    modifies y
    ensures Multiplied(old(y[..]), y[..], m.rowStart, m.rowStart + m.nrows, beta, Shifted(cells, m.rowStart), x, alpha)
    ensures RowStores(stores, m.rowStart, m.rowStart + m.nrows, y.Length, Shifted(cells, m.rowStart), x, alpha)
    ensures I.Alone([old(y[..])], RowOps(m.rowStart, m.rowStart + m.nrows, y.Length, beta, stores)) == [y[..]]
  {
    hide Run, Encodes, Multiplied, Shifted, RowsWithin, ColsWithin, Inside, InRows, AllWellFormed, Bytes, NrValues,
         RowStores, RowOps, I.Alone;
    EncodesFacts(m, us);
    CompiledCells(m, us, cells, y.Length, |x|);
    SomeUnits(m, us, cells);
    SomeRows(cells, m.nrows);
    stores := DoKernelThread(m, x, y, alpha, beta, us);
    RowStoresPermuted(stores, m.rowStart, m.rowStart + m.nrows, y.Length,
                      Run(us, Pos(m.rowStart + 1, 0), m.values, m.full), Shifted(cells, m.rowStart), x, alpha);
    MultipliedPermuted(old(y[..]), y[..], m.rowStart, m.rowStart + m.nrows, beta,
                       Run(us, Pos(m.rowStart + 1, 0), m.values, m.full), Shifted(cells, m.rowStart), x, alpha);
  }

  /** From the loaded partition to the product: whatever is mined and however it is encoded,
      the rows of the partition become beta * y + alpha * A * x and no other row changes.  When
      no window can be missed and the table has room, there is nothing that can go wrong. */
  method TuneAndMultiply(spm: SparsePartition, mgr: EncodingManager, plan: Plan, surveys: nat -> Encoding -> Report,
                         full: bool, x: seq<real>, y: array<real>, alpha: real, beta: real)
    returns (outcome: Outcome)
    requires Loaded(spm) && spm.nrNonzeros > 0 && mgr.spm == spm && mgr.LimitsOk() && PlanOk(plan, mgr)
    requires mgr.encodedInst == {} && mgr.xformsIgnore == Types(NR_TYPES)
    requires forall n: nat :: mgr.SurveyOk(surveys(n))
    requires spm.rowStart + spm.nrRows <= y.Length && spm.nrCols <= |x|
    modifies mgr, spm`elems, spm`rowptr, spm`ty, spm`elemsSize, y
    ensures outcome.Built? ==>
      Multiplied(old(y[..]), y[..], spm.rowStart, spm.rowStart + spm.nrRows, beta,
                 Shifted(old(spm.CellsOf()), spm.rowStart), x, alpha)
    ensures !outcome.Built? ==> y[..] == old(y[..])
    ensures NoWindowMissed(plan, mgr, old(spm.CellsOf())) && RoomFor(plan, surveys, mgr) ==> outcome.Built?
  {
    hide Run, Encodes, Loaded, Multiplied, Shifted, EncodingManager.SurveyOk, PlanOk, RowsWithin, ColsWithin,
         AllCells, Types, NoWindowMissed, RoomFor, BuildsWithin, NeededIds, Compilable, RowStores, RowOps, I.Alone;
    LoadedInside(spm);
    LoadedFacts(spm);
    ghost var cells := spm.CellsOf();
    ghost var us, blocks;
    outcome, us, blocks := PreprocessThread(spm, mgr, plan, surveys, full);
    if outcome.Built? {
      ghost var stores := MultiplyBuilt(outcome.m, x, y, alpha, beta, us, cells);
    }
  }

  lemma {:induction false} SomeUnits(m: Csx, us: seq<Unit>, cells: seq<Cell>)
    requires Encodes(m, us) && multiset(Run(us, ORIGIN, m.values, m.full)) == multiset(cells) && |cells| > 0
    ensures us != []
  {
    var run := Run(us, ORIGIN, m.values, m.full);
    assert |run| == |multiset(run)| == |multiset(cells)| == |cells|;
  }

  lemma {:induction false} SomeRows(cells: seq<Cell>, n: nat)
    requires |cells| > 0 && RowsWithin(cells, 1, n)
    ensures n >= 1
  {
    assert 1 <= cells[0].row <= n;
  }
}
