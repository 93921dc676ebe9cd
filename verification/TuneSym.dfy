/** From the triplets of a symmetric matrix to its product: cutting, mining, compiling and
    multiplying in one. */
module TuneSym {
  import opened Encodings
  import opened Cells
  import opened Elements
  import opened CtlCodec
  import opened Sides
  import opened Units
  import opened CsxManager
  import opened SparsePartition
  import opened SparsePartitionSym
  import EM = EncodingManager
  import opened CsxBuild
  import opened CsxBuildSym
  import opened CsxSpmv
  import opened Partitions
  import opened PartitionsSym
  import opened ReductionMap
  import opened SymKernels
  import opened SymPhases
  import opened SymSpmv
  import opened MatVecSym
  import M = MatVec

  // ----- The cuts -----

  /** One cut after another. */
  ghost predicate NextIs(cells: seq<Cell>, c: Cut, c': Cut, nnz: nat, left: int) {
    && left > 0 && c.at <= |cells| && c'.at == NextAt(cells, c, Partitions.Limit(nnz, c.cnt, left))
    && c'.rs == c.rs + RowsOf(cells[c.at..c'.at], c.rs)
    && c'.cnt == c.cnt + |LowerOf(cells[c.at..c'.at])| + |DiagOf(cells[c.at..c'.at])|
  }

  ghost predicate CutsAre(cells: seq<Cell>, cuts: seq<Cut>, nnz: nat, nr: nat) {
    && |cuts| == nr + 1 && cuts[0] == Cut(0, 0, 0)
    && forall i :: 0 <= i < nr ==> NextIs(cells, cuts[i], cuts[i + 1], nnz, nr - i)
  }

  /** There is only one way to cut. */
  lemma {:induction false} CutsDetermined(partitions: seq<SparsePartitionSym>, cells: seq<Cell>, cuts: seq<Cut>,
                                          cuts': seq<Cut>, nnz: nat, nr: nat, nrCols: nat, i: nat)
    requires CutsOf(partitions, cells, cuts, nnz, nr, nrCols) && |partitions| == nr && CutsAre(cells, cuts', nnz, nr)
    requires i <= nr
    ensures cuts[i] == cuts'[i]
  {
    hide CutStep, NextIs;
    if i > 0 {
      CutsDetermined(partitions, cells, cuts, cuts', nnz, nr, nrCols, i - 1);
      assert CutStep(partitions[i - 1], cells, cuts[i - 1], cuts[i], nnz, nr - (i - 1), nrCols);
      assert NextIs(cells, cuts'[i - 1], cuts'[i], nnz, nr - (i - 1));
      NextDetermined(partitions[i - 1], cells, cuts[i - 1], cuts[i], cuts'[i], nnz, nr - (i - 1), nrCols);
    }
  }

  lemma {:induction false} NextDetermined(sym: SparsePartitionSym, cells: seq<Cell>, c: Cut, d: Cut, d': Cut, nnz: nat,
                                          left: int, nrCols: nat)
    requires CutStep(sym, cells, c, d, nnz, left, nrCols) && NextIs(cells, c, d', nnz, left)
    ensures d == d'
  {
    hide Loaded, CutOk, LowerOf, DiagOf, RowsOf, NextAt;
    RowsOfLower(cells[c.at..d.at], c.rs);
  }

  /** The condition of FitsIff for every partition, none of them empty. */
  ghost predicate AllFit(cells: seq<Cell>, cuts: seq<Cut>, nr: nat) {
    |cuts| == nr + 1 && forall k :: 0 <= k < nr ==> Fits(cells, cuts[k], cuts[k + 1])
  }

  predicate Fits(cells: seq<Cell>, c: Cut, c': Cut) { c.at < c'.at <= |cells| && EndsLow(cells, c.at, c'.at) }

  /** A symmetric matrix with a full diagonal, and the cuts between its partitions. */
  ghost predicate CutSym(cells: seq<Cell>, cuts: seq<Cut>, n: nat, nr: nat) {
    && Input(cells, n, n) && FullDiagonal(cells, n) && IsSymmetric(cells) && n <= MAX_INDEX && |cells| < TWO_TO_THE_64
    && nr >= 1 && CutsAre(cells, cuts, (|cells| + n) / 2, nr) && AllFit(cells, cuts, nr)
  }

  /** Half of the elements and diagonal are those on and below the diagonal. */
  lemma {:induction false} HalfCount(cells: seq<Cell>, n: nat)
    requires Input(cells, n, n) && FullDiagonal(cells, n) && IsSymmetric(cells) && n >= 1
    ensures (|cells| + n) / 2 == |LowerOf(cells)| + |DiagOf(cells)| <= |cells|
  {
    hide Input, FullDiagonal, LowerOf, DiagOf, DiagCells, UpperOf, DiagFrom;
    ThreeParts(cells);
    LastRow(cells, n);
    RowsSeen(cells, |cells|, n, n);
    DiagonalInOrder(cells, |cells|, n);
    DiagCount(DiagOf(cells), 1);
    assert cells[..|cells|] == cells;
    var lower, upper, diag := LowerOf(cells), UpperOf(cells), DiagCells(cells);
    assert |multiset(cells)| == |cells| && |multiset(lower)| == |lower| && |multiset(upper)| == |upper|
      && |multiset(diag)| == |diag|;
    assert |multiset(Mirrored(lower))| == |Mirrored(lower)| == |lower|;
  }

  lemma {:induction false} DiagCount(dvals: seq<real>, row: int)
    ensures |DiagFrom(dvals, row)| == |dvals|
  {
  }

  function ThreadsBetween(cells: seq<Cell>, cuts: seq<Cut>): (ts: seq<Thread>)
    requires |cuts| >= 1 && forall k :: 0 <= k < |cuts| - 1 ==> Follow(cells, cuts[k], cuts[k + 1])
    ensures |ts| == |cuts| - 1
  {
    seq(|cuts| - 1, k requires 0 <= k < |cuts| - 1 && Follow(cells, cuts[k], cuts[k + 1]) =>
      ThreadOf(cells, cuts[k], cuts[k + 1]))
  }

  predicate Follow(cells: seq<Cell>, c: Cut, c': Cut) { c.at <= c'.at <= |cells| && c.rs <= c'.rs }

  /** What is known of the partitions that have not been mined yet. */
  ghost predicate Pending(partitions: seq<SparsePartitionSym>, cells: seq<Cell>, cuts: seq<Cut>, n: nat, from: nat)
    requires |cuts| == |partitions| + 1
    reads partitions, set i | 0 <= i < |partitions| :: partitions[i].lower,
      set i | 0 <= i < |partitions| :: partitions[i].m1,
      set i | 0 <= i < |partitions| :: partitions[i].m2
  {
    forall i :: from <= i < |partitions| ==> Waiting(partitions[i], cells, cuts[i], cuts[i + 1], n)
  }

  ghost predicate Waiting(sym: SparsePartitionSym, cells: seq<Cell>, c: Cut, c': Cut, n: nat)
    reads sym, sym.lower, sym.m1, sym.m2
  {
    && IsPartitionSym(sym, cells, c, c', n) && LoadedSym(sym)
    && CutOk(cells, c) && CutOk(cells, c') && c.at < c'.at && c.rs == RowBefore(cells, c.at)
    && c'.rs == RowBefore(cells, c'.at)
  }

  /** After cutting, all partitions wait to be mined, and they are the shares of the threads. */
  lemma {:induction false} AllWait(partitions: seq<SparsePartitionSym>, cells: seq<Cell>, cuts: seq<Cut>, n: nat,
                                   nr: nat)
    requires CutSym(cells, cuts, n, nr) && |partitions| == nr
    requires CutsOf(partitions, cells, cuts, (|cells| + n) / 2, nr, n)
    ensures Pending(partitions, cells, cuts, n, 0) && cuts[nr].at == |cells| && cuts[nr].cnt == (|cells| + n) / 2
    ensures forall k :: 0 <= k < nr ==> Follow(cells, cuts[k], cuts[k + 1])
    ensures ThreadsOf(ThreadsBetween(cells, cuts), cells, cuts, n)
  {
    hide Input, FullDiagonal, IsSymmetric, CutsOf, CutOk, IsPartitionSym, LoadedSym, EndsLow, RowBefore, LowerOf,
         DiagOf, Partitions.Limit, NextAt, ThreadOf;
    var nnz := (|cells| + n) / 2;
    FirstOf(partitions, cells, cuts, nnz, nr, n);
    forall k: nat | k < nr ensures FitsAt(cells, cuts, k) {
      assert Fits(cells, cuts[k], cuts[k + 1]);
    }
    forall k | 0 <= k < nr
      ensures Waiting(partitions[k], cells, cuts[k], cuts[k + 1], n) && Follow(cells, cuts[k], cuts[k + 1])
    {
      assert Fits(cells, cuts[k], cuts[k + 1]);
      StepOf(partitions, cells, cuts, nnz, nr, n, k);
      StartsRight(partitions, cells, cuts, nnz, nr, n, n, k + 1);
      StartsRight(partitions, cells, cuts, nnz, nr, n, n, k);
      CutRows(cells, cuts[k], cuts[k + 1], n);
    }
    assert Waiting(partitions[nr - 1], cells, cuts[nr - 1], cuts[nr], n);
    SomeRow(cells, n);
    HalfCount(cells, n);
    assert NextIs(cells, cuts[nr - 1], cuts[nr], nnz, 1);
    LastTakesAll(cells, cuts[nr - 1], nnz);
    AllCounted(cells, cuts[nr]);
  }

  lemma {:induction false} AllCounted(cells: seq<Cell>, c: Cut)
    requires CutOk(cells, c) && c.at == |cells|
    ensures c.cnt == |LowerOf(cells)| + |DiagOf(cells)|
  {
    hide LowerOf, DiagOf;
    assert cells[..c.at] == cells;
  }

  lemma {:induction false} SomeRow(cells: seq<Cell>, n: nat)
    requires Input(cells, n, n) && |cells| > 0
    ensures n >= 1
  {
    assert 1 <= cells[0].row <= n;
  }

  // ----- The reduction map -----

  /** The columns of the elements as they are loaded, for the map that is made before mining. */
  method PartsFrom(partitions: seq<SparsePartitionSym>, ghost cells: seq<Cell>, ghost cuts: seq<Cut>,
                   ghost ts: seq<Thread>, ghost n: nat)
    returns (parts: seq<Part>)
    requires |cuts| == |partitions| + 1 && Pending(partitions, cells, cuts, n, 0)
    requires ThreadsOf(ts, cells, cuts, n) && |ts| == |partitions| && ThreadsOk(ts, n)
    ensures parts == PartsOf(ts, n)
  {
    hide IsPartitionSym, LoadedSym, CutOk, RowBefore, ThreadOk;
    parts := [];
    for i := 0 to |partitions|
      invariant |parts| == i && forall k :: 0 <= k < i ==> ThreadOk(ts[k], n) && parts[k] == PartOf(ts[k], n)
    {
      var sym := partitions[i];
      assert Waiting(sym, cells, cuts[i], cuts[i + 1], n);
      assert ThreadBetween(ts[i], cells, cuts[i], cuts[i + 1]);
      PartitionColumns(sym, cells, cuts[i], cuts[i + 1], n);
      var elems := sym.lower.elems;
      ghost var part := PartOf(ts[i], n);
      assert forall k :: 0 <= k < |elems| ==> elems[k].col == part.cols[k];
      var cols := seq(|elems|, k requires 0 <= k < |elems| && elems[k].col >= 0 => elems[k].col as nat);
      assert cols == part.cols;
      parts := parts + [Part(sym.lower.rowStart, cols)];
    }
  }

  // ----- Mining and compiling -----

  /** Nothing can keep the part between the cuts from being built. */
  ghost predicate SymBuildable(config: EM.EncodingManager, plan: Plan, surveys1: nat -> Encoding -> EM.Report,
                               surveys2: nat -> Encoding -> EM.Report, cells: seq<Cell>, c: Cut, c': Cut)
  {
    && c.at <= c'.at <= |cells|
    && NoHalfMissed(plan, config, config, Shifted(LowerOf(cells[c.at..c'.at]), 0 - c.rs), c.rs)
    && RoomForBoth(plan, surveys1, surveys2, config, config)
  }

  lemma {:induction false} LikeSymBuildable(mgr1: EM.EncodingManager, mgr2: EM.EncodingManager,
                                            config: EM.EncodingManager, plan: Plan,
                                            surveys1: nat -> Encoding -> EM.Report,
                                            surveys2: nat -> Encoding -> EM.Report, cells: seq<Cell>, c: Cut, c': Cut)
    requires M.Alike(mgr1, config) && M.Alike(mgr2, config)
    requires SymBuildable(config, plan, surveys1, surveys2, cells, c, c')
    ensures NoHalfMissed(plan, mgr1, mgr2, Shifted(LowerOf(cells[c.at..c'.at]), 0 - c.rs), c.rs)
    ensures RoomForBoth(plan, surveys1, surveys2, mgr1, mgr2)
  {
    hide MayBuild, SideCells, LowerOf;
    var room :| InRoom(room, plan, surveys1, config) && InRoom(room, plan, surveys2, config)
      && |room| + 4 <= MAX_PATTERNS;
    M.LikeMayBuild(mgr1, config, plan, surveys1);
    M.LikeMayBuild(mgr2, config, plan, surveys2);
    assert InRoom(room, plan, surveys1, mgr1) && InRoom(room, plan, surveys2, mgr2);
  }

  /** A manager for one half, with what has been configured. */
  method ManagerFor(spm: SparsePartition, config: EM.EncodingManager, plan: Plan,
                    ghost surveys: nat -> nat -> Encoding -> EM.Report, ghost id: nat)
    returns (mgr: EM.EncodingManager)
    requires M.Configured(config, plan, surveys)
    ensures fresh(mgr) && M.ManagerOk(mgr, spm, plan, surveys(id)) && M.Alike(mgr, config)
  {
    hide M.Configured, EM.Types;
    mgr := new EM.EncodingManager(spm, config.minLimit, config.maxLimit, config.splitBlocks, config.useNuma,
                                  config.samplingEnabled, config.samples);
    M.LikeConfig(mgr, config, plan, surveys, id);
  }

  lemma {:induction false} WaitingFacts(sym: SparsePartitionSym, cells: seq<Cell>, c: Cut, c': Cut, n: nat)
    requires Waiting(sym, cells, c, c', n)
    ensures IsPartitionSym(sym, cells, c, c', n) && LoadedSym(sym) && CutOk(cells, c) && CutOk(cells, c')
    ensures c.at < c'.at <= |cells| && c.rs == RowBefore(cells, c.at) && c'.rs == RowBefore(cells, c'.at)
    ensures c.rs <= c'.rs
    ensures c.rs == sym.lower.rowStart && sym.m1 != sym.m2
    ensures sym.lower.Valid() && sym.lower.elemsSize <= |sym.lower.elems|
  {
    hide Loaded, CutOk;
    LowerFacts(sym);
  }

  /** Mines and compiles one partition. */
  method BuildOneSym(id: nat, sym: SparsePartitionSym, config: EM.EncodingManager, plan: Plan,
                     surveys1: nat -> nat -> Encoding -> EM.Report, surveys2: nat -> nat -> Encoding -> EM.Report,
                     full: bool, ghost cells: seq<Cell>, ghost c: Cut, ghost c': Cut, ghost n: nat)
    returns (outcome: SymOutcome, ghost us: seq<Unit>, ghost lower: seq<Cell>)
    requires Input(cells, n, n) && FullDiagonal(cells, n) && Waiting(sym, cells, c, c', n)
    requires M.Configured(config, plan, surveys1) && M.Configured(config, plan, surveys2)
    modifies sym`lower, sym.m1, sym.m2
    ensures c.at <= c'.at <= |cells| && c.rs <= c'.rs
    ensures outcome.SymBuilt? ==> Compiled(outcome.sm, us, lower, ThreadOf(cells, c, c'))
    ensures SymBuildable(config, plan, surveys1(id), surveys2(id), cells, c, c') ==> outcome.SymBuilt?
  {
    hide Input, FullDiagonal, IsPartitionSym, LoadedSym, CutOk, RowBefore, Encodes, Run, Sided, Shifted, LowerOf,
         AllShaped, M.Configured, NoHalfMissed, RoomForBoth, BelowDiagonal, RowsWithin, EM.Types, PlanOk,
         EM.EncodingManager.SurveyOk, AllCells;
    WaitingFacts(sym, cells, c, c', n);
    PartitionThread(sym, cells, c, c', n);
    lower := sym.lower.CellsOf();
    ghost var t := ThreadOf(cells, c, c');
    M.ShiftedBack(lower, c.rs);
    var mgr1 := ManagerFor(sym.m1, config, plan, surveys1, id);
    var mgr2 := ManagerFor(sym.m2, config, plan, surveys2, id);
    if SymBuildable(config, plan, surveys1(id), surveys2(id), cells, c, c') {
      LikeSymBuildable(mgr1, mgr2, config, plan, surveys1(id), surveys2(id), cells, c, c');
    }
    outcome, us := PreprocessThreadSym(id, sym, mgr1, mgr2, plan, surveys1(id), surveys2(id), full);
    if outcome.SymBuilt? {
      BuiltThread(outcome.sm, us, lower, t, n);
    }
  }

  /** The partitions that have not been mined yet have nothing in common. */
  ghost predicate Apart(partitions: seq<SparsePartitionSym>, from: nat)
    reads partitions
  {
    forall i, j :: from <= i < j < |partitions| ==> Separate(partitions[i], partitions[j])
  }

  method BuildNextSym(ghost partitions: seq<SparsePartitionSym>, i: nat, sym: SparsePartitionSym,
                      config: EM.EncodingManager, plan: Plan, surveys1: nat -> nat -> Encoding -> EM.Report,
                      surveys2: nat -> nat -> Encoding -> EM.Report, full: bool, ghost cells: seq<Cell>,
                      ghost cuts: seq<Cut>, ghost n: nat)
    returns (outcome: SymOutcome, ghost us: seq<Unit>, ghost lower: seq<Cell>)
    requires i < |partitions| && sym == partitions[i] && |cuts| == |partitions| + 1
    requires Pending(partitions, cells, cuts, n, i) && Apart(partitions, i)
    requires Input(cells, n, n) && FullDiagonal(cells, n)
    requires M.Configured(config, plan, surveys1) && M.Configured(config, plan, surveys2)
    modifies sym`lower, sym.m1, sym.m2
    ensures Pending(partitions, cells, cuts, n, i + 1) && Apart(partitions, i + 1)
    ensures Follow(cells, cuts[i], cuts[i + 1])
    ensures outcome.SymBuilt? ==> Compiled(outcome.sm, us, lower, ThreadOf(cells, cuts[i], cuts[i + 1]))
    ensures SymBuildable(config, plan, surveys1(i), surveys2(i), cells, cuts[i], cuts[i + 1]) ==> outcome.SymBuilt?
  {
    hide Input, FullDiagonal, Waiting, M.Configured, Compiled, ThreadOf, SymBuildable;
    outcome, us, lower := BuildOneSym(i, sym, config, plan, surveys1, surveys2, full, cells, cuts[i], cuts[i + 1], n);
  }

  /** Nothing can keep any of the parts from being built. */
  ghost predicate AllSymBuildable(config: EM.EncodingManager, plan: Plan, surveys1: nat -> nat -> Encoding -> EM.Report,
                                  surveys2: nat -> nat -> Encoding -> EM.Report, cells: seq<Cell>, cuts: seq<Cut>)
  {
    forall i: nat :: i + 1 < |cuts| ==>
      SymBuildable(config, plan, surveys1(i), surveys2(i), cells, cuts[i], cuts[i + 1])
  }

  /** Mines and compiles all partitions. */
  method BuildAllSym(partitions: seq<SparsePartitionSym>, config: EM.EncodingManager, plan: Plan,
                     surveys1: nat -> nat -> Encoding -> EM.Report, surveys2: nat -> nat -> Encoding -> EM.Report,
                     full: bool, ghost cells: seq<Cell>, ghost cuts: seq<Cut>, ghost ts: seq<Thread>, ghost n: nat)
    returns (sms: seq<CsxSym>, ok: bool, ghost uss: seq<seq<Unit>>, ghost lowers: seq<seq<Cell>>)
    requires |cuts| == |partitions| + 1 == |ts| + 1 && Pending(partitions, cells, cuts, n, 0) && Apart(partitions, 0)
    requires Input(cells, n, n) && FullDiagonal(cells, n) && ThreadsOf(ts, cells, cuts, n)
    requires M.Configured(config, plan, surveys1) && M.Configured(config, plan, surveys2)
    modifies partitions, set i | 0 <= i < |partitions| :: partitions[i].m1,
      set i | 0 <= i < |partitions| :: partitions[i].m2
    ensures ok ==> AllCompiled(sms, uss, lowers, ts)
    ensures AllSymBuildable(config, plan, surveys1, surveys2, cells, cuts) ==> ok
  {
    hide Input, FullDiagonal, Pending, Apart, M.Configured, Compiled, ThreadOf, SymBuildable, CutOk, RowBefore;
    sms, uss, lowers, ok := [], [], [], true;
    for i := 0 to |partitions|
      invariant |sms| == |uss| == |lowers| == i && forall k :: 0 <= k < i ==> Compiled(sms[k], uss[k], lowers[k], ts[k])
      invariant Pending(partitions, cells, cuts, n, i) && Apart(partitions, i)
      invariant forall k :: 0 <= k < |partitions| ==>
        partitions[k].m1 == old(partitions[k].m1) && partitions[k].m2 == old(partitions[k].m2)
    {
      assert ThreadBetween(ts[i], cells, cuts[i], cuts[i + 1]);
      assert partitions[i].m1 == old(partitions[i].m1) && partitions[i].m2 == old(partitions[i].m2);
      var outcome;
      ghost var us, lower;
      outcome, us, lower := BuildNextSym(partitions, i, partitions[i], config, plan, surveys1, surveys2, full, cells,
                                         cuts, n);
      if !outcome.SymBuilt? {
        ok := false;
        return;
      }
      sms, uss, lowers := sms + [outcome.sm], uss + [us], lowers + [lower];
    }
  }

  /** Cuts the matrix, which is accepted; the partitions are the shares of the threads. */
  method CutMatrix(cells: seq<Cell>, ghost cuts: seq<Cut>, n: nat, nr: nat)
    returns (partitions: seq<SparsePartitionSym>, ghost ts: seq<Thread>)
    requires CutSym(cells, cuts, n, nr)
    ensures |partitions| == nr && |cuts| == nr + 1 && Pending(partitions, cells, cuts, n, 0) && Apart(partitions, 0)
    ensures forall i :: 0 <= i < nr ==> fresh(partitions[i]) && fresh(partitions[i].m1) && fresh(partitions[i].m2)
    ensures ThreadsOf(ts, cells, cuts, n) && |ts| == nr && ThreadsOk(ts, n) && cuts[nr].at == |cells|
  {
    hide Input, FullDiagonal, IsSymmetric, CutsAre, AllFit, Pending, ThreadsOk, ThreadsOf, CutStep, Separate, ThreadOf;
    var accepted;
    ghost var cuts';
    partitions, accepted, cuts' := BuildPartitionsSym(cells, |cells|, n, n, nr);
    SameCuts(partitions, cells, cuts', cuts, n, nr);
    AllWait(partitions, cells, cuts, n, nr);
    assert accepted;
    ts := ThreadsBetween(cells, cuts);
    ThreadsMeet(ts, cells, cuts, n);
  }

  /** From the triplets to the compiled partitions and the reduction map. */
  method TuneSymMatrix(cells: seq<Cell>, ghost cuts: seq<Cut>, n: nat, nr: nat, config: EM.EncodingManager, plan: Plan,
                       surveys1: nat -> nat -> Encoding -> EM.Report, surveys2: nat -> nat -> Encoding -> EM.Report,
                       full: bool)
    returns (sms: seq<CsxSym>, maps: seq<Map>, ok: bool,
             ghost uss: seq<seq<Unit>>, ghost lowers: seq<seq<Cell>>, ghost ts: seq<Thread>, ghost ends: seq<nat>)
    requires CutSym(cells, cuts, n, nr)
    requires M.Configured(config, plan, surveys1) && M.Configured(config, plan, surveys2)
    ensures ThreadsOf(ts, cells, cuts, n) && |ts| == nr && |cuts| == nr + 1 && cuts[nr].at == |cells|
    ensures ThreadsOk(ts, n) && MapsOk(PartsOf(ts, n), maps, ends, n)
    ensures ok ==> AllCompiled(sms, uss, lowers, ts)
    ensures AllSymBuildable(config, plan, surveys1, surveys2, cells, cuts) ==> ok
  {
    hide Input, FullDiagonal, IsSymmetric, CutsAre, AllFit, Pending, Apart, ThreadsOk, PartsOk, ReductionMap.Divided,
         Balanced, ThreadsOf, AllCompiled, AllSymBuildable, M.Configured, PartsOf;
    var partitions;
    partitions, ts := CutMatrix(cells, cuts, n, nr);
    FirstPart(ts, n);
    var parts := PartsFrom(partitions, cells, cuts, ts, n);
    maps, ends := MakeMap(parts, n);
    sms, ok, uss, lowers := BuildAllSym(partitions, config, plan, surveys1, surveys2, full, cells, cuts, ts, n);
  }

  lemma {:induction false} SameCuts(partitions: seq<SparsePartitionSym>, cells: seq<Cell>, cuts: seq<Cut>,
                                    cuts': seq<Cut>, n: nat, nr: nat)
    requires CutSym(cells, cuts', n, nr) && |partitions| == nr
    requires CutsOf(partitions, cells, cuts, (|cells| + n) / 2, nr, n)
    ensures cuts == cuts'
  {
    hide CutStep, NextIs, AllFit, Input, FullDiagonal, IsSymmetric;
    forall i | 0 <= i <= nr ensures cuts[i] == cuts'[i] {
      CutsDetermined(partitions, cells, cuts, cuts', (|cells| + n) / 2, nr, n, i);
    }
  }

  // ----- The product -----

  /** The vector and a local buffer for every other thread. */
  method LocalBuffers(y: array<real>, nr: nat) returns (bufs: seq<array<real>>)
    requires nr >= 1
    ensures |bufs| == nr && bufs[0] == y && Buffers(bufs, y.Length)
    ensures forall i :: 1 <= i < nr ==> fresh(bufs[i])
  {
    bufs := [y];
    for i := 1 to nr
      invariant |bufs| == i && bufs[0] == y && Buffers(bufs, y.Length)
      invariant forall k :: 1 <= k < i ==> fresh(bufs[k])
    {
      var buf := new real[y.Length];
      bufs := bufs + [buf];
    }
  }

  /** From the triplets of a symmetric matrix to the product: only half of it is cut, mined and
      compiled, and y becomes beta * y + alpha * A * x in all rows. */
  method TuneAndMatVecSym(cells: seq<Cell>, ghost cuts: seq<Cut>, nr: nat, config: EM.EncodingManager, plan: Plan,
                          surveys1: nat -> nat -> Encoding -> EM.Report, surveys2: nat -> nat -> Encoding -> EM.Report,
                          full: bool, x: seq<real>, y: array<real>, alpha: real, beta: real)
    returns (ok: bool)
    requires y.Length == |x| && CutSym(cells, cuts, |x|, nr)
    requires M.Configured(config, plan, surveys1) && M.Configured(config, plan, surveys2)
    modifies y
    ensures ColsWithin(cells, |x|)
    ensures ok ==> forall r: nat :: r < |x| ==> y[r] == Prod(old(y[r]), beta) + Dot(cells, r + 1, x, alpha)
    ensures !ok ==> y[..] == old(y[..])
    ensures AllSymBuildable(config, plan, surveys1, surveys2, cells, cuts) ==> ok
  {
    hide Input, FullDiagonal, IsSymmetric, CutsAre, AllFit, ThreadsOk, MapsOk, ThreadsOf, AllCompiled, AllSymBuildable,
         M.Configured, PartsOf, Whole, Dot, ColsWithin, RowOwned, Prod, InAnyOrder, Contents, AllStores, Buffers;
    var sms, maps;
    ghost var uss, lowers, ts, ends;
    sms, maps, ok, uss, lowers, ts, ends := TuneSymMatrix(cells, cuts, |x|, nr, config, plan, surveys1, surveys2, full);
    WholeIsInput(ts, cells, cuts, |x|, 0, x, alpha);
    if ok {
      var bufs := LocalBuffers(y, nr);
      ManyCompiled(sms, uss, lowers, ts);
      ghost var stores := MatVecKernelSym(sms, maps, bufs, x, alpha, beta, uss, lowers, ts, ends);
      forall r: nat | r < |x| ensures y[r] == Prod(old(y[r]), beta) + Dot(cells, r + 1, x, alpha) {
        AllRowsOwned(ts, cells, cuts, |x|, r);
        WholeIsInput(ts, cells, cuts, |x|, r + 1, x, alpha);
      }
    }
  }

  lemma {:induction false} ManyCompiled(sms: seq<CsxSym>, uss: seq<seq<Unit>>, lowers: seq<seq<Cell>>, ts: seq<Thread>)
    requires AllCompiled(sms, uss, lowers, ts)
    ensures |sms| == |ts|
  {
  }
}
