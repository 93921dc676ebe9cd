/** Building one compiled partition of a symmetric matrix: its two halves are mined apart. */
module CsxBuildSym {
  import opened Encodings
  import opened Cells
  import opened CtlCodec
  import opened Elements
  import opened RunLength
  import opened PatternIds
  import opened Rewriting
  import opened Units
  import opened Sides
  import opened CsxManager
  import opened SparsePartition
  import opened SparsePartitionSym
  import opened EncodingManager
  import opened CsxBuild
  import opened SymKernels

  datatype SymOutcome =
    | SymBuilt(sm: CsxSym)
    | SymSampleBehindLastRow
    | SymPatternTableFull

  /** A partition of a symmetric matrix as it is loaded: below the diagonal only single
      elements, and one diagonal entry for every row. */
  ghost predicate LoadedSym(sym: SparsePartitionSym)
    reads sym, sym.lower, sym.m1, sym.m2
  {
    && Loaded(sym.lower) && sym.lower.nrRows == |sym.lower.rowptr| - 1 == |sym.diagonal|
    && sym.lower != sym.m1 && sym.lower != sym.m2 && sym.m1 != sym.m2
    && sym.m1.elems == sym.m2.elems == [] && sym.m1.nrNonzeros == sym.m2.nrNonzeros == 0
  }

  /** A half of a loaded partition is itself loaded. */
  lemma {:induction false} HalfLoaded(m: SparsePartition, es: seq<Element>, rs: nat, near: bool, d: Dims)
    requires m.elems == Half(es, rs, near) && m.elemsSize == m.nrNonzeros == |m.elems|
    requires IsRowptr(m.rowptr, m.elems) && Tight(m.rowptr, m.elems)
    requires m.ty == Horizontal && m.nrCols == d.cols <= MAX_INDEX && m.nrRows == |m.rowptr| - 1
    requires AllShaped(es) && Sorted(es) && StartsInBounds(es, Horizontal, d)
    requires forall i :: 0 <= i < |es| ==> !es[i].IsPattern()
    ensures Loaded(m)
    ensures AllShaped(m.Live()) && m.Live() == m.elems && OnSide(AllCells(m.Live(), Horizontal, m.D()), rs, near)
  {
    hide IsRowptr, Shaped, Half, Sorted;
    HalfFacts(es, rs, near);
    assert m.elems[..m.elemsSize] == m.elems;
    forall i | 0 <= i < |m.elems|
      ensures Shaped(m.elems[i]) && !m.elems[i].IsPattern() && 1 <= m.elems[i].row && 1 <= m.elems[i].col <= d.cols
    {
      var k :| 0 <= k < |es| && es[k] == m.elems[i];
    }
    RowsBounded(m.rowptr, m.elems);
    SinglesSide(m.elems, rs, near, m.D());
  }

  lemma {:induction false} RowsBounded(rp: seq<nat>, es: seq<Element>)
    requires Sorted(es) && Tight(rp, es) && |rp| >= 1
    ensures forall i :: 0 <= i < |es| ==> es[i].row <= |rp| - 1
  {
    forall i | 0 <= i < |es| ensures es[i].row <= |rp| - 1 {
      if i < |es| - 1 {
        assert Before(es[i].At(), es[|es| - 1].At());
      }
    }
  }

  lemma {:induction false} SinglesSide(es: seq<Element>, rs: nat, near: bool, d: Dims)
    requires AllShaped(es) && forall i :: 0 <= i < |es| ==> !es[i].IsPattern() && (near <==> es[i].col > rs)
    ensures OnSide(AllCells(es, Horizontal, d), rs, near)
  {
    if es != [] {
      SinglesSide(es[1..], rs, near, d);
      assert ElemCells(es[0], Horizontal, d) == [Cell(es[0].row, es[0].col, es[0].vals[0])];
    }
  }

  // ----- What mining leaves of the sides -----

  lemma {:induction false} SidePermuted(a: seq<Cell>, b: seq<Cell>, rs: nat, near: bool)
    requires multiset(a) == multiset(b) && OnSide(a, rs, near)
    ensures OnSide(b, rs, near)
  {
    forall i | 0 <= i < |b| ensures near <==> b[i].col > rs {
      assert b[i] in multiset(a);
    }
  }

  /** If all cells lie on one side, so do those of every element. */
  lemma {:induction false} ElementsSided(es: seq<Element>, rs: nat, near: bool, d: Dims)
    requires AllShaped(es) && OnSide(AllCells(es, Horizontal, d), rs, near)
    ensures forall i :: 0 <= i < |es| ==>
      OnSide(ElemCells(es[i], Horizontal, d), rs, near) && (near <==> es[i].col > rs)
  {
    if es != [] {
      hide ElemCells;
      OnSideConcat(ElemCells(es[0], Horizontal, d), AllCells(es[1..], Horizontal, d), rs, near);
      assert Shaped(es[0]);
      FirstOfElement(es[0], d);
      FirstSide(ElemCells(es[0], Horizontal, d), rs, near);
      ElementsSided(es[1..], rs, near, d);
    }
  }

  lemma {:induction false} FirstOfElement(e: Element, d: Dims)
    requires Shaped(e)
    ensures var cs := ElemCells(e, Horizontal, d); cs != [] && cs[0].row == e.row && cs[0].col == e.col
  {
  }

  /** The last cell of a horizontal run is one of its cells. */
  lemma {:induction false} EndOnSide(e: Element, rs: nat, near: bool, d: Dims)
    requires Shaped(e) && OnSide(ElemCells(e, Horizontal, d), rs, near)
    ensures near <==> HEnd(e, Horizontal, d).col > rs
  {
    var cs := ElemCells(e, Horizontal, d);
    assert cs[0].col == e.col;
    if e.inst.ty.Horizontal? {
      assert cs[|e.vals| - 1].col == Walk(e.col, Step(e.inst), |e.vals| - 1);
    }
  }

  // ----- The merged lower triangle -----

  /** The merged halves are readable left to right: no element of the first half reaches into
      the second. */
  lemma {:induction false} MergedReadable(m: seq<Element>, es1: seq<Element>, es2: seq<Element>, rs: nat, d: Dims)
    requires forall k :: 0 <= k < |m| ==> m[k] in es1 || m[k] in es2
    requires AllShaped(es1) && AllShaped(es2) && Readable(es1, Horizontal, d) && Readable(es2, Horizontal, d)
    requires OnSide(AllCells(es1, Horizontal, d), rs, false) && OnSide(AllCells(es2, Horizontal, d), rs, true)
    ensures Readable(m, Horizontal, d)
  {
    hide HEnd, HStart, Shaped, ElemCells, AllCells, OnSide;
    ElementsSided(es1, rs, false, d);
    ElementsSided(es2, rs, true, d);
    forall i, j | 0 <= i < |m| && 0 <= j < |m| && Before(HStart(m[i], Horizontal, d), HStart(m[j], Horizontal, d))
      ensures Before(HEnd(m[i], Horizontal, d), HStart(m[j], Horizontal, d))
    {
      StartIs(m[i], d);
      StartIs(m[j], d);
      if m[i] in es1 && m[j] in es1 {
        SameHalf(es1, m[i], m[j], d);
      } else if m[i] in es2 && m[j] in es2 {
        SameHalf(es2, m[i], m[j], d);
      } else if m[i] in es1 {
        var p :| 0 <= p < |es1| && es1[p] == m[i];
        var q :| 0 <= q < |es2| && es2[q] == m[j];
        EndOnSide(es1[p], rs, false, d);
      } else {
        var p :| 0 <= p < |es2| && es2[p] == m[i];
        var q :| 0 <= q < |es1| && es1[q] == m[j];
      }
    }
  }

  lemma {:induction false} StartIs(e: Element, d: Dims)
    ensures HStart(e, Horizontal, d) == e.At() && HEnd(e, Horizontal, d).row == e.row
  {
  }

  lemma {:induction false} SameHalf(es: seq<Element>, a: Element, b: Element, d: Dims)
    requires a in es && b in es && Readable(es, Horizontal, d)
    requires Before(HStart(a, Horizontal, d), HStart(b, Horizontal, d))
    ensures Before(HEnd(a, Horizontal, d), HStart(b, Horizontal, d))
  {
    var p :| 0 <= p < |es| && es[p] == a;
    var q :| 0 <= q < |es| && es[q] == b;
  }

  /** What is needed of both halves. */
  ghost predicate MinedHalf(m: SparsePartition, rs: nat, near: bool, rows: nat, cols: nat)
    reads m
  {
    && m.Valid() && m.ty == Horizontal && AllFine(m.Live()) && Readable(m.Live(), Horizontal, m.D())
    && m.nrNonzeros == |m.CellsOf()| && m.nrRows <= rows && |m.rowptr| - 1 <= m.nrRows && m.nrCols == cols
    && OnSide(m.CellsOf(), rs, near)
  }

  /** In row-major order, cells do not depend on the dimensions. */
  lemma {:induction false} AnyDims(es: seq<Element>, d: Dims, d': Dims)
    requires AllShaped(es)
    ensures AllCells(es, Horizontal, d) == AllCells(es, Horizontal, d')
  {
    if es != [] {
      AnyDims(es[1..], d, d');
    }
  }

  lemma {:induction false} ReadableAnyDims(es: seq<Element>, d: Dims, d': Dims)
    requires Readable(es, Horizontal, d)
    ensures Readable(es, Horizontal, d')
  {
    forall i, j | 0 <= i < |es| && 0 <= j < |es| && Before(HStart(es[i], Horizontal, d'), HStart(es[j], Horizontal, d'))
      ensures Before(HEnd(es[i], Horizontal, d'), HStart(es[j], Horizontal, d'))
    {
      assert HStart(es[i], Horizontal, d) == HStart(es[i], Horizontal, d')
        && HStart(es[j], Horizontal, d) == HStart(es[j], Horizontal, d');
      assert HEnd(es[i], Horizontal, d) == HEnd(es[i], Horizontal, d');
    }
  }

  lemma {:induction false} HalfParts(m: SparsePartition, rs: nat, near: bool, rows: nat, cols: nat, d: Dims)
    requires MinedHalf(m, rs, near, rows, cols) && d.cols == cols && d.rows == rows
    ensures m.elemsSize <= |m.elems| && IsRowptr(m.rowptr, m.Live()) && Sorted(m.Live()) && AllShaped(m.Live())
    ensures AllFine(m.Live()) && Readable(m.Live(), Horizontal, d) && StartsInBounds(m.Live(), Horizontal, d)
    ensures OnSide(AllCells(m.Live(), Horizontal, d), rs, near) && |AllCells(m.Live(), Horizontal, d)| == m.nrNonzeros
    ensures m.ty == Horizontal && AllCells(m.Live(), Horizontal, d) == m.CellsOf()
    ensures |m.rowptr| - 1 <= rows
    ensures forall i :: 0 <= i < |m.Live()| ==> (near <==> m.Live()[i].col > rs)
  {
    hide IsRowptr, Sorted, Shaped, Readable, AllFine, OnSide;
    AnyDims(m.Live(), m.D(), d);
    ReadableAnyDims(m.Live(), m.D(), d);
    ElementsSided(m.Live(), rs, near, d);
    forall i | 0 <= i < |m.Live()| ensures InBounds(ToHoriz(Horizontal, m.Live()[i].At(), d), d) {
      assert InBounds(ToHoriz(Horizontal, m.Live()[i].At(), m.D()), m.D());
    }
  }

  /** The merged list of elements. */
  lemma {:induction false} MergedList(rp1: seq<nat>, es1: seq<Element>, rp2: seq<nat>, es2: seq<Element>, rs: nat,
                                      n: nat, d: Dims)
    requires IsRowptr(rp1, es1) && IsRowptr(rp2, es2) && Sorted(es1) && Sorted(es2) && AllShaped(es1) && AllShaped(es2)
    requires AllFine(es1) && AllFine(es2) && Readable(es1, Horizontal, d) && Readable(es2, Horizontal, d)
    requires StartsInBounds(es1, Horizontal, d) && StartsInBounds(es2, Horizontal, d)
    requires OnSide(AllCells(es1, Horizontal, d), rs, false) && OnSide(AllCells(es2, Horizontal, d), rs, true)
    requires |rp1| <= n + 1 && |rp2| <= n + 1
    ensures var m := Merge(rp1, es1, rp2, es2, n);
            && Sorted(m) && AllShaped(m) && AllFine(m) && StartsInBounds(m, Horizontal, d) && Readable(m, Horizontal, d)
            && SidedElems(m, rs, d) && InstsOf(m) <= InstsOf(es1) + InstsOf(es2)
            && multiset(AllCells(m, Horizontal, d))
                 == multiset(AllCells(es1, Horizontal, d)) + multiset(AllCells(es2, Horizontal, d))
  {
    hide IsRowptr, Sorted, Readable, AllFine, OnSide, Merge, AllCells, ElemCells, Fine, StartsInBounds, InstsOf;
    var m := Merge(rp1, es1, rp2, es2, n);
    ElementsSided(es1, rs, false, d);
    ElementsSided(es2, rs, true, d);
    MergeSorted(rp1, es1, rp2, es2, rs, n);
    MergeWhole(rp1, es1, rp2, es2, n);
    WholePrefix(rp1, es1, n);
    WholePrefix(rp2, es2, n);
    MergedReadable(m, es1, es2, rs, d);
    forall k | 0 <= k < |m|
      ensures Shaped(m[k]) && OnSide(ElemCells(m[k], Horizontal, d), rs, m[k].col > rs)
    {
      if m[k] in es1 {
        var p :| 0 <= p < |es1| && es1[p] == m[k];
      } else {
        var p :| 0 <= p < |es2| && es2[p] == m[k];
      }
    }
    FineBoth(m, es1, es2, d);
    InstsOfBoth(m, es1, es2);
    AllCellsConcat(es1, es2, Horizontal, d);
    AllCellsPermuted(es1 + es2, m, Horizontal, d);
  }

  lemma {:induction false} InstsOfBoth(m: seq<Element>, es1: seq<Element>, es2: seq<Element>)
    requires forall k :: 0 <= k < |m| ==> m[k] in es1 || m[k] in es2
    ensures InstsOf(m) <= InstsOf(es1) + InstsOf(es2)
  {
    forall i | i in InstsOf(m) ensures i in InstsOf(es1) || i in InstsOf(es2) {
      var k :| 0 <= k < |m| && m[k].IsPattern() && m[k].inst == i;
      if m[k] in es1 {
        var p :| 0 <= p < |es1| && es1[p] == m[k];
      } else {
        var p :| 0 <= p < |es2| && es2[p] == m[k];
      }
    }
  }

  lemma {:induction false} FineBoth(m: seq<Element>, es1: seq<Element>, es2: seq<Element>, d: Dims)
    requires forall k :: 0 <= k < |m| ==> m[k] in es1 || m[k] in es2
    requires AllFine(es1) && AllFine(es2) && StartsInBounds(es1, Horizontal, d) && StartsInBounds(es2, Horizontal, d)
    ensures AllFine(m) && StartsInBounds(m, Horizontal, d)
  {
    hide Fine, ToHoriz;
    forall k | 0 <= k < |m| ensures Fine(m[k]) && InBounds(ToHoriz(Horizontal, m[k].At(), d), d) {
      if m[k] in es1 {
        var p :| 0 <= p < |es1| && es1[p] == m[k];
      } else {
        var p :| 0 <= p < |es2| && es2[p] == m[k];
      }
    }
  }

  // ----- The build -----

  /** The merged lower triangle can be compiled, and no element crosses the boundary. */
  lemma {:induction false} MergedCompilable(lower: SparsePartition, rp1: seq<nat>, es1: seq<Element>, rp2: seq<nat>,
                                            es2: seq<Element>, n: nat)
    requires lower.ty == Horizontal && lower.elemsSize == |lower.elems| && lower.nrRows == |lower.rowptr| - 1 == n
    requires IsRowptr(rp1, es1) && IsRowptr(rp2, es2) && lower.elems == Merge(rp1, es1, rp2, es2, n)
    requires IsRowptr(lower.rowptr, lower.elems) && lower.nrCols <= MAX_INDEX
    requires var m, d := lower.elems, lower.D();
             && Sorted(m) && AllShaped(m) && AllFine(m) && StartsInBounds(m, Horizontal, d)
             && Readable(m, Horizontal, d)
             && |AllCells(m, Horizontal, d)| == lower.nrNonzeros
    ensures Compilable(lower) && lower.Live() == lower.elems
  {
    hide Sorted, StartsInBounds, Readable, AllFine, AllCells, Shaped, RowOk, IsRowptr;
    var m := lower.elems;
    assert lower.elems[..lower.elemsSize] == m;
    CellsAreValues(m, Horizontal, lower.D());
    RowptrEnds(lower.rowptr, m);
    forall i | 0 <= i < |lower.rowptr| - 1 ensures RowOk(lower.Line(i), i + 1) {
      LineOk(m, lower.rowptr, lower.D(), i);
    }
  }

  /** The cells on one side of the boundary. */
  function SideCells(cells: seq<Cell>, rs: nat, near: bool): seq<Cell> {
    if cells == [] then []
    else
      var n := |cells| - 1;
      SideCells(cells[..n], rs, near) + if near <==> cells[n].col > rs then [cells[n]] else []
  }

  lemma {:induction false} HalfCells(es: seq<Element>, rs: nat, near: bool, d: Dims)
    requires AllShaped(es) && forall i :: 0 <= i < |es| ==> !es[i].IsPattern()
    ensures AllShaped(Half(es, rs, near))
    ensures AllCells(Half(es, rs, near), Horizontal, d) == SideCells(AllCells(es, Horizontal, d), rs, near)
    decreases |es|
  {
    hide AllCells;
    if es != [] {
      var n := |es| - 1;
      HalfCells(es[..n], rs, near, d);
      assert es == es[..n] + [es[n]];
      AllCellsSnoc(es[..n], es[n], Horizontal, d);
      var cells := AllCells(es, Horizontal, d);
      assert ElemCells(es[n], Horizontal, d) == [Cell(es[n].row, es[n].col, es[n].vals[0])];
      assert cells[..|cells| - 1] == AllCells(es[..n], Horizontal, d);
      AllCellsSnoc(Half(es[..n], rs, near), es[n], Horizontal, d);
      assert Half(es[..n], rs, near) + [] == Half(es[..n], rs, near);
    } else {
      NoCells(d);
    }
  }

  lemma {:induction false} NoCells(d: Dims)
    ensures AllCells([], Horizontal, d) == []
  {
  }

  /** What is known after the division. */
  lemma {:induction false} Divided(sym: SparsePartitionSym, live: seq<Element>)
    requires sym.lower.Valid() && sym.lower.ty == Horizontal && live == sym.lower.Live()
    requires sym.lower.nrCols <= MAX_INDEX
    requires forall i :: 0 <= i < |live| ==> !live[i].IsPattern()
    requires sym.IsHalf(sym.m1, live, false) && sym.IsHalf(sym.m2, live, true)
    requires sym.lower.nrRows == |sym.lower.rowptr| - 1
    ensures Loaded(sym.m1) && Loaded(sym.m2)
    ensures OnSide(sym.m1.CellsOf(), sym.lower.rowStart, false) && OnSide(sym.m2.CellsOf(), sym.lower.rowStart, true)
    ensures sym.m1.nrRows <= sym.lower.nrRows && sym.m2.nrRows <= sym.lower.nrRows
    ensures multiset(sym.m1.CellsOf()) + multiset(sym.m2.CellsOf()) == multiset(sym.lower.CellsOf())
    ensures sym.m1.nrNonzeros + sym.m2.nrNonzeros == |live|
    ensures sym.m1.CellsOf() == SideCells(sym.lower.CellsOf(), sym.lower.rowStart, false)
    ensures sym.m2.CellsOf() == SideCells(sym.lower.CellsOf(), sym.lower.rowStart, true)
  {
    hide IsRowptr, Sorted, StartsInBounds, Half, AllCells, OnSide, Shaped;
    var rs, d := sym.lower.rowStart, sym.lower.D();
    HalfLoaded(sym.m1, live, rs, false, d);
    HalfLoaded(sym.m2, live, rs, true, d);
    HalvesWhole(live, rs);
    HalfRows(sym.m1.rowptr, live, rs, false, d);
    HalfRows(sym.m2.rowptr, live, rs, true, d);
    var h1, h2 := sym.m1.elems, sym.m2.elems;
    assert |multiset(h1) + multiset(h2)| == |h1| + |h2|;
    assert |multiset(live)| == |live|;
    AllCellsConcat(h1, h2, Horizontal, d);
    AllCellsPermuted(h1 + h2, live, Horizontal, d);
    AnyDims(h1, sym.m1.D(), d);
    AnyDims(h2, sym.m2.D(), d);
    HalfCells(live, rs, false, d);
    HalfCells(live, rs, true, d);
  }

  lemma {:induction false} HalfRows(rp: seq<nat>, es: seq<Element>, rs: nat, near: bool, d: Dims)
    requires Tight(rp, Half(es, rs, near)) && Sorted(es) && StartsInBounds(es, Horizontal, d) && |rp| >= 1
    requires d.rows >= 0
    ensures |rp| - 1 <= d.rows
  {
    hide Sorted;
    HalfFacts(es, rs, near);
    var h := Half(es, rs, near);
    if h != [] {
      var k :| 0 <= k < |es| && es[k] == h[|h| - 1];
      assert InBounds(ToHoriz(Horizontal, es[k].At(), d), d);
    }
  }

  /** What mining leaves of a half. */
  lemma {:induction false} HalfMined(mgr: EncodingManager, before: seq<Cell>, rs: nat, near: bool, rows: nat)
    requires mgr.Minable() && mgr.spm.ty == Horizontal && mgr.spm.nrRows <= rows
    requires multiset(mgr.spm.CellsOf()) == multiset(before) && OnSide(before, rs, near)
    ensures MinedHalf(mgr.spm, rs, near, rows, mgr.spm.nrCols)
  {
    hide IsRowptr, Sorted, StartsInBounds, Readable, AllFine, AllCells, Shaped, OnSide, Tight;
    SidePermuted(before, mgr.spm.CellsOf(), rs, near);
    RowptrEnds(mgr.spm.rowptr, mgr.spm.Live());
    LinesInMatrix(mgr.spm.Live(), mgr.spm.rowptr, mgr.spm.D());
  }

  /** The instantiations mining may leave in either half. */
  ghost predicate BothBuildWithin(insts: set<Instantiation>, plan: Plan, surveys1: nat -> Encoding -> Report,
                                  surveys2: nat -> Encoding -> Report, mgr1: EncodingManager, mgr2: EncodingManager)
  {
    forall i :: i in insts ==> MayBuild(i, plan, surveys1, mgr1) || MayBuild(i, plan, surveys2, mgr2)
  }

  /** The table has room for those of both halves. */
  ghost predicate RoomForBoth(plan: Plan, surveys1: nat -> Encoding -> Report, surveys2: nat -> Encoding -> Report,
                              mgr1: EncodingManager, mgr2: EncodingManager)
  {
    exists room :: InRoom(room, plan, surveys1, mgr1) && InRoom(room, plan, surveys2, mgr2)
      && |room| + 4 <= MAX_PATTERNS
  }

  lemma {:induction false} RoomForAllOfBoth(insts: set<Instantiation>, plan: Plan, surveys1: nat -> Encoding -> Report,
                                            surveys2: nat -> Encoding -> Report, mgr1: EncodingManager,
                                            mgr2: EncodingManager)
    requires BothBuildWithin(insts, plan, surveys1, surveys2, mgr1, mgr2)
    requires RoomForBoth(plan, surveys1, surveys2, mgr1, mgr2)
    ensures |insts| + 4 <= MAX_PATTERNS
  {
    hide MayBuild;
    var room :| InRoom(room, plan, surveys1, mgr1) && InRoom(room, plan, surveys2, mgr2) && |room| + 4 <= MAX_PATTERNS;
    FewerIn(insts, room);
  }

  lemma {:induction false} BothBuild(insts: set<Instantiation>, insts1: set<Instantiation>, insts2: set<Instantiation>,
                                     plan: Plan, surveys1: nat -> Encoding -> Report,
                                     surveys2: nat -> Encoding -> Report, mgr1: EncodingManager, mgr2: EncodingManager)
    requires insts <= insts1 + insts2
    requires BuildsWithin(insts1, plan, surveys1, mgr1) && BuildsWithin(insts2, plan, surveys2, mgr2)
    ensures BothBuildWithin(insts, plan, surveys1, surveys2, mgr1, mgr2)
  {
    hide MayBuild;
  }

  lemma {:induction false} NothingBuilt(plan: Plan, surveys: nat -> Encoding -> Report, mgr: EncodingManager)
    ensures BuildsWithin({}, plan, surveys, mgr)
  {
  }

  /** No window of either half can be missed. */
  ghost predicate NoHalfMissed(plan: Plan, mgr1: EncodingManager, mgr2: EncodingManager, cells: seq<Cell>, rs: nat) {
    NoWindowMissed(plan, mgr1, SideCells(cells, rs, false)) && NoWindowMissed(plan, mgr2, SideCells(cells, rs, true))
  }

  /** Mines one half, unless it is skipped. */
  method MineHalf(mgr: EncodingManager, plan: Plan, surveys: nat -> Encoding -> Report, skip: bool, ghost rs: nat,
                  ghost near: bool, ghost rows: nat)
    returns (ok: bool)
    requires Loaded(mgr.spm) && mgr.LimitsOk() && PlanOk(plan, mgr)
    requires mgr.encodedInst == {} && mgr.xformsIgnore == Types(NR_TYPES)
    requires forall n: nat :: mgr.SurveyOk(surveys(n))
    requires OnSide(mgr.spm.CellsOf(), rs, near) && mgr.spm.nrRows <= rows
    modifies mgr, mgr.spm`elems, mgr.spm`rowptr, mgr.spm`ty, mgr.spm`elemsSize
    ensures !ok ==> mgr.samplingEnabled && plan.Mine?
    ensures NoWindowMissed(plan, mgr, old(mgr.spm.CellsOf())) ==> ok
    ensures ok ==>
      MinedHalf(mgr.spm, rs, near, rows, mgr.spm.nrCols)
        && multiset(mgr.spm.CellsOf()) == multiset(old(mgr.spm.CellsOf()))
    ensures ok ==> mgr.spm.elemsSize <= |mgr.spm.elems| && BuildsWithin(InstsOf(mgr.spm.Live()), plan, surveys, mgr)
  {
    hide Loaded, MinedHalf, AllCells, OnSide, EncodingManager.Minable, PlanOk, EncodingManager.SurveyOk, Types,
         InstsOf, BuildsWithin, NoWindowMissed;
    LoadedFacts(mgr.spm);
    LoadedMinable(mgr);
    ghost var cells := mgr.spm.CellsOf();
    LoadedPlain(mgr.spm);
    NothingBuilt(plan, surveys, mgr);
    ok := true;
    if !skip {
      ok := Mining(mgr, plan, surveys);
    }
    if ok {
      HalfMined(mgr, cells, rs, near, rows);
    }
  }

  /** Divides, mines both halves and merges.  The first thread has nothing before its own
      columns and does not mine the first half. */
  method MineHalves(id: nat, sym: SparsePartitionSym, mgr1: EncodingManager, mgr2: EncodingManager, plan: Plan,
                    surveys1: nat -> Encoding -> Report, surveys2: nat -> Encoding -> Report) returns (ok: bool)
    requires LoadedSym(sym) && mgr1.spm == sym.m1 && mgr2.spm == sym.m2 && mgr1 != mgr2
    requires mgr1.LimitsOk() && mgr2.LimitsOk() && PlanOk(plan, mgr1) && PlanOk(plan, mgr2)
    requires mgr1.encodedInst == mgr2.encodedInst == {} && mgr1.xformsIgnore == mgr2.xformsIgnore == Types(NR_TYPES)
    requires forall n: nat :: mgr1.SurveyOk(surveys1(n))
    requires forall n: nat :: mgr2.SurveyOk(surveys2(n))
    modifies sym`lower, sym.m1, sym.m2, mgr1, mgr2
    ensures !ok ==> plan.Mine? && (mgr1.samplingEnabled || mgr2.samplingEnabled)
    ensures ok ==>
      var lower := sym.lower;
      && fresh(lower) && Compilable(lower) && AllShaped(lower.Live())
      && SidedElems(lower.Live(), lower.rowStart, lower.D())
      && multiset(lower.CellsOf()) == multiset(old(sym.lower.CellsOf()))
      && lower.rowStart == old(sym.lower.rowStart) && lower.nrRows == old(sym.lower.nrRows)
      && lower.nrCols == old(sym.lower.nrCols)
      && lower.elemsSize <= |lower.elems|
      && BothBuildWithin(InstsOf(lower.Live()), plan, surveys1, surveys2, mgr1, mgr2)
    ensures NoHalfMissed(plan, mgr1, mgr2, old(sym.lower.CellsOf()), old(sym.lower.rowStart)) ==> ok
  {
    hide Loaded, MinedHalf, Compilable, AllCells, OnSide, SidedElems, EncodingManager.Minable, Sorted, IsRowptr,
         Tight, StartsInBounds, AllShaped, PlanOk, EncodingManager.SurveyOk, Types, InstsOf, BuildsWithin,
         BothBuildWithin, NoWindowMissed, SideCells;
    LowerFacts(sym);
    ghost var rs, rows, cols, before := sym.lower.rowStart, sym.lower.nrRows, sym.lower.nrCols, sym.lower.CellsOf();
    sym.DivideMatrix();
    Divided(sym, sym.lower.Live());
    ok := MineHalf(mgr1, plan, surveys1, plan.Mine? && id == 0, rs, false, rows);
    if !ok { return; }
    ok := MineHalf(mgr2, plan, surveys2, false, rs, true, rows);
    if !ok { return; }
    ghost var insts1, insts2 := InstsOf(sym.m1.Live()), InstsOf(sym.m2.Live());
    MergeHalvesOf(sym, rs, rows, cols, before);
    BothBuild(InstsOf(sym.lower.Live()), insts1, insts2, plan, surveys1, surveys2, mgr1, mgr2);
  }

  lemma {:induction false} LowerFacts(sym: SparsePartitionSym)
    requires LoadedSym(sym)
    ensures sym.lower.Valid() && sym.lower.ty == Horizontal && sym.lower.nrCols <= MAX_INDEX
    ensures forall i :: 0 <= i < |sym.lower.Live()| ==> !sym.lower.Live()[i].IsPattern()
    ensures sym.lower.nrNonzeros == |sym.lower.Live()| && AllShaped(sym.lower.Live())
  {
  }

  method MergeHalvesOf(sym: SparsePartitionSym, ghost rs: nat, ghost rows: nat, ghost cols: nat,
                       ghost before: seq<Cell>)
    requires MinedHalf(sym.m1, rs, false, rows, cols) && MinedHalf(sym.m2, rs, true, rows, cols)
    requires |sym.lower.rowptr| == rows + 1 && sym.lower.rowStart == rs && sym.lower.nrCols == cols <= MAX_INDEX
    requires sym.lower.nrNonzeros == sym.m1.nrNonzeros + sym.m2.nrNonzeros
    requires multiset(sym.m1.CellsOf()) + multiset(sym.m2.CellsOf()) == multiset(before)
    modifies sym`lower
    ensures var lower := sym.lower;
      && fresh(lower) && Compilable(lower) && AllShaped(lower.Live())
      && SidedElems(lower.Live(), lower.rowStart, lower.D())
      && multiset(lower.CellsOf()) == multiset(before)
      && lower.rowStart == rs && lower.nrRows == rows && lower.nrCols == cols
      && lower.elemsSize <= |lower.elems| && InstsOf(lower.Live()) <= InstsOf(sym.m1.Live()) + InstsOf(sym.m2.Live())
  {
    hide MinedHalf, Compilable, AllCells, OnSide, SidedElems, Sorted, IsRowptr, StartsInBounds, AllShaped, Readable,
         AllFine, Merge, InstsOf;
    ghost var d := Dims(rows, cols);
    HalfParts(sym.m1, rs, false, rows, cols, d);
    HalfParts(sym.m2, rs, true, rows, cols, d);
    MergedList(sym.m1.rowptr, sym.m1.Live(), sym.m2.rowptr, sym.m2.Live(), rs, rows, d);
    sym.MergeMatrix();
    var lower := sym.lower;
    ghost var cells := AllCells(lower.elems, Horizontal, d);
    CountBoth(cells, sym.m1.CellsOf(), sym.m2.CellsOf());
    MergedCompilable(lower, sym.m1.rowptr, sym.m1.Live(), sym.m2.rowptr, sym.m2.Live(), rows);
  }

  lemma {:induction false} CountBoth(cells: seq<Cell>, a: seq<Cell>, b: seq<Cell>)
    requires multiset(cells) == multiset(a) + multiset(b)
    ensures |cells| == |a| + |b|
  {
    assert |multiset(cells)| == |cells| && |multiset(a) + multiset(b)| == |a| + |b|;
  }

  /** Mines and compiles one partition of a symmetric matrix.  It succeeds exactly when mining
      does and the ids of what mining leaves fit into the table. */
  method PreprocessThreadSym(id: nat, sym: SparsePartitionSym, mgr1: EncodingManager, mgr2: EncodingManager, plan: Plan,
                             surveys1: nat -> Encoding -> Report, surveys2: nat -> Encoding -> Report, full: bool)
    returns (outcome: SymOutcome, ghost us: seq<Unit>)
    requires LoadedSym(sym) && mgr1.spm == sym.m1 && mgr2.spm == sym.m2 && mgr1 != mgr2
    requires mgr1.LimitsOk() && mgr2.LimitsOk() && PlanOk(plan, mgr1) && PlanOk(plan, mgr2)
    requires mgr1.encodedInst == mgr2.encodedInst == {} && mgr1.xformsIgnore == mgr2.xformsIgnore == Types(NR_TYPES)
    requires forall n: nat :: mgr1.SurveyOk(surveys1(n))
    requires forall n: nat :: mgr2.SurveyOk(surveys2(n))
    modifies sym`lower, sym.m1, sym.m2, mgr1, mgr2
    ensures outcome.SymBuilt? ==>
      var sm := outcome.sm;
      && Encodes(sm.lower, us) && sm.lower.full == full && sm.dvalues == sym.diagonal
      && sm.lower.rowStart == old(sym.lower.rowStart) && sm.lower.nrows == old(sym.lower.nrRows)
      && sm.lower.ncols == old(sym.lower.nrCols)
      && multiset(Run(us, ORIGIN, sm.lower.values, full)) == multiset(old(sym.lower.CellsOf()))
      && Sided(us, ORIGIN, sm.lower.values, full, sm.lower.rowStart, false)
    ensures outcome.SymSampleBehindLastRow? ==> plan.Mine? && (mgr1.samplingEnabled || mgr2.samplingEnabled)
    ensures !outcome.SymSampleBehindLastRow? ==>
      Compilable(sym.lower) && (outcome.SymBuilt? <==> |NeededIds(sym.lower, true)| <= MAX_PATTERNS)
    ensures NoHalfMissed(plan, mgr1, mgr2, old(sym.lower.CellsOf()), old(sym.lower.rowStart)) ==>
      !outcome.SymSampleBehindLastRow?
    ensures RoomForBoth(plan, surveys1, surveys2, mgr1, mgr2) ==> !outcome.SymPatternTableFull?
  {
    hide LoadedSym, Loaded, Compilable, AllCells, SidedElems, PlanOk, EncodingManager.SurveyOk, Types, AllShaped, Run,
         Encodes, Sided, BothBuildWithin, NoHalfMissed, RoomForBoth, NeededIds, InstsOf;
    LowerFacts(sym);
    us := [];
    var ok := MineHalves(id, sym, mgr1, mgr2, plan, surveys1, surveys2);
    if !ok {
      return SymSampleBehindLastRow, us;
    }
    InstsDecide(sym.lower, true);
    if RoomForBoth(plan, surveys1, surveys2, mgr1, mgr2) {
      RoomForAllOfBoth(InstsOf(sym.lower.Live()), plan, surveys1, surveys2, mgr1, mgr2);
    }
    var csxmg := new CsxManager(full);
    var m;
    ghost var blocks;
    ok, m, blocks := csxmg.MakeCsx(sym.lower, true);
    if !ok {
      return SymPatternTableFull, us;
    }
    us := csxmg.units;
    outcome := SymBuilt(CsxSym(m, sym.diagonal));
  }
}
