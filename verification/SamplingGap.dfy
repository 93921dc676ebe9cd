/** Mining that reads a sampled window behind the last line: a diagonal matrix. */
module SamplingGap {
  import opened Encodings
  import opened Cells
  import opened CsxBuild
  import opened Elements
  import opened Partitions
  import opened RowEncoder
  import opened Sampling
  import opened SparsePartition
  import opened EncodingManager

  /** A diagonal matrix with these values. */
  function DiagonalOf(vals: seq<real>): (es: seq<Element>)
    ensures AllShaped(es) && Sorted(es)
  {
    seq(|vals|, i requires 0 <= i < |vals| => Single(i + 1, i + 1, vals[i]))
  }

  /** The same in the order of the diagonals: one line. */
  function OneLine(vals: seq<real>): (es: seq<Element>)
    ensures AllShaped(es) && Sorted(es)
  {
    seq(|vals|, i requires 0 <= i < |vals| => Single(|vals|, i + 1, vals[i]))
  }

  /** The whole diagonal as a single substructure. */
  function OneElement(vals: seq<real>): Element { Element(|vals|, 1, vals, Inst(Diagonal, 1)) }

  lemma {:induction false} InDiagonalOrder(vals: seq<real>)
    ensures Sort(Moved(DiagonalOf(vals), Horizontal, Diagonal, Dims(|vals|, |vals|))) == OneLine(vals)
  {
    var d, n := Dims(|vals|, |vals|), |vals|;
    var moved := Moved(DiagonalOf(vals), Horizontal, Diagonal, d);
    forall i | 0 <= i < n ensures moved[i] == OneLine(vals)[i] {
      MovedAt(DiagonalOf(vals), Horizontal, Diagonal, d, i);
      assert FromHoriz(Diagonal, Coord(i + 1, i + 1), d) == Coord(n, i + 1);
    }
    assert moved == OneLine(vals);
    SortedUnique(OneLine(vals), Sort(moved));
  }

  /** The line table of the only diagonal with elements. */
  function OneLineTable(n: nat): seq<nat> { seq(n + 1, i => if i < n then 0 else n) }

  lemma {:induction false} LineIsRun(vals: seq<real>, c: Config)
    requires |vals| >= 2 && c.minLimit <= |vals| <= c.maxLimit && Inst(Diagonal, 1) in c.insts
    ensures RunLine(Diagonal, OneLine(vals), c) && RunOfLine(Diagonal, OneLine(vals)) == OneElement(vals)
  {
    assert ValsOf(OneLine(vals)) == vals;
  }

  lemma {:induction false} IsRun(vals: seq<real>, c: Config)
    requires |vals| >= 2 && c.minLimit <= |vals| <= c.maxLimit && Inst(Diagonal, 1) in c.insts
    ensures var es, rp := OneLine(vals), OneLineTable(|vals|);
            LinesRun(Diagonal, es, rp, c) && RunsOf(Diagonal, es, rp, |rp| - 1) == [OneElement(vals)]
  {
    hide RunLine, RunOfLine;
    var es, rp, n := OneLine(vals), OneLineTable(|vals|), |vals|;
    assert es[rp[n - 1]..rp[n]] == es;
    LineIsRun(vals, c);
    EmptyLines(vals, n - 1);
  }

  lemma {:induction false} EmptyLines(vals: seq<real>, n: nat)
    requires n < |vals|
    ensures RunsOf(Diagonal, OneLine(vals), OneLineTable(|vals|), n) == []
  {
    if n > 0 {
      EmptyLines(vals, n - 1);
    }
  }

  /** Back in row-major order, the one substructure starts on the first line. */
  lemma {:induction false} OnFirstLine(vals: seq<real>, s: Sample)
    requires |vals| >= 1 && s.size >= 2 && s.start >= 2
    ensures Misses(Sort(Moved([OneElement(vals)], Diagonal, Horizontal, Dims(|vals|, |vals|))), [s])
  {
    var d := Dims(|vals|, |vals|);
    var moved := Moved([OneElement(vals)], Diagonal, Horizontal, d);
    assert moved[0].At() == Coord(1, 1);
    SortedUnique(moved, Sort(moved));
  }

  lemma {:induction false} NotMissedYet(vals: seq<real>, s: Sample)
    requires s.start < |vals|
    ensures !Misses(DiagonalOf(vals), [s])
  {
    assert [s][1..] == [];
  }

  /** The window starts inside the matrix, and the first round, finding the diagonal, works.
      But then all elements are one, on the first line, and the rest of mining fails, whatever
      its surveys say. */
  method DiagonalIsMissed(mgr: EncodingManager, vals: seq<real>, s: Sample, first: Encoding -> Report,
                          more: nat -> Encoding -> Report)
    returns (ok: bool, t: Encoding, next: bool)
    requires mgr.Minable() && mgr.LimitsOk() && mgr.SurveyOk(first) && forall n: nat :: mgr.SurveyOk(more(n))
    requires forall u :: u in Types(NR_TYPES) && u !in mgr.xformsIgnore ==> mgr.LongEnough(u)
    requires mgr.spm.ty == Horizontal && mgr.spm.Live() == DiagonalOf(vals) && mgr.spm.D() == Dims(|vals|, |vals|)
    requires mgr.samplingEnabled && mgr.samples == [s] && s.size >= 2 && 2 <= s.start < |vals|
    requires mgr.minLimit <= |vals| <= mgr.maxLimit
    requires Diagonal in Types(NR_TYPES) && Diagonal !in mgr.xformsIgnore
    requires first(Diagonal).insts == {Inst(Diagonal, 1)} && forall u :: first(u).score > 0 <==> u == Diagonal
    modifies mgr`encodedInst, mgr`xformsIgnore, mgr.spm`elems, mgr.spm`rowptr, mgr.spm`ty, mgr.spm`elemsSize
    ensures ok && t == Diagonal && !next
  {
    hide Types, Misses, Sort, Moved, LinesRun, RunsOf, OneLine, AllShaped, AllCells, EncodingManager.LongEnough,
         EncodingManager.Selectable, EncodingManager.MayLeave, AllAnchored, RoundWritten,
         EncodingManager.RoundAt, EncodingManager.RoundsWritten, BestRounds, Outscored, Scored, Open, WholeRuns,
         EncodingManager.Minable,
         EncodingManager.LosesScore;
    ghost var d := mgr.spm.D();
    mgr.MinableTable();
    SortSorted(mgr.spm.Live(), Horizontal, d);
    NotMissedYet(vals, s);
    InDiagonalOrder(vals);
    ok, t := mgr.Round(first);
    IsRun(vals, mgr.Cfg());
    WholeRunsAre(Diagonal, DiagonalOf(vals), Horizontal, mgr.spm.Live(), mgr.Cfg(), d, OneLine(vals),
                 OneLineTable(|vals|));
    mgr.MinableTable();
    OnFirstLine(vals, s);
    mgr.CellsNeedElements();
    var encSeq;
    ghost var rows;
    next, encSeq, rows := mgr.EncodeAll(more);
  }

  // ----- A diagonal matrix with twelve rows -----

  const ONES: seq<real> := seq(12, _ => 1.0)

  const IDENTITY: seq<Cell> := seq(12, i => Cell(i + 1, i + 1, 1.0))

  /** A single partition, as it is loaded. */
  lemma {:induction false} IdentityLoaded(spm: SparsePartition)
    requires IsPartition(spm, IDENTITY, 0, 12, 12)
    ensures Loaded(spm) && spm.elemsSize <= |spm.elems| && spm.Live() == DiagonalOf(ONES) && spm.D() == Dims(12, 12)
  {
    assert IDENTITY[0..12] == IDENTITY;
    assert Relative(IDENTITY, 0) == DiagonalOf(ONES);
  }

  /** Only the diagonal is worth encoding. */
  function FindDiagonal(t: Encoding): Report {
    if t == Diagonal then Report(12, {Inst(Diagonal, 1)}) else Report(0, {})
  }

  /** With a window of four rows after the first eight, mining it fails after one round. */
  method IdentityIsMissed() returns (ok: bool, t: Encoding, next: bool)
    ensures ok && t == Diagonal && !next
  {
    hide Types, Loaded, DiagonalOf, IsPartition;
    AllTaken(IDENTITY, 1);
    var partitions, taken := BuildPartitions(IDENTITY, 12, 12, 12, 1);
    var spm := partitions[0];
    IdentityLoaded(spm);
    var mgr := new EncodingManager(spm, 4, 255, false, false, true, [Sample(8, 4)]);
    LoadedMinable(mgr);
    assert FromCode(3) == Diagonal;
    mgr.RemoveIgnore(Diagonal);
    ok, t, next := DiagonalIsMissed(mgr, ONES, Sample(8, 4), FindDiagonal, _ => FindDiagonal);
  }
}
