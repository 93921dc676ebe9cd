/** From the partitions of a symmetric matrix to its product with a vector. */
module MatVecSym {
  import opened Encodings
  import opened Cells
  import opened Elements
  import opened SparsePartition
  import opened SparsePartitionSym
  import opened CsxBuild
  import opened CsxBuildSym
  import opened CsxSpmv
  import opened Partitions
  import opened PartitionsSym
  import opened Interleaving
  import opened ReductionMap
  import opened SymKernels
  import opened StoreLog
  import opened SymPhases
  import opened SymSpmv

  /** The share of the thread of a partition. */
  function ThreadOf(cells: seq<Cell>, c: Cut, c': Cut): Thread
    requires c.at <= c'.at <= |cells| && c.rs <= c'.rs
  {
    Thread(c.rs, c'.rs - c.rs, LowerOf(cells[c.at..c'.at]), DiagOf(cells[c.at..c'.at]))
  }

  /** The share between two cuts fits the thread. */
  lemma {:induction false} ThreadIsOk(cells: seq<Cell>, c: Cut, c': Cut, n: nat)
    requires Input(cells, n, n) && FullDiagonal(cells, n) && CutOk(cells, c) && CutOk(cells, c') && c.at < c'.at
    requires c.rs == RowBefore(cells, c.at) && c'.rs == RowBefore(cells, c'.at)
    ensures c.rs < c'.rs && ThreadOk(ThreadOf(cells, c, c'), n)
  {
    hide Input, LowerOf, DiagOf, FullDiagonal, BetweenRows;
    CutRows(cells, c, c', n);
    CutsBetween(cells, c);
    CutsBetween(cells, c');
    DiagonalOfPart(cells, c.at, c'.at, n, n);
    var ls := LowerOf(cells[c.at..c'.at]);
    forall i | 0 <= i < |ls| ensures c.rs < ls[i].row <= c'.rs && 1 <= ls[i].col <= c'.rs {
      var k := LowerAt(cells, c.at, c'.at, i, n);
    }
  }

  lemma {:induction false} CutsBetween(cells: seq<Cell>, c: Cut)
    requires CutOk(cells, c)
    ensures c.at <= |cells| && BetweenRows(cells, c.at)
  {
  }

  /** A partition that fits is the share of its thread: mining starts from these cells. */
  lemma {:induction false} PartitionThread(sym: SparsePartitionSym, cells: seq<Cell>, c: Cut, c': Cut, n: nat)
    requires Input(cells, n, n) && FullDiagonal(cells, n) && CutOk(cells, c) && CutOk(cells, c')
    requires IsPartitionSym(sym, cells, c, c', n) && LoadedSym(sym) && c.at < c'.at && c.rs == RowBefore(cells, c.at)
    ensures c.rs < c'.rs && ThreadOk(ThreadOf(cells, c, c'), n)
    ensures AllShaped(sym.lower.Live())
    ensures ThreadOf(cells, c, c').cells == Shifted(sym.lower.CellsOf(), sym.lower.rowStart)
    ensures ThreadOf(cells, c, c').dvals == sym.diagonal && ThreadOf(cells, c, c').nrows == sym.lower.nrRows
    ensures sym.lower.CellsOf() != [] && BelowDiagonal(sym.lower.CellsOf(), c.rs)
    ensures RowsWithin(sym.lower.CellsOf(), 1, sym.lower.nrRows)
  {
    hide Loaded, Input, LowerOf, DiagOf, BetweenRows, FullDiagonal, CutOk, ThreadOk, Shifted, AllCells, EndsLow,
         LastLower;
    var ls := LowerOf(cells[c.at..c'.at]);
    FitsIff(sym, cells, c, c', n, n);
    ThreadIsOk(cells, c, c', n);
    LastOfLower(cells, c.at, c'.at, n, n);
    LowerPartCells(sym, ls, c.rs);
    LoadedFacts(sym.lower);
    ThreadRows(cells, c, c', n);
    forall i | 0 <= i < |ls| ensures 1 <= ls[i].col < ls[i].row {
      var k := LowerAt(cells, c.at, c'.at, i, n);
    }
    ShiftedBelow(sym.lower.CellsOf(), ls, c.rs, c'.rs - c.rs);
    NotEmpty(sym.lower.CellsOf(), ls, c.rs);
  }

  lemma {:induction false} ThreadRows(cells: seq<Cell>, c: Cut, c': Cut, n: nat)
    requires c.at <= c'.at <= |cells| && c.rs <= c'.rs && ThreadOk(ThreadOf(cells, c, c'), n)
    ensures RowsWithin(LowerOf(cells[c.at..c'.at]), c.rs + 1, c'.rs)
  {
    hide LowerOf, DiagOf;
  }

  lemma {:induction false} LowerPartCells(sym: SparsePartitionSym, ls: seq<Cell>, rs: nat)
    requires Loaded(sym.lower) && sym.lower.elems == Relative(ls, rs) && sym.lower.elemsSize == |sym.lower.elems|
    ensures AllShaped(sym.lower.Live()) && Shifted(sym.lower.CellsOf(), rs) == ls
  {
    RelativeCells(ls, rs, sym.lower.D());
    assert sym.lower.Live() == sym.lower.elems;
  }

  lemma {:induction false} NotEmpty(cs: seq<Cell>, ls: seq<Cell>, rs: nat)
    requires ls == Shifted(cs, rs) && ls != []
    ensures cs != []
  {
  }

  /** The reduction map is made from the columns of the elements of the partition. */
  lemma {:induction false} PartitionColumns(sym: SparsePartitionSym, cells: seq<Cell>, c: Cut, c': Cut, n: nat)
    requires IsPartitionSym(sym, cells, c, c', n) && c.rs <= c'.rs && ThreadOk(ThreadOf(cells, c, c'), n)
    ensures var part := PartOf(ThreadOf(cells, c, c'), n);
            && part.start == sym.lower.rowStart && |part.cols| == |sym.lower.elems|
            && forall k :: 0 <= k < |sym.lower.elems| ==> part.cols[k] == sym.lower.elems[k].col
  {
    hide Loaded, LowerOf, DiagOf;
  }

  lemma {:induction false} CutRows(cells: seq<Cell>, c: Cut, c': Cut, n: nat)
    requires Input(cells, n, n) && CutOk(cells, c) && CutOk(cells, c') && c.at < c'.at
    requires c.rs == RowBefore(cells, c.at) && c'.rs == RowBefore(cells, c'.at)
    ensures c.rs < c'.rs <= n && forall k :: c.at <= k < c'.at ==> c.rs < cells[k].row <= c'.rs
  {
    CutFollows(cells, n, n, c.at);
    forall k | c.at <= k < c'.at ensures c.rs < cells[k].row <= c'.rs {
      if k < c'.at - 1 {
        assert Before(Coord(cells[k].row, cells[k].col), Coord(cells[c'.at - 1].row, cells[c'.at - 1].col));
      }
    }
  }

  lemma {:induction false} LowerAt(cells: seq<Cell>, lo: nat, hi: nat, i: nat, n: nat) returns (k: nat)
    requires Input(cells, n, n) && lo <= hi <= |cells| && i < |LowerOf(cells[lo..hi])|
    ensures lo <= k < hi && LowerOf(cells[lo..hi])[i] == cells[k] && 1 <= cells[k].col < cells[k].row <= n
  {
    var part := cells[lo..hi];
    LowerMember(part);
    LowerIsLower(part);
    var q :| 0 <= q < |part| && part[q] == LowerOf(part)[i];
    k := lo + q;
  }

  lemma {:induction false} ShiftedBelow(cs: seq<Cell>, ls: seq<Cell>, rs: nat, rows: nat)
    requires ls == Shifted(cs, rs) && RowsWithin(ls, rs + 1, rs + rows)
    requires forall i :: 0 <= i < |ls| ==> 1 <= ls[i].col < ls[i].row
    ensures BelowDiagonal(cs, rs) && RowsWithin(cs, 1, rows)
  {
    forall i | 0 <= i < |cs| ensures cs[i].row == ls[i].row - rs && cs[i].col == ls[i].col {
    }
  }

  // ----- The threads together -----

  function DiagCells(cs: seq<Cell>): seq<Cell> {
    if cs == [] then []
    else
      var n := |cs| - 1;
      DiagCells(cs[..n]) + if cs[n].row == cs[n].col then [cs[n]] else []
  }

  function UpperOf(cs: seq<Cell>): seq<Cell> {
    if cs == [] then []
    else
      var n := |cs| - 1;
      UpperOf(cs[..n]) + if cs[n].row < cs[n].col then [cs[n]] else []
  }

  /** The cells above the diagonal mirror those below it. */
  ghost predicate IsSymmetric(cells: seq<Cell>) { multiset(Mirrored(LowerOf(cells))) == multiset(UpperOf(cells)) }

  lemma {:induction false} ThreeParts(cs: seq<Cell>)
    ensures multiset(cs) == multiset(LowerOf(cs)) + multiset(UpperOf(cs)) + multiset(DiagCells(cs))
  {
    if cs != [] {
      var n := |cs| - 1;
      ThreeParts(cs[..n]);
      assert cs == cs[..n] + [cs[n]];
    }
  }

  lemma {:induction false} DiagCellsConcat(a: seq<Cell>, b: seq<Cell>)
    ensures DiagCells(a + b) == DiagCells(a) + DiagCells(b)
    decreases |b|
  {
    if b == [] {
      assert a + b == a;
    } else {
      assert (a + b)[..|a + b| - 1] == a + b[..|b| - 1];
      DiagCellsConcat(a, b[..|b| - 1]);
    }
  }

  lemma {:induction false} MirroredConcat(a: seq<Cell>, b: seq<Cell>)
    ensures Mirrored(a + b) == Mirrored(a) + Mirrored(b)
  {
  }

  /** The diagonal entries are those of rows 1, 2, 3 and so on. */
  lemma {:induction false} DiagonalInOrder(cells: seq<Cell>, p: nat, n: nat)
    requires Input(cells, n, n) && FullDiagonal(cells, n) && p <= |cells|
    ensures DiagCells(cells[..p]) == DiagFrom(DiagOf(cells[..p]), 1)
    decreases p
  {
    if p > 0 {
      hide FullDiagonal;
      var c, q := cells[p - 1], |DiagOf(cells[..p - 1])|;
      assert cells[..p][..p - 1] == cells[..p - 1];
      DiagonalInOrder(cells, p - 1, n);
      if c.row == c.col {
        DiagonalsSeen(cells, p - 1, n, n, c.row);
        DiagonalsSeen(cells, p - 1, n, n, q + 1);
        NextDiagonal(cells, p - 1, n, n, q + 1);
        NotSeen(cells, p - 1, n);
      }
    }
  }

  lemma {:induction false} NotSeen(cells: seq<Cell>, p: nat, n: nat)
    requires Input(cells, n, n) && p < |cells|
    ensures !DiagBefore(cells, p, cells[p].row) || cells[p].row != cells[p].col
  {
    if cells[p].row == cells[p].col {
      forall k | 0 <= k < p ensures !(cells[k].row == cells[p].row == cells[k].col) {
        assert Before(Coord(cells[k].row, cells[k].col), Coord(cells[p].row, cells[p].col));
      }
    }
  }

  /** The diagonal of a thread is the diagonal part of its share of the input. */
  lemma {:induction false} DiagonalOfThread(cells: seq<Cell>, c: Cut, c': Cut, n: nat)
    requires Input(cells, n, n) && FullDiagonal(cells, n) && CutOk(cells, c) && c.at <= c'.at <= |cells|
    requires c.rs == RowBefore(cells, c.at)
    ensures DiagFrom(DiagOf(cells[c.at..c'.at]), c.rs + 1) == DiagCells(cells[c.at..c'.at])
  {
    hide Input, FullDiagonal, DiagOf, DiagCells;
    var a, b := cells[..c.at], cells[c.at..c'.at];
    assert cells[..c'.at] == a + b;
    CutsBetween(cells, c);
    DiagConcat(a, b);
    DiagCellsConcat(a, b);
    DiagonalInOrder(cells, c.at, n);
    DiagonalInOrder(cells, c'.at, n);
    RowsSeen(cells, c.at, n, n);
    DiagFromConcat(DiagOf(a), DiagOf(b), 1);
    SameRest(DiagCells(a), DiagCells(b), DiagFrom(DiagOf(b), c.rs + 1));
  }

  lemma {:induction false} DiagFromConcat(a: seq<real>, b: seq<real>, row: int)
    ensures DiagFrom(a + b, row) == DiagFrom(a, row) + DiagFrom(b, row + |a|)
  {
  }

  lemma {:induction false} SameRest(a: seq<Cell>, b: seq<Cell>, b': seq<Cell>)
    requires a + b == a + b'
    ensures b == b'
  {
    assert b == (a + b)[|a|..] && b' == (a + b')[|a|..];
  }

  /** The threads of consecutive partitions that all fit. */
  ghost predicate ThreadsOf(ts: seq<Thread>, cells: seq<Cell>, cuts: seq<Cut>, n: nat) {
    && |cuts| == |ts| + 1 && cuts[0] == Cut(0, 0, 0)
    && forall i :: 0 <= i < |ts| ==> ThreadBetween(ts[i], cells, cuts[i], cuts[i + 1])
  }

  ghost predicate ThreadBetween(t: Thread, cells: seq<Cell>, c: Cut, c': Cut) {
    && CutOk(cells, c) && CutOk(cells, c') && c.at < c'.at && c.rs == RowBefore(cells, c.at)
    && c'.rs == RowBefore(cells, c'.at)
    && c.rs <= c'.rs && t == ThreadOf(cells, c, c')
  }

  /** The cells on and below the diagonal, and the mirror images of those below it. */
  ghost function BothHalves(cs: seq<Cell>): multiset<Cell> {
    multiset(LowerOf(cs)) + multiset(Mirrored(LowerOf(cs))) + multiset(DiagCells(cs))
  }

  lemma {:induction false} BothConcat(a: seq<Cell>, b: seq<Cell>)
    ensures BothHalves(a + b) == BothHalves(a) + BothHalves(b)
  {
    hide LowerOf, DiagCells, Mirrored;
    DiagConcat(a, b);
    DiagCellsConcat(a, b);
    MirroredConcat(LowerOf(a), LowerOf(b));
  }

  lemma {:induction false} ThreadIs(t: Thread, cells: seq<Cell>, c: Cut, c': Cut, n: nat)
    requires Input(cells, n, n) && FullDiagonal(cells, n) && ThreadBetween(t, cells, c, c')
    ensures c.at <= c'.at <= |cells| && multiset(Symmetric(t)) == BothHalves(cells[c.at..c'.at])
  {
    hide Input, FullDiagonal, LowerOf, DiagOf, DiagCells, Mirrored, DiagFrom, CutOk;
    CutsBetween(cells, c');
    DiagonalOfThread(cells, c, c', n);
  }

  /** What the first k threads stand for. */
  lemma {:induction false} WholeIs(ts: seq<Thread>, cells: seq<Cell>, cuts: seq<Cut>, n: nat, k: nat)
    requires Input(cells, n, n) && FullDiagonal(cells, n) && ThreadsOf(ts, cells, cuts, n) && k <= |ts|
    ensures cuts[k].at <= |cells| && multiset(Whole(ts[..k])) == BothHalves(cells[..cuts[k].at])
    decreases k
  {
    hide Input, FullDiagonal, BothHalves, ThreadBetween, Symmetric;
    if k > 0 {
      var c, c' := cuts[k - 1], cuts[k];
      assert ThreadBetween(ts[k - 1], cells, c, c');
      WholeIs(ts, cells, cuts, n, k - 1);
      assert ts[..k][..k - 1] == ts[..k - 1];
      ThreadIs(ts[k - 1], cells, c, c', n);
      assert cells[..c'.at] == cells[..c.at] + cells[c.at..c'.at];
      BothConcat(cells[..c.at], cells[c.at..c'.at]);
    } else {
      NothingWhole(ts, cells, cuts);
    }
  }

  lemma {:induction false} NothingWhole(ts: seq<Thread>, cells: seq<Cell>, cuts: seq<Cut>)
    requires |cuts| >= 1 && cuts[0] == Cut(0, 0, 0)
    ensures Whole(ts[..0]) == [] && BothHalves(cells[..cuts[0].at]) == multiset{}
  {
    var part := cells[..cuts[0].at];
    assert LowerOf(part) == [] && Mirrored(LowerOf(part)) == [] && DiagCells(part) == [];
  }

  /** The threads' products add up to the product of the input: together with
      SymmetricProduct, the vector becomes beta * y + alpha * A * x. */
  lemma {:induction false} WholeIsInput(ts: seq<Thread>, cells: seq<Cell>, cuts: seq<Cut>, n: nat, row: int,
                                        x: seq<real>, alpha: real)
    requires Input(cells, n, n) && FullDiagonal(cells, n) && IsSymmetric(cells) && ThreadsOf(ts, cells, cuts, n)
    requires cuts[|ts|].at == |cells| && |x| == n
    ensures multiset(Whole(ts)) == multiset(cells)
    ensures ColsWithin(Whole(ts), n) && ColsWithin(cells, n)
    ensures Dot(Whole(ts), row, x, alpha) == Dot(cells, row, x, alpha)
  {
    WholeIs(ts, cells, cuts, n, |ts|);
    assert ts[..|ts|] == ts && cells[..|cells|] == cells;
    ThreeParts(cells);
    DotPermuted(cells, Whole(ts), row, x, alpha);
  }

  /** The threads meet what SymmetricProduct asks of them. */
  lemma {:induction false} ThreadsMeet(ts: seq<Thread>, cells: seq<Cell>, cuts: seq<Cut>, n: nat)
    requires Input(cells, n, n) && FullDiagonal(cells, n) && ThreadsOf(ts, cells, cuts, n) && |ts| >= 1
    ensures ThreadsOk(ts, n)
  {
    hide Input, FullDiagonal, LowerOf, DiagOf, CutOk, ThreadOk;
    forall i | 0 <= i < |ts| ensures ThreadOk(ts[i], n) {
      assert ThreadBetween(ts[i], cells, cuts[i], cuts[i + 1]);
      ThreadIsOk(cells, cuts[i], cuts[i + 1], n);
    }
    assert ThreadBetween(ts[0], cells, cuts[0], cuts[1]);
    forall i, j | 0 <= i < j < |ts| ensures ts[i].rs + ts[i].nrows <= ts[j].rs {
      assert ThreadBetween(ts[i], cells, cuts[i], cuts[i + 1]);
      assert ThreadBetween(ts[j], cells, cuts[j], cuts[j + 1]);
      CutsGrow(ts, cells, cuts, n, i + 1, j);
    }
  }

  lemma {:induction false} CutsGrow(ts: seq<Thread>, cells: seq<Cell>, cuts: seq<Cut>, n: nat, i: nat, j: nat)
    requires ThreadsOf(ts, cells, cuts, n) && i <= j <= |ts|
    ensures cuts[i].rs <= cuts[j].rs
    decreases j
  {
    if i < j {
      CutsGrow(ts, cells, cuts, n, i, j - 1);
      assert ThreadBetween(ts[j - 1], cells, cuts[j - 1], cuts[j]);
    }
  }

  /** Every row of the matrix belongs to a thread. */
  lemma {:induction false} AllRowsOwned(ts: seq<Thread>, cells: seq<Cell>, cuts: seq<Cut>, n: nat, r: nat)
    requires Input(cells, n, n) && FullDiagonal(cells, n) && ThreadsOf(ts, cells, cuts, n)
    requires cuts[|ts|].at == |cells| && r < n
    ensures RowOwned(ts, r)
  {
    hide Input, FullDiagonal, CutOk;
    LastRow(cells, n);
    LastCut(ts, cells, cuts);
    var i := 0;
    while cuts[i + 1].rs <= r
      invariant i < |ts| && cuts[i].rs <= r
      decreases |ts| - i
    {
      i := i + 1;
    }
    assert ThreadBetween(ts[i], cells, cuts[i], cuts[i + 1]);
    assert OwnRow(ts[i], r);
  }

  lemma {:induction false} LastRow(cells: seq<Cell>, n: nat)
    requires Input(cells, n, n) && FullDiagonal(cells, n) && n >= 1
    ensures cells != [] && RowBefore(cells, |cells|) == n
  {
    assert DiagBefore(cells, |cells|, n);
    var k :| 0 <= k < |cells| && cells[k].row == n == cells[k].col;
    if k < |cells| - 1 {
      assert Before(Coord(cells[k].row, cells[k].col), Coord(cells[|cells| - 1].row, cells[|cells| - 1].col));
    }
  }

  lemma {:induction false} LastCut(ts: seq<Thread>, cells: seq<Cell>, cuts: seq<Cut>)
    requires |cuts| == |ts| + 1 && cuts[0] == Cut(0, 0, 0) && cells != [] && cuts[|ts|].at == |cells|
    requires forall i :: 0 <= i < |ts| ==> ThreadBetween(ts[i], cells, cuts[i], cuts[i + 1])
    ensures |ts| >= 1 && cuts[|ts|].rs == RowBefore(cells, |cells|)
  {
    assert |ts| >= 1;
    assert ThreadBetween(ts[|ts| - 1], cells, cuts[|ts| - 1], cuts[|ts|]);
  }

  /** The symmetric product of the whole matrix: whatever the interleaving of the threads,
      every row of the vector becomes beta * y + alpha * A * x. */
  lemma {:induction false} SymmetricMatrixProduct(m: Memory, cells: seq<Cell>, cuts: seq<Cut>, ts: seq<Thread>,
                                                  maps: seq<Map>, ends: seq<nat>, n: nat, beta: real,
                                                  stores: seq<seq<Store>>, s1: seq<nat>, s2: seq<nat>, s3: seq<nat>,
                                                  x: seq<real>, alpha: real, r: nat)
    requires Input(cells, n, n) && FullDiagonal(cells, n) && IsSymmetric(cells) && ThreadsOf(ts, cells, cuts, n)
    requires cuts[|ts|].at == |cells| && |x| == n && r < n && ThreadsOk(ts, n)
    requires MapsOk(PartsOf(ts, n), maps, ends, n) && (forall i :: 0 <= i < |maps| ==> MapOk(maps[i]))
    requires AllStores(ts, n, stores, x, alpha) && MemoryOk(m, |ts|, n)
    requires Complete(ClearProgs(maps), s1) && Complete(KernelProgs(ts, n, beta, stores), s2)
    requires Complete(GatherProgs(maps), s3)
    ensures ColsWithin(cells, n)
    ensures At(AfterAll(m, ts, maps, n, beta, stores, s1, s2, s3), Addr(0, r))
      == Prod(At(m, Addr(0, r)), beta) + Dot(cells, r + 1, x, alpha)
  {
    hide Input, FullDiagonal, IsSymmetric, ThreadsOf, ThreadsOk, MapsOk, PartsOf, MapOk, AllStores, MemoryOk,
         Complete, AfterAll, At, Dot, ColsWithin, RowOwned, Whole;
    SymmetricProduct(m, ts, maps, ends, n, beta, stores, s1, s2, s3, x, alpha, r);
    AllRowsOwned(ts, cells, cuts, n, r);
    WholeIsInput(ts, cells, cuts, n, r + 1, x, alpha);
  }
}
