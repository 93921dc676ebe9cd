/** Cutting a symmetric matrix into the lower triangles and diagonals of partitions. */
module PartitionsSym {
  import opened Encodings
  import opened Cells
  import opened Elements
  import opened CsxManager
  import opened SparsePartition
  import opened SparsePartitionSym
  import opened Partitions
  import opened CsxBuild
  import opened CsxBuildSym

  /** The cells below the diagonal. */
  function LowerOf(cs: seq<Cell>): (ls: seq<Cell>)
    ensures |ls| <= |cs|
  {
    if cs == [] then []
    else
      var n := |cs| - 1;
      LowerOf(cs[..n]) + if cs[n].row > cs[n].col then [cs[n]] else []
  }

  /** The values on the diagonal. */
  function DiagOf(cs: seq<Cell>): (ds: seq<real>)
    ensures |ds| <= |cs|
  {
    if cs == [] then []
    else
      var n := |cs| - 1;
      DiagOf(cs[..n]) + if cs[n].row == cs[n].col then [cs[n].val] else []
  }

  /** Row of the last cell below the diagonal, counted from row rs + 1; 1 if there is none. */
  function LastLower(cs: seq<Cell>, rs: nat): int {
    if LowerOf(cs) == [] then 1 else LowerOf(cs)[|LowerOf(cs)| - 1].row - rs
  }

  lemma {:induction false} Snoc(cells: seq<Cell>, lo: nat, p: nat, rs: nat)
    requires lo <= p < |cells|
    ensures var c, part, more := cells[p], cells[lo..p], cells[lo..p + 1];
            && LowerOf(more) == LowerOf(part) + (if c.row > c.col then [c] else [])
            && DiagOf(more) == DiagOf(part) + (if c.row == c.col then [c.val] else [])
            && LastLower(more, rs) == (if c.row > c.col then c.row - rs else LastLower(part, rs))
            && Relative(LowerOf(more), rs)
               == Relative(LowerOf(part), rs) + (if c.row > c.col then [Single(c.row - rs, c.col, c.val)] else [])
  {
    var part, more := cells[lo..p], cells[lo..p + 1];
    assert more == part + [cells[p]];
    assert more[..|part|] == part && more[|part|] == cells[p] && |more| - 1 == |part|;
    SnocParts(part, cells[p], more);
    hide LowerOf, DiagOf;
    RelativeSnoc(LowerOf(part), cells[p], rs);
  }

  lemma {:induction false} SnocParts(part: seq<Cell>, c: Cell, more: seq<Cell>)
    requires more != [] && more[..|more| - 1] == part && more[|more| - 1] == c
    ensures LowerOf(more) == LowerOf(part) + (if c.row > c.col then [c] else [])
    ensures DiagOf(more) == DiagOf(part) + (if c.row == c.col then [c.val] else [])
  {
  }

  lemma {:induction false} RelativeSnoc(cs: seq<Cell>, c: Cell, rs: nat)
    ensures Relative(cs + [c], rs) == Relative(cs, rs) + [Single(c.row - rs, c.col, c.val)]
    ensures cs + [] == cs && Relative(cs, rs) + [] == Relative(cs, rs)
  {
  }

  /** The partition ends before this cell: it opens the row after the last one that has cells
      below the diagonal, and the limit has been reached. */
  predicate StopsBefore(cells: seq<Cell>, lo: nat, p: nat, rs: nat, limit: nat)
    requires lo <= p < |cells|
  {
    var part := cells[lo..p];
    && cells[p].row > cells[p].col && cells[p].row - rs == LastLower(part, rs) + 1
    && limit > 0 && |DiagOf(part)| + |LowerOf(part)| >= limit
  }

  /** Where a partition that starts at `lo` ends, looking from `p` on. */
  function StopSym(cells: seq<Cell>, lo: nat, p: nat, rs: nat, limit: nat): (r: nat)
    requires lo <= p <= |cells|
    ensures p <= r <= |cells|
    decreases |cells| - p
  {
    if p == |cells| || StopsBefore(cells, lo, p, rs, limit) then p else StopSym(cells, lo, p + 1, rs, limit)
  }

  lemma {:induction false} StopSymFirst(cells: seq<Cell>, lo: nat, p: nat, rs: nat, limit: nat)
    requires lo <= p <= |cells|
    ensures var r := StopSym(cells, lo, p, rs, limit); r < |cells| ==> StopsBefore(cells, lo, r, rs, limit)
    decreases |cells| - p
  {
    if p < |cells| && !StopsBefore(cells, lo, p, rs, limit) {
      StopSymFirst(cells, lo, p + 1, rs, limit);
    }
  }

  /** Fills the lower triangle and the diagonal; cells above the diagonal are skipped. */
  method SetElemsSym(sym: SparsePartitionSym, cells: seq<Cell>, pi0: nat, rs: nat, limit: nat, ghost nrRows: nat,
                     ghost nrCols: nat)
    returns (pi: nat)
    requires Input(cells, nrRows, nrCols) && pi0 <= |cells| && sym.lower.elems == [] && sym.diagonal == []
    requires forall k :: pi0 <= k < |cells| ==> cells[k].row > rs
    modifies sym`diagonal, sym.lower`elems, sym.lower`elemsSize, sym.lower`rowptr
    ensures pi == StopSym(cells, pi0, pi0, rs, limit)
    ensures sym.lower.elems == Relative(LowerOf(cells[pi0..pi]), rs) && sym.lower.elemsSize == |sym.lower.elems|
    ensures sym.diagonal == DiagOf(cells[pi0..pi])
    ensures IsRowptr(sym.lower.rowptr, sym.lower.elems) && Tight(sym.lower.rowptr, sym.lower.elems)
  {
    hide Partial, IsRowptr, Tight, Relative, Input, LowerOf, DiagOf, LastLower;
    var bld := new Builder();
    var rowPrev := 1;
    pi := pi0;
    NothingYet(bld.rowptr);
    NothingTaken(cells, pi0, rs);
    while pi < |cells|
      invariant pi0 <= pi <= |cells| && StopSym(cells, pi0, pi, rs, limit) == StopSym(cells, pi0, pi0, rs, limit)
      invariant sym.lower == old(sym.lower)
      invariant sym.lower.elems == Relative(LowerOf(cells[pi0..pi]), rs) && sym.diagonal == DiagOf(cells[pi0..pi])
      invariant rowPrev == LastLower(cells[pi0..pi], rs)
      invariant Partial(bld.rowptr, sym.lower.elems, |sym.lower.elems|, rowPrev)
    {
      var row, col := cells[pi].row - rs, cells[pi].col;
      Snoc(cells, pi0, pi, rs);
      RowsForward(cells, pi0, pi, rs, nrRows, nrCols);
      if rs + row > col {
        if row != rowPrev && limit > 0 && |sym.diagonal| + |sym.lower.elems| >= limit && rowPrev == row - 1 {
          break;
        }
        rowPrev := Append(sym.lower, bld, rowPrev, Single(row, col, cells[pi].val));
      } else if rs + row == col {
        sym.diagonal := sym.diagonal + [cells[pi].val];
      }
      pi := pi + 1;
    }
    StopSymEnd(cells, pi0, pi, rs, limit);
    ghost var rp := bld.rowptr;
    PartialNonempty(rp, sym.lower.elems, rowPrev);
    LastOf(cells[pi0..pi], rs);
    sym.lower.elemsSize := |sym.lower.elems|;
    bld.Finalize(sym.lower.elemsSize);
    Closed(rp, sym.lower.elems, rowPrev, bld.rowptr);
    sym.lower.rowptr := bld.rowptr;
  }

  lemma {:induction false} NothingTaken(cells: seq<Cell>, pi0: nat, rs: nat)
    requires pi0 <= |cells|
    ensures Relative(LowerOf(cells[pi0..pi0]), rs) == [] && DiagOf(cells[pi0..pi0]) == []
    ensures LastLower(cells[pi0..pi0], rs) == 1
  {
  }

  /** Sizes, and rows that do not go back. */
  lemma {:induction false} RowsForward(cells: seq<Cell>, lo: nat, p: nat, rs: nat, nrRows: nat, nrCols: nat)
    requires Input(cells, nrRows, nrCols) && lo <= p < |cells| && forall k :: lo <= k < |cells| ==> cells[k].row > rs
    ensures cells[p].row - rs >= LastLower(cells[lo..p], rs)
    ensures |Relative(LowerOf(cells[lo..p]), rs)| == |LowerOf(cells[lo..p])|
  {
    var ls := LowerOf(cells[lo..p]);
    LowerMember(cells[lo..p]);
    if ls != [] {
      var k :| 0 <= k < |cells[lo..p]| && cells[lo..p][k] == ls[|ls| - 1];
      assert Before(Coord(cells[lo + k].row, cells[lo + k].col), Coord(cells[p].row, cells[p].col));
    }
  }

  lemma {:induction false} LowerMember(cs: seq<Cell>)
    ensures forall k :: 0 <= k < |LowerOf(cs)| ==> LowerOf(cs)[k] in cs
  {
    if cs != [] {
      LowerMember(cs[..|cs| - 1]);
    }
  }

  lemma {:induction false} StopSymEnd(cells: seq<Cell>, lo: nat, p: nat, rs: nat, limit: nat)
    requires lo <= p <= |cells|
    ensures p == |cells| ==> StopSym(cells, lo, p, rs, limit) == p
    ensures p < |cells| && StopsBefore(cells, lo, p, rs, limit) ==> StopSym(cells, lo, p, rs, limit) == p
  {
  }

  lemma {:induction false} LastOf(cs: seq<Cell>, rs: nat)
    ensures var es := Relative(LowerOf(cs), rs); LastLower(cs, rs) == if es == [] then 1 else es[|es| - 1].row
  {
  }

  // ----- Full diagonals -----

  predicate DiagBefore(cells: seq<Cell>, p: nat, r: int)
    requires p <= |cells|
  {
    exists k :: 0 <= k < p && cells[k].row == r == cells[k].col
  }

  /** Every row has its diagonal entry. */
  predicate FullDiagonal(cells: seq<Cell>, nrRows: nat) {
    forall r :: 1 <= r <= nrRows ==> DiagBefore(cells, |cells|, r)
  }

  /** The diagonal entries come row by row, none is missing. */
  lemma {:induction false} DiagonalsSeen(cells: seq<Cell>, p: nat, nrRows: nat, nrCols: nat, r: int)
    requires Input(cells, nrRows, nrCols) && FullDiagonal(cells, nrRows) && p <= |cells|
    ensures DiagBefore(cells, p, r) <==> 1 <= r <= |DiagOf(cells[..p])|
    decreases p
  {
    if p > 0 {
      var c, q := cells[p - 1], |DiagOf(cells[..p - 1])|;
      assert cells[..p][..p - 1] == cells[..p - 1];
      DiagonalsSeen(cells, p - 1, nrRows, nrCols, r);
      OneMoreSeen(cells, p - 1, r);
      if c.row == c.col {
        DiagonalsSeen(cells, p - 1, nrRows, nrCols, c.row);
        DiagonalsSeen(cells, p - 1, nrRows, nrCols, q + 1);
        NextDiagonal(cells, p - 1, nrRows, nrCols, q + 1);
      }
    }
  }

  lemma {:induction false} OneMoreSeen(cells: seq<Cell>, p: nat, r: int)
    requires p < |cells|
    ensures DiagBefore(cells, p + 1, r) <==> DiagBefore(cells, p, r) || cells[p].row == r == cells[p].col
  {
    if DiagBefore(cells, p, r) {
      var k :| 0 <= k < p && cells[k].row == r == cells[k].col;
      assert DiagBefore(cells, p + 1, r);
    }
  }

  /** A diagonal entry that has not been seen is not in an earlier row. */
  lemma {:induction false} NextDiagonal(cells: seq<Cell>, p: nat, nrRows: nat, nrCols: nat, r: int)
    requires Input(cells, nrRows, nrCols) && FullDiagonal(cells, nrRows) && p < |cells|
    requires 1 <= r && !DiagBefore(cells, p, r)
    ensures cells[p].row <= r
  {
    if r <= nrRows {
      assert DiagBefore(cells, |cells|, r);
      var k :| 0 <= k < |cells| && cells[k].row == r == cells[k].col;
      if k > p {
        assert Before(Coord(cells[p].row, cells[p].col), Coord(cells[k].row, cells[k].col));
      }
    }
  }

  /** Between rows, there have been as many diagonal entries as rows. */
  lemma {:induction false} RowsSeen(cells: seq<Cell>, p: nat, nrRows: nat, nrCols: nat)
    requires Input(cells, nrRows, nrCols) && FullDiagonal(cells, nrRows) && p <= |cells| && BetweenRows(cells, p)
    ensures |DiagOf(cells[..p])| == RowBefore(cells, p)
  {
    var q, r := |DiagOf(cells[..p])|, RowBefore(cells, p);
    DiagonalsSeen(cells, p, nrRows, nrCols, r);
    DiagonalsSeen(cells, p, nrRows, nrCols, q);
    CutFollows(cells, nrRows, nrCols, p);
    if p > 0 {
      assert DiagBefore(cells, |cells|, r);
      var k :| 0 <= k < |cells| && cells[k].row == r == cells[k].col;
      assert k < p;
      assert DiagBefore(cells, p, r);
    }
    if q > 0 {
      var k :| 0 <= k < p && cells[k].row == q == cells[k].col;
      if k < p - 1 {
        assert Before(Coord(cells[k].row, cells[k].col), Coord(cells[p - 1].row, cells[p - 1].col));
      }
    }
  }

  lemma {:induction false} DiagConcat(a: seq<Cell>, b: seq<Cell>)
    ensures DiagOf(a + b) == DiagOf(a) + DiagOf(b) && LowerOf(a + b) == LowerOf(a) + LowerOf(b)
    decreases |b|
  {
    if b == [] {
      assert a + b == a;
    } else {
      assert (a + b)[..|a + b| - 1] == a + b[..|b| - 1];
      DiagConcat(a, b[..|b| - 1]);
    }
  }

  lemma {:induction false} DiagonalOfPart(cells: seq<Cell>, lo: nat, hi: nat, nrRows: nat, nrCols: nat)
    requires Input(cells, nrRows, nrCols) && FullDiagonal(cells, nrRows) && lo <= hi <= |cells|
    requires BetweenRows(cells, lo) && BetweenRows(cells, hi)
    ensures |DiagOf(cells[lo..hi])| == RowBefore(cells, hi) - RowBefore(cells, lo)
  {
    assert cells[..hi] == cells[..lo] + cells[lo..hi];
    DiagConcat(cells[..lo], cells[lo..hi]);
    RowsSeen(cells, lo, nrRows, nrCols);
    RowsSeen(cells, hi, nrRows, nrCols);
  }

  // ----- Rows of a partition -----

  /** Rows that have a pointer: up to the last one with a cell below the diagonal. */
  function RowsOf(cs: seq<Cell>, rs: nat): int { if LowerOf(cs) == [] then 0 else LastLower(cs, rs) }

  /** The last row taken has a cell below the diagonal. */
  predicate EndsLow(cells: seq<Cell>, lo: nat, hi: nat)
    requires lo <= hi <= |cells|
  {
    exists k :: lo <= k < hi && cells[k].row == cells[hi - 1].row && cells[k].row > cells[k].col
  }

  lemma {:induction false} LastOfLower(cells: seq<Cell>, lo: nat, hi: nat, nrRows: nat, nrCols: nat)
    requires Input(cells, nrRows, nrCols) && lo < hi <= |cells|
    ensures EndsLow(cells, lo, hi) <==> LowerOf(cells[lo..hi]) != [] && LastLower(cells[lo..hi], 0) == cells[hi - 1].row
    ensures LowerOf(cells[lo..hi]) != [] ==> LastLower(cells[lo..hi], 0) <= cells[hi - 1].row
  {
    var part := cells[lo..hi];
    var ls := LowerOf(part);
    LowerMember(part);
    if ls != [] {
      var k :| 0 <= k < |part| && part[k] == ls[|ls| - 1];
      LowerIsLower(part);
      if lo + k < hi - 1 {
        assert Before(Coord(cells[lo + k].row, cells[lo + k].col), Coord(cells[hi - 1].row, cells[hi - 1].col));
      }
      if LastLower(part, 0) == cells[hi - 1].row {
        assert cells[lo + k].row == cells[hi - 1].row && cells[lo + k].row > cells[lo + k].col;
      }
    }
    if EndsLow(cells, lo, hi) {
      var k :| lo <= k < hi && cells[k].row == cells[hi - 1].row && cells[k].row > cells[k].col;
      LastFrom(cells, lo, hi, k, nrRows, nrCols);
    }
  }

  lemma {:induction false} LowerIsLower(cs: seq<Cell>)
    ensures forall k :: 0 <= k < |LowerOf(cs)| ==> LowerOf(cs)[k].row > LowerOf(cs)[k].col
  {
    if cs != [] {
      LowerIsLower(cs[..|cs| - 1]);
    }
  }

  lemma {:induction false} SortedRows(cells: seq<Cell>, nrRows: nat, nrCols: nat, i: nat, j: nat)
    requires Input(cells, nrRows, nrCols) && i <= j < |cells|
    ensures cells[i].row <= cells[j].row
  {
    if i < j {
      assert Before(Coord(cells[i].row, cells[i].col), Coord(cells[j].row, cells[j].col));
    }
  }

  /** A cell below the diagonal in the last row makes the last row the last with such a cell. */
  lemma {:induction false} LastFrom(cells: seq<Cell>, lo: nat, hi: nat, k: nat, nrRows: nat, nrCols: nat)
    requires Input(cells, nrRows, nrCols) && lo <= k < hi <= |cells|
    requires cells[k].row == cells[hi - 1].row && cells[k].row > cells[k].col
    ensures LowerOf(cells[lo..hi]) != [] && LastLower(cells[lo..hi], 0) == cells[hi - 1].row
    decreases hi
  {
    Snoc(cells, lo, hi - 1, 0);
    hide LowerOf, LastLower, Relative, DiagOf, Input;
    if k < hi - 1 {
      SortedRows(cells, nrRows, nrCols, k, hi - 2);
      SortedRows(cells, nrRows, nrCols, hi - 2, hi - 1);
      LastFrom(cells, lo, hi - 1, k, nrRows, nrCols);
    }
  }

  /** A partition ends between rows. */
  lemma {:induction false} StopSymBetween(cells: seq<Cell>, lo: nat, rs: nat, limit: nat, nrRows: nat, nrCols: nat)
    requires Input(cells, nrRows, nrCols) && lo <= |cells|
    ensures BetweenRows(cells, StopSym(cells, lo, lo, rs, limit))
  {
    var r := StopSym(cells, lo, lo, rs, limit);
    StopSymFirst(cells, lo, lo, rs, limit);
    if r < |cells| {
      assert r > lo;
      Snoc(cells, lo, r - 1, rs);
      assert Before(Coord(cells[r - 1].row, cells[r - 1].col), Coord(cells[r].row, cells[r].col));
    }
  }

  /** The diagonal of a partition has as many entries as the partition has rows exactly when
      its last row has a cell below the diagonal. */
  lemma {:induction false} DiagonalMatches(cells: seq<Cell>, lo: nat, hi: nat, nrRows: nat, nrCols: nat)
    requires Input(cells, nrRows, nrCols) && FullDiagonal(cells, nrRows) && lo < hi <= |cells|
    requires BetweenRows(cells, lo) && BetweenRows(cells, hi) && RowBefore(cells, lo) >= 0
    ensures |DiagOf(cells[lo..hi])| == RowsOf(cells[lo..hi], RowBefore(cells, lo)) <==> EndsLow(cells, lo, hi)
  {
    DiagonalOfPart(cells, lo, hi, nrRows, nrCols);
    LastOfLower(cells, lo, hi, nrRows, nrCols);
    CutFollows(cells, nrRows, nrCols, lo);
  }

  /** A row with nothing below the diagonal at the end of a partition breaks it. */
  lemma {:induction false} TrailingDiagonal(a: real, b: real, c: real, d: real)
    ensures var cells := [Cell(1, 1, a), Cell(2, 1, b), Cell(2, 2, c), Cell(3, 3, d)];
            Input(cells, 3, 3) && FullDiagonal(cells, 3) && !EndsLow(cells, 0, 4)
            && |DiagOf(cells[0..4])| == 3 && RowsOf(cells[0..4], 0) == 2
  {
    hide LowerOf, DiagOf, LastLower, Relative;
    var cells := [Cell(1, 1, a), Cell(2, 1, b), Cell(2, 2, c), Cell(3, 3, d)];
    assert cells[0].row == 1 == cells[0].col && cells[2].row == 2 == cells[2].col && cells[3].row == 3 == cells[3].col;
    assert DiagBefore(cells, |cells|, 1) && DiagBefore(cells, |cells|, 2) && DiagBefore(cells, |cells|, 3);
    NothingTaken(cells, 0, 0);
    NoLower(cells[0..0]);
    Snoc(cells, 0, 0, 0);
    Snoc(cells, 0, 1, 0);
    Snoc(cells, 0, 2, 0);
    Snoc(cells, 0, 3, 0);
  }

  // ----- All partitions -----

  /** How far partitioning has come: place in the input, rows and elements of the partitions. */
  datatype Cut = Cut(at: nat, rs: nat, cnt: nat)

  predicate CutOk(cells: seq<Cell>, c: Cut) {
    && c.at <= |cells| && BetweenRows(cells, c.at) && c.rs <= RowBefore(cells, c.at)
    && c.cnt == |LowerOf(cells[..c.at])| + |DiagOf(cells[..c.at])|
  }

  function NextAt(cells: seq<Cell>, c: Cut, limit: nat): nat
    requires c.at <= |cells|
  {
    StopSym(cells, c.at, c.at, c.rs, limit)
  }

  /** After one more partition. */
  lemma {:induction false} NextCut(cells: seq<Cell>, c: Cut, limit: nat, nrRows: nat, nrCols: nat)
    requires Input(cells, nrRows, nrCols) && CutOk(cells, c)
    ensures var hi := NextAt(cells, c, limit);
            var part := cells[c.at..hi];
            && (forall k :: c.at <= k < |cells| ==> cells[k].row > c.rs)
            && RowsOf(part, c.rs) >= 0
            && CutOk(cells, Cut(hi, c.rs + RowsOf(part, c.rs), c.cnt + |LowerOf(part)| + |DiagOf(part)|))
  {
    hide StopSym, LowerOf, DiagOf;
    var hi := NextAt(cells, c, limit);
    var part := cells[c.at..hi];
    StopSymBetween(cells, c.at, c.rs, limit, nrRows, nrCols);
    CutFollows(cells, nrRows, nrCols, c.at);
    CutFollows(cells, nrRows, nrCols, hi);
    assert cells[..hi] == cells[..c.at] + part;
    DiagConcat(cells[..c.at], part);
    if hi > c.at {
      LastOfLower(cells, c.at, hi, nrRows, nrCols);
      RowsNotNegative(cells, c.at, hi, c.rs);
    } else {
      NoLower(part);
    }
  }

  lemma {:induction false} NoLower(cs: seq<Cell>)
    requires cs == []
    ensures LowerOf(cs) == [] && DiagOf(cs) == []
  {
  }

  lemma {:induction false} RowsNotNegative(cells: seq<Cell>, lo: nat, hi: nat, rs: nat)
    requires lo <= hi <= |cells| && forall k :: lo <= k < |cells| ==> cells[k].row > rs
    ensures RowsOf(cells[lo..hi], rs) >= 0
    ensures LowerOf(cells[lo..hi]) != [] ==> LastLower(cells[lo..hi], rs) + rs == LastLower(cells[lo..hi], 0)
  {
    var ls := LowerOf(cells[lo..hi]);
    LowerMember(cells[lo..hi]);
    if ls != [] {
      var k :| 0 <= k < |cells[lo..hi]| && cells[lo..hi][k] == ls[|ls| - 1];
      assert cells[lo + k].row > rs;
    }
  }

  /** The partition holds what lies between the cuts. */
  ghost predicate IsPartitionSym(sym: SparsePartitionSym, cells: seq<Cell>, c: Cut, c': Cut, nrCols: nat)
    reads sym, sym.lower, sym.m1, sym.m2
  {
    && c.at <= c'.at <= |cells| && Loaded(sym.lower)
    && sym.lower.elems == Relative(LowerOf(cells[c.at..c'.at]), c.rs) && sym.lower.elemsSize == |sym.lower.elems|
    && sym.diagonal == DiagOf(cells[c.at..c'.at])
    && sym.lower.rowStart == c.rs && sym.lower.rowStart + sym.lower.nrRows == c'.rs
    && sym.lower.nrCols == nrCols && sym.lower.nrRows == |sym.lower.rowptr| - 1 == RowsOf(cells[c.at..c'.at], c.rs)
    && c'.cnt == c.cnt + |sym.lower.elems| + |sym.diagonal|
    && sym.lower != sym.m1 && sym.lower != sym.m2 && sym.m1 != sym.m2
    && sym.m1.elems == sym.m2.elems == [] && sym.m1.nrNonzeros == sym.m2.nrNonzeros == 0
  }

  lemma {:induction false} LowerRowByRow(cells: seq<Cell>, lo: nat, hi: nat, rs: nat, nrRows: nat, nrCols: nat)
    requires Input(cells, nrRows, nrCols) && lo <= hi <= |cells|
    requires forall k :: lo <= k < |cells| ==> cells[k].row > rs
    ensures RowByRow(LowerOf(cells[lo..hi]), rs, nrCols)
  {
    LowerSorted(cells, lo, hi, nrRows, nrCols);
    LowerMember(cells[lo..hi]);
    var ls := LowerOf(cells[lo..hi]);
    forall i | 0 <= i < |ls| ensures ls[i].row > rs && 1 <= ls[i].col <= nrCols {
      var k :| 0 <= k < |cells[lo..hi]| && cells[lo..hi][k] == ls[i];
      assert cells[lo + k] == ls[i];
    }
  }

  lemma {:induction false} BeforeLast(cells: seq<Cell>, lo: nat, hi: nat, c: Cell, nrRows: nat, nrCols: nat)
    requires Input(cells, nrRows, nrCols) && lo < hi <= |cells| && c in cells[lo..hi - 1]
    ensures Before(Coord(c.row, c.col), Coord(cells[hi - 1].row, cells[hi - 1].col))
  {
    var part := cells[lo..hi - 1];
    var k :| 0 <= k < |part| && part[k] == c;
    assert cells[lo + k] == c;
  }

  lemma {:induction false} LowerSorted(cells: seq<Cell>, lo: nat, hi: nat, nrRows: nat, nrCols: nat)
    requires Input(cells, nrRows, nrCols) && lo <= hi <= |cells|
    ensures var ls := LowerOf(cells[lo..hi]);
            forall i, j :: 0 <= i < j < |ls| ==> Before(Coord(ls[i].row, ls[i].col), Coord(ls[j].row, ls[j].col))
    decreases hi
  {
    hide Input, Before;
    if hi > lo {
      LowerSorted(cells, lo, hi - 1, nrRows, nrCols);
      Snoc(cells, lo, hi - 1, 0);
      var ls := LowerOf(cells[lo..hi - 1]);
      LowerMember(cells[lo..hi - 1]);
      forall i | 0 <= i < |ls|
        ensures Before(Coord(ls[i].row, ls[i].col), Coord(cells[hi - 1].row, cells[hi - 1].col))
      {
        BeforeLast(cells, lo, hi, ls[i], nrRows, nrCols);
      }
    } else {
      NoLower(cells[lo..hi]);
    }
  }

  method BuildPartitionSym(cells: seq<Cell>, ghost c: Cut, rowStart: nat, iter0: nat, limit: nat, ghost nrRows: nat,
                           nrCols: nat)
    returns (sym: SparsePartitionSym, iter: nat, ghost c': Cut)
    requires Input(cells, nrRows, nrCols) && nrCols <= MAX_INDEX && CutOk(cells, c) && iter0 == c.at && rowStart == c.rs
    ensures fresh(sym) && fresh(sym.lower) && fresh(sym.m1) && fresh(sym.m2)
    ensures iter == c'.at == NextAt(cells, c, limit) && CutOk(cells, c') && IsPartitionSym(sym, cells, c, c', nrCols)
  {
    hide Input, IsRowptr, Tight, Sorted, StartsInBounds, AllShaped, Relative, LowerOf, DiagOf, CutOk, RowsOf;
    CutFacts(cells, c);
    NextCut(cells, c, limit, nrRows, nrCols);
    sym := new SparsePartitionSym();
    iter := SetElemsSym(sym, cells, iter0, rowStart, limit, nrRows, nrCols);
    var lower := sym.lower;
    LowerRowByRow(cells, iter0, iter, rowStart, nrRows, nrCols);
    SetIsLoaded(LowerOf(cells[iter0..iter]), lower.elems, rowStart, lower.rowptr, nrCols);
    RowsOfLower(cells[iter0..iter], rowStart);
    lower.nrNonzeros := lower.elemsSize;
    lower.nrRows := |lower.rowptr| - 1;
    lower.nrCols := nrCols;
    lower.rowStart := rowStart;
    lower.ty := Horizontal;
    assert lower.Live() == lower.elems;
    ghost var part := cells[c.at..iter];
    c' := Cut(iter, c.rs + RowsOf(part, c.rs), c.cnt + |LowerOf(part)| + |DiagOf(part)|);
  }

  lemma {:induction false} RowsOfLower(cs: seq<Cell>, rs: nat)
    ensures RowsOf(cs, rs) == if LowerOf(cs) == [] then 0 else LowerOf(cs)[|LowerOf(cs)| - 1].row - rs
    ensures |Relative(LowerOf(cs), rs)| == |LowerOf(cs)|
  {
  }

  lemma {:induction false} CutFacts(cells: seq<Cell>, c: Cut)
    requires CutOk(cells, c)
    ensures c.at <= |cells|
  {
  }

  /** Two partitions have nothing in common. */
  ghost predicate Separate(a: SparsePartitionSym, b: SparsePartitionSym)
    reads a, b
  {
    var as_: set<object>, bs: set<object> := {a, a.lower, a.m1, a.m2}, {b, b.lower, b.m1, b.m2};
    as_ !! bs
  }

  /** The cuts of the partitions built so far. */
  ghost predicate CutsOf(partitions: seq<SparsePartitionSym>, cells: seq<Cell>, cuts: seq<Cut>, nnz: nat, nr: nat,
                         nrCols: nat)
    reads partitions, set i | 0 <= i < |partitions| :: partitions[i].lower,
      set i | 0 <= i < |partitions| :: partitions[i].m1,
      set i | 0 <= i < |partitions| :: partitions[i].m2
  {
    && |cuts| == |partitions| + 1 && |partitions| <= nr && cuts[0] == Cut(0, 0, 0)
    && forall i :: 0 <= i < |partitions| ==> CutStep(partitions[i], cells, cuts[i], cuts[i + 1], nnz, nr - i, nrCols)
  }

  ghost predicate CutStep(sym: SparsePartitionSym, cells: seq<Cell>, c: Cut, c': Cut, nnz: nat, left: int, nrCols: nat)
    reads sym, sym.lower, sym.m1, sym.m2
  {
    && left > 0 && CutOk(cells, c) && CutOk(cells, c') && c'.at == NextAt(cells, c, Limit(nnz, c.cnt, left))
    && IsPartitionSym(sym, cells, c, c', nrCols)
  }

  /** Cuts a symmetric matrix into `nr` partitions; `nnzAll` is the number of elements the
      whole matrix was said to have. */
  method BuildPartitionsSym(cells: seq<Cell>, nnzAll: nat, ghost nrRows: nat, nrCols: nat, nr: nat)
    returns (partitions: seq<SparsePartitionSym>, ok: bool, ghost cuts: seq<Cut>)
    requires Input(cells, nrRows, nrCols) && nrCols <= MAX_INDEX
    ensures |partitions| == nr && CutsOf(partitions, cells, cuts, (nnzAll + nrCols) / 2, nr, nrCols)
    ensures forall i :: 0 <= i < nr ==>
      fresh(partitions[i]) && fresh(partitions[i].lower) && fresh(partitions[i].m1) && fresh(partitions[i].m2)
    ensures forall i, j :: 0 <= i < j < nr ==> Separate(partitions[i], partitions[j])
    ensures FairCuts(cells, (nnzAll + nrCols) / 2, nr, cuts)
    ensures LowRows(cells, nrRows) && (nnzAll + nrCols) / 2 == Counts(cells) < TWO_TO_THE_64 ==>
      forall i, most :: 0 <= i < nr && LowRowsUpTo(cells, most) ==>
        NotTooLarge(SizeOf(partitions[i]), Counts(cells), nr, most)
    ensures ok <==> cuts[nr].cnt == (nnzAll + nrCols) / 2
  {
    hide Input, IsPartitionSym, Limit, CutOk, NextAt, FairCuts, LowRows, LowRowsUpTo, NotTooLarge, SizeOf, Counts;
    var nrNzeros := (nnzAll + nrCols) / 2;
    partitions := [];
    var rowStart: nat, cnt: nat, iter: nat := 0, 0, 0;
    cuts := [Cut(0, 0, 0)];
    FirstCut(cells);
    var i := 0;
    while i < nr
      invariant i <= nr && |partitions| == i && CutsOf(partitions, cells, cuts, nrNzeros, nr, nrCols)
      invariant forall k :: 0 <= k < i ==>
        fresh(partitions[k]) && fresh(partitions[k].lower) && fresh(partitions[k].m1) && fresh(partitions[k].m2)
      invariant forall j, k :: 0 <= j < k < i ==> Separate(partitions[j], partitions[k])
      invariant cuts[i] == Cut(iter, rowStart, cnt) && CutOk(cells, cuts[i])
    {
      var limit := Limit(nrNzeros, cnt, nr - i);
      CutFacts(cells, cuts[i]);
      var partition;
      ghost var c';
      partition, iter, c' := BuildPartitionSym(cells, cuts[i], rowStart, iter, limit, nrRows, nrCols);
      CountsOf(partition, cells, cuts[i], c', nrCols);
      rowStart := rowStart + partition.lower.nrRows;
      cnt := cnt + partition.lower.elemsSize + |partition.diagonal|;
      partitions, cuts := partitions + [partition], cuts + [c'];
      i := i + 1;
    }
    ok := cnt == nrNzeros;
    SymShares(partitions, cells, cuts, nrNzeros, nr, nrRows, nrCols);
  }

  lemma {:induction false} FirstCut(cells: seq<Cell>)
    ensures CutOk(cells, Cut(0, 0, 0))
  {
    NoLower(cells[..0]);
  }

  lemma {:induction false} CountsOf(sym: SparsePartitionSym, cells: seq<Cell>, c: Cut, c': Cut, nrCols: nat)
    requires IsPartitionSym(sym, cells, c, c', nrCols)
    ensures c'.rs == c.rs + sym.lower.nrRows && c'.cnt == c.cnt + sym.lower.elemsSize + |sym.diagonal|
  {
  }

  // ----- Balance -----

  /** Elements on or below the diagonal. */
  function Counts(cs: seq<Cell>): nat { |LowerOf(cs)| + |DiagOf(cs)| }

  /** The cell opens the row behind the last one that has cells below the diagonal. */
  predicate OpensNext(cells: seq<Cell>, lo: nat, p: nat, rs: nat)
    requires lo <= p < |cells|
  {
    cells[p].row > cells[p].col && cells[p].row - rs == LastLower(cells[lo..p], rs) + 1
  }

  /** The elements between two cuts are a fair share of what is left of `nnz` when k partitions are
      left: unless the input ends there, the k-th part of it or more, and less up to every earlier
      place where a row is opened right behind the last one. */
  predicate FairSym(cells: seq<Cell>, nnz: nat, k: nat, c: Cut, c': Cut)
    requires k > 0
  {
    var left := if c.cnt <= nnz < TWO_TO_THE_64 then nnz - c.cnt else (nnz - c.cnt) % TWO_TO_THE_64;
    && c.at <= c'.at <= |cells| && c'.cnt == c.cnt + Counts(cells[c.at..c'.at])
    && (c'.at < |cells| ==> left / k > 0 && c'.cnt - c.cnt >= left / k)
    && (left / k > 0 ==>
          forall p :: c.at <= p < c'.at && OpensNext(cells, c.at, p, c.rs) ==> Counts(cells[c.at..p]) < left / k)
  }

  lemma {:induction false} BalanceSym(cells: seq<Cell>, nnz: nat, k: nat, c: Cut, c': Cut)
    requires k > 0 && c.at <= c'.at <= |cells| && c'.at == NextAt(cells, c, Limit(nnz, c.cnt, k))
    requires c'.cnt == c.cnt + Counts(cells[c.at..c'.at])
    ensures FairSym(cells, nnz, k, c, c')
  {
    var limit := Limit(nnz, c.cnt, k);
    LimitIs(nnz, c.cnt, k);
    hide Limit, LowerOf, DiagOf, LastLower;
    StopSymFirst(cells, c.at, c.at, c.rs, limit);
    forall p | limit > 0 && c.at <= p < c'.at && OpensNext(cells, c.at, p, c.rs)
      ensures Counts(cells[c.at..p]) < limit
    {
      NoStop(cells, c.at, c.at, c.rs, limit, p);
    }
  }

  lemma {:induction false} NoStop(cells: seq<Cell>, lo: nat, p: nat, rs: nat, limit: nat, k: nat)
    requires lo <= p <= |cells| && p <= k < StopSym(cells, lo, p, rs, limit)
    ensures k < |cells| && !StopsBefore(cells, lo, k, rs, limit)
    decreases k - p
  {
    hide StopsBefore;
    if p < k {
      NoStop(cells, lo, p + 1, rs, limit, k);
    }
  }

  /** Every row but the first has a cell below the diagonal. */
  ghost predicate LowRows(cells: seq<Cell>, nrRows: nat) {
    forall row :: 2 <= row <= nrRows ==> HasLow(cells, row)
  }

  predicate HasLow(cells: seq<Cell>, row: int) {
    exists k :: 0 <= k < |cells| && cells[k].row == row && row > cells[k].col
  }

  /** Number of cells in a row on or below the diagonal. */
  function LowInRow(cs: seq<Cell>, row: int): nat {
    if cs == [] then 0
    else
      var n := |cs| - 1;
      LowInRow(cs[..n], row) + if cs[n].row == row && cs[n].col <= row then 1 else 0
  }

  /** No row has more than `most` of them. */
  ghost predicate LowRowsUpTo(cells: seq<Cell>, most: nat) { forall row :: LowInRow(cells, row) <= most }

  lemma {:induction false} LowInRowConcat(a: seq<Cell>, b: seq<Cell>, row: int)
    ensures LowInRow(a + b, row) == LowInRow(a, row) + LowInRow(b, row)
    decreases |b|
  {
    if b == [] {
      assert a + b == a;
    } else {
      assert (a + b)[..|a + b| - 1] == a + b[..|b| - 1];
      LowInRowConcat(a, b[..|b| - 1], row);
    }
  }

  lemma {:induction false} OneRowCounts(cs: seq<Cell>, row: int)
    requires forall k :: 0 <= k < |cs| ==> cs[k].row == row
    ensures Counts(cs) == LowInRow(cs, row)
  {
    if cs != [] {
      OneRowCounts(cs[..|cs| - 1], row);
    }
  }

  /** Cells of one row count at most as many as the row has. */
  lemma {:induction false} PartOfRow(cells: seq<Cell>, p: nat, hi: nat, row: int)
    requires p <= hi <= |cells| && forall k :: p <= k < hi ==> cells[k].row == row
    ensures Counts(cells[p..hi]) <= LowInRow(cells, row)
  {
    hide LowerOf, DiagOf;
    OneRowCounts(cells[p..hi], row);
    assert cells == cells[..p] + (cells[p..hi] + cells[hi..]);
    LowInRowConcat(cells[..p], cells[p..hi] + cells[hi..], row);
    LowInRowConcat(cells[p..hi], cells[hi..], row);
  }

  /** The first cell below the diagonal in the last row before a cut. */
  lemma {:induction false} LastRowOpens(cells: seq<Cell>, c: Cut, c': Cut, nrRows: nat, nrCols: nat) returns (p: nat)
    requires Input(cells, nrRows, nrCols) && CutOk(cells, c) && c.at < c'.at <= |cells| && BetweenRows(cells, c'.at)
    requires LowRows(cells, nrRows) && cells[c.at].row < cells[c'.at - 1].row
    ensures c.at <= p < c'.at && OpensNext(cells, c.at, p, c.rs)
    ensures forall k :: p <= k < c'.at ==> cells[k].row == cells[c'.at - 1].row
  {
    hide LowerOf;
    var last := cells[c'.at - 1].row;
    assert HasLow(cells, last);
    p := LowestIn(cells, c.at, c'.at, last, nrRows, nrCols);
    CutFollows(cells, nrRows, nrCols, c.at);
    if last >= 3 {
      RowBeforeEnds(cells, c.at, p, last, nrRows, nrCols);
      LastOfLower(cells, c.at, p, nrRows, nrCols);
    } else {
      NoLowOfFirst(cells[c.at..p]);
    }
  }

  lemma {:induction false} NoLowOfFirst(cs: seq<Cell>)
    requires forall k :: 0 <= k < |cs| ==> cs[k].row <= 1 <= cs[k].col
    ensures LowerOf(cs) == []
  {
    if cs != [] {
      NoLowOfFirst(cs[..|cs| - 1]);
    }
  }

  /** The row before the one that is opened has a cell below the diagonal, and it is in the part. */
  lemma {:induction false} RowBeforeEnds(cells: seq<Cell>, lo: nat, p: nat, last: int, nrRows: nat, nrCols: nat)
    requires Input(cells, nrRows, nrCols) && lo < p < |cells| && BetweenRows(cells, lo) && LowRows(cells, nrRows)
    requires cells[lo].row < last == cells[p].row && last >= 3 && forall k :: lo <= k < p ==> cells[k].row < last
    ensures EndsLow(cells, lo, p) && cells[p - 1].row == last - 1
  {
    RowsInOrder(cells, nrRows, nrCols);
    assert HasLow(cells, last - 1);
    var k :| 0 <= k < |cells| && cells[k].row == last - 1 && last - 1 > cells[k].col;
    assert lo <= k < p;
  }

  lemma {:induction false} RowsInOrder(cells: seq<Cell>, nrRows: nat, nrCols: nat)
    requires Input(cells, nrRows, nrCols)
    ensures forall i, j :: 0 <= i <= j < |cells| ==> cells[i].row <= cells[j].row
  {
    forall i, j | 0 <= i <= j < |cells| ensures cells[i].row <= cells[j].row {
      if i < j {
        assert Before(Coord(cells[i].row, cells[i].col), Coord(cells[j].row, cells[j].col));
      }
    }
  }

  lemma {:induction false} LowestIn(cells: seq<Cell>, lo: nat, hi: nat, row: int, nrRows: nat, nrCols: nat)
    returns (p: nat)
    requires Input(cells, nrRows, nrCols) && lo < hi <= |cells| && cells[hi - 1].row == row
    requires BetweenRows(cells, lo) && BetweenRows(cells, hi) && HasLow(cells, row) && cells[lo].row <= row
    ensures lo <= p < hi && cells[p].row == row > cells[p].col
    ensures forall k :: p <= k < hi ==> cells[k].row == row
    ensures forall k :: lo <= k < p ==> cells[k].row < row
  {
    p := hi - 1;
    while p > lo && cells[p - 1].row == row
      invariant lo <= p < hi && forall k :: p <= k < hi ==> cells[k].row == row
    {
      p := p - 1;
    }
    RowsInOrder(cells, nrRows, nrCols);
    var k :| 0 <= k < |cells| && cells[k].row == row && row > cells[k].col;
    assert k >= p;
    if k > p {
      assert Before(Coord(cells[p].row, cells[p].col), Coord(cells[k].row, cells[k].col));
    }
  }

  /** With a cell below the diagonal in every row, a partition without its last row is less than
      its share. */
  lemma {:induction false} LastRowShare(cells: seq<Cell>, nnz: nat, k: nat, c: Cut, c': Cut, nrRows: nat, nrCols: nat)
    requires Input(cells, nrRows, nrCols) && CutOk(cells, c) && BetweenRows(cells, c'.at) && LowRows(cells, nrRows)
    requires k > 0 && c.at < c'.at && FairSym(cells, nnz, k, c, c') && c.cnt <= nnz < TWO_TO_THE_64
    requires (nnz - c.cnt) / k > 0
    ensures c'.cnt - c.cnt <= (nnz - c.cnt) / k - 1 + LowInRow(cells, cells[c'.at - 1].row)
  {
    hide LowerOf, DiagOf, LowRows, CutOk;
    CutBetween(cells, c);
    var last := cells[c'.at - 1].row;
    RowsInOrder(cells, nrRows, nrCols);
    if cells[c.at].row < last {
      var p := LastRowOpens(cells, c, c', nrRows, nrCols);
      PartOfRow(cells, p, c'.at, last);
      assert cells[c.at..c'.at] == cells[c.at..p] + cells[p..c'.at];
      DiagConcat(cells[c.at..p], cells[p..c'.at]);
    } else {
      PartOfRow(cells, c.at, c'.at, last);
    }
  }

  lemma {:induction false} CutBetween(cells: seq<Cell>, c: Cut)
    requires CutOk(cells, c)
    ensures c.at <= |cells| && BetweenRows(cells, c.at) && c.cnt == Counts(cells[..c.at])
  {
  }

  /** What the cuts of a matrix are like: fair shares of the claim, one after another. */
  ghost predicate FairCuts(cells: seq<Cell>, nnz: nat, nr: nat, cuts: seq<Cut>) {
    && |cuts| == nr + 1 && cuts[0] == Cut(0, 0, 0)
    && forall i :: 0 <= i < nr ==> FairStep(cells, nnz, nr - i, cuts[i], cuts[i + 1])
  }

  ghost predicate FairStep(cells: seq<Cell>, nnz: nat, k: int, c: Cut, c': Cut) {
    k > 0 && CutOk(cells, c') && FairSym(cells, nnz, k, c, c')
  }

  lemma {:induction false} FairCut(cells: seq<Cell>, nnz: nat, nr: nat, cuts: seq<Cut>, i: nat)
    requires FairCuts(cells, nnz, nr, cuts) && i <= nr
    ensures |cuts| == nr + 1 && CutOk(cells, cuts[i]) && cuts[i].cnt <= Counts(cells)
    ensures cuts[i].at == |cells| ==> cuts[i].cnt == Counts(cells)
    ensures i < nr ==> FairSym(cells, nnz, nr - i, cuts[i], cuts[i + 1])
  {
    hide CutOk, FairSym, LowerOf, DiagOf;
    if i == 0 {
      FirstCut(cells);
    } else {
      assert FairStep(cells, nnz, nr - (i - 1), cuts[i - 1], cuts[i]);
    }
    assert i < nr ==> FairStep(cells, nnz, nr - i, cuts[i], cuts[i + 1]);
    CutBetween(cells, cuts[i]);
    Counted(cells, cuts[i].at);
    assert cells[..|cells|] == cells;
  }

  /** If the claim is right and every row but the first has a cell below the diagonal, no partition
      is too large. */
  lemma {:induction false} LargestPartSym(cells: seq<Cell>, nr: nat, cuts: seq<Cut>, i: nat, most: nat, nrRows: nat,
                                          nrCols: nat)
    requires Input(cells, nrRows, nrCols) && LowRows(cells, nrRows) && LowRowsUpTo(cells, most)
    requires FairCuts(cells, Counts(cells), nr, cuts) && i < nr && Counts(cells) < TWO_TO_THE_64
    ensures |cuts| == nr + 1 && cuts[i].cnt <= cuts[i + 1].cnt
    ensures NotTooLarge(cuts[i + 1].cnt - cuts[i].cnt, Counts(cells), nr, most)
  {
    hide CutOk, LowerOf, DiagOf, LowRows, FairCuts, FairSym, Counts, LowInRow;
    var n := Counts(cells);
    var q := (n + nr - 1) / nr;
    FairCut(cells, n, nr, cuts, i);
    FairCut(cells, n, nr, cuts, i + 1);
    var c, c' := cuts[i], cuts[i + 1];
    CutBetween(cells, c');
    FairNumbers(cells, n, nr - i, c, c');
    LeftAtMostSym(cells, nr, cuts, i, q);
    var share := (n - c.cnt) / (nr - i);
    ShareAtMost(n - c.cnt, nr - i, q);
    if share == 0 {
      ShareZero(n - c.cnt, nr - i);
    } else if c.at < c'.at {
      LastRowShare(cells, n, nr - i, c, c', nrRows, nrCols);
      assert LowInRow(cells, cells[c'.at - 1].row) <= most;
    }
  }

  lemma {:induction false} FairNumbers(cells: seq<Cell>, nnz: nat, k: nat, c: Cut, c': Cut)
    requires k > 0 && FairSym(cells, nnz, k, c, c')
    ensures c.at <= c'.at <= |cells| && c.cnt <= c'.cnt && (c.at == c'.at ==> c.cnt == c'.cnt)
  {
    if c.at == c'.at {
      NoLower(cells[c.at..c'.at]);
    }
  }

  lemma {:induction false} LeftAtMostSym(cells: seq<Cell>, nr: nat, cuts: seq<Cut>, i: nat, q: nat)
    requires FairCuts(cells, Counts(cells), nr, cuts) && i < nr && Counts(cells) < TWO_TO_THE_64
    requires q == (Counts(cells) + nr - 1) / nr
    ensures |cuts| == nr + 1 && Counts(cells) - cuts[i].cnt <= Mul(nr - i, q)
  {
    hide CutOk, LowerOf, DiagOf, FairCuts, Counts, OpensNext, Mul;
    var n := Counts(cells);
    if i == 0 {
      RoundedUp(n, nr, q);
      FirstFair(cells, n, nr, cuts);
    } else {
      LeftAtMostSym(cells, nr, cuts, i - 1, q);
      FairCut(cells, n, nr, cuts, i - 1);
      FairCut(cells, n, nr, cuts, i);
      LeftShrinks(n - cuts[i - 1].cnt, nr - i + 1, q, cuts[i].cnt - cuts[i - 1].cnt);
    }
  }

  lemma {:induction false} FirstFair(cells: seq<Cell>, nnz: nat, nr: nat, cuts: seq<Cut>)
    requires FairCuts(cells, nnz, nr, cuts)
    ensures |cuts| == nr + 1 && cuts[0] == Cut(0, 0, 0)
  {
  }

  /** The partitions are fair shares, and under these conditions none is too large. */
  lemma {:induction false} SymShares(partitions: seq<SparsePartitionSym>, cells: seq<Cell>, cuts: seq<Cut>, nnz: nat,
                                     nr: nat, nrRows: nat, nrCols: nat)
    requires Input(cells, nrRows, nrCols) && |partitions| == nr && CutsOf(partitions, cells, cuts, nnz, nr, nrCols)
    ensures FairCuts(cells, nnz, nr, cuts)
    ensures LowRows(cells, nrRows) && nnz == Counts(cells) < TWO_TO_THE_64 ==>
      forall i, most :: 0 <= i < nr && LowRowsUpTo(cells, most) ==> NotTooLarge(SizeOf(partitions[i]), nnz, nr, most)
  {
    hide CutOk, LowerOf, DiagOf, LowRows, FairSym, Counts, LowRowsUpTo, NotTooLarge, NextAt, Limit, IsPartitionSym;
    forall i | 0 <= i < nr ensures FairStep(cells, nnz, nr - i, cuts[i], cuts[i + 1]) {
      assert CutStep(partitions[i], cells, cuts[i], cuts[i + 1], nnz, nr - i, nrCols);
      PartitionCount(partitions[i], cells, cuts[i], cuts[i + 1], nrCols);
      BalanceSym(cells, nnz, nr - i, cuts[i], cuts[i + 1]);
    }
    if LowRows(cells, nrRows) && nnz == Counts(cells) < TWO_TO_THE_64 {
      forall i, most: nat | 0 <= i < nr && LowRowsUpTo(cells, most)
        ensures NotTooLarge(SizeOf(partitions[i]), nnz, nr, most)
      {
        assert CutStep(partitions[i], cells, cuts[i], cuts[i + 1], nnz, nr - i, nrCols);
        PartitionCount(partitions[i], cells, cuts[i], cuts[i + 1], nrCols);
        LargestPartSym(cells, nr, cuts, i, most, nrRows, nrCols);
      }
    }
  }

  /** Elements in a partition: those below and those on the diagonal. */
  function SizeOf(sym: SparsePartitionSym): nat
    reads sym, sym.lower
  {
    sym.lower.elemsSize + |sym.diagonal|
  }

  lemma {:induction false} PartitionCount(sym: SparsePartitionSym, cells: seq<Cell>, c: Cut, c': Cut, nrCols: nat)
    requires IsPartitionSym(sym, cells, c, c', nrCols)
    ensures c.at <= c'.at <= |cells| && c'.cnt == c.cnt + Counts(cells[c.at..c'.at]) == c.cnt + SizeOf(sym)
  {
    hide Loaded, LowerOf, DiagOf;
  }

  /** Without cells below the diagonal nothing is balanced: the first partition takes everything,
      whatever its share. */
  lemma {:induction false} NothingLowTakesAll(cells: seq<Cell>, limit: nat)
    requires forall k :: 0 <= k < |cells| ==> cells[k].row <= cells[k].col
    ensures NextAt(cells, Cut(0, 0, 0), limit) == |cells|
  {
    StopSymFirst(cells, 0, 0, 0, limit);
  }

  // ----- What the cuts give -----

  /** The last partition takes what is left, if the input has as many elements below and on
      the diagonal as it was said to have. */
  lemma {:induction false} LastTakesAll(cells: seq<Cell>, c: Cut, nnz: nat)
    requires CutOk(cells, c) && nnz == |LowerOf(cells)| + |DiagOf(cells)| < TWO_TO_THE_64
    ensures NextAt(cells, c, Limit(nnz, c.cnt, 1)) == |cells|
  {
    hide LowerOf, DiagOf, StopSym;
    var limit := Limit(nnz, c.cnt, 1);
    var hi := NextAt(cells, c, limit);
    StopSymFirst(cells, c.at, c.at, c.rs, limit);
    Counted(cells, c.at);
    if hi < |cells| {
      OneMoreLeft(cells, c.at, hi);
      assert false;
    }
  }

  /** A cell below the diagonal has not been counted before. */
  lemma {:induction false} OneMoreLeft(cells: seq<Cell>, lo: nat, p: nat)
    requires lo <= p < |cells| && cells[p].row > cells[p].col
    ensures |LowerOf(cells[..lo])| + |DiagOf(cells[..lo])| + |LowerOf(cells[lo..p])| + |DiagOf(cells[lo..p])|
         < |LowerOf(cells)| + |DiagOf(cells)|
  {
    hide LowerOf, DiagOf;
    Counted(cells, p + 1);
    Snoc(cells, lo, p, 0);
    assert cells[..p + 1] == cells[..lo] + cells[lo..p + 1];
    DiagConcat(cells[..lo], cells[lo..p + 1]);
  }

  /** What comes before a place does not count more than the whole. */
  lemma {:induction false} Counted(cells: seq<Cell>, p: nat)
    requires p <= |cells|
    ensures |LowerOf(cells[..p])| + |DiagOf(cells[..p])| <= |LowerOf(cells)| + |DiagOf(cells)|
  {
    assert cells == cells[..p] + cells[p..];
    DiagConcat(cells[..p], cells[p..]);
  }

  /** A partition that starts at the right row fits the symmetric routines, one diagonal entry
      for each row, exactly when it is empty or its last row has a cell below the diagonal; then the
      next one starts at the right row, too. */
  lemma {:induction false} FitsIff(sym: SparsePartitionSym, cells: seq<Cell>, c: Cut, c': Cut, nrRows: nat, nrCols: nat)
    requires Input(cells, nrRows, nrCols) && FullDiagonal(cells, nrRows)
    requires CutOk(cells, c) && CutOk(cells, c') && IsPartitionSym(sym, cells, c, c', nrCols)
    requires c.rs == RowBefore(cells, c.at)
    ensures LoadedSym(sym) <==> c.at == c'.at || EndsLow(cells, c.at, c'.at)
    ensures LoadedSym(sym) ==> c'.rs == RowBefore(cells, c'.at)
  {
    hide Loaded, Input;
    if c.at < c'.at {
      DiagonalMatches(cells, c.at, c'.at, nrRows, nrCols);
      DiagonalOfPart(cells, c.at, c'.at, nrRows, nrCols);
    } else {
      NoLower(cells[c.at..c'.at]);
    }
  }

  lemma {:induction false} StepOf(partitions: seq<SparsePartitionSym>, cells: seq<Cell>, cuts: seq<Cut>, nnz: nat,
                                  nr: nat, nrCols: nat, k: nat)
    requires CutsOf(partitions, cells, cuts, nnz, nr, nrCols) && k < |partitions|
    ensures |cuts| == |partitions| + 1 && CutOk(cells, cuts[k]) && CutOk(cells, cuts[k + 1])
    ensures IsPartitionSym(partitions[k], cells, cuts[k], cuts[k + 1], nrCols)
  {
    hide CutOk, IsPartitionSym, NextAt;
    assert CutStep(partitions[k], cells, cuts[k], cuts[k + 1], nnz, nr - k, nrCols);
  }

  lemma {:induction false} FirstOf(partitions: seq<SparsePartitionSym>, cells: seq<Cell>, cuts: seq<Cut>, nnz: nat,
                                   nr: nat, nrCols: nat)
    requires CutsOf(partitions, cells, cuts, nnz, nr, nrCols)
    ensures |cuts| == |partitions| + 1 && cuts[0] == Cut(0, 0, 0)
  {
    hide CutStep;
  }

  predicate FitsAt(cells: seq<Cell>, cuts: seq<Cut>, k: nat) {
    && k + 1 < |cuts| && cuts[k].at <= cuts[k + 1].at <= |cells|
    && (cuts[k].at == cuts[k + 1].at || EndsLow(cells, cuts[k].at, cuts[k + 1].at))
  }

  /** As long as every partition fits, all start at the right row. */
  lemma {:induction false} StartsRight(partitions: seq<SparsePartitionSym>, cells: seq<Cell>, cuts: seq<Cut>, nnz: nat,
                                       nr: nat, nrRows: nat, nrCols: nat, i: nat)
    requires Input(cells, nrRows, nrCols) && FullDiagonal(cells, nrRows)
    requires CutsOf(partitions, cells, cuts, nnz, nr, nrCols)
    requires i <= |partitions| && |cuts| == |partitions| + 1
    requires forall k: nat :: k < i ==> FitsAt(cells, cuts, k)
    ensures cuts[i].at <= |cells| && cuts[i].rs == RowBefore(cells, cuts[i].at)
    ensures forall k :: 0 <= k < i ==> LoadedSym(partitions[k])
  {
    hide Loaded, Input, LoadedSym, EndsLow, CutOk, IsPartitionSym, CutsOf, FullDiagonal;
    if i > 0 {
      StartsRight(partitions, cells, cuts, nnz, nr, nrRows, nrCols, i - 1);
      StepOf(partitions, cells, cuts, nnz, nr, nrCols, i - 1);
      assert FitsAt(cells, cuts, i - 1);
      FitsIff(partitions[i - 1], cells, cuts[i - 1], cuts[i], nrRows, nrCols);
    } else {
      FirstOf(partitions, cells, cuts, nnz, nr, nrCols);
    }
  }
}
