/** Reading and writing one entry of a compiled matrix: the second interpreter of the units. */
module CsxGetSet {
  import opened Encodings
  import opened Cells
  import opened CtlCodec
  import opened Units
  import opened RowsInfo
  import opened Kernels
  import opened Utility

  // ----- Searching one unit -----

  /** `row` and `col` are 1-based, `cur` and `ucol` are where the unit starts, 0-based. */

  /** The k-th column of a delta unit; only the unit's own row is looked at. */
  method SearchDelta(ctl: seq<byte>, pos: nat, width: nat, size: nat, v: nat, col: int, ucol: nat, rowsChecked: nat,
                     ghost ds: seq<nat>)
    returns (found: bool, v': nat, pos': nat, ucol': nat)
    requires size >= 1 && |ds| == size - 1 && At(ctl, pos, DeltaBytes(ds, width))
    requires forall i :: 0 <= i < |ds| ==> Fits(ds[i], width)
    ensures found ==> rowsChecked == 0 && v <= v' < v + size && DeltaCol(ds, ucol, v' - v) == col - 1
    ensures !found ==> v' == v + size && pos' == pos + |DeltaBytes(ds, width)| && ucol' == ucol + Sum(ds)
    ensures !found && rowsChecked == 0 ==> forall k: nat :: k < size ==> DeltaCol(ds, ucol, k) != col - 1
  {
    hide At, DeltaBytes, FixedInt, Fits, FixedGet, DeltaCol, Sum;
    v', pos', ucol', found := v, pos, ucol, false;
    DeltaEnds(ds, ucol, width);
    if rowsChecked == 0 && col - 1 == ucol' {
      return true, v', pos', ucol';
    }
    v' := v' + 1;
    var i := 1;
    while i < size
      invariant 1 <= i <= size && v' == v + i
      invariant ucol' == DeltaCol(ds, ucol, i - 1)
      invariant At(ctl, pos', DeltaBytes(ds[i - 1..], width))
      invariant pos' + |DeltaBytes(ds[i - 1..], width)| == pos + |DeltaBytes(ds, width)|
      invariant rowsChecked == 0 ==> forall k: nat :: k < i ==> DeltaCol(ds, ucol, k) != col - 1
    {
      DeltaStep(ctl, pos', ds, i, width, ucol);
      ucol' := ucol' + FixedGet(ctl, pos', width);
      pos' := pos' + width;
      if rowsChecked == 0 && col - 1 == ucol' {
        return true, v', pos', ucol';
      }
      v', i := v' + 1, i + 1;
    }
  }

  /** Multiplication under a name, so that proofs can treat products as plain terms. */
  function Mul(a: nat, b: nat): nat { a * b }

  /** Multiples of the step. */
  lemma {:induction false} Step(k: nat, size: nat, delta: nat)
    ensures Mul(0, delta) == 0 && Mul(k + 1, delta) == Mul(k, delta) + delta
    ensures k < size ==> Mul(k, delta) + delta <= Mul(size, delta)
    ensures k >= size ==> Mul(k, delta) >= Mul(size, delta)
    ensures size >= 1 ==> Mul(size - 1, delta) + delta == Mul(size, delta)
    ensures k >= 1 ==> Mul(k, delta) >= delta
  {
    MulGrows(k + 1, size, delta);
    MulGrows(size, k, delta);
    MulGrows(1, k, delta);
  }

  lemma {:induction false} MulGrows(a: nat, b: nat, delta: nat)
    ensures a <= b ==> a * delta <= b * delta
  {
    if a <= b {
      assert b * delta == a * delta + (b - a) * delta;
    }
  }

  /** The k-th value of a unit that starts at `cur` and `ucol` is the one looked for. */
  predicate Hit(inst: Instantiation, k: nat, row: int, col: int, cur: int, ucol: int)
    requires inst.ty.Valid()
  {
    Offset(inst, k) == Coord(row - 1 - cur, col - 1 - ucol)
  }

  predicate NoHit(inst: Instantiation, n: nat, row: int, col: int, cur: int, ucol: int)
    requires inst.ty.Valid()
  {
    forall k: nat :: k < n ==> !Hit(inst, k, row, col, cur, ucol)
  }

  lemma {:induction false} NoHitNext(inst: Instantiation, n: nat, row: int, col: int, cur: int, ucol: int)
    requires inst.ty.Valid() && NoHit(inst, n, row, col, cur, ucol)
    ensures Hit(inst, n, row, col, cur, ucol) || NoHit(inst, n + 1, row, col, cur, ucol)
  {
    hide Hit;
  }

  lemma {:induction false} NoHitYet(inst: Instantiation, row: int, col: int, cur: int, ucol: int)
    requires inst.ty.Valid()
    ensures NoHit(inst, 0, row, col, cur, ucol)
  {
  }

  /** Where the k-th value of a linear unit is. */
  lemma {:induction false} HitIs(inst: Instantiation, k: nat, row: int, col: int, cur: int, ucol: int)
    requires inst.ty.Valid()
    ensures var a := Mul(k, inst.dim);
            && (inst.ty.Horizontal? ==> (Hit(inst, k, row, col, cur, ucol) <==> row - 1 == cur && col - 1 == ucol + a))
            && (inst.ty.Vertical? ==> (Hit(inst, k, row, col, cur, ucol) <==> row - 1 == cur + a && col - 1 == ucol))
            && (inst.ty.Diagonal? ==> (Hit(inst, k, row, col, cur, ucol) <==>
                                         row - 1 == cur + a && col - 1 == ucol + a))
            && (inst.ty.AntiDiagonal? ==> (Hit(inst, k, row, col, cur, ucol) <==>
                                             row - 1 == cur + a && col - 1 == ucol - a))
  {
  }

  /** Nothing is found if no value can be. */
  lemma {:induction false} NoneHits(inst: Instantiation, size: nat, row: int, col: int, cur: int, ucol: int)
    requires inst.ty.Valid()
    requires forall k: nat :: k < size ==> !Hit(inst, k, row, col, cur, ucol)
    ensures NoHit(inst, size, row, col, cur, ucol)
  {
  }

  /** With the delta 0 nothing is found. */
  method SearchHorizontal(delta: nat, size: nat, v: nat, col: int, ghost row: int, ucol: nat, ghost cur: int,
                          rowsChecked: nat)
    returns (found: bool, v': nat, ucol': nat)
    requires size >= 1 && rowsChecked == row - 1 - cur
    ensures found ==> v <= v' < v + size && Hit(Inst(Horizontal, delta), v' - v, row, col, cur, ucol)
    ensures !found ==> v' == v + size && ucol' == ucol + (size - 1) * delta
    ensures !found && delta >= 1 ==> NoHit(Inst(Horizontal, delta), size, row, col, cur, ucol)
    ensures delta == 0 ==> !found
  {
    hide Mul, Hit, NoHit;
    ghost var inst := Inst(Horizontal, delta);
    v', ucol', found := v, ucol, false;
    if delta == 0 {
      MulIs(size, 0);
    } else {
      Step(0, size, delta);
    }
    if rowsChecked == 0 && col - 1 >= ucol && col - 1 < ucol + Mul(size, delta) {
      var i := 0;
      ghost var q := 0;
      NoHitYet(inst, row, col, cur, ucol);
      while i < Mul(size, delta)
        invariant q <= size && i == Mul(q, delta) && v' == v + q
        invariant NoHit(inst, q, row, col, cur, ucol)
      {
        Step(q, size, delta);
        HitIs(inst, q, row, col, cur, ucol);
        NoHitNext(inst, q, row, col, cur, ucol);
        if col - 1 == ucol + i {
          return true, v', ucol';
        }
        v', i, q := v' + 1, i + delta, q + 1;
      }
      Step(q, size, delta);
    } else {
      v' := v' + size;
      if delta >= 1 {
        forall k: nat | k < size ensures !Hit(inst, k, row, col, cur, ucol) {
          HitIs(inst, k, row, col, cur, ucol);
          Step(k, size, delta);
        }
        NoneHits(inst, size, row, col, cur, ucol);
      }
    }
    MulIs(size - 1, delta);
    ucol' := ucol' + Mul(size - 1, delta);
  }

  /** The dimension of a substructure as the search reads it. */
  function DimRead(pid: nat): nat { PidDim(pid) % 256 }

  /** It is the right one exactly when it fits into eight bits. */
  lemma {:induction false} DimReadIff(inst: Instantiation)
    requires inst.ty.Valid() && inst.dim < PATTERN_ID_OFFSET
    ensures DimRead(PatternId(inst)) == inst.dim <==> inst.dim < 256
  {
    PatternIdDecodes(inst);
  }

  /** A substructure of at least two values is searched with all its values where they are exactly
      when its dimension is below 256; a block always is, because it has too few values for more. */
  lemma {:induction false} SearchedRightIff(u: Unit, full: bool)
    requires WellFormed(u, full) && !IsDelta(u) && u.size >= 2
    ensures SameOffsets(UnitInst(u), DimRead(u.pid), u.size) <==> UnitInst(u).dim < 256
  {
    hide WellFormed, SameOffsets, PidType;
    UnitIs(u, full);
    if UnitInst(u).ty.IsBlock() {
      BlocksAreNarrow(u, full);
      EqualDims(UnitInst(u), u.size);
    } else if UnitInst(u).dim < 256 {
      EqualDims(UnitInst(u), u.size);
    } else {
      OtherDim(UnitInst(u), DimRead(u.pid), u.size);
    }
  }

  /** With the other dimension, the values are where they are with the right one. */
  predicate SameOffsets(inst: Instantiation, dim: nat, size: nat)
    requires inst.ty.Valid()
  {
    forall k: nat :: k < size ==> Offset(Inst(inst.ty, dim), k) == Offset(inst, k)
  }

  lemma {:induction false} UnitIs(u: Unit, full: bool)
    requires WellFormed(u, full) && !IsDelta(u)
    ensures u.pid < 21 * PATTERN_ID_OFFSET && UnitInst(u).ty.IsOrder() && UnitInst(u).ty.Valid()
  {
  }

  lemma {:induction false} BlocksAreNarrow(u: Unit, full: bool)
    requires WellFormed(u, full) && !IsDelta(u) && UnitInst(u).ty.IsBlock()
    ensures UnitInst(u).dim < 256
  {
  }

  lemma {:induction false} EqualDims(inst: Instantiation, size: nat)
    requires inst.ty.Valid()
    ensures SameOffsets(inst, inst.dim, size)
  {
  }

  lemma {:induction false} OtherDim(inst: Instantiation, dim: nat, size: nat)
    requires inst.ty.IsOrder() && !inst.ty.IsBlock() && dim != inst.dim && size >= 2
    ensures !SameOffsets(inst, dim, size)
  {
    assert Offset(Inst(inst.ty, dim), 1) != Offset(inst, 1);
  }

  /** The second value of a horizontal run with any dimension from 256 on is never found as what
      it is. */
  method WideSecondMissed(d: nat, size: nat, v: nat, ghost row: int, ucol: nat) returns (found: bool, v': nat)
    requires 256 <= d < PATTERN_ID_OFFSET && size >= 2
    ensures Hit(Inst(Horizontal, d), 1, row, ucol + d + 1, row - 1, ucol) && (found ==> v' != v + 1)
  {
    PatternIdDecodes(Inst(Horizontal, d));
    var ucol';
    found, v', ucol' := SearchHorizontal(DimRead(PatternId(Inst(Horizontal, d))), size, v, ucol + d + 1, row, ucol,
                                         row - 1, 0);
  }

  /** A horizontal run with a step of 256 is searched with step 0: not even its first value, at
      the column the unit starts at, is found. */
  method WideRunMissed(size: nat, v: nat, ghost row: int, ucol: nat) returns (found: bool)
    requires size >= 1
    ensures !found && Hit(Inst(Horizontal, 256), 0, row, ucol + 1, row - 1, ucol)
  {
    var v', ucol';
    found, v', ucol' := SearchHorizontal(DimRead(PatternId(Inst(Horizontal, 256))), size, v, ucol + 1, row, ucol,
                                         row - 1, 0);
  }

  lemma {:induction false} MulIs(a: nat, b: nat)
    ensures Mul(a, b) == a * b
  {
  }

  method SearchVertical(delta: nat, size: nat, v: nat, col: int, row: int, ucol: nat, cur: int, rowsChecked: nat)
    returns (found: bool, v': nat)
    requires size >= 1 && delta >= 1 && rowsChecked == row - 1 - cur
    ensures found ==> v <= v' < v + size && Hit(Inst(Vertical, delta), v' - v, row, col, cur, ucol)
    ensures !found ==> v' == v + size && NoHit(Inst(Vertical, delta), size, row, col, cur, ucol)
  {
    hide Mul, Hit, NoHit;
    ghost var inst := Inst(Vertical, delta);
    v', found := v, false;
    Step(0, size, delta);
    HitIs(inst, 0, row, col, cur, ucol);
    if rowsChecked == 0 {
      if col - 1 == ucol {
        return true, v';
      }
      v' := v' + size;
    } else {
      if col - 1 == ucol {
        v' := v' + 1;
        var i := cur + delta;
        ghost var q := 1;
        Step(1, size, delta);
        NoHitYet(inst, row, col, cur, ucol);
        NoHitNext(inst, 0, row, col, cur, ucol);
        while i < cur + Mul(size, delta)
          invariant 1 <= q <= size && i == cur + Mul(q, delta) && v' == v + q
          invariant NoHit(inst, q, row, col, cur, ucol)
        {
          Step(q, size, delta);
          HitIs(inst, q, row, col, cur, ucol);
          NoHitNext(inst, q, row, col, cur, ucol);
          if i == row - 1 {
            return true, v';
          }
          v', i, q := v' + 1, i + delta, q + 1;
        }
        Step(q, size, delta);
        return;
      }
      v' := v' + size;
    }
    forall k: nat | k < size ensures !Hit(inst, k, row, col, cur, ucol) {
      HitIs(inst, k, row, col, cur, ucol);
    }
    NoneHits(inst, size, row, col, cur, ucol);
  }

  /** Both directions of diagonals. */
  method SearchDiagonal(delta: nat, size: nat, v: nat, col: int, row: int, ucol0: int, cur: int, rowsChecked: nat,
                        rev: bool)
    returns (found: bool, v': nat)
    requires size >= 1 && delta >= 1 && rowsChecked == row - 1 - cur
    ensures found ==>
      v <= v' < v + size && Hit(Inst(if rev then AntiDiagonal else Diagonal, delta), v' - v, row, col, cur, ucol0)
    ensures !found ==>
      v' == v + size && NoHit(Inst(if rev then AntiDiagonal else Diagonal, delta), size, row, col, cur, ucol0)
  {
    hide Mul, Hit, NoHit;
    ghost var inst := Inst(if rev then AntiDiagonal else Diagonal, delta);
    v', found := v, false;
    var ucol := ucol0;
    Step(0, size, delta);
    HitIs(inst, 0, row, col, cur, ucol0);
    if rowsChecked == 0 {
      if col - 1 == ucol {
        return true, v';
      }
      v' := v' + size;
    } else {
      if ((!rev && col - 1 >= ucol && col - 1 <= ucol + Mul(size - 1, delta))
          || (rev && col - 1 <= ucol && col - 1 >= ucol - Mul(size - 1, delta)))
         && row - 1 <= cur + Mul(size - 1, delta) && row - 1 > cur {
        v' := v' + 1;
        ucol := if rev then ucol - delta else ucol + delta;
        var i := cur + delta;
        ghost var q := 1;
        Step(1, size, delta);
        NoHitYet(inst, row, col, cur, ucol0);
        NoHitNext(inst, 0, row, col, cur, ucol0);
        while i < cur + Mul(size, delta)
          invariant 1 <= q <= size && i == cur + Mul(q, delta) && v' == v + q
          invariant ucol == if rev then ucol0 - Mul(q, delta) else ucol0 + Mul(q, delta)
          invariant NoHit(inst, q, row, col, cur, ucol0)
        {
          Step(q, size, delta);
          HitIs(inst, q, row, col, cur, ucol0);
          NoHitNext(inst, q, row, col, cur, ucol0);
          if i == row - 1 && col - 1 == ucol {
            return true, v';
          }
          v', i, q := v' + 1, i + delta, q + 1;
          ucol := if rev then ucol - delta else ucol + delta;
        }
        Step(q, size, delta);
        return;
      }
      v' := v' + size;
    }
    forall k: nat | k < size ensures !Hit(inst, k, row, col, cur, ucol0) {
      HitIs(inst, k, row, col, cur, ucol0);
      Step(k, size, delta);
      Step(k, size - 1, delta);
    }
    NoneHits(inst, size, row, col, cur, ucol0);
  }

  /** Column-major r x dim, resp. row-major dim x c block. */
  method SearchBlock(delta: nat, size: nat, v: nat, ty: Encoding, col: int, row: int, ucol: nat, cur: int,
                     rowsChecked: nat, isRow: bool)
    returns (found: bool, v': nat)
    requires ty.IsBlock() && 1 <= ty.Alignment() <= 8 && isRow == ty.BlockRow? && delta >= 1
    requires size == ty.Alignment() * delta
    requires rowsChecked == row - 1 - cur
    ensures found ==> v <= v' < v + size && Hit(Inst(ty, delta), v' - v, row, col, cur, ucol)
    ensures !found ==> v' == v + size && NoHit(Inst(ty, delta), size, row, col, cur, ucol)
  {
    hide Offset;
    v', found := v, false;
    var rowDim, colDim := delta, delta;
    if isRow {
      rowDim := ty.Alignment();
    } else {
      colDim := ty.Alignment();
    }
    var inside := col - 1 >= ucol && col - 1 < ucol + colDim;
    if rowsChecked == 0 {
      if inside {
        BlockIndex(ty, delta, 0, col - 1 - ucol);
        v' := if isRow then v' + rowDim * (col - ucol - 1) else v' + (col - ucol - 1);
        return true, v';
      }
    } else {
      if inside && row - 1 < cur + rowDim && row - 1 > cur {
        BlockIndex(ty, delta, row - 1 - cur, col - 1 - ucol);
        v' := if isRow then v' + (row - 1 - cur) + rowDim * (col - ucol - 1)
              else v' + colDim * (row - 1 - cur) + (col - ucol - 1);
        return true, v';
      }
    }
    v' := v' + size;
    forall k: nat | k < size ensures !Hit(Inst(ty, delta), k, row, col, cur, ucol) {
      BlockBounds(ty, delta, k);
    }
  }

  /** Rows and columns of a block. */
  function RowDim(ty: Encoding, dim: nat): nat
    requires ty.IsBlock()
  {
    if ty.BlockRow? then ty.Alignment() else dim
  }

  function ColDim(ty: Encoding, dim: nat): nat
    requires ty.IsBlock()
  {
    if ty.BlockRow? then dim else ty.Alignment()
  }

  /** Which value is in row i and column j of a block. */
  lemma {:induction false} BlockIndex(ty: Encoding, dim: nat, i: nat, j: nat)
    requires ty.IsBlock() && 1 <= ty.Alignment() <= 8 && i < RowDim(ty, dim) && j < ColDim(ty, dim)
    ensures var k := if ty.BlockRow? then i + ty.Alignment() * j else ty.Alignment() * i + j;
            0 <= k < ty.Alignment() * dim && Offset(Inst(ty, dim), k) == Coord(i, j)
  {
    match ty
    case BlockRow(r) => Divided(r, j, i, dim);
    case BlockCol(c) => Divided(c, i, j, dim);
  }

  lemma {:induction false} Divided(a: nat, q: nat, r: nat, n: nat)
    requires 1 <= a <= 8 && r < a && q < n
    ensures 0 <= a * q + r < a * n && (a * q + r) / a == q && (a * q + r) % a == r
  {
    MulGrows(q + 1, n, a);
    DivUnique(a * q + r, a, q, r);
  }

  lemma {:induction false} BlockBounds(ty: Encoding, dim: nat, k: nat)
    requires ty.IsBlock() && 1 <= ty.Alignment() <= 8 && k < ty.Alignment() * dim
    ensures var o := Offset(Inst(ty, dim), k); 0 <= o.row < RowDim(ty, dim) && 0 <= o.col < ColDim(ty, dim)
  {
    var a := ty.Alignment();
    if a == 1 {} else if a == 2 {} else if a == 3 {} else if a == 4 {}
    else if a == 5 {} else if a == 6 {} else if a == 7 {} else { assert a == 8; }
  }

  // ----- Dispatch on the pattern id -----

  /** Dimensions are read into eight bits. */
  predicate NarrowDims(us: seq<Unit>) { forall k :: 0 <= k < |us| ==> PidDim(us[k].pid) < 256 }

  predicate IsAt(c: Cell, row: int, col: int) { c.row == row && c.col == col }

  predicate NoneAt(cs: seq<Cell>, row: int, col: int) { forall k :: 0 <= k < |cs| ==> !IsAt(cs[k], row, col) }

  lemma {:induction false} NoneConcat(a: seq<Cell>, b: seq<Cell>, row: int, col: int)
    ensures NoneAt(a + b, row, col) <==> NoneAt(a, row, col) && NoneAt(b, row, col)
  {
    if NoneAt(a + b, row, col) {
      assert forall i :: 0 <= i < |a| ==> a[i] == (a + b)[i];
      assert forall i :: 0 <= i < |b| ==> b[i] == (a + b)[|a| + i];
    }
  }

  lemma {:induction false} HitCell(u: Unit, s: Pos, vals: seq<real>, full: bool, k: nat, row: int, col: int)
    requires WellFormed(u, full) && !IsDelta(u) && |vals| == u.size && k < u.size
    ensures UnitInst(u).ty.Valid()
    ensures Hit(UnitInst(u), k, row, col, s.row - 1, s.col) <==> IsAt(UnitCells(u, s, vals, full)[k], row, col)
  {
  }

  /** A search in the unit's geometry is a search in its cells. */
  lemma {:induction false} SearchedUnit(u: Unit, s: Pos, vals: seq<real>, full: bool, row: int, col: int, found: bool,
                                        k: nat)
    requires WellFormed(u, full) && !IsDelta(u) && |vals| == u.size && UnitInst(u).ty.Valid()
    requires found ==> k < u.size && Hit(UnitInst(u), k, row, col, s.row - 1, s.col)
    requires !found ==> NoHit(UnitInst(u), u.size, row, col, s.row - 1, s.col)
    ensures found ==> IsAt(UnitCells(u, s, vals, full)[k], row, col)
    ensures !found ==> NoneAt(UnitCells(u, s, vals, full), row, col)
  {
    hide Hit, UnitCells, WellFormed;
    if found {
      HitCell(u, s, vals, full, k, row, col);
    } else {
      forall q | 0 <= q < u.size ensures !IsAt(UnitCells(u, s, vals, full)[q], row, col) {
        HitCell(u, s, vals, full, q, row, col);
      }
    }
  }

  lemma {:induction false} SearchedDelta(u: Unit, s: Pos, vals: seq<real>, full: bool, row: int, col: int, found: bool,
                                         k: nat)
    requires WellFormed(u, full) && IsDelta(u) && |vals| == u.size && s.row <= row
    requires found ==> s.row == row && k < u.size && DeltaCol(u.deltas, s.col, k) == col - 1
    requires !found && s.row == row ==> forall q: nat :: q < u.size ==> DeltaCol(u.deltas, s.col, q) != col - 1
    ensures found ==> IsAt(UnitCells(u, s, vals, full)[k], row, col)
    ensures !found ==> NoneAt(UnitCells(u, s, vals, full), row, col)
  {
  }

  /** Looks for an entry in one unit that starts in row cur + 1 and column ucol + 1. */
  method SearchUnit(m: Csx, pattId: nat, pos: nat, size: nat, v: nat, row: int, col: int, ucol: nat, cur: int,
                    rowsChecked: nat, ghost u: Unit, ghost vals: seq<real>)
    returns (found: bool, v': nat, pos': nat, ucol': nat)
    requires WellFormed(u, m.full) && size == u.size == |vals| && PidDim(u.pid) < 256 && rowsChecked == row - 1 - cur
    requires pattId < |m.idMap| && m.idMap[pattId] == u.pid && At(m.ctl, pos, DeltaBytes(u.deltas, Width(u)))
    ensures found ==> v <= v' < v + size && IsAt(UnitCells(u, Pos(cur + 1, ucol), vals, m.full)[v' - v], row, col)
    ensures !found ==> NoneAt(UnitCells(u, Pos(cur + 1, ucol), vals, m.full), row, col)
    ensures !found ==>
      v' == v + size && pos' == pos + |DeltaBytes(u.deltas, Width(u))|
        && Pos(cur + 1, ucol') == Leave(u, Pos(cur + 1, ucol), m.full)
  {
    hide Hit, NoHit, At, DeltaBytes, Fits, IsAt, NoneAt, UnitCells, Sum, DeltaCol;
    ghost var s := Pos(cur + 1, ucol);
    var pid: nat := m.idMap[pattId];
    var ty, delta := PidType(pid), DimRead(pid);
    if ty.None? {
      found, v', pos', ucol' := SearchDelta(m.ctl, pos, delta / 8, size, v, col, ucol, rowsChecked, u.deltas);
      SearchedDelta(u, s, vals, m.full, row, col, found, if found then v' - v else 0);
      return;
    }
    NoDeltaBytes(Width(u));
    pos', ucol' := pos, ucol;
    if ty.IsBlock() {
      found, v' := SearchBlock(delta, size, v, ty, col, row, ucol, cur, rowsChecked, ty.BlockRow?);
    } else {
      match ty
      case Horizontal =>
        found, v', ucol' := SearchHorizontal(delta, size, v, col, row, ucol, cur, rowsChecked);
      case Vertical =>
        found, v' := SearchVertical(delta, size, v, col, row, ucol, cur, rowsChecked);
      case Diagonal =>
        found, v' := SearchDiagonal(delta, size, v, col, row, ucol, cur, rowsChecked, false);
      case AntiDiagonal =>
        found, v' := SearchDiagonal(delta, size, v, col, row, ucol, cur, rowsChecked, true);
    }
    SearchedUnit(u, s, vals, m.full, row, col, found, if found then v' - v else 0);
  }

  // ----- Searching the units of a row -----

  /** Reads the row jump of a marked unit. */
  method SkipJump(m: Csx, flags: byte, pos: nat, ghost u: Unit) returns (pos': nat)
    requires TestBit(flags, CTL_RJMP_BIT) <==> u.rowjmp != 0
    requires At(m.ctl, pos, JumpBytes(u))
    ensures pos' == pos + |JumpBytes(u)|
  {
    pos' := pos;
    if TestBit(flags, CTL_RJMP_BIT) {
      var jmp;
      jmp, pos' := UlGet(m.ctl, pos, u.rowjmp);
    }
  }

  lemma {:induction false} NoJump(u: Unit)
    requires u.rowjmp == 0
    ensures JumpBytes(u) == []
  {
  }

  /** The units `left` of the row are still to be searched, `rest` are those of later rows. */
  ghost predicate RowState(m: Csx, pos: nat, cur: int, ucol: int, left: seq<Unit>, rest: seq<Unit>, vals: seq<real>,
                           done: seq<Cell>, all: seq<Cell>)
  {
    && AllWellFormed(left + rest, m.full) && AllWellFormed(left, m.full) && |vals| == NrValues(left)
    && At(m.ctl, pos, Bytes(left + rest, m.full)) && pos + |Bytes(left + rest, m.full)| == |m.ctl|
    && all == done + BlockRun(left, Pos(cur + 1, ucol), vals, m.full)
  }

  predicate KnownUnits(m: Csx, us: seq<Unit>) {
    NarrowDims(us) && forall k :: 0 <= k < |us| ==> us[k].flag < |m.idMap| && m.idMap[us[k].flag] == us[k].pid
  }

  /** Taking the next unit of the row. */
  lemma {:induction false} RowNext(m: Csx, pos: nat, cur: int, ucol: int, left: seq<Unit>, rest: seq<Unit>,
                                   vals: seq<real>, done: seq<Cell>, all: seq<Cell>)
    requires RowState(m, pos, cur, ucol, left, rest, vals, done, all) && left != []
    ensures WellFormed(left[0], m.full) && left[0].size <= |vals| && |vals| == NrValues(left)
    ensures var u := left[0];
            var s := StartIn(u, Pos(cur + 1, ucol), m.full);
            var cells := UnitCells(u, s, vals[..u.size], m.full);
            && |cells| == u.size
            && all == (done + cells) + BlockRun(left[1..], Leave(u, s, m.full), vals[u.size..], m.full)
            && RowState(m, pos + |UnitBytes(u, m.full)|, cur, Leave(u, s, m.full).col, left[1..], rest, vals[u.size..],
                        done + cells, all)
  {
    hide UnitBytes, UnitCells, At, WellFormed, Leave, Bytes, BlockRun, NrValues;
    var u := left[0];
    var s := StartIn(u, Pos(cur + 1, ucol), m.full);
    assert (left + rest)[0] == u && (left + rest)[1..] == left[1..] + rest;
    BytesFirst(left + rest, m.full);
    AtSplit(m.ctl, pos, UnitBytes(u, m.full), Bytes(left[1..] + rest, m.full));
    BlockHead(left, Pos(cur + 1, ucol), vals, m.full);
    LeaveRow(u, s, m.full);
    assert Leave(u, s, m.full) == Pos(cur + 1, Leave(u, s, m.full).col);
    Assoc(done, UnitCells(u, s, vals[..u.size], m.full),
          BlockRun(left[1..], Leave(u, s, m.full), vals[u.size..], m.full));
  }

  lemma {:induction false} BytesFirst(us: seq<Unit>, full: bool)
    requires us != [] && AllWellFormed(us, full)
    ensures AllWellFormed(us[1..], full) && Bytes(us, full) == UnitBytes(us[0], full) + Bytes(us[1..], full)
  {
  }

  lemma {:induction false} FirstHead(m: Csx, pos: nat, cur: int, ucol: int, left: seq<Unit>, rest: seq<Unit>,
                                     vals: seq<real>, done: seq<Cell>, all: seq<Cell>)
    requires RowState(m, pos, cur, ucol, left, rest, vals, done, all) && left + rest != []
    ensures var u := (left + rest)[0];
            && WellFormed(u, m.full) && AllWellFormed((left + rest)[1..], m.full)
            && At(m.ctl, pos, UnitBytes(u, m.full) + Bytes((left + rest)[1..], m.full))
  {
    hide UnitBytes, At, WellFormed;
  }

  lemma {:induction false} RowEnd(m: Csx, pos: nat, cur: int, ucol: int, left: seq<Unit>, rest: seq<Unit>,
                                  vals: seq<real>, done: seq<Cell>, all: seq<Cell>)
    requires RowState(m, pos, cur, ucol, left, rest, vals, done, all)
    ensures pos < |m.ctl| <==> left + rest != []
    ensures left == [] ==> all == done
  {
    NothingLeft(left + rest, m.full);
  }

  /** Reads the head of a unit; a marked unit ends the row, unless it is the first one. */
  method SearchHead(m: Csx, pos: nat, ucol: nat, cnt: nat, ghost u: Unit, ghost more: seq<byte>)
    returns (last: bool, size: nat, pattId: nat, pos': nat, ucol': nat)
    requires WellFormed(u, m.full) && At(m.ctl, pos, UnitBytes(u, m.full) + more)
    ensures last == (u.nr && cnt != 0)
    ensures !last ==> size == u.size && pattId == u.flag && At(m.ctl, pos', DeltaBytes(u.deltas, Width(u)))
    ensures !last ==> pos' + |DeltaBytes(u.deltas, Width(u))| == pos + |UnitBytes(u, m.full)|
    ensures !last ==> ucol' == StartIn(u, Pos(0, ucol), m.full).col
  {
    hide At, WellFormed, UnitBytes, DeltaBytes, FlagByte, TestBit, JumpBytes, ColBytes, VarInt, FixedInt, Fits;
    UnitAt(m.ctl, pos, u, more, m.full);
    HeadFields(u, m.full);
    last, ucol', pos' := false, ucol, pos;
    var flags := m.ctl[pos'];
    pos' := pos' + 1;
    size := m.ctl[pos'];
    pos' := pos' + 1;
    pattId := PatternBits(flags);
    if TestBit(flags, CTL_NR_BIT) {
      pos' := SkipJump(m, flags, pos', u);
      if cnt != 0 {
        last := true;
        return;
      }
    } else {
      NoJump(u);
    }
    ColBytesIs(u, m.full);
    ucol', pos' := NextX(m, pos', ucol, u);
  }

  /** Looks for an entry in the units of one row; only the first of them may be marked. */
  method SearchRow(m: Csx, pos0: nat, v0: nat, row: int, col: int, cur: int, rowsChecked: nat,
                   ghost block: seq<Unit>, ghost rest: seq<Unit>, ghost vals: seq<real>, ghost all: seq<Cell>)
    returns (found: bool, v: nat)
    requires block != [] && RowState(m, pos0, cur, 0, block, rest, vals, [], all) && KnownUnits(m, block)
    requires (forall k :: 0 < k < |block| ==> !block[k].nr) && (rest != [] ==> rest[0].nr)
    requires rowsChecked == row - 1 - cur
    ensures |all| == |vals|
    ensures found ==> v0 <= v < v0 + |vals| && IsAt(all[v - v0], row, col)
    ensures !found ==> NoneAt(all, row, col)
  {
    hide RowState, At, IsAt, NoneAt, UnitCells, WellFormed, AllWellFormed, Leave, NrValues, UnitBytes, DeltaBytes,
         FlagByte, TestBit, Bytes, JumpBytes, ColBytes, KnownUnits, VarInt, FixedInt, Fits;
    AllLength(m, pos0, cur, block, rest, vals, all);
    var pos: nat, ucol: nat, cnt: nat := pos0, 0, 0;
    v := v0;
    ghost var left, lvals, done: seq<Cell> := block, vals, [];
    NothingYet(row, col);
    while true
      invariant left + rest != [] && |left| <= |block| && left == block[|block| - |left|..]
      invariant cnt == |block| - |left| && |done| == v - v0 && v >= v0 && |done| + |lvals| == |vals|
      invariant RowState(m, pos, cur, ucol, left, rest, lvals, done, all) && NoneAt(done, row, col)
      decreases |left|
    {
      ghost var u := (left + rest)[0];
      FirstHead(m, pos, cur, ucol, left, rest, lvals, done, all);
      var last, size, pattId, pos', ucol' := SearchHead(m, pos, ucol, cnt, u, Bytes((left + rest)[1..], m.full));
      if last {
        break;
      }
      cnt := cnt + 1;
      ghost var s := StartIn(u, Pos(cur + 1, ucol), m.full);
      RowNext(m, pos, cur, ucol, left, rest, lvals, done, all);
      ghost var cells := UnitCells(u, s, lvals[..u.size], m.full);
      Known(m, block, |block| - |left|);
      ghost var v1 := v;
      found, v, pos', ucol := SearchUnit(m, pattId, pos', size, v, row, col, ucol', cur, rowsChecked, u,
                                         lvals[..u.size]);
      if found {
        assert all[v - v0] == cells[v - v1];
        return;
      }
      NoneConcat(done, cells, row, col);
      pos := pos';
      left, lvals, done := left[1..], lvals[u.size..], done + cells;
      RowEnd(m, pos, cur, ucol, left, rest, lvals, done, all);
      if !(pos < |m.ctl|) {
        break;
      }
    }
    found := false;
    RowEnd(m, pos, cur, ucol, left, rest, lvals, done, all);
  }

  lemma {:induction false} NothingYet(row: int, col: int)
    ensures NoneAt([], row, col)
  {
  }

  lemma {:induction false} AllLength(m: Csx, pos: nat, cur: int, block: seq<Unit>, rest: seq<Unit>, vals: seq<real>,
                                     all: seq<Cell>)
    requires RowState(m, pos, cur, 0, block, rest, vals, [], all)
    ensures |all| == |vals|
  {
    BlockRunLength(block, Pos(cur + 1, 0), vals, m.full);
  }

  lemma {:induction false} Known(m: Csx, us: seq<Unit>, k: nat)
    requires KnownUnits(m, us) && k < |us|
    ensures us[k].flag < |m.idMap| && m.idMap[us[k].flag] == us[k].pid && PidDim(us[k].pid) < 256
  {
  }

  lemma {:induction false} ColBytesIs(u: Unit, full: bool)
    ensures ColBytes(u, full) == if full then FixedInt(u.ucol, 4) else VarInt(u.ucol)
  {
  }

  // ----- Where the search sees the rows -----

  /** The values of row i + 1. */
  function BlockVals(blocks: seq<seq<Unit>>, vals: seq<real>, i: nat): (r: seq<real>)
    requires i < |blocks| && |vals| == NrValues(Flat(blocks))
    ensures |r| == NrValues(blocks[i])
  {
    FlatValues(blocks, i);
    FlatValues(blocks, i + 1);
    FlatNext(blocks, i);
    NrValuesConcat(Flat(blocks[..i]), blocks[i]);
    vals[NrValues(Flat(blocks[..i]))..NrValues(Flat(blocks[..i + 1]))]
  }

  lemma {:induction false} FlatNext(blocks: seq<seq<Unit>>, i: nat)
    requires i < |blocks|
    ensures Flat(blocks[..i + 1]) == Flat(blocks[..i]) + blocks[i]
  {
    assert blocks[..i + 1][..i] == blocks[..i];
  }

  lemma {:induction false} FlatPrefix(blocks: seq<seq<Unit>>, i: nat) returns (rest: seq<Unit>)
    requires i <= |blocks|
    ensures Flat(blocks) == Flat(blocks[..i]) + rest
    decreases |blocks|
  {
    if i == |blocks| {
      assert blocks[..i] == blocks;
      rest := [];
    } else {
      var n := |blocks| - 1;
      rest := FlatPrefix(blocks[..n], i);
      assert blocks[..n][..i] == blocks[..i];
      Assoc(Flat(blocks[..i]), rest, blocks[n]);
      rest := rest + blocks[n];
    }
  }

  lemma {:induction false} FlatValues(blocks: seq<seq<Unit>>, i: nat)
    requires i <= |blocks|
    ensures NrValues(Flat(blocks[..i])) <= NrValues(Flat(blocks))
  {
    var rest := FlatPrefix(blocks, i);
    NrValuesConcat(Flat(blocks[..i]), rest);
  }

  /** Where the search sees the units of row i + 1: it takes the first units of all for those of
      the first row. */
  function SeenRow(blocks: seq<seq<Unit>>, i: nat): nat
    requires i <= |blocks|
  {
    if Flat(blocks[..i]) == [] then 0 else i
  }

  ghost function SeenBlock(blocks: seq<seq<Unit>>, vals: seq<real>, base: nat, i: nat, full: bool): (cs: seq<Cell>)
    requires BlocksOk(blocks, full) && i < |blocks| && |vals| == NrValues(Flat(blocks))
    ensures |cs| == NrValues(blocks[i])
  {
    BlockRunLength(blocks[i], Pos(base + SeenRow(blocks, i) + 1, 0), BlockVals(blocks, vals, i), full);
    BlockRun(blocks[i], Pos(base + SeenRow(blocks, i) + 1, 0), BlockVals(blocks, vals, i), full)
  }

  /** The cells of the first n rows, where the search sees them. */
  ghost function SeenCells(blocks: seq<seq<Unit>>, vals: seq<real>, base: nat, n: nat, full: bool): seq<Cell>
    requires BlocksOk(blocks, full) && n <= |blocks| && |vals| == NrValues(Flat(blocks))
  {
    if n == 0 then [] else SeenCells(blocks, vals, base, n - 1, full) + SeenBlock(blocks, vals, base, n - 1, full)
  }

  lemma {:induction false} SeenLength(blocks: seq<seq<Unit>>, vals: seq<real>, base: nat, n: nat, full: bool)
    requires BlocksOk(blocks, full) && n <= |blocks| && |vals| == NrValues(Flat(blocks))
    ensures |SeenCells(blocks, vals, base, n, full)| == NrValues(Flat(blocks[..n]))
    decreases n
  {
    if n > 0 {
      hide SeenBlock, NrValues, WellFormed;
      SeenLength(blocks, vals, base, n - 1, full);
      FlatNext(blocks, n - 1);
      NrValuesConcat(Flat(blocks[..n - 1]), blocks[n - 1]);
    } else {
      NoValues();
      assert blocks[..0] == [];
    }
  }

  lemma {:induction false} NoValues()
    ensures NrValues([]) == 0 && Flat([]) == []
  {
  }

  /** An entry of a row among all entries. */
  lemma {:induction false} SeenAt(blocks: seq<seq<Unit>>, vals: seq<real>, base: nat, n: nat, full: bool, i: nat,
                                  k: nat)
    requires BlocksOk(blocks, full) && i < n <= |blocks| && |vals| == NrValues(Flat(blocks)) && k < NrValues(blocks[i])
    ensures var at := NrValues(Flat(blocks[..i])) + k;
            at < |SeenCells(blocks, vals, base, n, full)|
              && SeenCells(blocks, vals, base, n, full)[at] == SeenBlock(blocks, vals, base, i, full)[k]
    decreases n
  {
    hide SeenBlock, NrValues, WellFormed, Flat;
    SeenLength(blocks, vals, base, n - 1, full);
    if i < n - 1 {
      SeenAt(blocks, vals, base, n - 1, full, i, k);
    }
  }

  /** If nothing is found in any row, nothing is there. */
  lemma {:induction false} SeenNone(blocks: seq<seq<Unit>>, vals: seq<real>, base: nat, n: nat, full: bool, row: int,
                                    col: int)
    requires BlocksOk(blocks, full) && n <= |blocks| && |vals| == NrValues(Flat(blocks))
    requires forall i :: 0 <= i < n ==> NoneAt(SeenBlock(blocks, vals, base, i, full), row, col)
    ensures NoneAt(SeenCells(blocks, vals, base, n, full), row, col)
    decreases n
  {
    hide SeenBlock, NoneAt, WellFormed, Flat;
    if n > 0 {
      SeenNone(blocks, vals, base, n - 1, full, row, col);
      NoneConcat(SeenCells(blocks, vals, base, n - 1, full), SeenBlock(blocks, vals, base, n - 1, full), row, col);
    } else {
      NothingYet(row, col);
    }
  }

  // ----- The table -----

  lemma {:induction false} TableRow(m: Csx, blocks: seq<seq<Unit>>, us: seq<Unit>, i: nat)
    requires TableOk(m.rowsInfo, blocks, us, m.full) && i < |blocks|
    ensures |m.rowsInfo| == |blocks| && BlocksOk(blocks, m.full) && us == Flat(blocks)
    ensures AllWellFormed(Flat(blocks[..i]), m.full) && AllWellFormed(blocks[i], m.full)
    ensures RowInfoOk(m.rowsInfo, blocks, i, m.full)
  {
  }

  /** A pointer is before the end of the bytes of the rows up to it. */
  lemma {:induction false} PtrBelow(m: Csx, blocks: seq<seq<Unit>>, us: seq<Unit>, i: nat)
    requires TableOk(m.rowsInfo, blocks, us, m.full) && i < |blocks|
    ensures |m.rowsInfo| == |blocks| && AllWellFormed(Flat(blocks[..i + 1]), m.full)
    ensures Flat(blocks[..i + 1]) == [] ==> m.rowsInfo[i] == RowInfo(0, 0, 0)
    ensures Flat(blocks[..i + 1]) != [] ==> m.rowsInfo[i].rowptr < |Bytes(Flat(blocks[..i + 1]), m.full)|
    decreases i
  {
    hide WellFormed, AllWellFormed, Bytes, Marks, Spanned, TableOk, EndPos, Start, NrValues;
    TableRow(m, blocks, us, i);
    FlatNext(blocks, i);
    if blocks[i] == [] {
      assert Flat(blocks[..i + 1]) == Flat(blocks[..i]);
      if i > 0 {
        PtrBelow(m, blocks, us, i - 1);
      } else {
        assert blocks[..0] == [];
      }
    } else {
      BytesConcat(Flat(blocks[..i]), blocks[i], m.full);
      NothingLeft(blocks[i], m.full);
    }
  }

  /** The search skips a row other than the first exactly when it is empty, or has the first
      units of all. */
  lemma {:induction false} SkippedIff(m: Csx, blocks: seq<seq<Unit>>, us: seq<Unit>, i: nat)
    requires TableOk(m.rowsInfo, blocks, us, m.full) && 0 < i < |blocks|
    ensures |m.rowsInfo| == |blocks|
    ensures m.rowsInfo[i].rowptr == m.rowsInfo[i - 1].rowptr <==> blocks[i] == [] || Flat(blocks[..i]) == []
  {
    hide WellFormed, AllWellFormed, Bytes, Marks, Spanned, TableOk, EndPos, Start, NrValues;
    TableRow(m, blocks, us, i);
    PtrBelow(m, blocks, us, i - 1);
    if blocks[i] != [] && Flat(blocks[..i]) == [] {
      NoBytes(Flat(blocks[..i]), m.full);
    }
  }

  lemma {:induction false} NoBytes(us: seq<Unit>, full: bool)
    requires us == [] && AllWellFormed(us, full)
    ensures |Bytes(us, full)| == 0 && NrValues(us) == 0
  {
  }

  // ----- Searching the whole partition -----

  /** A compiled partition with its table, as MakeCsx gives it, and dimensions that fit into
      eight bits. */
  ghost predicate Searchable(m: Csx, us: seq<Unit>, blocks: seq<seq<Unit>>) {
    && Encodes(m, us) && us != [] && NarrowDims(us)
    && TableOk(m.rowsInfo, blocks, us, m.full) && |m.rowsInfo| == m.nrows
  }

  /** The row with the first units. */
  lemma {:induction false} FirstBlock(blocks: seq<seq<Unit>>, n: nat) returns (b: nat)
    requires n <= |blocks| && Flat(blocks[..n]) != []
    ensures b < n && blocks[b] != [] && Flat(blocks[..b]) == []
    decreases n
  {
    assert n > 0 by { NoValues(); assert blocks[..0] == []; }
    FlatNext(blocks, n - 1);
    if Flat(blocks[..n - 1]) != [] {
      b := FirstBlock(blocks, n - 1);
    } else {
      b := n - 1;
    }
  }

  /** The units behind a row start with a marked one. */
  lemma {:induction false} RestMarked(m: Csx, blocks: seq<seq<Unit>>, us: seq<Unit>, i: nat, n: nat)
    returns (rest: seq<Unit>)
    requires TableOk(m.rowsInfo, blocks, us, m.full) && i < n <= |blocks| && Flat(blocks[..i + 1]) != []
    ensures Flat(blocks[..n]) == Flat(blocks[..i + 1]) + rest && (rest != [] ==> rest[0].nr)
    decreases n
  {
    hide TableOk, WellFormed, AllWellFormed, Spanned, EndPos, Start, Bytes, NrValues, Flat;
    if n == i + 1 {
      rest := [];
    } else {
      rest := RestMarked(m, blocks, us, i, n - 1);
      FlatNext(blocks, n - 1);
      TableRow(m, blocks, us, n - 1);
      Assoc(Flat(blocks[..i + 1]), rest, blocks[n - 1]);
      rest := rest + blocks[n - 1];
    }
  }

  /** The bytes from the start of a row on. */
  lemma {:induction false} RowBytes(m: Csx, us: seq<Unit>, before: seq<Unit>, block: seq<Unit>, rest: seq<Unit>)
    requires Encodes(m, us) && us == (before + block) + rest
    ensures AllWellFormed(before, m.full) && AllWellFormed(block, m.full) && AllWellFormed(block + rest, m.full)
    ensures At(m.ctl, |Bytes(before, m.full)|, Bytes(block + rest, m.full))
    ensures |Bytes(before, m.full)| + |Bytes(block + rest, m.full)| == |m.ctl|
    ensures forall k :: 0 <= k < |block| ==>
      block[k].flag < |m.idMap| && m.idMap[block[k].flag] == block[k].pid && block[k] in us
  {
    hide WellFormed, Bytes;
    Assoc(before, block, rest);
    forall k | 0 <= k < |before| ensures WellFormed(before[k], m.full) {
      assert us[k] == before[k];
    }
    forall k | 0 <= k < |block|
      ensures WellFormed(block[k], m.full) && block[k].flag < |m.idMap| && m.idMap[block[k].flag] == block[k].pid
      ensures block[k] in us
    {
      assert us[|before| + k] == block[k];
    }
    forall k | 0 <= k < |rest| ensures WellFormed(rest[k], m.full) {
      assert us[|before + block| + k] == rest[k];
    }
    BytesConcat(before, block + rest, m.full);
    WholeAt(m.ctl);
    AtSplit(m.ctl, 0, Bytes(before, m.full), Bytes(block + rest, m.full));
  }

  /** Which units the search reads from the pointer of a row. */
  lemma {:induction false} RowToVisit(m: Csx, us: seq<Unit>, blocks: seq<seq<Unit>>, r: nat, vals: seq<real>)
    returns (b: nat, rest: seq<Unit>)
    requires Searchable(m, us, blocks) && r < |blocks| && |vals| == |m.values|
    requires r > 0 ==> blocks[r] != [] && Flat(blocks[..r]) != []
    ensures |m.rowsInfo| == |blocks| && BlocksOk(blocks, m.full) && |vals| == NrValues(Flat(blocks))
    ensures b < |blocks| && blocks[b] != [] && SeenRow(blocks, b) == r && (r > 0 ==> b == r)
    ensures m.rowsInfo[r].valptr == NrValues(Flat(blocks[..b]))
    ensures var p, cells := Pos(m.rowStart + r + 1, 0), SeenBlock(blocks, vals, m.rowStart, b, m.full);
            RowState(m, m.rowsInfo[r].rowptr, m.rowStart + r, 0, blocks[b], rest, BlockVals(blocks, vals, b), [], cells)
    ensures KnownUnits(m, blocks[b]) && (forall k :: 0 < k < |blocks[b]| ==> !blocks[b][k].nr)
    ensures rest != [] ==> rest[0].nr
    ensures forall i :: 0 <= i < |blocks| && i != b && SeenRow(blocks, i) == r ==> blocks[i] == []
  {
    hide WellFormed, AllWellFormed, Spanned, EndPos, Start, Bytes, Flat, TableOk, Encodes, At, BlockRun, NarrowDims;
    TableFacts(m, us, blocks);
    if r > 0 {
      b := r;
    } else {
      assert blocks[..|blocks|] == blocks;
      b := FirstBlock(blocks, |blocks|);
      FirstPointer(m, us, blocks, b);
    }
    TableRow(m, blocks, us, b);
    FlatNext(blocks, b);
    rest := RestMarked(m, blocks, us, b, |blocks|);
    assert blocks[..|blocks|] == blocks;
    RowBytes(m, us, Flat(blocks[..b]), blocks[b], rest);
    KnownFrom(m, us, blocks[b]);
    forall i | 0 <= i < |blocks| && i != b && SeenRow(blocks, i) == r ensures blocks[i] == [] {
      OnlyFirst(blocks, b, i);
    }
  }

  lemma {:induction false} TableFacts(m: Csx, us: seq<Unit>, blocks: seq<seq<Unit>>)
    requires Searchable(m, us, blocks)
    ensures |m.rowsInfo| == |blocks| == m.nrows && BlocksOk(blocks, m.full) && us == Flat(blocks) && us != []
    ensures |m.values| == NrValues(Flat(blocks)) && Encodes(m, us) && NarrowDims(us)
    ensures TableOk(m.rowsInfo, blocks, us, m.full)
  {
  }

  lemma {:induction false} FirstPointer(m: Csx, us: seq<Unit>, blocks: seq<seq<Unit>>, b: nat)
    requires TableOk(m.rowsInfo, blocks, us, m.full) && b < |blocks| && blocks[b] != [] && Flat(blocks[..b]) == []
    ensures |m.rowsInfo| == |blocks| > 0 && AllWellFormed(Flat(blocks[..b]), m.full)
    ensures m.rowsInfo[0].rowptr == |Bytes(Flat(blocks[..b]), m.full)|
    ensures m.rowsInfo[0].valptr == NrValues(Flat(blocks[..b]))
    ensures SeenRow(blocks, b) == 0
  {
    hide WellFormed, AllWellFormed, Marks, Spanned, EndPos, Start, TableOk;
    TableRow(m, blocks, us, 0);
    TableRow(m, blocks, us, b);
    NoBytes(Flat(blocks[..b]), m.full);
    assert blocks[..0] == [];
    if b > 0 {
      FlatNext(blocks, 0);
      FlatGrows(blocks, 1, b);
      PtrBelow(m, blocks, us, 0);
    }
  }

  lemma {:induction false} FlatGrows(blocks: seq<seq<Unit>>, i: nat, j: nat)
    requires i <= j <= |blocks|
    ensures Flat(blocks[..j]) == [] ==> Flat(blocks[..i]) == []
    decreases j
  {
    if i < j {
      FlatNext(blocks, j - 1);
      FlatGrows(blocks, i, j - 1);
    }
  }

  /** Two rows with units are not seen as the same row. */
  lemma {:induction false} OnlyFirst(blocks: seq<seq<Unit>>, b: nat, i: nat)
    requires b < |blocks| && i < |blocks| && i != b && blocks[b] != [] && SeenRow(blocks, i) == SeenRow(blocks, b)
    ensures blocks[i] == []
  {
    hide Flat;
    NoValues();
    assert blocks[..0] == [];
    if b < i {
      FlatNext(blocks, b);
      FlatGrows(blocks, b + 1, i);
    } else {
      FlatNext(blocks, i);
      FlatGrows(blocks, i + 1, b);
    }
  }

  lemma {:induction false} KnownFrom(m: Csx, us: seq<Unit>, block: seq<Unit>)
    requires NarrowDims(us)
    requires forall k :: 0 <= k < |block| ==>
      block[k].flag < |m.idMap| && m.idMap[block[k].flag] == block[k].pid && block[k] in us
    ensures KnownUnits(m, block)
  {
    forall k | 0 <= k < |block| ensures PidDim(block[k].pid) < 256 {
      var q :| 0 <= q < |us| && us[q] == block[k];
    }
  }

  /** No cell of a row's units is above the row or more than the span below it. */
  lemma {:induction false} BlockRows(us: seq<Unit>, p: Pos, vals: seq<real>, full: bool, span: nat)
    requires AllWellFormed(us, full) && |vals| == NrValues(us) && Spanned(us, span)
    ensures RowsWithin(BlockRun(us, p, vals, full), p.row, p.row + span)
    decreases |us|
  {
    if us != [] {
      hide WellFormed, UnitCells, Leave, RowOffset;
      var u, s := us[0], StartIn(us[0], p, full);
      var unit, rest :=
        UnitCells(u, s, vals[..u.size], full), BlockRun(us[1..], Leave(u, s, full), vals[u.size..], full);
      SpannedTail(us, span);
      LeaveRow(u, s, full);
      BlockRows(us[1..], Leave(u, s, full), vals[u.size..], full, span);
      forall k | 0 <= k < u.size ensures p.row <= unit[k].row <= p.row + span {
        UnitCellRow(u, s, vals[..u.size], full, k);
        OffsetPositive(u, full, k);
      }
    }
  }

  lemma {:induction false} SpannedTail(us: seq<Unit>, span: nat)
    requires us != [] && Spanned(us, span)
    ensures Spanned(us[1..], span)
    ensures forall j: nat :: j < us[0].size && us[0].pid < 21 * PATTERN_ID_OFFSET ==> RowOffset(us[0], j) <= span
  {
    hide RowOffset;
  }

  lemma {:induction false} OffsetPositive(u: Unit, full: bool, k: nat)
    requires WellFormed(u, full) && k < u.size
    ensures u.pid < 21 * PATTERN_ID_OFFSET && RowOffset(u, k) >= 0
  {
    if !IsDelta(u) {
      var inst := UnitInst(u);
      if inst.ty.IsBlock() {
        BlockBounds(inst.ty, inst.dim, k);
      } else {
        Positive(k, inst.dim);
      }
    }
  }

  lemma {:induction false} Positive(k: nat, d: nat)
    ensures k * d >= 0
  {
  }

  /** Rows the search cannot find the entry in. */
  lemma {:induction false} OutOfReach(m: Csx, us: seq<Unit>, blocks: seq<seq<Unit>>, vals: seq<real>, i: nat, row: int,
                                      col: int)
    requires Searchable(m, us, blocks) && i < |blocks| && |vals| == |m.values| && BlocksOk(blocks, m.full)
    requires |vals| == NrValues(Flat(blocks))
    requires SeenRow(blocks, i) == i && |m.rowsInfo| == |blocks|
    requires row - 1 < m.rowStart + i || row - 1 > m.rowStart + i + m.rowsInfo[i].span
    ensures NoneAt(SeenBlock(blocks, vals, m.rowStart, i, m.full), row, col)
  {
    hide WellFormed, AllWellFormed, EndPos, Start, TableOk, Encodes, BlockRun, Flat, Spanned, Marks;
    TableFacts(m, us, blocks);
    TableRow(m, blocks, us, i);
    var p := Pos(m.rowStart + i + 1, 0);
    if blocks[i] != [] {
      BlockRows(blocks[i], p, BlockVals(blocks, vals, i), m.full, m.rowsInfo[i].span);
    } else {
      BlockRunLength(blocks[i], p, BlockVals(blocks, vals, i), m.full);
      NoValues();
    }
  }

  lemma {:induction false} EmptyBlock(blocks: seq<seq<Unit>>, vals: seq<real>, base: nat, i: nat, full: bool, row: int,
                                      col: int)
    requires BlocksOk(blocks, full) && i < |blocks| && |vals| == NrValues(Flat(blocks)) && blocks[i] == []
    ensures NoneAt(SeenBlock(blocks, vals, base, i, full), row, col)
  {
  }

  /** Reads or writes the value found. */
  method GetSet(values: array<real>, at: nat, value: real, mode: bool) returns (value': real)
    requires at < values.Length
    modifies values
    ensures mode ==> values[..] == old(values[..])[at := value] && value' == value
    ensures !mode ==> values[..] == old(values[..]) && value' == values[at]
  {
    value' := value;
    if mode {
      values[at] := value;
    } else {
      value' := values[at];
    }
  }

  /** Rows below `r` have been searched. */
  ghost predicate Searched(m: Csx, blocks: seq<seq<Unit>>, vals: seq<real>, r: int, row: int, col: int)
    requires BlocksOk(blocks, m.full) && |vals| == NrValues(Flat(blocks))
  {
    forall i :: 0 <= i < |blocks| && SeenRow(blocks, i) > r ==>
      NoneAt(SeenBlock(blocks, vals, m.rowStart, i, m.full), row, col)
  }

  /** Decodes the units at the pointer of row r + 1. */
  method VisitRow(m: Csx, r: nat, row: int, col: int, cur: nat, rowsChecked: nat,
                  ghost us: seq<Unit>, ghost blocks: seq<seq<Unit>>, ghost vals: seq<real>)
    returns (found: bool, at: nat)
    requires Searchable(m, us, blocks) && BlocksOk(blocks, m.full) && |vals| == |m.values| == NrValues(Flat(blocks))
    requires r < |blocks| == |m.rowsInfo| && (r > 0 ==> blocks[r] != [] && Flat(blocks[..r]) != [])
    requires cur == m.rowStart + r && rowsChecked == row - 1 - cur && Searched(m, blocks, vals, r, row, col)
    ensures found ==> at < |vals| && at < |SeenCells(blocks, vals, m.rowStart, |blocks|, m.full)|
                      && IsAt(SeenCells(blocks, vals, m.rowStart, |blocks|, m.full)[at], row, col)
    ensures !found ==> Searched(m, blocks, vals, r - 1, row, col)
  {
    hide Searchable, RowState, KnownUnits, IsAt, NoneAt, SeenRow, SeenBlock, SeenCells, Flat, NrValues, BlocksOk;
    ghost var b, rest := RowToVisit(m, us, blocks, r, vals);
    ghost var cells := SeenBlock(blocks, vals, m.rowStart, b, m.full);
    found, at := SearchRow(m, m.rowsInfo[r].rowptr, m.rowsInfo[r].valptr, row, col, cur, rowsChecked, blocks[b], rest,
                           BlockVals(blocks, vals, b), cells);
    if found {
      SeenAt(blocks, vals, m.rowStart, |blocks|, m.full, b, at - m.rowsInfo[r].valptr);
      SeenAll(blocks, vals, m.rowStart, m.full);
    } else {
      forall i | 0 <= i < |blocks| && SeenRow(blocks, i) > r - 1
        ensures NoneAt(SeenBlock(blocks, vals, m.rowStart, i, m.full), row, col)
      {
        if i != b && SeenRow(blocks, i) == r {
          EmptyBlock(blocks, vals, m.rowStart, i, m.full, row, col);
        }
      }
    }
  }

  lemma {:induction false} SeenAll(blocks: seq<seq<Unit>>, vals: seq<real>, base: nat, full: bool)
    requires BlocksOk(blocks, full) && |vals| == NrValues(Flat(blocks))
    ensures |SeenCells(blocks, vals, base, |blocks|, full)| == |vals|
  {
    SeenLength(blocks, vals, base, |blocks|, full);
    assert blocks[..|blocks|] == blocks;
  }

  /** Finds the entry (row, col), and reads or writes its value: every cell is found where the
      search sees it, and only there. */
  method SearchValue(m: Csx, values: array<real>, row: int, col: int, value: real, mode: bool, ghost us: seq<Unit>,
                     ghost blocks: seq<seq<Unit>>)
    returns (found: bool, value': real, at: nat)
    requires Searchable(m, us, blocks) && BlocksOk(blocks, m.full)
    requires values.Length == |m.values| == NrValues(Flat(blocks))
    requires m.rowStart < row <= m.rowStart + m.nrows
    modifies values
    ensures !found ==> NoneAt(SeenCells(blocks, old(values[..]), m.rowStart, |blocks|, m.full), row, col)
                       && values[..] == old(values[..]) && value' == value
    ensures found ==> at < values.Length && at < |SeenCells(blocks, old(values[..]), m.rowStart, |blocks|, m.full)|
                      && IsAt(SeenCells(blocks, old(values[..]), m.rowStart, |blocks|, m.full)[at], row, col)
    ensures found && mode ==> values[..] == old(values[..])[at := value] && value' == value
    ensures found && !mode ==> values[..] == old(values[..]) && value' == values[at]
  {
    hide Searchable, RowState, KnownUnits, IsAt, NoneAt, SeenBlock, SeenCells, Flat, NrValues, BlocksOk, SeenRow;
    ghost var vals := values[..];
    TableFacts(m, us, blocks);
    var currentRow := row - 1;
    var rowsChecked := 0;
    found, value', at := false, value, 0;
    BelowTarget(m, us, blocks, vals, row, col);
    while currentRow >= m.rowStart
      invariant m.rowStart - 1 <= currentRow < row && rowsChecked == row - 1 - currentRow
      invariant Searched(m, blocks, vals, currentRow - m.rowStart, row, col)
      invariant values[..] == vals && |vals| == |m.values|
      decreases currentRow + 1
    {
      ghost var r := currentRow - m.rowStart;
      if currentRow != m.rowStart {
        SkipTest(m, us, blocks, r);
        if row - 1 > currentRow + m.rowsInfo[currentRow - m.rowStart].span
           || m.rowsInfo[currentRow - m.rowStart].rowptr == m.rowsInfo[currentRow - m.rowStart - 1].rowptr
        {
          SkippedRow(m, us, blocks, vals, r, row, col);
          rowsChecked := rowsChecked + 1;
          currentRow := currentRow - 1;
          continue;
        }
      }
      found, at := VisitRow(m, currentRow - m.rowStart, row, col, currentRow, rowsChecked, us, blocks, vals);
      if found {
        value' := GetSet(values, at, value, mode);
        return;
      }
      if currentRow == m.rowStart {
        AllSearched(m, blocks, vals, row, col);
        return;
      }
      rowsChecked := rowsChecked + 1;
      currentRow := currentRow - 1;
    }
    AllSearched(m, blocks, vals, row, col);
  }

  lemma {:induction false} SkipTest(m: Csx, us: seq<Unit>, blocks: seq<seq<Unit>>, r: nat)
    requires Searchable(m, us, blocks) && 0 < r < |blocks|
    ensures |m.rowsInfo| == |blocks|
    ensures m.rowsInfo[r].rowptr == m.rowsInfo[r - 1].rowptr <==> blocks[r] == [] || Flat(blocks[..r]) == []
  {
    SkippedIff(m, blocks, us, r);
  }

  /** Rows below the target cannot have the entry. */
  lemma {:induction false} BelowTarget(m: Csx, us: seq<Unit>, blocks: seq<seq<Unit>>, vals: seq<real>, row: int,
                                       col: int)
    requires Searchable(m, us, blocks) && BlocksOk(blocks, m.full) && |vals| == |m.values| == NrValues(Flat(blocks))
    requires row > m.rowStart
    ensures Searched(m, blocks, vals, row - 1 - m.rowStart, row, col)
  {
    hide Searchable, NoneAt, SeenBlock, Flat, NrValues, BlocksOk;
    TableFacts(m, us, blocks);
    forall i | 0 <= i < |blocks| && SeenRow(blocks, i) > row - 1 - m.rowStart
      ensures NoneAt(SeenBlock(blocks, vals, m.rowStart, i, m.full), row, col)
    {
      OutOfReach(m, us, blocks, vals, i, row, col);
    }
  }

  /** A skipped row cannot have the entry. */
  lemma {:induction false} SkippedRow(m: Csx, us: seq<Unit>, blocks: seq<seq<Unit>>, vals: seq<real>, r: nat, row: int,
                                      col: int)
    requires Searchable(m, us, blocks) && BlocksOk(blocks, m.full) && |vals| == |m.values| == NrValues(Flat(blocks))
    requires 0 < r < |blocks| == |m.rowsInfo| && Searched(m, blocks, vals, r, row, col)
    requires row - 1 > m.rowStart + r + m.rowsInfo[r].span || blocks[r] == [] || Flat(blocks[..r]) == []
    ensures Searched(m, blocks, vals, r - 1, row, col)
  {
    hide Searchable, NoneAt, SeenBlock, NrValues, BlocksOk;
    forall i | 0 <= i < |blocks| && SeenRow(blocks, i) > r - 1
      ensures NoneAt(SeenBlock(blocks, vals, m.rowStart, i, m.full), row, col)
    {
      if SeenRow(blocks, i) == r {
        if blocks[r] == [] {
          EmptyBlock(blocks, vals, m.rowStart, i, m.full, row, col);
        } else {
          OutOfReach(m, us, blocks, vals, i, row, col);
        }
      }
    }
  }

  lemma {:induction false} AllSearched(m: Csx, blocks: seq<seq<Unit>>, vals: seq<real>, row: int, col: int)
    requires BlocksOk(blocks, m.full) && |vals| == NrValues(Flat(blocks)) && Searched(m, blocks, vals, -1, row, col)
    ensures NoneAt(SeenCells(blocks, vals, m.rowStart, |blocks|, m.full), row, col)
  {
    hide NoneAt, SeenBlock, NrValues, BlocksOk, Flat;
    SeenNone(blocks, vals, m.rowStart, |blocks|, m.full, row, col);
  }

  // ----- Seen and true cells -----

  /** The same cells with other values. */
  predicate Revalued(a: seq<Cell>, b: seq<Cell>, vals: seq<real>) {
    |a| == |b| == |vals| && forall k :: 0 <= k < |a| ==> b[k] == a[k].(val := vals[k])
  }

  lemma {:induction false} RevaluedConcat(a: seq<Cell>, b: seq<Cell>, va: seq<real>, c: seq<Cell>, d: seq<Cell>,
                                          vc: seq<real>)
    requires Revalued(a, b, va) && Revalued(c, d, vc)
    ensures Revalued(a + c, b + d, va + vc)
  {
  }

  lemma {:induction false} UnitRevalued(u: Unit, s: Pos, vals: seq<real>, vals': seq<real>, full: bool)
    requires WellFormed(u, full) && |vals| == |vals'| == u.size
    ensures Revalued(UnitCells(u, s, vals, full), UnitCells(u, s, vals', full), vals')
  {
  }

  /** Only values depend on the values. */
  lemma {:induction false} BlockRevalued(us: seq<Unit>, p: Pos, vals: seq<real>, vals': seq<real>, full: bool)
    requires AllWellFormed(us, full) && |vals| == |vals'| == NrValues(us)
    ensures Revalued(BlockRun(us, p, vals, full), BlockRun(us, p, vals', full), vals')
    decreases |us|
  {
    hide UnitCells, WellFormed, Leave, BlockRun, NrValues, Revalued, StartIn;
    if us != [] {
      BlockHead(us, p, vals, full);
      BlockHead(us, p, vals', full);
      var u, s := us[0], StartIn(us[0], p, full);
      var next, n := Leave(u, s, full), u.size;
      UnitRevalued(u, s, vals[..n], vals'[..n], full);
      BlockRevalued(us[1..], next, vals[n..], vals'[n..], full);
      RevaluedConcat(UnitCells(u, s, vals[..n], full), UnitCells(u, s, vals'[..n], full), vals'[..n],
                     BlockRun(us[1..], next, vals[n..], full), BlockRun(us[1..], next, vals'[n..], full), vals'[n..]);
      assert vals'[..n] + vals'[n..] == vals';
    } else {
      NoBlock(us, p, vals, full);
      NoBlock(us, p, vals', full);
      NothingRevalued(vals');
    }
  }

  lemma {:induction false} SeenRevalued(blocks: seq<seq<Unit>>, vals: seq<real>, vals': seq<real>, base: nat, n: nat,
                                        full: bool)
    requires BlocksOk(blocks, full) && n <= |blocks| && |vals| == |vals'| == NrValues(Flat(blocks))
    ensures NrValues(Flat(blocks[..n])) <= |vals|
    ensures Revalued(SeenCells(blocks, vals, base, n, full), SeenCells(blocks, vals', base, n, full),
                     vals'[..NrValues(Flat(blocks[..n]))])
    decreases n
  {
    hide WellFormed, NrValues, Flat, Revalued, BlockRun;
    FlatValues(blocks, n);
    if n > 0 {
      var i := n - 1;
      SeenRevalued(blocks, vals, vals', base, i, full);
      FlatValues(blocks, i);
      FlatNext(blocks, i);
      NrValuesConcat(Flat(blocks[..i]), blocks[i]);
      var v := BlockVals(blocks, vals', i);
      BlockRevalued(blocks[i], Pos(base + SeenRow(blocks, i) + 1, 0), BlockVals(blocks, vals, i), v, full);
      RevaluedConcat(SeenCells(blocks, vals, base, i, full), SeenCells(blocks, vals', base, i, full),
                     vals'[..NrValues(Flat(blocks[..i]))],
                     SeenBlock(blocks, vals, base, i, full), SeenBlock(blocks, vals', base, i, full), v);
      assert vals'[..NrValues(Flat(blocks[..i]))] + v == vals'[..NrValues(Flat(blocks[..n]))];
    } else {
      NoValues();
      assert blocks[..0] == [];
      NothingRevalued(vals'[..0]);
    }
  }

  lemma {:induction false} NothingRevalued(vals: seq<real>)
    requires vals == []
    ensures Revalued([], [], vals)
  {
  }

  /** Writing one value changes one cell. */
  lemma {:induction false} SetChangesOne(blocks: seq<seq<Unit>>, vals: seq<real>, base: nat, full: bool, at: nat,
                                         value: real)
    requires BlocksOk(blocks, full) && |vals| == NrValues(Flat(blocks)) && at < |vals|
    ensures |SeenCells(blocks, vals, base, |blocks|, full)| == |vals|
    ensures var cells := SeenCells(blocks, vals, base, |blocks|, full);
            SeenCells(blocks, vals[at := value], base, |blocks|, full) == cells[at := cells[at].(val := value)]
    ensures forall k :: 0 <= k < |vals| ==> SeenCells(blocks, vals, base, |blocks|, full)[k].val == vals[k]
  {
    hide WellFormed, NrValues, Flat, SeenCells;
    assert blocks[..|blocks|] == blocks && vals[..|vals|] == vals;
    var vals' := vals[at := value];
    assert vals'[..|vals|] == vals';
    SeenRevalued(blocks, vals, vals', base, |blocks|, full);
    SeenRevalued(blocks, vals, vals, base, |blocks|, full);
  }

  /** The first `k` cells `b` rows higher. */
  function Lifted(cells: seq<Cell>, k: nat, b: nat): (r: seq<Cell>)
    ensures |r| == |cells|
  {
    seq(|cells|, j requires 0 <= j < |cells| => if j < k then cells[j].(row := cells[j].row - b) else cells[j])
  }

  lemma {:induction false} LiftedFront(a: seq<Cell>, c: seq<Cell>, k: nat, b: nat)
    requires k <= |a|
    ensures Lifted(a + c, k, b) == Lifted(a, k, b) + c
  {
  }

  lemma {:induction false} LiftedBoth(a: seq<Cell>, c: seq<Cell>, k: nat, b: nat)
    ensures Lifted(a + c, |a| + k, b) == Lifted(a, |a|, b) + Lifted(c, k, b)
  {
  }

  lemma {:induction false} LiftedByNone(cells: seq<Cell>, k: nat)
    ensures Lifted(cells, k, 0) == cells
  {
  }

  lemma {:induction false} UnitLifted(u: Unit, s: Pos, b: nat, vals: seq<real>, full: bool)
    requires WellFormed(u, full) && |vals| == u.size
    ensures UnitCells(u, Pos(s.row - b, s.col), vals, full) == Lifted(UnitCells(u, s, vals, full), |vals|, b)
  {
  }

  /** The units of a row, taken for those of another. */
  lemma {:induction false} BlockLifted(us: seq<Unit>, p: Pos, b: nat, vals: seq<real>, full: bool)
    requires AllWellFormed(us, full) && |vals| == NrValues(us)
    ensures BlockRun(us, Pos(p.row - b, p.col), vals, full) == Lifted(BlockRun(us, p, vals, full), |vals|, b)
    decreases |us|
  {
    hide UnitCells, WellFormed, BlockRun, NrValues, Lifted;
    var up := Pos(p.row - b, p.col);
    if us != [] {
      BlockHead(us, p, vals, full);
      BlockHead(us, up, vals, full);
      var u, s, n := us[0], StartIn(us[0], p, full), us[0].size;
      UnitLifted(u, s, b, vals[..n], full);
      BlockLifted(us[1..], Leave(u, s, full), b, vals[n..], full);
      LiftedBoth(UnitCells(u, s, vals[..n], full), BlockRun(us[1..], Leave(u, s, full), vals[n..], full), |vals[n..]|,
                 b);
    } else {
      NoBlock(us, p, vals, full);
      NoBlock(us, up, vals, full);
    }
  }

  /** Row b + 1 is the first that has units: they are seen in the first row, and the units of
      the rows below where they are. */
  lemma {:induction false} SeenIsLifted(m: Csx, us: seq<Unit>, blocks: seq<seq<Unit>>, vals: seq<real>, b: nat, n: nat)
    requires Searchable(m, us, blocks) && BlocksOk(blocks, m.full) && |vals| == NrValues(Flat(blocks))
    requires b < n <= |blocks| && blocks[b] != [] && Flat(blocks[..b]) == []
    ensures AllWellFormed(Flat(blocks[..n]), m.full) && NrValues(Flat(blocks[..n])) <= |vals|
    ensures SeenCells(blocks, vals, m.rowStart, n, m.full)
         == Lifted(Run(Flat(blocks[..n]), Pos(m.rowStart + 1, 0), vals[..NrValues(Flat(blocks[..n]))], m.full),
                   NrValues(blocks[b]), b)
    decreases n
  {
    hide Searchable, WellFormed, NrValues, Flat, Run, BlockRun, Bytes, Start, EndPos, TableOk, Spanned, Marks, Lifted;
    var i, p := n - 1, Pos(m.rowStart + 1, 0);
    var before := Flat(blocks[..i]);
    TableFacts(m, us, blocks);
    TableRow(m, blocks, us, i);
    FlatNext(blocks, i);
    FlatValues(blocks, i);
    FlatValues(blocks, n);
    NrValuesConcat(before, blocks[i]);
    BytesConcat(before, blocks[i], m.full);
    var vb := BlockVals(blocks, vals, i);
    assert vals[..NrValues(before)] + vb == vals[..NrValues(Flat(blocks[..n]))];
    RunConcat(before, blocks[i], p, vals[..NrValues(before)], vb, m.full);
    TrueRow(m, us, blocks, vb, i);
    if i > b {
      SeenIsLifted(m, us, blocks, vals, b, i);
      FlatGrows(blocks, b + 1, i);
      FlatNext(blocks, b);
      AtLeastFirst(blocks, b, i);
      var run := Run(before, p, vals[..NrValues(before)], m.full);
      RunLengthIs(before, p, vals[..NrValues(before)], m.full);
      LiftedFront(run, BlockRun(blocks[i], Pos(m.rowStart + i + 1, 0), vb, m.full), NrValues(blocks[b]), b);
    } else {
      NoValues();
      NoUnits(before, p, vals[..NrValues(before)], m.full);
      SeenLength(blocks, vals, m.rowStart, b, m.full);
      BlockLifted(blocks[b], Pos(m.rowStart + b + 1, 0), b, vb, m.full);
      assert [] + BlockRun(blocks[b], Pos(m.rowStart + b + 1, 0), vb, m.full)
        == BlockRun(blocks[b], Pos(m.rowStart + b + 1, 0), vb, m.full);
    }
  }

  lemma {:induction false} AtLeastFirst(blocks: seq<seq<Unit>>, b: nat, i: nat)
    requires b < i <= |blocks| && Flat(blocks[..b]) == []
    ensures NrValues(Flat(blocks[..i])) >= NrValues(blocks[b])
  {
    hide NrValues, Flat;
    assert blocks[..i][..b + 1] == blocks[..b + 1];
    FlatValues(blocks[..i], b + 1);
    FlatNext(blocks, b);
    assert [] + blocks[b] == blocks[b];
  }

  /** A row's units, in place. */
  lemma {:induction false} TrueRow(m: Csx, us: seq<Unit>, blocks: seq<seq<Unit>>, vals: seq<real>, i: nat)
    requires Searchable(m, us, blocks) && i < |blocks| && AllWellFormed(Flat(blocks[..i]), m.full)
    requires AllWellFormed(blocks[i], m.full)
    requires |vals| == NrValues(blocks[i])
    ensures Run(blocks[i], EndPos(Flat(blocks[..i]), Pos(m.rowStart + 1, 0), m.full), vals, m.full)
         == BlockRun(blocks[i], Pos(m.rowStart + i + 1, 0), vals, m.full)
  {
    hide WellFormed, NrValues, Flat, Run, BlockRun, Bytes, EndPos, TableOk, Spanned, UnitCells, Next, Leave;
    var block, before := blocks[i], Flat(blocks[..i]);
    var q := EndPos(before, Pos(m.rowStart + 1, 0), m.full);
    TableRow(m, blocks, us, i);
    if block == [] {
      NoUnits(block, q, vals, m.full);
      NoBlock(block, Pos(m.rowStart + i + 1, 0), vals, m.full);
    } else {
      EndShift(before, ORIGIN, m.rowStart, m.full);
      AtOrigin(before, m.full);
      WellFormedHead(block, m.full);
      var u, s := block[0], Start(block[0], q, m.full);
      FirstStart(u, EndPos(before, ORIGIN, m.full), m.rowStart, m.full, i);
      RunHead(block, q, vals, m.full);
      NextIs(u, q, m.full);
      UnmarkedRow(block[1..], Leave(u, s, m.full), vals[u.size..], m.full);
      BlockHead(block, Pos(m.rowStart + i + 1, 0), vals, m.full);
    }
  }

  lemma {:induction false} NoBlock(us: seq<Unit>, p: Pos, vals: seq<real>, full: bool)
    requires us == [] && AllWellFormed(us, full) && |vals| == NrValues(us)
    ensures vals == [] && BlockRun(us, p, vals, full) == []
  {
  }

  lemma {:induction false} BlockHead(us: seq<Unit>, p: Pos, vals: seq<real>, full: bool)
    requires us != [] && AllWellFormed(us, full) && |vals| == NrValues(us)
    ensures WellFormed(us[0], full) && AllWellFormed(us[1..], full) && us[0].size <= |vals|
    ensures |vals[us[0].size..]| == NrValues(us[1..])
    ensures var s := StartIn(us[0], p, full);
            BlockRun(us, p, vals, full)
              == UnitCells(us[0], s, vals[..us[0].size], full)
                + BlockRun(us[1..], Leave(us[0], s, full), vals[us[0].size..], full)
  {
  }

  /** The first unit of row i + 1. */
  lemma {:induction false} FirstStart(u: Unit, q: Pos, base: nat, full: bool, i: nat)
    requires Start(u, q, full).row == i + 1 && (u.nr || q == ORIGIN)
    ensures Start(u, Pos(q.row + base, q.col), full) == StartIn(u, Pos(base + i + 1, 0), full)
  {
  }

  lemma {:induction false} EndShift(us: seq<Unit>, p: Pos, k: int, full: bool)
    requires AllWellFormed(us, full)
    ensures EndPos(us, Pos(p.row + k, p.col), full) == Pos(EndPos(us, p, full).row + k, EndPos(us, p, full).col)
    decreases |us|
  {
    if us != [] {
      hide WellFormed;
      EndShift(us[1..], Next(us[0], p, full), k, full);
    }
  }

  /** Unmarked units stay on their row. */
  lemma {:induction false} UnmarkedRow(us: seq<Unit>, p: Pos, vals: seq<real>, full: bool)
    requires AllWellFormed(us, full) && |vals| == NrValues(us) && forall k :: 0 <= k < |us| ==> !us[k].nr
    ensures Run(us, p, vals, full) == BlockRun(us, p, vals, full)
    decreases |us|
  {
    if us != [] {
      hide WellFormed, UnitCells, Leave;
      UnmarkedRow(us[1..], Next(us[0], p, full), vals[us[0].size..], full);
    }
  }

  /** Where the search sees the cells of the matrix: with b empty rows at the beginning, those of
      the first row that has units are seen b rows higher, and all others where they are. */
  lemma {:induction false} SeenExactly(m: Csx, us: seq<Unit>, blocks: seq<seq<Unit>>, vals: seq<real>) returns (b: nat)
    requires Searchable(m, us, blocks) && BlocksOk(blocks, m.full) && |vals| == NrValues(Flat(blocks))
    ensures AllWellFormed(us, m.full) && |vals| == NrValues(us)
    ensures b < |blocks| && blocks[b] != [] && Flat(blocks[..b]) == [] && NrValues(blocks[b]) > 0
    ensures SeenCells(blocks, vals, m.rowStart, |blocks|, m.full)
      == Lifted(Run(us, Pos(m.rowStart + 1, 0), vals, m.full), NrValues(blocks[b]), b)
  {
    hide WellFormed, NrValues, Flat, Run, TableOk, SeenCells, Lifted;
    TableFacts(m, us, blocks);
    assert blocks[..|blocks|] == blocks && vals[..|vals|] == vals;
    b := FirstBlock(blocks, |blocks|);
    TableRow(m, blocks, us, b);
    WellFormedHead(blocks[b], m.full);
    SomeValues(blocks[b]);
    SeenIsLifted(m, us, blocks, vals, b, |blocks|);
  }

  /** The search sees the cells of the matrix exactly when the first row of the partition is not
      empty; otherwise it misplaces the units of the first row that has any. */
  lemma {:induction false} SeenIsTrueIff(m: Csx, us: seq<Unit>, blocks: seq<seq<Unit>>, vals: seq<real>)
    requires Searchable(m, us, blocks) && BlocksOk(blocks, m.full) && |vals| == NrValues(Flat(blocks))
    ensures AllWellFormed(us, m.full) && |vals| == NrValues(us) && |blocks| > 0
    ensures SeenCells(blocks, vals, m.rowStart, |blocks|, m.full) == Run(us, Pos(m.rowStart + 1, 0), vals, m.full) <==>
      blocks[0] != []
  {
    hide WellFormed, NrValues, Flat, Run, TableOk, SeenCells, Lifted;
    TableFacts(m, us, blocks);
    var b := SeenExactly(m, us, blocks, vals);
    if blocks[0] != [] {
      FlatNext(blocks, 0);
      if b > 0 {
        FlatGrows(blocks, 1, b);
      }
      LiftedByNone(Run(us, Pos(m.rowStart + 1, 0), vals, m.full), NrValues(blocks[0]));
    } else {
      Misplaced(m, us, blocks, vals);
    }
  }

  /** The first cell of all is seen in the first row, where it is not. */
  lemma {:induction false} Misplaced(m: Csx, us: seq<Unit>, blocks: seq<seq<Unit>>, vals: seq<real>)
    requires Searchable(m, us, blocks) && BlocksOk(blocks, m.full) && |vals| == NrValues(Flat(blocks)) == NrValues(us)
    requires |blocks| > 0 && blocks[0] == [] && AllWellFormed(us, m.full)
    ensures var seen, true_ := SeenCells(blocks, vals, m.rowStart, |blocks|, m.full),
      Run(us, Pos(m.rowStart + 1, 0), vals, m.full);
            |seen| > 0 && |true_| > 0 && seen[0].row == m.rowStart + 1 < true_[0].row
  {
    hide WellFormed, NrValues, Flat, Run, BlockRun, Bytes, EndPos, TableOk, Spanned, UnitCells, Next, SeenCells, Leave;
    TableFacts(m, us, blocks);
    assert blocks[..|blocks|] == blocks;
    var b := FirstBlock(blocks, |blocks|);
    TableRow(m, blocks, us, b);
    var block, p := blocks[b], Pos(m.rowStart + 1, 0);
    WellFormedHead(block, m.full);
    NoBytes(Flat(blocks[..b]), m.full);
    NoUnits(Flat(blocks[..b]), ORIGIN, [], m.full);
    SomeValues(block);
    SeenAt(blocks, vals, m.rowStart, |blocks|, m.full, b, 0);
    var bv := BlockVals(blocks, vals, b);
    BlockHead(block, p, bv, m.full);
    FirstRow(block[0], StartIn(block[0], p, m.full), bv[..block[0].size], m.full);
    FirstUnitIs(blocks, b);
    WellFormedHead(us, m.full);
    RunHead(us, p, vals, m.full);
    FirstRow(us[0], Start(us[0], p, m.full), vals[..us[0].size], m.full);
  }

  lemma {:induction false} SomeValues(us: seq<Unit>)
    requires us != [] && us[0].size >= 1
    ensures NrValues(us) > 0
  {
  }

  lemma {:induction false} FirstUnitIs(blocks: seq<seq<Unit>>, b: nat)
    requires b < |blocks| && blocks[b] != [] && Flat(blocks[..b]) == []
    ensures Flat(blocks) != [] && Flat(blocks)[0] == blocks[b][0]
  {
    FlatNext(blocks, b);
    var rest := FlatPrefix(blocks, b + 1);
  }
}
