/** The generated multiplication routine: the decoding loop and one kernel per unit type. */
module Kernels {
  import opened Encodings
  import opened Cells
  import opened Elements
  import opened CtlCodec
  import opened StoreLog
  import opened Units

  // ----- Accounting -----

  /** `now`, plus `pending` still to be added to `row`, plus the product of the cells not
      yet visited, is `before` plus the product of all cells. */
  ghost predicate Acc(before: seq<real>, now: seq<real>, row: int, pending: real,
                      rest: seq<Cell>, all: seq<Cell>, x: seq<real>, scale: real) {
    && |now| == |before|
    && ColsWithin(rest, |x|)
    && ColsWithin(all, |x|)
    && forall r {:trigger Dot(rest, r, x, scale)} {:trigger now[r - 1]} :: 1 <= r <= |now| ==>
         now[r - 1] + (if r == row then pending else 0.0) + Dot(rest, r, x, scale)
         == before[r - 1] + Dot(all, r, x, scale)
  }

  lemma {:induction false} DotNext(cells: seq<Cell>, k: nat, row: int, x: seq<real>, scale: real)
    requires k < |cells| && ColsWithin(cells, |x|)
    ensures Dot(cells[k..], row, x, scale)
         == (if cells[k].row == row then Term(cells[k], x, scale) else 0.0) + Dot(cells[k + 1..], row, x, scale)
  {
    assert cells[k..][1..] == cells[k + 1..];
  }

  /** Visiting cell `k` by adding its term to its entry of the vector. */
  lemma {:induction false} AccStore(before: seq<real>, now: seq<real>, row: int, pending: real, all: seq<Cell>,
                                    cells: seq<Cell>, k: nat, x: seq<real>, scale: real, i: nat, xv: real, v: real)
    requires k < |cells| && Acc(before, now, row, pending, cells[k..], all, x, scale)
    requires ColsWithin(cells, |x|)
    requires i < |now| && cells[k].row == i + 1 && cells[k].val == v && x[cells[k].col - 1] == xv
    ensures Acc(before, now[i := now[i] + Prod(Prod(xv, v), scale)], row, pending, cells[k + 1..], all, x, scale)
  {
    forall r | 1 <= r <= |now| ensures Dot(cells[k..], r, x, scale)
         == (if r == i + 1 then Prod(Prod(xv, v), scale) else 0.0) + Dot(cells[k + 1..], r, x, scale)
    {
      DotNext(cells, k, r, x, scale);
    }
  }

  /** Visiting cell `k` by adding its product to the pending sum of its row. */
  lemma {:induction false} AccPend(before: seq<real>, now: seq<real>, i: nat, sum: real, all: seq<Cell>,
                                   cells: seq<Cell>, k: nat, x: seq<real>, scale: real, xv: real, v: real)
    requires k < |cells| && Acc(before, now, i + 1, Prod(sum, scale), cells[k..], all, x, scale)
    requires ColsWithin(cells, |x|)
    requires i < |now| && cells[k].row == i + 1 && cells[k].val == v && x[cells[k].col - 1] == xv
    ensures Acc(before, now, i + 1, Prod(sum + Prod(xv, v), scale), cells[k + 1..], all, x, scale)
  {
    assert Prod(sum + Prod(xv, v), scale) == Prod(sum, scale) + Prod(Prod(xv, v), scale);
    forall r | 1 <= r <= |now| ensures Dot(cells[k..], r, x, scale)
         == (if r == i + 1 then Prod(Prod(xv, v), scale) else 0.0) + Dot(cells[k + 1..], r, x, scale)
    {
      DotNext(cells, k, r, x, scale);
    }
  }

  /** Storing the pending sum frees it for another row. */
  lemma {:induction false} AccFlush(before: seq<real>, now: seq<real>, i: nat, pending: real, next: int,
                                    rest: seq<Cell>, all: seq<Cell>, x: seq<real>, scale: real)
    requires Acc(before, now, i + 1, pending, rest, all, x, scale)
    requires i < |now|
    ensures Acc(before, now[i := now[i] + pending], next, 0.0, rest, all, x, scale)
  {
  }

  /** With nothing pending the current row does not matter. */
  lemma {:induction false} AccMove(before: seq<real>, now: seq<real>, row: int, next: int,
                                   rest: seq<Cell>, all: seq<Cell>, x: seq<real>, scale: real)
    requires Acc(before, now, row, 0.0, rest, all, x, scale)
    ensures Acc(before, now, next, Prod(0.0, scale), rest, all, x, scale)
  {
  }

  /** A finished unit may be spliced into the accounting of the whole list. */
  lemma {:induction false} AccUnit(before: seq<real>, mid: seq<real>, now: seq<real>, row: int, pending: real,
                                   ret: real, unit: seq<Cell>, rest: seq<Cell>, all: seq<Cell>, x: seq<real>,
                                   scale: real)
    requires Acc(before, mid, row, pending, unit + rest, all, x, scale)
    requires Acc(mid, now, row, ret, [], unit, x, scale)
    requires ColsWithin(rest, |x|)
    ensures Acc(before, now, row, pending + ret, rest, all, x, scale)
  {
    forall r | 1 <= r <= |now|
      ensures Dot(unit + rest, r, x, scale) == Dot(unit, r, x, scale) + Dot(rest, r, x, scale)
    {
      DotConcat(unit, rest, r, x, scale);
    }
  }

  lemma {:induction false} MulLess(a: nat, b: nat, d: nat)
    requires d >= 1
    ensures a * d < b * d <==> a < b
    ensures (a + 1) * d == a * d + d
  {
    if a < b {
      assert b * d == a * d + (b - a) * d;
    } else {
      assert a * d == b * d + (a - b) * d;
    }
  }

  /** Row-major index of entry (i, j) of a table with `b` columns. */
  lemma {:induction false} TableIndex(i: nat, j: nat, b: nat)
    requires j < b <= 8
    ensures (i * b + j) / b == i && (i * b + j) % b == j
  {
    if b == 1 {} else if b == 2 {} else if b == 3 {} else if b == 4 {}
    else if b == 5 {} else if b == 6 {} else if b == 7 {} else { assert b == 8; }
  }

  // ----- Kernels of the linear types -----

  /** What every kernel is given: a unit whose cells lie inside both vectors. */
  predicate Inside(cells: seq<Cell>, ylen: nat, xlen: nat) {
    RowsWithin(cells, 1, ylen) && ColsWithin(cells, xlen)
  }

  /** The cells stand in the rows a thread owns. */
  ghost predicate OwnRows(cells: seq<Cell>, log: Log) { RowsWithin(cells, log.lo + 1, log.hi) }

  lemma {:induction false} OwnRow(cells: seq<Cell>, log: Log, k: nat)
    requires OwnRows(cells, log) && k < |cells|
    ensures log.lo + 1 <= cells[k].row <= log.hi
  {
  }

  lemma {:induction false} OwnConcat(a: seq<Cell>, b: seq<Cell>, log: Log)
    requires OwnRows(a + b, log)
    ensures OwnRows(a, log) && OwnRows(b, log)
  {
    assert forall k :: 0 <= k < |a| ==> (a + b)[k] == a[k];
    assert forall k :: 0 <= k < |b| ==> (a + b)[|a| + k] == b[k];
  }

  /** y[i] += e.  All stores of the routine go through here: the precondition says that they
      stay in the rows of the thread. */
  method Increase(y: array<real>, i: nat, e: real, ghost log: Log)
    requires i < y.Length && log.lo <= i < log.hi && log.Shows(y[..])
    modifies y, log
    ensures log.Shows(y[..]) && y[..] == old(y[..])[i := old(y[i]) + e]
  {
    ghost var was := y[..];
    log.Record(i, e, was);
    y[i] := y[i] + e;
    assert y[..] == was[i := was[i] + e];
  }

  /** Before the first cell. */
  lemma {:induction false} AccStart(now: seq<real>, row: int, cells: seq<Cell>, x: seq<real>, scale: real)
    requires Inside(cells, |now|, |x|)
    ensures ColsWithin(cells, |x|)
    ensures Acc(now, now, row, 0.0, cells[0..], cells, x, scale)
    ensures Acc(now, now, row, Prod(0.0, scale), cells[0..], cells, x, scale)
  {
    assert cells[0..] == cells;
  }

  /** The k-th cell of a unit and its place in both vectors. */
  lemma {:induction false} Visit(inst: Instantiation, row: int, col: int, vals: seq<real>, k: nat, ylen: nat, xlen: nat)
    requires inst.ty.Valid() && k < |vals|
    requires Inside(RunCells(inst, row, col, vals), ylen, xlen)
    ensures var c := Cell(row + Offset(inst, k).row, col + Offset(inst, k).col, vals[k]);
            RunCells(inst, row, col, vals)[k] == c && 1 <= c.row <= ylen && 1 <= c.col <= xlen
  {
  }

  method HorizCase(size: nat, delta: nat, vals: seq<real>, v: nat, x: seq<real>, xc: int,
                   ghost y: seq<real>, ghost yc: nat, scale: real)
    returns (ret: real, v': nat, xc': int)
    requires size >= 1 && delta >= 1 && v + size <= |vals|
    requires Inside(RunCells(Inst(Horizontal, delta), yc + 1, xc + 1, vals[v..v + size]), |y|, |x|)
    ensures v' == v + size && xc' == xc + (size - 1) * delta
    ensures Acc(y, y, yc + 1, ret, [], RunCells(Inst(Horizontal, delta), yc + 1, xc + 1, vals[v..v + size]), x, scale)
  {
    hide Prod, RunCells, Acc, Dot, Inside, ColsWithin, RowsWithin;
    ghost var unit := vals[v..v + size];
    ghost var inst := Inst(Horizontal, delta);
    ghost var cells := RunCells(inst, yc + 1, xc + 1, unit);
    AccStart(y, yc + 1, cells, x, scale);
    var yr := 0.0;
    var iEnd := delta * size;
    var i := 0;
    v' := v;
    ghost var k := 0;
    while i < iEnd
      invariant k <= size && i == k * delta && v' == v + k
      invariant Acc(y, y, yc + 1, Prod(yr, scale), cells[k..], cells, x, scale)
    {
      MulLess(k, size, delta);
      Visit(inst, yc + 1, xc + 1, unit, k, |y|, |x|);
      AccPend(y, y, yc, yr, cells, cells, k, x, scale, x[xc + i], vals[v']);
      yr := yr + Prod(x[xc + i], vals[v']);
      v', i, k := v' + 1, i + delta, k + 1;
    }
    MulLess(k, size, delta);
    MulLess(size - 1, size, delta);
    xc' := xc + (iEnd - delta);
    assert cells[size..] == [];
    ret := Prod(yr, scale);
  }

  method VertCase(size: nat, delta: nat, vals: seq<real>, v: nat, x: seq<real>, xc: nat,
                  y: array<real>, yc: nat, scale: real, ghost log: Log)
    returns (ret: real, v': nat)
    requires delta >= 1 && v + size <= |vals| && xc < |x|
    requires Inside(RunCells(Inst(Vertical, delta), yc + 1, xc + 1, vals[v..v + size]), y.Length, |x|)
    requires log.Shows(y[..]) && OwnRows(RunCells(Inst(Vertical, delta), yc + 1, xc + 1, vals[v..v + size]), log)
    modifies y, log
    ensures v' == v + size
    ensures Acc(old(y[..]), y[..], yc + 1, ret, [], RunCells(Inst(Vertical, delta), yc + 1, xc + 1, vals[v..v + size]),
                x, scale)
    ensures log.Shows(y[..])
  {
    hide Prod, RunCells, Acc, Dot, Inside, OwnRows, ColsWithin, RowsWithin;
    ghost var unit := vals[v..v + size];
    ghost var inst := Inst(Vertical, delta);
    ghost var cells := RunCells(inst, yc + 1, xc + 1, unit);
    AccStart(y[..], yc + 1, cells, x, scale);
    var xr := x[xc];
    var yiEnd := delta * size;
    var yi := 0;
    v' := v;
    ghost var k := 0;
    while yi < yiEnd
      invariant k <= size && yi == k * delta && v' == v + k
      invariant log.Shows(y[..])
      invariant Acc(old(y[..]), y[..], yc + 1, 0.0, cells[k..], cells, x, scale)
    {
      MulLess(k, size, delta);
      Visit(inst, yc + 1, xc + 1, unit, k, y.Length, |x|);
      OwnRow(cells, log, k);
      AccStore(old(y[..]), y[..], yc + 1, 0.0, cells, cells, k, x, scale, yc + yi, xr, vals[v']);
      Increase(y, yc + yi, Prod(Prod(xr, vals[v']), scale), log);
      v', yi, k := v' + 1, yi + delta, k + 1;
    }
    MulLess(k, size, delta);
    assert cells[size..] == [];
    ret := 0.0;
  }

  method DiagCase(size: nat, delta: nat, vals: seq<real>, v: nat, x: seq<real>, xc: nat,
                  y: array<real>, yc: nat, scale: real, ghost log: Log)
    returns (ret: real, v': nat)
    requires delta >= 1 && v + size <= |vals|
    requires Inside(RunCells(Inst(Diagonal, delta), yc + 1, xc + 1, vals[v..v + size]), y.Length, |x|)
    requires log.Shows(y[..]) && OwnRows(RunCells(Inst(Diagonal, delta), yc + 1, xc + 1, vals[v..v + size]), log)
    modifies y, log
    ensures v' == v + size
    ensures Acc(old(y[..]), y[..], yc + 1, ret, [], RunCells(Inst(Diagonal, delta), yc + 1, xc + 1, vals[v..v + size]),
                x, scale)
    ensures log.Shows(y[..])
  {
    hide Prod, RunCells, Acc, Dot, Inside, OwnRows, ColsWithin, RowsWithin;
    ghost var unit := vals[v..v + size];
    ghost var inst := Inst(Diagonal, delta);
    ghost var cells := RunCells(inst, yc + 1, xc + 1, unit);
    AccStart(y[..], yc + 1, cells, x, scale);
    var iEnd := delta * size;
    var i := 0;
    v' := v;
    ghost var k := 0;
    while i < iEnd
      invariant k <= size && i == k * delta && v' == v + k
      invariant log.Shows(y[..])
      invariant Acc(old(y[..]), y[..], yc + 1, 0.0, cells[k..], cells, x, scale)
    {
      MulLess(k, size, delta);
      Visit(inst, yc + 1, xc + 1, unit, k, y.Length, |x|);
      OwnRow(cells, log, k);
      AccStore(old(y[..]), y[..], yc + 1, 0.0, cells, cells, k, x, scale, yc + i, x[xc + i], vals[v']);
      Increase(y, yc + i, Prod(Prod(x[xc + i], vals[v']), scale), log);
      v', i, k := v' + 1, i + delta, k + 1;
    }
    MulLess(k, size, delta);
    assert cells[size..] == [];
    ret := 0.0;
  }

  method RDiagCase(size: nat, delta: nat, vals: seq<real>, v: nat, x: seq<real>, xc: nat,
                   y: array<real>, yc: nat, scale: real, ghost log: Log)
    returns (ret: real, v': nat)
    requires delta >= 1 && v + size <= |vals|
    requires Inside(RunCells(Inst(AntiDiagonal, delta), yc + 1, xc + 1, vals[v..v + size]), y.Length, |x|)
    requires log.Shows(y[..]) && OwnRows(RunCells(Inst(AntiDiagonal, delta), yc + 1, xc + 1, vals[v..v + size]), log)
    modifies y, log
    ensures v' == v + size
    ensures Acc(old(y[..]), y[..], yc + 1, ret, [],
                RunCells(Inst(AntiDiagonal, delta), yc + 1, xc + 1, vals[v..v + size]), x, scale)
    ensures log.Shows(y[..])
  {
    hide Prod, RunCells, Acc, Dot, Inside, OwnRows, ColsWithin, RowsWithin;
    ghost var unit := vals[v..v + size];
    ghost var inst := Inst(AntiDiagonal, delta);
    ghost var cells := RunCells(inst, yc + 1, xc + 1, unit);
    AccStart(y[..], yc + 1, cells, x, scale);
    var xCurr: int := xc;
    var iEnd := delta * size;
    var i := 0;
    v' := v;
    ghost var k := 0;
    while i < iEnd
      invariant k <= size && i == k * delta && v' == v + k && xCurr == xc - i
      invariant log.Shows(y[..])
      invariant Acc(old(y[..]), y[..], yc + 1, 0.0, cells[k..], cells, x, scale)
    {
      MulLess(k, size, delta);
      Visit(inst, yc + 1, xc + 1, unit, k, y.Length, |x|);
      OwnRow(cells, log, k);
      AccStore(old(y[..]), y[..], yc + 1, 0.0, cells, cells, k, x, scale, yc + i, x[xCurr], vals[v']);
      Increase(y, yc + i, Prod(Prod(x[xCurr], vals[v']), scale), log);
      xCurr := xCurr - delta;
      v', i, k := v' + 1, i + delta, k + 1;
    }
    MulLess(k, size, delta);
    assert cells[size..] == [];
    ret := 0.0;
  }

  // ----- Block kernels -----

  method BlockRowOneCase(c: nat, vals: seq<real>, v: nat, x: seq<real>, xc: nat,
                         ghost y: seq<real>, ghost yc: nat, scale: real)
    returns (ret: real, v': nat)
    requires v + c <= |vals|
    requires Inside(RunCells(Inst(BlockRow(1), c), yc + 1, xc + 1, vals[v..v + c]), |y|, |x|)
    ensures v' == v + c
    ensures Acc(y, y, yc + 1, ret, [], RunCells(Inst(BlockRow(1), c), yc + 1, xc + 1, vals[v..v + c]), x, scale)
  {
    hide Prod, RunCells, Acc, Dot, Inside, ColsWithin, RowsWithin;
    ghost var unit := vals[v..v + c];
    ghost var inst := Inst(BlockRow(1), c);
    ghost var cells := RunCells(inst, yc + 1, xc + 1, unit);
    AccStart(y, yc + 1, cells, x, scale);
    var yr := 0.0;
    v' := v;
    var i := 0;
    while i < c
      invariant i <= c && v' == v + i
      invariant Acc(y, y, yc + 1, Prod(yr, scale), cells[i..], cells, x, scale)
    {
      Visit(inst, yc + 1, xc + 1, unit, i, |y|, |x|);
      AccPend(y, y, yc, yr, cells, cells, i, x, scale, x[xc + i], vals[v']);
      yr := yr + Prod(x[xc + i], vals[v']);
      v', i := v' + 1, i + 1;
    }
    assert cells[c..] == [];
    ret := Prod(yr, scale);
  }

  method BlockColOneCase(r: nat, vals: seq<real>, v: nat, x: seq<real>, xc: nat,
                         y: array<real>, yc: nat, scale: real, ghost log: Log)
    returns (ret: real, v': nat)
    requires v + r <= |vals| && xc < |x|
    requires Inside(RunCells(Inst(BlockCol(1), r), yc + 1, xc + 1, vals[v..v + r]), y.Length, |x|)
    requires log.Shows(y[..]) && OwnRows(RunCells(Inst(BlockCol(1), r), yc + 1, xc + 1, vals[v..v + r]), log)
    modifies y, log
    ensures v' == v + r
    ensures Acc(old(y[..]), y[..], yc + 1, ret, [], RunCells(Inst(BlockCol(1), r), yc + 1, xc + 1, vals[v..v + r]), x,
                scale)
    ensures log.Shows(y[..])
  {
    hide Prod, RunCells, Acc, Dot, Inside, OwnRows, ColsWithin, RowsWithin;
    ghost var unit := vals[v..v + r];
    ghost var inst := Inst(BlockCol(1), r);
    ghost var cells := RunCells(inst, yc + 1, xc + 1, unit);
    AccStart(y[..], yc + 1, cells, x, scale);
    var xr := x[xc];
    v' := v;
    var yi := 0;
    while yi < r
      invariant yi <= r && v' == v + yi
      invariant log.Shows(y[..])
      invariant Acc(old(y[..]), y[..], yc + 1, 0.0, cells[yi..], cells, x, scale)
    {
      Visit(inst, yc + 1, xc + 1, unit, yi, y.Length, |x|);
      OwnRow(cells, log, yi);
      AccStore(old(y[..]), y[..], yc + 1, 0.0, cells, cells, yi, x, scale, yc + yi, xr, vals[v']);
      Increase(y, yc + yi, Prod(Prod(xr, vals[v']), scale), log);
      v', yi := v' + 1, yi + 1;
    }
    assert cells[r..] == [];
    ret := 0.0;
  }

  /** Entry (row j, column i) of a column-major block. */
  lemma {:induction false} VisitBlockRow(r: nat, c: nat, row: int, col: int, vals: seq<real>, i: nat, j: nat, ylen: nat,
                                         xlen: nat)
    requires 1 <= r <= 8 && |vals| == r * c && i < c && j < r
    requires Inside(RunCells(Inst(BlockRow(r), c), row, col, vals), ylen, xlen)
    ensures i * r + j < r * c && i * r + r == (i + 1) * r <= r * c
    ensures RunCells(Inst(BlockRow(r), c), row, col, vals)[i * r + j] == Cell(row + j, col + i, vals[i * r + j])
    ensures 1 <= row + j <= ylen && 1 <= col + i <= xlen
  {
    MulLess(i, c, r);
    MulLess(i + 1, c, r);
    TableIndex(i, j, r);
    Visit(Inst(BlockRow(r), c), row, col, vals, i * r + j, ylen, xlen);
  }

  /** Entry (row i, column j) of a row-major block. */
  lemma {:induction false} VisitBlockCol(r: nat, c: nat, row: int, col: int, vals: seq<real>, i: nat, j: nat, ylen: nat,
                                         xlen: nat)
    requires 1 <= c <= 8 && |vals| == c * r && i < r && j < c
    requires Inside(RunCells(Inst(BlockCol(c), r), row, col, vals), ylen, xlen)
    ensures i * c + j < c * r && i * c + c == (i + 1) * c <= c * r
    ensures RunCells(Inst(BlockCol(c), r), row, col, vals)[i * c + j] == Cell(row + i, col + j, vals[i * c + j])
    ensures 1 <= row + i <= ylen && 1 <= col + j <= xlen
  {
    MulLess(i, r, c);
    MulLess(i + 1, r, c);
    TableIndex(i, j, c);
    Visit(Inst(BlockCol(c), r), row, col, vals, i * c + j, ylen, xlen);
  }

  /** The same for a column that starts with value k0. */
  lemma {:induction false} VisitColumn(r: nat, c: nat, n: nat, row: int, col: int, vals: seq<real>, i: nat, k0: nat,
                                       j: nat, ylen: nat, xlen: nat)
    requires 1 <= r <= 8 && |vals| == n == r * c && k0 == i * r && i < c && j < r
    requires Inside(RunCells(Inst(BlockRow(r), c), row, col, vals), ylen, xlen)
    ensures k0 + j < n && k0 + r == (i + 1) * r <= n
    ensures RunCells(Inst(BlockRow(r), c), row, col, vals)[k0 + j] == Cell(row + j, col + i, vals[k0 + j])
    ensures 1 <= row + j <= ylen && 1 <= col + i <= xlen
  {
    VisitBlockRow(r, c, row, col, vals, i, j, ylen, xlen);
  }

  /** The same for a row that starts with value k0. */
  lemma {:induction false} VisitLine(r: nat, c: nat, n: nat, row: int, col: int, vals: seq<real>, i: nat, k0: nat,
                                     j: nat, ylen: nat, xlen: nat)
    requires 1 <= c <= 8 && |vals| == n == c * r && k0 == i * c && i < r && j < c
    requires Inside(RunCells(Inst(BlockCol(c), r), row, col, vals), ylen, xlen)
    ensures k0 + j < n && k0 + c == (i + 1) * c <= n
    ensures RunCells(Inst(BlockCol(c), r), row, col, vals)[k0 + j] == Cell(row + i, col + j, vals[k0 + j])
    ensures 1 <= row + i <= ylen && 1 <= col + j <= xlen
  {
    VisitBlockCol(r, c, row, col, vals, i, j, ylen, xlen);
  }

  /** Column-major r x c block. */
  method BlockRowCase(r: nat, c: nat, vals: seq<real>, v: nat, x: seq<real>, xc: nat,
                      y: array<real>, yc: nat, scale: real, ghost log: Log)
    returns (ret: real, v': nat)
    requires 1 <= r <= 8 && v + r * c <= |vals|
    requires Inside(RunCells(Inst(BlockRow(r), c), yc + 1, xc + 1, vals[v..v + r * c]), y.Length, |x|)
    requires log.Shows(y[..]) && OwnRows(RunCells(Inst(BlockRow(r), c), yc + 1, xc + 1, vals[v..v + r * c]), log)
    modifies y, log
    ensures v' == v + r * c
    ensures Acc(old(y[..]), y[..], yc + 1, ret, [], RunCells(Inst(BlockRow(r), c), yc + 1, xc + 1, vals[v..v + r * c]),
                x, scale)
    ensures log.Shows(y[..])
  {
    hide Prod, RunCells, Acc, Dot, Inside, OwnRows, ColsWithin, RowsWithin, Offset;
    ghost var n := r * c;
    ghost var unit := vals[v..v + n];
    ghost var cells := RunCells(Inst(BlockRow(r), c), yc + 1, xc + 1, unit);
    AccStart(y[..], yc + 1, cells, x, scale);
    v' := v;
    ghost var k := 0;
    var i := 0;
    while i < c
      invariant i <= c && k == i * r && k <= n && v' == v + k
      invariant log.Shows(y[..])
      invariant Acc(old(y[..]), y[..], yc + 1, 0.0, cells[k..], cells, x, scale)
    {
      VisitColumn(r, c, n, yc + 1, xc + 1, unit, i, k, 0, y.Length, |x|);
      var xr := x[xc + i];
      ghost var first := k;
      var j := 0;
      while j < r
        invariant j <= r && k == first + j && first + r <= n && v' == v + k
        invariant log.Shows(y[..])
        invariant Acc(old(y[..]), y[..], yc + 1, 0.0, cells[k..], cells, x, scale)
      {
        VisitColumn(r, c, n, yc + 1, xc + 1, unit, i, first, j, y.Length, |x|);
        OwnRow(cells, log, k);
        assert unit[k] == vals[v'];
        AccStore(old(y[..]), y[..], yc + 1, 0.0, cells, cells, k, x, scale, yc + j, xr, vals[v']);
        Increase(y, yc + j, Prod(Prod(xr, vals[v']), scale), log);
        v', j, k := v' + 1, j + 1, k + 1;
      }
      i := i + 1;
    }
    MulLess(i, c, r);
    assert cells[n..] == [];
    ret := 0.0;
  }

  /** Row-major r x c block. */
  method BlockColCase(r: nat, c: nat, vals: seq<real>, v: nat, x: seq<real>, xc: nat,
                      y: array<real>, yc: nat, scale: real, ghost log: Log)
    returns (ret: real, v': nat)
    requires 1 <= c <= 8 && v + c * r <= |vals|
    requires Inside(RunCells(Inst(BlockCol(c), r), yc + 1, xc + 1, vals[v..v + c * r]), y.Length, |x|)
    requires log.Shows(y[..]) && OwnRows(RunCells(Inst(BlockCol(c), r), yc + 1, xc + 1, vals[v..v + c * r]), log)
    modifies y, log
    ensures v' == v + c * r
    ensures Acc(old(y[..]), y[..], yc + 1, ret, [], RunCells(Inst(BlockCol(c), r), yc + 1, xc + 1, vals[v..v + c * r]),
                x, scale)
    ensures log.Shows(y[..])
  {
    hide Prod, RunCells, Acc, Dot, Inside, OwnRows, ColsWithin, RowsWithin, Offset;
    ghost var n := c * r;
    ghost var unit := vals[v..v + n];
    ghost var cells := RunCells(Inst(BlockCol(c), r), yc + 1, xc + 1, unit);
    AccStart(y[..], yc + 1, cells, x, scale);
    v' := v;
    ghost var k := 0;
    var i := 0;
    while i < r
      invariant i <= r && k == i * c && k <= n && v' == v + k
      invariant log.Shows(y[..])
      invariant Acc(old(y[..]), y[..], yc + 1, 0.0, cells[k..], cells, x, scale)
    {
      VisitLine(r, c, n, yc + 1, xc + 1, unit, i, k, 0, y.Length, |x|);
      OwnRow(cells, log, k);
      var yr := 0.0;
      AccMove(old(y[..]), y[..], yc + 1, yc + i + 1, cells[k..], cells, x, scale);
      ghost var first := k;
      var j := 0;
      while j < c
        invariant j <= c && k == first + j && first + c <= n && v' == v + k
        invariant log.Shows(y[..])
        invariant Acc(old(y[..]), y[..], yc + i + 1, Prod(yr, scale), cells[k..], cells, x, scale)
      {
        VisitLine(r, c, n, yc + 1, xc + 1, unit, i, first, j, y.Length, |x|);
        assert unit[k] == vals[v'];
        AccPend(old(y[..]), y[..], yc + i, yr, cells, cells, k, x, scale, x[xc + j], vals[v']);
        yr := yr + Prod(x[xc + j], vals[v']);
        v', j, k := v' + 1, j + 1, k + 1;
      }
      AccFlush(old(y[..]), y[..], yc + i, Prod(yr, scale), yc + 1, cells[k..], cells, x, scale);
      Increase(y, yc + i, Prod(yr, scale), log);
      i := i + 1;
    }
    MulLess(i, r, c);
    assert cells[n..] == [];
    ret := 0.0;
  }

  // ----- Delta units -----

  /** The k-th value of a delta unit. */
  lemma {:induction false} VisitDelta(ds: seq<nat>, p: Pos, vals: seq<real>, k: nat, ylen: nat, xlen: nat)
    requires |vals| == |ds| + 1 && k < |vals|
    requires Inside(DeltaCells(ds, p, vals), ylen, xlen)
    ensures DeltaCells(ds, p, vals)[k] == Cell(p.row, DeltaCol(ds, p.col, k) + 1, vals[k])
    ensures 1 <= p.row <= ylen && 0 <= DeltaCol(ds, p.col, k) < xlen
  {
  }

  /** The next step of a delta unit. */
  lemma {:induction false} NextDelta(ctl: seq<byte>, pos: nat, ds: seq<nat>, width: nat)
    requires ds != [] && At(ctl, pos, DeltaBytes(ds, width)) && Fits(ds[0], width)
    ensures FixedGet(ctl, pos, width) == ds[0] && At(ctl, pos + width, DeltaBytes(ds[1..], width))
    ensures pos + width <= |ctl| && |DeltaBytes(ds, width)| == width + |DeltaBytes(ds[1..], width)|
  {
    AtSplit(ctl, pos, FixedInt(ds[0], width), DeltaBytes(ds[1..], width));
    FixedGetBack(ctl, pos, ds[0], width);
  }

  /** Reading step i of a delta unit. */
  lemma {:induction false} DeltaStep(ctl: seq<byte>, pos: nat, ds: seq<nat>, i: nat, width: nat, col: int)
    requires 1 <= i <= |ds| && At(ctl, pos, DeltaBytes(ds[i - 1..], width)) && Fits(ds[i - 1], width)
    ensures FixedGet(ctl, pos, width) == ds[i - 1] && At(ctl, pos + width, DeltaBytes(ds[i..], width))
    ensures pos + width <= |ctl| && |DeltaBytes(ds[i - 1..], width)| == width + |DeltaBytes(ds[i..], width)|
    ensures DeltaCol(ds, col, i) == DeltaCol(ds, col, i - 1) + ds[i - 1]
  {
    assert ds[i - 1..][1..] == ds[i..];
    NextDelta(ctl, pos, ds[i - 1..], width);
    SumNext(ds, i - 1);
  }

  /** Where a delta unit begins and ends. */
  lemma {:induction false} DeltaEnds(ds: seq<nat>, col: int, width: nat)
    ensures DeltaCol(ds, col, 0) == col && DeltaCol(ds, col, |ds|) == col + Sum(ds)
    ensures ds[0..] == ds && DeltaBytes(ds[|ds|..], width) == []
  {
    assert ds[..0] == [] && ds[..|ds|] == ds;
  }

  method DeltaCase(width: nat, ctl: seq<byte>, pos: nat, size: nat, vals: seq<real>, v: nat,
                   x: seq<real>, xc: nat, ghost y: seq<real>, ghost yc: nat, scale: real, ghost ds: seq<nat>)
    returns (ret: real, v': nat, pos': nat, xc': nat)
    requires size >= 1 && v + size <= |vals| && |ds| == size - 1
    requires At(ctl, pos, DeltaBytes(ds, width))
    requires forall i :: 0 <= i < |ds| ==> Fits(ds[i], width)
    requires Inside(DeltaCells(ds, Pos(yc + 1, xc), vals[v..v + size]), |y|, |x|)
    ensures v' == v + size && pos' == pos + |DeltaBytes(ds, width)| && xc' == xc + Sum(ds)
    ensures Acc(y, y, yc + 1, ret, [], DeltaCells(ds, Pos(yc + 1, xc), vals[v..v + size]), x, scale)
  {
    hide Prod, DeltaCells, Acc, Dot, Inside, ColsWithin, RowsWithin, At, DeltaBytes, FixedInt, Fits, FixedGet,
         DeltaCol, Sum;
    ghost var unit := vals[v..v + size];
    ghost var p := Pos(yc + 1, xc);
    ghost var cells := DeltaCells(ds, p, unit);
    AccStart(y, yc + 1, cells, x, scale);
    VisitDelta(ds, p, unit, 0, |y|, |x|);
    DeltaEnds(ds, xc, width);
    xc', pos', v' := xc, pos, v;
    AccPend(y, y, yc, 0.0, cells, cells, 0, x, scale, x[xc'], vals[v']);
    var yr := 0.0 + Prod(x[xc'], vals[v']);
    v' := v' + 1;
    var i := 1;
    while i < size
      invariant 1 <= i <= size && v' == v + i
      invariant xc' == DeltaCol(ds, xc, i - 1)
      invariant At(ctl, pos', DeltaBytes(ds[i - 1..], width))
      invariant pos' + |DeltaBytes(ds[i - 1..], width)| == pos + |DeltaBytes(ds, width)|
      invariant Acc(y, y, yc + 1, Prod(yr, scale), cells[i..], cells, x, scale)
    {
      DeltaStep(ctl, pos', ds, i, width, xc);
      xc' := xc' + FixedGet(ctl, pos', width);
      pos' := pos' + width;
      VisitDelta(ds, p, unit, i, |y|, |x|);
      AccPend(y, y, yc, yr, cells, cells, i, x, scale, x[xc'], vals[v']);
      yr := yr + Prod(x[xc'], vals[v']);
      v', i := v' + 1, i + 1;
    }
    assert cells[size..] == [];
    ret := Prod(yr, scale);
  }

  // ----- The decoding loop -----

  /** Every entry of `now` is that of `before` plus its row of the product. */
  ghost predicate AddsProduct(before: seq<real>, now: seq<real>, cells: seq<Cell>, x: seq<real>, scale: real) {
    && |now| == |before|
    && ColsWithin(cells, |x|)
    && forall r {:trigger now[r - 1]} {:trigger Dot(cells, r, x, scale)} :: 1 <= r <= |now| ==>
         now[r - 1] == before[r - 1] + Dot(cells, r, x, scale)
  }

  /** Code inserted where a unit starts a new row: read the jump, if this matrix has any. */
  method NewRowHook(m: Csx, flags: byte, pos: nat, yc: nat, ghost u: Unit) returns (yc': nat, pos': nat)
    requires TestBit(flags, CTL_RJMP_BIT) <==> u.rowjmp != 0
    requires !m.rowJumps ==> u.rowjmp == 0
    requires u.rowjmp != 0 ==> At(m.ctl, pos, VarInt(u.rowjmp))
    ensures yc' == yc + (if u.rowjmp != 0 then u.rowjmp else 1)
    ensures pos' == pos + (if u.rowjmp != 0 then |VarInt(u.rowjmp)| else 0)
  {
    pos' := pos;
    if m.rowJumps {
      if TestBit(flags, CTL_RJMP_BIT) {
        var jmp;
        jmp, pos' := UlGet(m.ctl, pos, u.rowjmp);
        yc' := yc + jmp;
      } else {
        yc' := yc + 1;
      }
    } else {
      yc' := yc + 1;
    }
  }

  /** Code inserted to move to the column of a unit. */
  method NextX(m: Csx, pos: nat, xc: nat, ghost u: Unit) returns (xc': nat, pos': nat)
    requires At(m.ctl, pos, if m.full then FixedInt(u.ucol, 4) else VarInt(u.ucol))
    requires m.full ==> Fits(u.ucol, 4)
    ensures xc' == (if m.full then u.ucol else xc + u.ucol)
    ensures pos' == pos + |if m.full then FixedInt(u.ucol, 4) else VarInt(u.ucol)|
  {
    if m.full {
      FixedGetBack(m.ctl, pos, u.ucol, 4);
      xc' := FixedGet(m.ctl, pos, 4);
      pos' := pos + 4;
    } else {
      var d;
      d, pos' := UlGet(m.ctl, pos, u.ucol);
      xc' := xc + d;
    }
  }

  /** Kernels of the linear types. */
  method LinearCase(inst: Instantiation, vals: seq<real>, size: nat, v: nat, x: seq<real>, xc: nat,
                     y: array<real>, yc: nat, scale: real, ghost log: Log)
    returns (ret: real, v': nat, xc': nat)
    requires inst.ty.IsOrder() && inst.dim >= 1 && size >= 1
    requires !inst.ty.IsBlock()
    requires v + size <= |vals| && xc < |x|
    requires Inside(RunCells(inst, yc + 1, xc + 1, vals[v..v + size]), y.Length, |x|)
    requires log.Shows(y[..]) && OwnRows(RunCells(inst, yc + 1, xc + 1, vals[v..v + size]), log)
    modifies y, log
    ensures v' == v + size
    ensures xc' == if inst.ty.Horizontal? then xc + (size - 1) * inst.dim else xc
    ensures Acc(old(y[..]), y[..], yc + 1, ret, [], RunCells(inst, yc + 1, xc + 1, vals[v..v + size]), x, scale)
    ensures log.Shows(y[..])
  {
    hide Acc, Inside, OwnRows, RunCells, Offset;
    var dim := inst.dim;
    xc' := xc;
    match inst.ty
    case Horizontal =>
      ret, v', xc' := HorizCase(size, dim, vals, v, x, xc, y[..], yc, scale);
    case Vertical =>
      ret, v' := VertCase(size, dim, vals, v, x, xc, y, yc, scale, log);
    case Diagonal =>
      ret, v' := DiagCase(size, dim, vals, v, x, xc, y, yc, scale, log);
    case AntiDiagonal =>
      ret, v' := RDiagCase(size, dim, vals, v, x, xc, y, yc, scale, log);
  }

  /** Kernels of the block types. */
  method BlockCase(inst: Instantiation, vals: seq<real>, size: nat, v: nat, x: seq<real>, xc: nat,
                     y: array<real>, yc: nat, scale: real, ghost log: Log)
    returns (ret: real, v': nat, xc': nat)
    requires inst.ty.IsOrder() && inst.dim >= 1 && size >= 1
    requires inst.ty.IsBlock() && size == inst.ty.Alignment() * inst.dim
    requires v + size <= |vals| && xc < |x|
    requires Inside(RunCells(inst, yc + 1, xc + 1, vals[v..v + size]), y.Length, |x|)
    requires log.Shows(y[..]) && OwnRows(RunCells(inst, yc + 1, xc + 1, vals[v..v + size]), log)
    modifies y, log
    ensures v' == v + size
    ensures xc' == if inst.ty.Horizontal? then xc + (size - 1) * inst.dim else xc
    ensures Acc(old(y[..]), y[..], yc + 1, ret, [], RunCells(inst, yc + 1, xc + 1, vals[v..v + size]), x, scale)
    ensures log.Shows(y[..])
  {
    hide Acc, Inside, OwnRows, RunCells, Offset;
    var dim := inst.dim;
    xc' := xc;
    var a := inst.ty.Alignment();
    if inst.ty.BlockRow? {
      assert inst == Inst(BlockRow(a), dim);
      if a == 1 {
        ret, v' := BlockRowOneCase(dim, vals, v, x, xc, y[..], yc, scale);
      } else {
        ret, v' := BlockRowCase(a, dim, vals, v, x, xc, y, yc, scale, log);
      }
    } else {
      assert inst == Inst(BlockCol(a), dim);
      if a == 1 {
        ret, v' := BlockColOneCase(dim, vals, v, x, xc, y, yc, scale, log);
      } else {
        ret, v' := BlockColCase(dim, a, vals, v, x, xc, y, yc, scale, log);
      }
    }
  }

  /** Dispatch on the pattern id of the unit. */
  method BodyHook(m: Csx, pattId: nat, pos: nat, size: nat, v: nat, x: seq<real>, xc: nat,
                  y: array<real>, yc: nat, scale: real, ghost u: Unit, ghost log: Log)
    returns (ret: real, v': nat, pos': nat, xc': nat)
    requires WellFormed(u, m.full) && size == u.size
    requires pattId < |m.idMap| && m.idMap[pattId] == u.pid
    requires At(m.ctl, pos, DeltaBytes(u.deltas, Width(u)))
    requires v + size <= |m.values|
    requires Inside(UnitCells(u, Pos(yc + 1, xc), m.values[v..v + size], m.full), y.Length, |x|)
    requires log.Shows(y[..]) && OwnRows(UnitCells(u, Pos(yc + 1, xc), m.values[v..v + size], m.full), log)
    modifies y, log
    ensures v' == v + size
    ensures pos' == pos + |DeltaBytes(u.deltas, Width(u))|
    ensures Pos(yc + 1, xc') == Leave(u, Pos(yc + 1, xc), m.full)
    ensures Acc(old(y[..]), y[..], yc + 1, ret, [], UnitCells(u, Pos(yc + 1, xc), m.values[v..v + size], m.full), x,
                scale)
    ensures log.Shows(y[..])
  {
    hide Acc, Inside, OwnRows, RunCells, DeltaCells, Offset, Fits, DeltaBytes, At, Dot, Prod;
    var pid: nat := m.idMap[pattId];
    var ty, dim := PidType(pid), PidDim(pid);
    if ty.None? {
      ret, v', pos', xc' := DeltaCase(dim / 8, m.ctl, pos, size, m.values, v, x, xc, y[..], yc, scale, u.deltas);
    } else {
      NoDeltaBytes(Width(u));
      FirstCell(u, yc + 1, xc, m.values[v..v + size], m.full, y.Length, |x|);
      pos' := pos;
      if ty.IsBlock() {
        ret, v', xc' := BlockCase(Inst(ty, dim), m.values, size, v, x, xc, y, yc, scale, log);
      } else {
        ret, v', xc' := LinearCase(Inst(ty, dim), m.values, size, v, x, xc, y, yc, scale, log);
      }
    }
  }

  lemma {:induction false} NoDeltaBytes(width: nat)
    ensures DeltaBytes([], width) == []
  {
  }

  /** A unit starts inside both vectors. */
  lemma {:induction false} FirstCell(u: Unit, row: int, col: int, vals: seq<real>, full: bool, ylen: nat, xlen: nat)
    requires WellFormed(u, full) && |vals| == u.size
    requires Inside(UnitCells(u, Pos(row, col), vals, full), ylen, xlen)
    ensures 1 <= row <= ylen && 0 <= col < xlen
  {
    if IsDelta(u) {
      VisitDelta(u.deltas, Pos(row, col), vals, 0, ylen, xlen);
    } else {
      Visit(UnitInst(u), row, col + 1, vals, 0, ylen, xlen);
    }
  }

  function JumpBytes(u: Unit): seq<byte> { if u.rowjmp != 0 then VarInt(u.rowjmp) else [] }

  function ColBytes(u: Unit, full: bool): seq<byte> { if full then FixedInt(u.ucol, 4) else VarInt(u.ucol) }

  /** Where the parts of a unit stand in `ctl`. */
  lemma {:induction false} UnitAt(ctl: seq<byte>, pos: nat, u: Unit, more: seq<byte>, full: bool)
    requires WellFormed(u, full) && At(ctl, pos, UnitBytes(u, full) + more)
    ensures pos + 2 <= |ctl|
    ensures ctl[pos] == FlagByte(u.flag, u.nr, u.rowjmp != 0) && ctl[pos + 1] == u.size
    ensures At(ctl, pos + 2, JumpBytes(u))
    ensures At(ctl, pos + 2 + |JumpBytes(u)|, ColBytes(u, full))
    ensures At(ctl, pos + 2 + |JumpBytes(u)| + |ColBytes(u, full)|, DeltaBytes(u.deltas, Width(u)))
    ensures At(ctl, pos + |UnitBytes(u, full)|, more)
    ensures |UnitBytes(u, full)| == 2 + |JumpBytes(u)| + |ColBytes(u, full)| + |DeltaBytes(u.deltas, Width(u))|
  {
    hide UnitBytes, JumpBytes, ColBytes, DeltaBytes, FlagByte, At, Fits, UnitInst;
    var head: seq<byte> := [FlagByte(u.flag, u.nr, u.rowjmp != 0), u.size];
    UnitParts(u, full, head);
    PartsAt(ctl, pos, head, JumpBytes(u), ColBytes(u, full), DeltaBytes(u.deltas, Width(u)), more);
    TwoAt(ctl, pos, head);
  }

  lemma {:induction false} UnitParts(u: Unit, full: bool, head: seq<byte>)
    requires WellFormed(u, full) && head == [FlagByte(u.flag, u.nr, u.rowjmp != 0), u.size]
    ensures UnitBytes(u, full) == ((head + JumpBytes(u)) + ColBytes(u, full)) + DeltaBytes(u.deltas, Width(u))
  {
  }

  lemma {:induction false} PartsAt(ctl: seq<byte>, pos: nat, a: seq<byte>, b: seq<byte>, c: seq<byte>, d: seq<byte>,
                                   more: seq<byte>)
    requires At(ctl, pos, (((a + b) + c) + d) + more)
    ensures At(ctl, pos, a) && At(ctl, pos + |a|, b) && At(ctl, pos + |a| + |b|, c) && At(ctl, pos + |a| + |b| + |c|, d)
    ensures At(ctl, pos + |((a + b) + c) + d|, more) && |((a + b) + c) + d| == |a| + |b| + |c| + |d|
  {
    hide At;
    AtSplit(ctl, pos, ((a + b) + c) + d, more);
    AtSplit(ctl, pos, (a + b) + c, d);
    AtSplit(ctl, pos, a + b, c);
    AtSplit(ctl, pos, a, b);
  }

  lemma {:induction false} TwoAt(ctl: seq<byte>, pos: nat, w: seq<byte>)
    requires |w| == 2 && At(ctl, pos, w)
    ensures pos + 2 <= |ctl| && ctl[pos] == w[0] && ctl[pos + 1] == w[1]
  {
    assert ctl[pos..pos + 2][0] == w[0] && ctl[pos..pos + 2][1] == w[1];
  }

  lemma {:induction false} InsideConcat(a: seq<Cell>, b: seq<Cell>, ylen: nat, xlen: nat)
    requires Inside(a + b, ylen, xlen)
    ensures Inside(a, ylen, xlen) && Inside(b, ylen, xlen)
  {
    assert forall i :: 0 <= i < |a| ==> a[i] == (a + b)[i];
    assert forall i :: 0 <= i < |b| ==> b[i] == (a + b)[|a| + i];
  }

  /** The product is complete when nothing is pending and no cell is left. */
  lemma {:induction false} AccDone(before: seq<real>, now: seq<real>, row: int, all: seq<Cell>, x: seq<real>,
                                   scale: real)
    requires Acc(before, now, row, 0.0, [], all, x, scale)
    ensures AddsProduct(before, now, all, x, scale)
  {
  }

  lemma {:induction false} InsideWhole(cells: seq<Cell>, ylen: nat, xlen: nat)
    requires Inside(cells, ylen, xlen)
    ensures ColsWithin(cells, xlen)
  {
  }

  /** Decodes the head of a unit and moves to its row and column, storing the pending sum
      when the row changes. */
  method DecodeHead(m: Csx, y: array<real>, pos: nat, xc: nat, yc: nat, yr: real,
                    ghost u: Unit, ghost more: seq<byte>, ghost log: Log)
    returns (flags: byte, size: nat, pos': nat, xc': nat, yc': nat, yr': real)
    requires WellFormed(u, m.full) && (!m.rowJumps ==> u.rowjmp == 0)
    requires At(m.ctl, pos, UnitBytes(u, m.full) + more)
    requires yc < y.Length && log.lo <= yc < log.hi && log.Shows(y[..])
    modifies y, log
    ensures log.Shows(y[..])
    ensures PatternBits(flags) == u.flag && size == u.size
    ensures At(m.ctl, pos', DeltaBytes(u.deltas, Width(u)))
    ensures pos' + |DeltaBytes(u.deltas, Width(u))| == pos + |UnitBytes(u, m.full)|
    ensures Pos(yc' + 1, xc') == Start(u, Pos(yc + 1, xc), m.full)
    ensures u.nr ==> y[..] == old(y[..])[yc := old(y[yc]) + yr] && yr' == 0.0
    ensures !u.nr ==> y[..] == old(y[..]) && yr' == yr
  {
    hide FlagByte, TestBit, UnitBytes, At, WellFormed, Fits, DeltaBytes, VarInt, FixedInt;
    UnitAt(m.ctl, pos, u, more, m.full);
    HeadFields(u, m.full);
    yc', xc', yr', pos' := yc, xc, yr, pos;
    flags := m.ctl[pos'];
    pos' := pos' + 1;
    size := m.ctl[pos'];
    pos' := pos' + 1;
    if TestBit(flags, CTL_NR_BIT) {
      Increase(y, yc', yr', log);
      yr' := 0.0;
      yc', pos' := NewRowHook(m, flags, pos', yc', u);
      xc' := 0;
    }
    xc', pos' := NextX(m, pos', xc', u);
  }

  /** One round of the loop: head, then the kernel of the unit. */
  method DoUnit(m: Csx, x: seq<real>, y: array<real>, scale: real, pos: nat, v: nat, xc: nat, yc: nat, yr: real,
                ghost us: seq<Unit>, ghost before: seq<real>, ghost all: seq<Cell>, ghost log: Log)
    returns (pos': nat, v': nat, xc': nat, yc': nat, yr': real)
    requires us != [] && AllWellFormed(us, m.full)
    requires us[0].flag < |m.idMap| && m.idMap[us[0].flag] == us[0].pid && (!m.rowJumps ==> us[0].rowjmp == 0)
    requires At(m.ctl, pos, Bytes(us, m.full))
    requires v + NrValues(us) == |m.values| && yc < y.Length
    requires Inside(Run(us, Pos(yc + 1, xc), m.values[v..], m.full), y.Length, |x|)
    requires log.Shows(y[..]) && log.lo <= yc < log.hi && OwnRows(Run(us, Pos(yc + 1, xc), m.values[v..], m.full), log)
    requires Acc(before, y[..], yc + 1, yr, Run(us, Pos(yc + 1, xc), m.values[v..], m.full), all, x, scale)
    modifies y, log
    ensures log.Shows(y[..]) && log.lo <= yc' < log.hi
    ensures pos' + |Bytes(us[1..], m.full)| == pos + |Bytes(us, m.full)| && pos' > pos
    ensures At(m.ctl, pos', Bytes(us[1..], m.full))
    ensures v' + NrValues(us[1..]) == |m.values| && yc' < y.Length
    ensures Pos(yc' + 1, xc') == Next(us[0], Pos(yc + 1, xc), m.full)
    ensures Inside(Run(us[1..], Pos(yc' + 1, xc'), m.values[v'..], m.full), y.Length, |x|)
    ensures OwnRows(Run(us[1..], Pos(yc' + 1, xc'), m.values[v'..], m.full), log)
    ensures Acc(before, y[..], yc' + 1, yr', Run(us[1..], Pos(yc' + 1, xc'), m.values[v'..], m.full), all, x, scale)
  {
    hide Acc, Inside, OwnRows, UnitCells, UnitBytes, At, WellFormed, Leave, Start, DeltaBytes;
    ghost var u, p, was := us[0], Pos(yc + 1, xc), y[..];
    ghost var s := Start(u, p, m.full);
    ghost var unit := UnitCells(u, s, m.values[v..v + u.size], m.full);
    ghost var rest := Run(us[1..], Next(u, p, m.full), m.values[v + u.size..], m.full);
    assert m.values[v..][..u.size] == m.values[v..v + u.size];
    assert m.values[v..][u.size..] == m.values[v + u.size..];
    assert Run(us, p, m.values[v..], m.full) == unit + rest;
    InsideConcat(unit, rest, y.Length, |x|);
    OwnConcat(unit, rest, log);
    InsideWhole(rest, y.Length, |x|);
    UnitAt(m.ctl, pos, u, Bytes(us[1..], m.full), m.full);
    FirstCell(u, s.row, s.col, m.values[v..v + u.size], m.full, y.Length, |x|);
    FirstRowOwn(u, s, m.values[v..v + u.size], m.full, log);
    var flags, size;
    flags, size, pos', xc', yc', yr' := DecodeHead(m, y, pos, xc, yc, yr, u, Bytes(us[1..], m.full), log);
    if u.nr {
      AccFlush(before, was, yc, yr, s.row, unit + rest, all, x, scale);
    } else {
      SameRow(u, p, m.full);
    }
    ghost var mid, pending := y[..], yr';
    var ret;
    ret, v', pos', xc' := BodyHook(m, PatternBits(flags), pos', size, v, x, xc', y, yc', scale, u, log);
    AccUnit(before, mid, y[..], yc' + 1, pending, ret, unit, rest, all, x, scale);
    yr' := yr' + ret;
  }

  /** A unit starts in a row of the thread. */
  lemma {:induction false} FirstRowOwn(u: Unit, s: Pos, vals: seq<real>, full: bool, log: Log)
    requires WellFormed(u, full) && |vals| == u.size && OwnRows(UnitCells(u, s, vals, full), log)
    ensures log.lo + 1 <= s.row <= log.hi
  {
    OwnRow(UnitCells(u, s, vals, full), log, 0);
  }

  lemma {:induction false} SameRow(u: Unit, p: Pos, full: bool)
    requires !u.nr
    ensures Start(u, p, full).row == p.row
  {
  }

  lemma {:induction false} HeadFields(u: Unit, full: bool)
    requires WellFormed(u, full)
    ensures u.flag < 64 && 1 <= u.size && (u.rowjmp != 0 ==> u.nr) && (full ==> Fits(u.ucol, 4))
    ensures TestBit(FlagByte(u.flag, u.nr, u.rowjmp != 0), CTL_NR_BIT) <==> u.nr
    ensures TestBit(FlagByte(u.flag, u.nr, u.rowjmp != 0), CTL_RJMP_BIT) <==> u.rowjmp != 0
    ensures PatternBits(FlagByte(u.flag, u.nr, u.rowjmp != 0)) == u.flag
  {
    FlagRoundTrip(u.flag, u.nr, u.rowjmp != 0);
  }

  /** The generated routine: y += scale * A * x for the matrix whose units `m` holds, by stores
      to rows of the thread only. */
  method SpmCsxMultiply(m: Csx, x: seq<real>, y: array<real>, scale: real, ghost us: seq<Unit>, ghost log: Log)
    returns (ghost ctlEnd: nat, ghost valuesEnd: nat)
    requires Encodes(m, us) && us != []
    requires m.rowStart < y.Length && log.lo <= m.rowStart < log.hi && log.Shows(y[..])
    requires OwnRows(Run(us, Pos(m.rowStart + 1, 0), m.values, m.full), log)
    requires Inside(Run(us, Pos(m.rowStart + 1, 0), m.values, m.full), y.Length, |x|)
    modifies y, log
    ensures ctlEnd == |m.ctl| && valuesEnd == |m.values|
    ensures log.Shows(y[..])
    ensures AddsProduct(old(y[..]), y[..], Run(us, Pos(m.rowStart + 1, 0), m.values, m.full), x, scale)
  {
    hide Acc, Inside, OwnRows, WellFormed, AllWellFormed, At, Next, Run, NrValues, Bytes, Encodes;
    EncodesFacts(m, us);
    ghost var all := Run(us, Pos(m.rowStart + 1, 0), m.values, m.full);
    var pos: nat, v: nat, xc: nat, yc: nat, yr := 0, 0, 0, m.rowStart, 0.0;
    ghost var k := 0;
    WholeAt(m.ctl);
    AccStart(y[..], yc + 1, all, x, scale);
    assert us[0..] == us && m.values[0..] == m.values && all[0..] == all;
    while true
      invariant k < |us| && pos + |Bytes(us[k..], m.full)| == |m.ctl|
      invariant At(m.ctl, pos, Bytes(us[k..], m.full))
      invariant v + NrValues(us[k..]) == |m.values| && yc < y.Length
      invariant log.Shows(y[..]) && log.lo <= yc < log.hi
      invariant Inside(Run(us[k..], Pos(yc + 1, xc), m.values[v..], m.full), y.Length, |x|)
      invariant OwnRows(Run(us[k..], Pos(yc + 1, xc), m.values[v..], m.full), log)
      invariant Acc(old(y[..]), y[..], yc + 1, yr, Run(us[k..], Pos(yc + 1, xc), m.values[v..], m.full), all, x, scale)
      decreases |us| - k
    {
      assert us[k..][1..] == us[k + 1..];
      pos, v, xc, yc, yr := DoUnit(m, x, y, scale, pos, v, xc, yc, yr, us[k..], old(y[..]), all, log);
      k := k + 1;
      NothingLeft(us[k..], m.full);
      if !(pos < |m.ctl|) {
        break;
      }
    }
    RunEmpty(us[k..], Pos(yc + 1, xc), m.values[v..], m.full);
    ctlEnd, valuesEnd := pos, v;
    AccFlush(old(y[..]), y[..], yc, yr, yc + 1, [], all, x, scale);
    Increase(y, yc, yr, log);
    AccDone(old(y[..]), y[..], yc + 1, all, x, scale);
  }

  lemma {:induction false} WholeAt(ctl: seq<byte>)
    ensures At(ctl, 0, ctl)
  {
  }

  lemma {:induction false} NothingLeft(us: seq<Unit>, full: bool)
    requires AllWellFormed(us, full)
    ensures Bytes(us, full) == [] <==> us == []
  {
  }

  lemma {:induction false} RunEmpty(us: seq<Unit>, p: Pos, vals: seq<real>, full: bool)
    requires us == [] && AllWellFormed(us, full) && |vals| == NrValues(us)
    ensures Run(us, p, vals, full) == [] && vals == []
  {
  }

  lemma {:induction false} EncodesFacts(m: Csx, us: seq<Unit>)
    requires Encodes(m, us)
    ensures AllWellFormed(us, m.full) && m.ctl == Bytes(us, m.full) && |m.values| == NrValues(us)
    ensures forall k :: 0 <= k <= |us| ==> AllWellFormed(us[k..], m.full)
    ensures forall k :: 0 <= k < |us| ==>
      us[k].flag < |m.idMap| && m.idMap[us[k].flag] == us[k].pid && (!m.rowJumps ==> us[k].rowjmp == 0)
  {
  }
}
