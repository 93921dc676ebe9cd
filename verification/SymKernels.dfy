/** The generated routine of symmetric matrices: every unit also multiplies its mirror image. */
module SymKernels {
  import opened Encodings
  import opened Cells
  import opened Elements
  import opened CtlCodec
  import opened Units
  import opened StoreLog
  import opened Kernels
  import opened Sides

  // ----- Memory -----

  /** The vector and, behind it, the local buffer of the thread.  The main thread's buffer is
      the vector itself. */
  function Mem(y: array<real>, tmp: array<real>): (m: seq<real>)
    reads y, tmp
    ensures |m| == y.Length + if tmp == y then 0 else tmp.Length
  {
    y[..] + if tmp == y then [] else tmp[..]
  }

  /** Where a thread stores: `base` is the first entry of the vector or of the local buffer. */
  datatype Place = Place(base: nat, lo: nat, hi: nat, ghost log: Log)

  /** The same thread, writing to the vector. */
  function Home(g: Place): Place { g.(base := 0) }

  predicate InPlace(g: Place, i: int) { if g.base == 0 then g.lo <= i < g.hi else 0 <= i < g.lo }

  /** `cur` is where mirror images go; its first entry is entry `g.base` of the memory. */
  ghost predicate Target(cur: array<real>, y: array<real>, tmp: array<real>, g: Place) {
    && tmp.Length == y.Length && g.lo <= g.hi <= y.Length
    && g.log.lo == g.lo && g.log.hi == g.hi && g.log.n == y.Length
    && ((cur == y && g.base == 0) || (cur == tmp && tmp != y && g.base == y.Length))
  }

  /** cur[i] += e.  All stores of the routine go through here: the precondition says that they
      stay in the thread's own place. */
  method AddTo(cur: array<real>, i: nat, e: real, ghost y: array<real>, ghost tmp: array<real>, ghost g: Place)
    requires Target(cur, y, tmp, g) && i < y.Length && InPlace(g, i)
    requires g.log.Shows(Mem(y, tmp))
    modifies cur, g.log
    ensures g.log.Shows(Mem(y, tmp))
    ensures Mem(y, tmp) == old(Mem(y, tmp))[g.base + i := old(Mem(y, tmp))[g.base + i] + e]
  {
    ghost var was := cur[..];
    g.log.Record(g.base + i, e, Mem(y, tmp));
    cur[i] := cur[i] + e;
    assert cur[..] == was[i := was[i] + e];
    assert g.base == 0 ==> tmp != y ==> tmp[..] == old(tmp[..]);
  }

  // ----- A cell and its mirror image -----

  function Mirror(c: Cell, base: nat): Cell { Cell(base + c.col, c.row, c.val) }

  /** Every cell followed by its mirror image. */
  function Pairs(cs: seq<Cell>, base: nat): (ps: seq<Cell>)
    ensures |ps| == 2 * |cs|
  {
    seq(2 * |cs|, k requires 0 <= k < 2 * |cs| => if k % 2 == 0 then cs[k / 2] else Mirror(cs[k / 2], base))
  }

  lemma {:induction false} PairsAt(cs: seq<Cell>, base: nat, k: nat)
    requires k < |cs|
    ensures Pairs(cs, base)[2 * k] == cs[k] && Pairs(cs, base)[2 * k + 1] == Mirror(cs[k], base)
  {
  }

  lemma {:induction false} PairsInside(cs: seq<Cell>, base: nat, n: nat, memLen: nat)
    requires Inside(cs, n, n) && base + n <= memLen
    ensures Inside(Pairs(cs, base), memLen, n)
  {
  }

  /** Starting the accounting of a unit. */
  lemma {:induction false} PairsStart(cs: seq<Cell>, base: nat, n: nat, now: seq<real>, row: int, x: seq<real>,
                                      scale: real)
    requires Inside(cs, n, n) && base + n <= |now| && |x| == n
    ensures ColsWithin(Pairs(cs, base), |x|)
    ensures Acc(now, now, row, 0.0, Pairs(cs, base)[0..], Pairs(cs, base), x, scale)
    ensures Acc(now, now, row, Prod(0.0, scale), Pairs(cs, base)[0..], Pairs(cs, base), x, scale)
  {
    PairsInside(cs, base, n, |now|);
    AccStart(now, row, Pairs(cs, base), x, scale);
  }

  lemma {:induction false} PairsEnd(cs: seq<Cell>, base: nat)
    ensures Pairs(cs, base)[2 * |cs|..] == []
  {
  }

  /** The cells are in the thread's rows, and their mirror images in its place. */
  predicate OwnCells(cells: seq<Cell>, g: Place) {
    forall i :: 0 <= i < |cells| ==> g.lo < cells[i].row <= g.hi && InPlace(g, cells[i].col - 1)
  }

  lemma {:induction false} OwnInside(cells: seq<Cell>, g: Place, n: nat)
    requires OwnCells(cells, g) && g.lo <= g.hi <= n
    ensures Inside(cells, n, n)
  {
  }

  /** What the kernels of the linear types have in common. */
  ghost predicate Ready(inst: Instantiation, vals: seq<real>, v: nat, size: nat, x: seq<real>, y: array<real>,
                        cur: array<real>, xc: int, yc: int, tmp: array<real>, g: Place)
  {
    && inst.ty.Valid() && v + size <= |vals| && |x| == y.Length
    && Target(cur, y, tmp, g)
    && OwnCells(RunCells(inst, yc + 1, xc + 1, vals[v..v + size]), g)
  }

  /** The unit and its mirror image have been added, but for `ret`, which is due in row yc + 1. */
  ghost predicate Added(before: seq<real>, now: seq<real>, inst: Instantiation, vals: seq<real>, v: nat, size: nat,
                        xc: int, yc: int, g: Place, ret: real, x: seq<real>, scale: real)
    requires inst.ty.Valid() && v + size <= |vals|
  {
    Acc(before, now, yc + 1, ret, [], Pairs(RunCells(inst, yc + 1, xc + 1, vals[v..v + size]), g.base), x, scale)
  }

  /** The k-th cell, its mirror image, and where they are. */
  lemma {:induction false} SymVisit(inst: Instantiation, row: int, col: int, vals: seq<real>, k: nat, g: Place, n: nat)
    requires inst.ty.Valid() && k < |vals| && OwnCells(RunCells(inst, row, col, vals), g) && g.lo <= g.hi <= n
    ensures var c := Cell(row + Offset(inst, k).row, col + Offset(inst, k).col, vals[k]);
            var ps := Pairs(RunCells(inst, row, col, vals), g.base);
            RunCells(inst, row, col, vals)[k] == c && ps[2 * k] == c && ps[2 * k + 1] == Mirror(c, g.base)
            && 1 <= c.row <= n && 1 <= c.col <= n && g.lo < c.row <= g.hi && InPlace(g, c.col - 1)
  {
    OwnInside(RunCells(inst, row, col, vals), g, n);
    Visit(inst, row, col, vals, k, n, n);
    PairsAt(RunCells(inst, row, col, vals), g.base, k);
  }

  /** One value on the current row: its product is added to the sum of the row, and its mirror
      image is stored. */
  method AddOnRow(x: seq<real>, xi: nat, cur: array<real>, yr: real, rx: real, val: real, scale: real, ghost yc: nat,
                  ghost y: array<real>, ghost tmp: array<real>, ghost g: Place, ghost before: seq<real>,
                  ghost ps: seq<Cell>, ghost k: nat)
    returns (yr': real)
    requires Target(cur, y, tmp, g) && xi < y.Length == |x| && yc < |x| && rx == x[yc] && InPlace(g, xi)
    requires ColsWithin(ps, |x|) && |Mem(y, tmp)| == |before| && g.log.Shows(Mem(y, tmp))
    requires 2 * k + 1 < |ps| && ps[2 * k] == Cell(yc + 1, xi + 1, val) && ps[2 * k + 1] == Mirror(ps[2 * k], g.base)
    requires Acc(before, Mem(y, tmp), yc + 1, Prod(yr, scale), ps[2 * k..], ps, x, scale)
    modifies cur, g.log
    ensures |Mem(y, tmp)| == |before| && g.log.Shows(Mem(y, tmp))
    ensures Acc(before, Mem(y, tmp), yc + 1, Prod(yr', scale), ps[2 * (k + 1)..], ps, x, scale)
  {
    hide Prod, Acc, Dot, ColsWithin, Mem, Log.Shows;
    MemLength(cur, y, tmp, g);
    AccPend(before, Mem(y, tmp), yc, yr, ps, ps, 2 * k, x, scale, x[xi], val);
    yr' := yr + Prod(x[xi], val);
    AccStore(before, Mem(y, tmp), yc + 1, Prod(yr', scale), ps, ps, 2 * k + 1, x, scale, g.base + xi, rx, val);
    AddTo(cur, xi, Prod(Prod(rx, val), scale), y, tmp, g);
  }

  /** One value in the current column: its product is stored, and its mirror image is added to
      the sum of the column. */
  method AddOnColumn(x: seq<real>, yi: nat, ghost xi: nat, y: array<real>, ry: real, xr: real, val: real, scale: real,
                     ghost cur: array<real>, ghost tmp: array<real>, ghost g: Place, ghost before: seq<real>,
                     ghost ps: seq<Cell>, ghost k: nat)
    returns (ry': real)
    requires Target(cur, y, tmp, g) && yi < y.Length == |x| && xi < |x| && xr == x[xi] && g.lo <= yi < g.hi
    requires ColsWithin(ps, |x|) && |Mem(y, tmp)| == |before| && g.log.Shows(Mem(y, tmp))
    requires 2 * k + 1 < |ps| && ps[2 * k] == Cell(yi + 1, xi + 1, val) && ps[2 * k + 1] == Mirror(ps[2 * k], g.base)
    requires Acc(before, Mem(y, tmp), g.base + xi + 1, Prod(ry, scale), ps[2 * k..], ps, x, scale)
    modifies y, g.log
    ensures |Mem(y, tmp)| == |before| && g.log.Shows(Mem(y, tmp))
    ensures Acc(before, Mem(y, tmp), g.base + xi + 1, Prod(ry', scale), ps[2 * (k + 1)..], ps, x, scale)
  {
    hide Prod, Acc, Dot, ColsWithin, Mem, Log.Shows;
    ghost var col := g.base + xi;
    MemLength(cur, y, tmp, g);
    AccStore(before, Mem(y, tmp), col + 1, Prod(ry, scale), ps, ps, 2 * k, x, scale, yi, xr, val);
    AddTo(y, yi, Prod(Prod(xr, val), scale), y, tmp, Home(g));
    AccPend(before, Mem(y, tmp), col, ry, ps, ps, 2 * k + 1, x, scale, x[yi], val);
    ry' := ry + Prod(x[yi], val);
  }

  /** One value whose product and mirror image are both stored. */
  method AddBoth(x: seq<real>, yi: nat, xi: nat, y: array<real>, cur: array<real>, val: real, scale: real,
                 ghost row: int, ghost tmp: array<real>, ghost g: Place, ghost before: seq<real>, ghost ps: seq<Cell>,
                 ghost k: nat)
    requires Target(cur, y, tmp, g) && yi < y.Length == |x| && xi < |x| && g.lo <= yi < g.hi && InPlace(g, xi)
    requires ColsWithin(ps, |x|) && |Mem(y, tmp)| == |before| && g.log.Shows(Mem(y, tmp))
    requires 2 * k + 1 < |ps| && ps[2 * k] == Cell(yi + 1, xi + 1, val) && ps[2 * k + 1] == Mirror(ps[2 * k], g.base)
    requires Acc(before, Mem(y, tmp), row, 0.0, ps[2 * k..], ps, x, scale)
    modifies y, cur, g.log
    ensures |Mem(y, tmp)| == |before| && g.log.Shows(Mem(y, tmp))
    ensures Acc(before, Mem(y, tmp), row, 0.0, ps[2 * (k + 1)..], ps, x, scale)
  {
    hide Prod, Acc, Dot, ColsWithin, Mem, Log.Shows;
    MemLength(cur, y, tmp, g);
    AccStore(before, Mem(y, tmp), row, 0.0, ps, ps, 2 * k, x, scale, yi, x[xi], val);
    AddTo(y, yi, Prod(Prod(x[xi], val), scale), y, tmp, Home(g));
    AccStore(before, Mem(y, tmp), row, 0.0, ps, ps, 2 * k + 1, x, scale, g.base + xi, x[yi], val);
    AddTo(cur, xi, Prod(Prod(x[yi], val), scale), y, tmp, g);
  }

  lemma {:induction false} MemLength(cur: array<real>, y: array<real>, tmp: array<real>, g: Place)
    requires Target(cur, y, tmp, g)
    ensures g.base + y.Length <= |Mem(y, tmp)|
  {
  }

  // ----- Kernels of the linear types -----

  method HorizSymCase(size: nat, delta: nat, vals: seq<real>, v: nat, x: seq<real>, y: array<real>, cur: array<real>,
                      xc: int, yc: nat, scale: real, ghost tmp: array<real>, ghost g: Place)
    returns (ret: real, v': nat, xc': int)
    requires size >= 1 && delta >= 1 && Ready(Inst(Horizontal, delta), vals, v, size, x, y, cur, xc, yc, tmp, g)
    requires g.log.Shows(Mem(y, tmp))
    requires yc < |x|
    modifies cur, g.log
    ensures v' == v + size && xc' == xc + (size - 1) * delta
    ensures g.log.Shows(Mem(y, tmp))
    ensures Added(old(Mem(y, tmp)), Mem(y, tmp), Inst(Horizontal, delta), vals, v, size, xc, yc, g, ret, x, scale)
  {
    hide Prod, RunCells, Acc, Dot, Inside, OwnCells, ColsWithin, RowsWithin, Mem, Pairs, Log.Shows;
    ghost var unit, inst, n := vals[v..v + size], Inst(Horizontal, delta), y.Length;
    ghost var cells := RunCells(inst, yc + 1, xc + 1, unit);
    ghost var ps, before := Pairs(cells, g.base), Mem(y, tmp);
    OwnInside(cells, g, n);
    PairsStart(cells, g.base, n, before, yc + 1, x, scale);
    var yr, rx := 0.0, x[yc];
    var iEnd := delta * size;
    var i := 0;
    v' := v;
    ghost var k := 0;
    while i < iEnd
      invariant k <= size && i == k * delta && v' == v + k
      invariant |Mem(y, tmp)| == |before| && g.log.Shows(Mem(y, tmp))
      invariant Acc(before, Mem(y, tmp), yc + 1, Prod(yr, scale), ps[2 * k..], ps, x, scale)
    {
      MulLess(k, size, delta);
      SymVisit(inst, yc + 1, xc + 1, unit, k, g, n);
      yr := AddOnRow(x, xc + i, cur, yr, rx, vals[v'], scale, yc, y, tmp, g, before, ps, k);
      v', i, k := v' + 1, i + delta, k + 1;
    }
    MulLess(k, size, delta);
    MulLess(size - 1, size, delta);
    PairsEnd(cells, g.base);
    xc' := xc + (iEnd - delta);
    ret := Prod(yr, scale);
  }

  method VertSymCase(size: nat, delta: nat, vals: seq<real>, v: nat, x: seq<real>, y: array<real>, cur: array<real>,
                     xc: nat, yc: nat, scale: real, ghost tmp: array<real>, ghost g: Place)
    returns (ret: real, v': nat)
    requires size >= 1 && delta >= 1 && Ready(Inst(Vertical, delta), vals, v, size, x, y, cur, xc, yc, tmp, g)
    requires g.log.Shows(Mem(y, tmp))
    requires xc < |x|
    modifies y, cur, g.log
    ensures v' == v + size
    ensures g.log.Shows(Mem(y, tmp))
    ensures Added(old(Mem(y, tmp)), Mem(y, tmp), Inst(Vertical, delta), vals, v, size, xc, yc, g, ret, x, scale)
  {
    hide Prod, RunCells, Acc, Dot, Inside, OwnCells, ColsWithin, RowsWithin, Mem, Pairs, Log.Shows;
    ghost var unit, inst, n := vals[v..v + size], Inst(Vertical, delta), y.Length;
    ghost var cells := RunCells(inst, yc + 1, xc + 1, unit);
    ghost var ps, before, col := Pairs(cells, g.base), Mem(y, tmp), g.base + xc;
    OwnInside(cells, g, n);
    PairsStart(cells, g.base, n, before, col + 1, x, scale);
    SymVisit(inst, yc + 1, xc + 1, unit, 0, g, n);
    var xr, ry := x[xc], 0.0;
    var iEnd := delta * size;
    var i := 0;
    v' := v;
    ghost var k := 0;
    while i < iEnd
      invariant k <= size && i == k * delta && v' == v + k
      invariant |Mem(y, tmp)| == |before| && g.log.Shows(Mem(y, tmp))
      invariant Acc(before, Mem(y, tmp), col + 1, Prod(ry, scale), ps[2 * k..], ps, x, scale)
    {
      MulLess(k, size, delta);
      SymVisit(inst, yc + 1, xc + 1, unit, k, g, n);
      ry := AddOnColumn(x, yc + i, xc, y, ry, xr, vals[v'], scale, cur, tmp, g, before, ps, k);
      v', i, k := v' + 1, i + delta, k + 1;
    }
    MulLess(k, size, delta);
    PairsEnd(cells, g.base);
    AccFlush(before, Mem(y, tmp), col, Prod(ry, scale), yc + 1, [], ps, x, scale);
    AddTo(cur, xc, Prod(ry, scale), y, tmp, g);
    ret := 0.0;
  }

  method DiagSymCase(size: nat, delta: nat, vals: seq<real>, v: nat, x: seq<real>, y: array<real>, cur: array<real>,
                     xc: nat, yc: nat, scale: real, ghost tmp: array<real>, ghost g: Place)
    returns (ret: real, v': nat)
    requires delta >= 1 && Ready(Inst(Diagonal, delta), vals, v, size, x, y, cur, xc, yc, tmp, g)
    requires g.log.Shows(Mem(y, tmp))
    modifies y, cur, g.log
    ensures v' == v + size
    ensures g.log.Shows(Mem(y, tmp))
    ensures Added(old(Mem(y, tmp)), Mem(y, tmp), Inst(Diagonal, delta), vals, v, size, xc, yc, g, ret, x, scale)
  {
    hide Prod, RunCells, Acc, Dot, Inside, OwnCells, ColsWithin, RowsWithin, Mem, Pairs, Log.Shows;
    ghost var unit, inst, n := vals[v..v + size], Inst(Diagonal, delta), y.Length;
    ghost var cells := RunCells(inst, yc + 1, xc + 1, unit);
    ghost var ps, before := Pairs(cells, g.base), Mem(y, tmp);
    OwnInside(cells, g, n);
    PairsStart(cells, g.base, n, before, yc + 1, x, scale);
    var iEnd := delta * size;
    var i := 0;
    v' := v;
    ghost var k := 0;
    while i < iEnd
      invariant k <= size && i == k * delta && v' == v + k
      invariant |Mem(y, tmp)| == |before| && g.log.Shows(Mem(y, tmp))
      invariant Acc(before, Mem(y, tmp), yc + 1, 0.0, ps[2 * k..], ps, x, scale)
    {
      MulLess(k, size, delta);
      SymVisit(inst, yc + 1, xc + 1, unit, k, g, n);
      AddBoth(x, yc + i, xc + i, y, cur, vals[v'], scale, yc + 1, tmp, g, before, ps, k);
      v', i, k := v' + 1, i + delta, k + 1;
    }
    MulLess(k, size, delta);
    PairsEnd(cells, g.base);
    ret := 0.0;
  }

  /** The template counts the column down from the end of the run to its start; both offsets are
      relative to the first cell. */
  method RDiagSymCase(size: nat, delta: nat, vals: seq<real>, v: nat, x: seq<real>, y: array<real>, cur: array<real>,
                      xc: nat, yc: nat, scale: real, ghost tmp: array<real>, ghost g: Place)
    returns (ret: real, v': nat)
    requires delta >= 1 && Ready(Inst(AntiDiagonal, delta), vals, v, size, x, y, cur, xc, yc, tmp, g)
    requires g.log.Shows(Mem(y, tmp))
    modifies y, cur, g.log
    ensures v' == v + size
    ensures g.log.Shows(Mem(y, tmp))
    ensures Added(old(Mem(y, tmp)), Mem(y, tmp), Inst(AntiDiagonal, delta), vals, v, size, xc, yc, g, ret, x, scale)
  {
    hide Prod, RunCells, Acc, Dot, Inside, OwnCells, ColsWithin, RowsWithin, Mem, Pairs, Log.Shows;
    ghost var unit, inst, n := vals[v..v + size], Inst(AntiDiagonal, delta), y.Length;
    ghost var cells := RunCells(inst, yc + 1, xc + 1, unit);
    ghost var ps, before := Pairs(cells, g.base), Mem(y, tmp);
    OwnInside(cells, g, n);
    PairsStart(cells, g.base, n, before, yc + 1, x, scale);
    var iEnd := delta * size;
    var shift: int := xc - iEnd;
    var i, j := 0, iEnd;
    v' := v;
    ghost var k := 0;
    while i < iEnd
      invariant k <= size && i == k * delta && j == iEnd - i && v' == v + k
      invariant |Mem(y, tmp)| == |before| && g.log.Shows(Mem(y, tmp))
      invariant Acc(before, Mem(y, tmp), yc + 1, 0.0, ps[2 * k..], ps, x, scale)
    {
      MulLess(k, size, delta);
      SymVisit(inst, yc + 1, xc + 1, unit, k, g, n);
      AddBoth(x, yc + i, shift + j, y, cur, vals[v'], scale, yc + 1, tmp, g, before, ps, k);
      v', i, j, k := v' + 1, i + delta, j - delta, k + 1;
    }
    MulLess(k, size, delta);
    PairsEnd(cells, g.base);
    ret := 0.0;
  }

  // ----- Block kernels -----

  /** Entry (row j, column i) of a column-major block, and its mirror image. */
  lemma {:induction false} SymVisitBlockRow(r: nat, c: nat, row: int, col: int, vals: seq<real>, i: nat, j: nat,
                                            g: Place, n: nat)
    requires 1 <= r <= 8 && |vals| == r * c && i < c && j < r
    requires OwnCells(RunCells(Inst(BlockRow(r), c), row, col, vals), g) && g.lo <= g.hi <= n
    ensures i * r + j < r * c && i * r + r == (i + 1) * r <= r * c
    ensures var e := Cell(row + j, col + i, vals[i * r + j]);
            var ps := Pairs(RunCells(Inst(BlockRow(r), c), row, col, vals), g.base);
            ps[2 * (i * r + j)] == e && ps[2 * (i * r + j) + 1] == Mirror(e, g.base)
    ensures 1 <= row + j <= n && 1 <= col + i <= n && g.lo < row + j <= g.hi && InPlace(g, col + i - 1)
  {
    var cells, k := RunCells(Inst(BlockRow(r), c), row, col, vals), i * r + j;
    OwnInside(cells, g, n);
    VisitBlockRow(r, c, row, col, vals, i, j, n, n);
    hide RunCells, Pairs, Inside;
    PairsAt(cells, g.base, k);
    OwnAt(cells, g, k);
  }

  lemma {:induction false} SymVisitBlockCol(r: nat, c: nat, row: int, col: int, vals: seq<real>, i: nat, j: nat,
                                            g: Place, n: nat)
    requires 1 <= c <= 8 && |vals| == c * r && i < r && j < c
    requires OwnCells(RunCells(Inst(BlockCol(c), r), row, col, vals), g) && g.lo <= g.hi <= n
    ensures i * c + j < c * r && i * c + c == (i + 1) * c <= c * r
    ensures var e := Cell(row + i, col + j, vals[i * c + j]);
            var ps := Pairs(RunCells(Inst(BlockCol(c), r), row, col, vals), g.base);
            ps[2 * (i * c + j)] == e && ps[2 * (i * c + j) + 1] == Mirror(e, g.base)
    ensures 1 <= row + i <= n && 1 <= col + j <= n && g.lo < row + i <= g.hi && InPlace(g, col + j - 1)
  {
    var cells, k := RunCells(Inst(BlockCol(c), r), row, col, vals), i * c + j;
    OwnInside(cells, g, n);
    VisitBlockCol(r, c, row, col, vals, i, j, n, n);
    hide RunCells, Pairs, Inside;
    PairsAt(cells, g.base, k);
    OwnAt(cells, g, k);
  }

  lemma {:induction false} OwnAt(cells: seq<Cell>, g: Place, k: nat)
    requires OwnCells(cells, g) && k < |cells|
    ensures g.lo < cells[k].row <= g.hi && InPlace(g, cells[k].col - 1)
  {
  }

  /** Column-major r x c block: the mirror image of a column is summed up and stored once. */
  method BlockRowSymCase(r: nat, c: nat, vals: seq<real>, v: nat, x: seq<real>, y: array<real>, cur: array<real>,
                         xc: nat, yc: nat, scale: real, ghost tmp: array<real>, ghost g: Place)
    returns (ret: real, v': nat)
    requires 1 <= r <= 8 && Ready(Inst(BlockRow(r), c), vals, v, r * c, x, y, cur, xc, yc, tmp, g)
    requires g.log.Shows(Mem(y, tmp))
    modifies y, cur, g.log
    ensures v' == v + r * c
    ensures g.log.Shows(Mem(y, tmp))
    ensures Added(old(Mem(y, tmp)), Mem(y, tmp), Inst(BlockRow(r), c), vals, v, r * c, xc, yc, g, ret, x, scale)
  {
    hide Prod, RunCells, Acc, Dot, Inside, OwnCells, ColsWithin, RowsWithin, Mem, Pairs, Offset, Log.Shows;
    ghost var size, n := r * c, y.Length;
    ghost var unit := vals[v..v + size];
    ghost var cells := RunCells(Inst(BlockRow(r), c), yc + 1, xc + 1, unit);
    ghost var ps, before := Pairs(cells, g.base), Mem(y, tmp);
    OwnInside(cells, g, n);
    PairsStart(cells, g.base, n, before, yc + 1, x, scale);
    v' := v;
    ghost var k := 0;
    var i := 0;
    while i < c
      invariant i <= c && k == i * r && k <= size && v' == v + k
      invariant |Mem(y, tmp)| == |before| && g.log.Shows(Mem(y, tmp))
      invariant Acc(before, Mem(y, tmp), yc + 1, 0.0, ps[2 * k..], ps, x, scale)
    {
      BlockIsColumns(r, c, size, yc, xc, vals, v, i, k, g, n);
      v' := BlockColumn(r, vals, v', x, y, cur, xc + i, yc, scale, tmp, g, before, ps, k);
      i, k := i + 1, k + r;
    }
    MulLess(i, c, r);
    PairsEnd(cells, g.base);
    ret := 0.0;
  }

  /** Value `k` of a unit is at row yi and column xi of the matrix. */
  predicate Entry(ps: seq<Cell>, k: nat, yi: int, xi: int, val: real, g: Place, n: nat) {
    && 2 * k + 1 < |ps| && ps[2 * k] == Cell(yi + 1, xi + 1, val) && ps[2 * k + 1] == Mirror(ps[2 * k], g.base)
    && 0 <= yi < n && 0 <= xi < n && g.lo <= yi < g.hi && InPlace(g, xi)
  }

  predicate ColumnEntry(ps: seq<Cell>, k0: nat, j: nat, yc: nat, xi: nat, vals: seq<real>, v0: nat, g: Place, n: nat) {
    v0 + j < |vals| && Entry(ps, k0 + j, yc + j, xi, vals[v0 + j], g, n)
  }

  /** The next r values are a column of the block. */
  predicate IsColumn(ps: seq<Cell>, k0: nat, r: nat, yc: nat, xi: nat, vals: seq<real>, v0: nat, g: Place, n: nat) {
    2 * (k0 + r) <= |ps| && forall j: nat :: j < r ==> ColumnEntry(ps, k0, j, yc, xi, vals, v0, g, n)
  }

  lemma {:induction false} ColumnEntryOf(ps: seq<Cell>, k0: nat, j: nat, yc: nat, xi: nat, vals: seq<real>, v: nat,
                                         size: nat, g: Place, n: nat)
    requires v + size <= |vals| && k0 + j < size && |ps| == 2 * size
    requires Entry(ps, k0 + j, yc + j, xi, vals[v..v + size][k0 + j], g, n)
    ensures ColumnEntry(ps, k0, j, yc, xi, vals, v + k0, g, n)
  {
    hide Entry;
  }

  lemma {:induction false} ColumnAt(r: nat, c: nat, size: nat, yc: nat, xc: nat, vals: seq<real>, v: nat, i: nat,
                                    k0: nat, j: nat, g: Place, n: nat)
    requires 1 <= r <= 8 && i < c && j < r && size == r * c && k0 == i * r && v + size <= |vals| && g.lo <= g.hi <= n
    requires OwnCells(RunCells(Inst(BlockRow(r), c), yc + 1, xc + 1, vals[v..v + size]), g)
    ensures k0 + r == (i + 1) * r <= size
    ensures ColumnEntry(Pairs(RunCells(Inst(BlockRow(r), c), yc + 1, xc + 1, vals[v..v + size]), g.base), k0, j, yc,
                        xc + i, vals, v + k0, g, n)
  {
    hide OwnCells, RunCells, Pairs, InPlace, ColumnEntry;
    var unit := vals[v..v + size];
    var ps := Pairs(RunCells(Inst(BlockRow(r), c), yc + 1, xc + 1, unit), g.base);
    SymVisitBlockRow(r, c, yc + 1, xc + 1, unit, i, j, g, n);
    ColumnEntryOf(ps, k0, j, yc, xc + i, vals, v, size, g, n);
  }

  lemma {:induction false} BlockIsColumns(r: nat, c: nat, size: nat, yc: nat, xc: nat, vals: seq<real>, v: nat, i: nat,
                                          k0: nat, g: Place, n: nat)
    requires 1 <= r <= 8 && i < c && size == r * c && k0 == i * r && v + size <= |vals| && g.lo <= g.hi <= n
    requires OwnCells(RunCells(Inst(BlockRow(r), c), yc + 1, xc + 1, vals[v..v + size]), g)
    ensures k0 + r == (i + 1) * r <= size
    ensures IsColumn(Pairs(RunCells(Inst(BlockRow(r), c), yc + 1, xc + 1, vals[v..v + size]), g.base), k0, r, yc,
                     xc + i, vals, v + k0, g, n)
  {
    hide OwnCells, RunCells, Pairs, ColumnEntry;
    var ps := Pairs(RunCells(Inst(BlockRow(r), c), yc + 1, xc + 1, vals[v..v + size]), g.base);
    ColumnAt(r, c, size, yc, xc, vals, v, i, k0, 0, g, n);
    var xi, v0 := xc + i, v + k0;
    forall j: nat | j < r ensures ColumnEntry(ps, k0, j, yc, xi, vals, v0, g, n) {
      ColumnAt(r, c, size, yc, xc, vals, v, i, k0, j, g, n);
    }
  }

  /** A column of a column-major block. */
  method BlockColumn(r: nat, vals: seq<real>, v0: nat, x: seq<real>, y: array<real>, cur: array<real>, xi: nat, yc: nat,
                     scale: real, ghost tmp: array<real>, ghost g: Place, ghost before: seq<real>, ghost ps: seq<Cell>,
                     ghost k0: nat)
    returns (v': nat)
    requires r >= 1 && Target(cur, y, tmp, g) && |x| == y.Length && ColsWithin(ps, |x|)
    requires IsColumn(ps, k0, r, yc, xi, vals, v0, g, y.Length) && |Mem(y, tmp)| == |before| && g.log.Shows(Mem(y, tmp))
    requires Acc(before, Mem(y, tmp), yc + 1, 0.0, ps[2 * k0..], ps, x, scale)
    modifies y, cur, g.log
    ensures v' == v0 + r && |Mem(y, tmp)| == |before| && g.log.Shows(Mem(y, tmp)) && 2 * (k0 + r) <= |ps|
    ensures Acc(before, Mem(y, tmp), yc + 1, 0.0, ps[2 * (k0 + r)..], ps, x, scale)
  {
    hide Prod, Acc, Dot, ColsWithin, Mem, InPlace, Target, Log.Shows;
    ghost var col := g.base + xi;
    assert ColumnEntry(ps, k0, 0, yc, xi, vals, v0, g, y.Length);
    var currX, currRy := x[xi], 0.0;
    AccMove(before, Mem(y, tmp), yc + 1, col + 1, ps[2 * k0..], ps, x, scale);
    v' := v0;
    var j := 0;
    while j < r
      invariant j <= r && v' == v0 + j && |Mem(y, tmp)| == |before| && g.log.Shows(Mem(y, tmp)) && 2 * (k0 + j) <= |ps|
      invariant Acc(before, Mem(y, tmp), col + 1, Prod(currRy, scale), ps[2 * (k0 + j)..], ps, x, scale)
    {
      assert ColumnEntry(ps, k0, j, yc, xi, vals, v0, g, y.Length);
      currRy := AddOnColumn(x, yc + j, xi, y, currRy, currX, vals[v'], scale, cur, tmp, g, before, ps, k0 + j);
      v', j := v' + 1, j + 1;
    }
    MemLength(cur, y, tmp, g);
    AccFlush(before, Mem(y, tmp), col, Prod(currRy, scale), yc + 1, ps[2 * (k0 + r)..], ps, x, scale);
    AddTo(cur, xi, Prod(currRy, scale), y, tmp, g);
  }

  /** Row-major r x c block: every row is summed up and stored once. */
  method BlockColSymCase(r: nat, c: nat, vals: seq<real>, v: nat, x: seq<real>, y: array<real>, cur: array<real>,
                         xc: nat, yc: nat, scale: real, ghost tmp: array<real>, ghost g: Place)
    returns (ret: real, v': nat)
    requires 1 <= c <= 8 && Ready(Inst(BlockCol(c), r), vals, v, c * r, x, y, cur, xc, yc, tmp, g)
    requires g.log.Shows(Mem(y, tmp))
    modifies y, cur, g.log
    ensures v' == v + c * r
    ensures g.log.Shows(Mem(y, tmp))
    ensures Added(old(Mem(y, tmp)), Mem(y, tmp), Inst(BlockCol(c), r), vals, v, c * r, xc, yc, g, ret, x, scale)
  {
    hide Prod, RunCells, Acc, Dot, Inside, OwnCells, ColsWithin, RowsWithin, Mem, Pairs, Offset, Log.Shows;
    ghost var size, n := c * r, y.Length;
    ghost var unit := vals[v..v + size];
    ghost var cells := RunCells(Inst(BlockCol(c), r), yc + 1, xc + 1, unit);
    ghost var ps, before := Pairs(cells, g.base), Mem(y, tmp);
    OwnInside(cells, g, n);
    PairsStart(cells, g.base, n, before, yc + 1, x, scale);
    v' := v;
    ghost var k := 0;
    var i := 0;
    while i < r
      invariant i <= r && k == i * c && k <= size && v' == v + k
      invariant |Mem(y, tmp)| == |before| && g.log.Shows(Mem(y, tmp))
      invariant Acc(before, Mem(y, tmp), yc + 1, 0.0, ps[2 * k..], ps, x, scale)
    {
      BlockIsLines(r, c, size, yc, xc, vals, v, i, k, g, n);
      v' := BlockLine(c, vals, v', x, y, cur, xc, yc + i, scale, yc, tmp, g, before, ps, k);
      i, k := i + 1, k + c;
    }
    MulLess(i, r, c);
    PairsEnd(cells, g.base);
    ret := 0.0;
  }

  predicate LineEntry(ps: seq<Cell>, k0: nat, j: nat, yi: nat, xc: nat, vals: seq<real>, v0: nat, g: Place, n: nat) {
    v0 + j < |vals| && Entry(ps, k0 + j, yi, xc + j, vals[v0 + j], g, n)
  }

  /** The next c values are a row of the block. */
  predicate IsLine(ps: seq<Cell>, k0: nat, c: nat, yi: nat, xc: nat, vals: seq<real>, v0: nat, g: Place, n: nat) {
    2 * (k0 + c) <= |ps| && forall j: nat :: j < c ==> LineEntry(ps, k0, j, yi, xc, vals, v0, g, n)
  }

  lemma {:induction false} LineEntryOf(ps: seq<Cell>, k0: nat, j: nat, yi: nat, xc: nat, vals: seq<real>, v: nat,
                                       size: nat, g: Place, n: nat)
    requires v + size <= |vals| && k0 + j < size && |ps| == 2 * size
    requires Entry(ps, k0 + j, yi, xc + j, vals[v..v + size][k0 + j], g, n)
    ensures LineEntry(ps, k0, j, yi, xc, vals, v + k0, g, n)
  {
    hide Entry;
  }

  lemma {:induction false} LineAt(r: nat, c: nat, size: nat, yc: nat, xc: nat, vals: seq<real>, v: nat, i: nat, k0: nat,
                                  j: nat, g: Place, n: nat)
    requires 1 <= c <= 8 && i < r && j < c && size == c * r && k0 == i * c && v + size <= |vals| && g.lo <= g.hi <= n
    requires OwnCells(RunCells(Inst(BlockCol(c), r), yc + 1, xc + 1, vals[v..v + size]), g)
    ensures k0 + c == (i + 1) * c <= size
    ensures LineEntry(Pairs(RunCells(Inst(BlockCol(c), r), yc + 1, xc + 1, vals[v..v + size]), g.base), k0, j, yc + i,
                      xc, vals, v + k0, g, n)
  {
    hide OwnCells, RunCells, Pairs, InPlace, LineEntry;
    var unit := vals[v..v + size];
    var ps := Pairs(RunCells(Inst(BlockCol(c), r), yc + 1, xc + 1, unit), g.base);
    SymVisitBlockCol(r, c, yc + 1, xc + 1, unit, i, j, g, n);
    LineEntryOf(ps, k0, j, yc + i, xc, vals, v, size, g, n);
  }

  lemma {:induction false} BlockIsLines(r: nat, c: nat, size: nat, yc: nat, xc: nat, vals: seq<real>, v: nat, i: nat,
                                        k0: nat, g: Place, n: nat)
    requires 1 <= c <= 8 && i < r && size == c * r && k0 == i * c && v + size <= |vals| && g.lo <= g.hi <= n
    requires OwnCells(RunCells(Inst(BlockCol(c), r), yc + 1, xc + 1, vals[v..v + size]), g)
    ensures k0 + c == (i + 1) * c <= size
    ensures IsLine(Pairs(RunCells(Inst(BlockCol(c), r), yc + 1, xc + 1, vals[v..v + size]), g.base), k0, c, yc + i, xc,
                   vals, v + k0, g, n)
  {
    hide OwnCells, RunCells, Pairs, LineEntry;
    var ps := Pairs(RunCells(Inst(BlockCol(c), r), yc + 1, xc + 1, vals[v..v + size]), g.base);
    LineAt(r, c, size, yc, xc, vals, v, i, k0, 0, g, n);
    var yi, v0 := yc + i, v + k0;
    forall j: nat | j < c ensures LineEntry(ps, k0, j, yi, xc, vals, v0, g, n) {
      LineAt(r, c, size, yc, xc, vals, v, i, k0, j, g, n);
    }
  }

  /** A row of a row-major block. */
  method BlockLine(c: nat, vals: seq<real>, v0: nat, x: seq<real>, y: array<real>, cur: array<real>, xc: nat, yi: nat,
                   scale: real, ghost yc: nat, ghost tmp: array<real>, ghost g: Place, ghost before: seq<real>,
                   ghost ps: seq<Cell>, ghost k0: nat)
    returns (v': nat)
    requires c >= 1 && Target(cur, y, tmp, g) && |x| == y.Length && ColsWithin(ps, |x|)
    requires IsLine(ps, k0, c, yi, xc, vals, v0, g, y.Length) && |Mem(y, tmp)| == |before| && g.log.Shows(Mem(y, tmp))
    requires Acc(before, Mem(y, tmp), yc + 1, 0.0, ps[2 * k0..], ps, x, scale)
    modifies y, cur, g.log
    ensures v' == v0 + c && |Mem(y, tmp)| == |before| && g.log.Shows(Mem(y, tmp)) && 2 * (k0 + c) <= |ps|
    ensures Acc(before, Mem(y, tmp), yc + 1, 0.0, ps[2 * (k0 + c)..], ps, x, scale)
  {
    hide Prod, Acc, Dot, ColsWithin, Mem, InPlace, Log.Shows;
    assert LineEntry(ps, k0, 0, yi, xc, vals, v0, g, y.Length);
    var currY, currRx := 0.0, x[yi];
    AccMove(before, Mem(y, tmp), yc + 1, yi + 1, ps[2 * k0..], ps, x, scale);
    v' := v0;
    var j := 0;
    while j < c
      invariant j <= c && v' == v0 + j && |Mem(y, tmp)| == |before| && g.log.Shows(Mem(y, tmp)) && 2 * (k0 + j) <= |ps|
      invariant Acc(before, Mem(y, tmp), yi + 1, Prod(currY, scale), ps[2 * (k0 + j)..], ps, x, scale)
    {
      assert LineEntry(ps, k0, j, yi, xc, vals, v0, g, y.Length);
      currY := AddOnRow(x, xc + j, cur, currY, currRx, vals[v'], scale, yi, y, tmp, g, before, ps, k0 + j);
      v', j := v' + 1, j + 1;
    }
    MemLength(cur, y, tmp, g);
    AccFlush(before, Mem(y, tmp), yi, Prod(currY, scale), yc + 1, ps[2 * (k0 + c)..], ps, x, scale);
    StoreHome(g, yi);
    AddTo(y, yi, Prod(currY, scale), y, tmp, Home(g));
  }

  lemma {:induction false} StoreHome(g: Place, i: nat)
    requires g.lo <= i < g.hi
    ensures InPlace(Home(g), i)
  {
  }

  // ----- Delta units -----

  lemma {:induction false} SymVisitDelta(ds: seq<nat>, p: Pos, vals: seq<real>, k: nat, g: Place, n: nat)
    requires |vals| == |ds| + 1 && k < |vals| && OwnCells(DeltaCells(ds, p, vals), g) && g.lo <= g.hi <= n
    ensures var c := Cell(p.row, DeltaCol(ds, p.col, k) + 1, vals[k]);
            var ps := Pairs(DeltaCells(ds, p, vals), g.base);
            ps[2 * k] == c && ps[2 * k + 1] == Mirror(c, g.base)
    ensures 1 <= p.row <= n && 0 <= DeltaCol(ds, p.col, k) < n && g.lo < p.row <= g.hi
    ensures InPlace(g, DeltaCol(ds, p.col, k))
  {
    OwnInside(DeltaCells(ds, p, vals), g, n);
    VisitDelta(ds, p, vals, k, n, n);
    PairsAt(DeltaCells(ds, p, vals), g.base, k);
  }

  method DeltaSymCase(width: nat, ctl: seq<byte>, pos: nat, size: nat, vals: seq<real>, v: nat, x: seq<real>,
                      y: array<real>, cur: array<real>, xc: nat, yc: nat, scale: real,
                      ghost tmp: array<real>, ghost g: Place, ghost ds: seq<nat>)
    returns (ret: real, v': nat, pos': nat, xc': nat)
    requires size >= 1 && v + size <= |vals| && |ds| == size - 1 && |x| == y.Length
    requires At(ctl, pos, DeltaBytes(ds, width))
    requires forall i :: 0 <= i < |ds| ==> Fits(ds[i], width)
    requires g.log.Shows(Mem(y, tmp))
    requires Target(cur, y, tmp, g) && OwnCells(DeltaCells(ds, Pos(yc + 1, xc), vals[v..v + size]), g)
    modifies cur, g.log
    ensures v' == v + size && pos' == pos + |DeltaBytes(ds, width)| && xc' == xc + Sum(ds)
    ensures g.log.Shows(Mem(y, tmp))
    ensures Acc(old(Mem(y, tmp)), Mem(y, tmp), yc + 1, ret, [],
                Pairs(DeltaCells(ds, Pos(yc + 1, xc), vals[v..v + size]), g.base), x, scale)
  {
    hide Prod, DeltaCells, Acc, Dot, Inside, OwnCells, ColsWithin, RowsWithin, Mem, Pairs, DeltaBytes, FixedInt, At,
         Fits, FixedGet, DeltaCol, Sum, Log.Shows;
    ghost var unit, p, n := vals[v..v + size], Pos(yc + 1, xc), y.Length;
    ghost var cells := DeltaCells(ds, p, unit);
    ghost var ps, before := Pairs(cells, g.base), Mem(y, tmp);
    OwnInside(cells, g, n);
    PairsStart(cells, g.base, n, before, yc + 1, x, scale);
    SymVisitDelta(ds, p, unit, 0, g, n);
    DeltaEnds(ds, xc, width);
    xc', pos', v' := xc, pos, v;
    var rx := x[yc];
    var yr := AddOnRow(x, xc', cur, 0.0, rx, vals[v'], scale, yc, y, tmp, g, before, ps, 0);
    v' := v' + 1;
    var i := 1;
    while i < size
      invariant 1 <= i <= size && v' == v + i && |Mem(y, tmp)| == |before| && g.log.Shows(Mem(y, tmp))
      invariant xc' == DeltaCol(ds, xc, i - 1)
      invariant At(ctl, pos', DeltaBytes(ds[i - 1..], width))
      invariant pos' + |DeltaBytes(ds[i - 1..], width)| == pos + |DeltaBytes(ds, width)|
      invariant Acc(before, Mem(y, tmp), yc + 1, Prod(yr, scale), ps[2 * i..], ps, x, scale)
    {
      DeltaStep(ctl, pos', ds, i, width, xc);
      xc' := xc' + FixedGet(ctl, pos', width);
      pos' := pos' + width;
      SymVisitDelta(ds, p, unit, i, g, n);
      yr := AddOnRow(x, xc', cur, yr, rx, vals[v'], scale, yc, y, tmp, g, before, ps, i);
      v', i := v' + 1, i + 1;
    }
    PairsEnd(cells, g.base);
    ret := Prod(yr, scale);
  }

  // ----- The whole matrix -----

  /** A compiled symmetric partition: the lower triangle, and the diagonal of its rows. */
  datatype CsxSym = CsxSym(lower: Csx, dvalues: seq<real>)

  /** The rows of the partition. */
  ghost function OwnPlace(sm: CsxSym, log: Log): Place {
    Place(0, sm.lower.rowStart, sm.lower.rowStart + |sm.dvalues|, log)
  }

  /** The record is that of the thread. */
  ghost predicate LogOf(sm: CsxSym, log: Log, n: nat) {
    log.lo == sm.lower.rowStart && log.hi == sm.lower.rowStart + |sm.dvalues| && log.n == n
  }

  /** Mirror images of columns up to `rs` go to the local buffer behind the n entries of the
      vector, all others to the vector. */
  function MirrorOf(c: Cell, rs: nat, n: nat): Cell { Mirror(c, if c.col <= rs then n else 0) }

  function AllPairs(cs: seq<Cell>, rs: nat, n: nat): (ps: seq<Cell>)
    ensures |ps| == 2 * |cs|
  {
    seq(2 * |cs|, k requires 0 <= k < 2 * |cs| => if k % 2 == 0 then cs[k / 2] else MirrorOf(cs[k / 2], rs, n))
  }

  lemma {:induction false} AllPairsConcat(a: seq<Cell>, b: seq<Cell>, rs: nat, n: nat)
    ensures AllPairs(a + b, rs, n) == AllPairs(a, rs, n) + AllPairs(b, rs, n)
  {
  }

  lemma {:induction false} PairsOfSide(cs: seq<Cell>, rs: nat, n: nat, near: bool)
    requires OnSide(cs, rs, near)
    ensures AllPairs(cs, rs, n) == Pairs(cs, if near then 0 else n)
  {
  }

  /** The diagonal cells of consecutive rows. */
  function DiagFrom(dvs: seq<real>, row: int): (cs: seq<Cell>)
    ensures |cs| == |dvs|
  {
    seq(|dvs|, i requires 0 <= i < |dvs| => Cell(row + i, row + i, dvs[i]))
  }

  /** The next diagonal cell is stored, whatever is left to do before it. */
  lemma {:induction false} AccDiag(before: seq<real>, now: seq<real>, row: int, row': int, rest: seq<Cell>,
                                   dvs: seq<real>, all: seq<Cell>, x: seq<real>, scale: real, i: nat)
    requires dvs != [] && i < |now| && i < |x|
    requires ColsWithin(DiagFrom(dvs, i + 1), |x|) && ColsWithin(rest, |x|)
    requires Acc(before, now, row, 0.0, rest + DiagFrom(dvs, i + 1), all, x, scale)
    ensures ColsWithin(DiagFrom(dvs[1..], i + 2), |x|)
    ensures Acc(before, now[i := now[i] + Prod(Prod(x[i], dvs[0]), scale)], row', 0.0, rest + DiagFrom(dvs[1..], i + 2),
                all, x, scale)
  {
    hide Prod;
    var d, d' := DiagFrom(dvs, i + 1), DiagFrom(dvs[1..], i + 2);
    assert d == [Cell(i + 1, i + 1, dvs[0])] + d';
    assert d[1..] == d';
    forall r | 1 <= r <= |now|
      ensures Dot(rest + d, r, x, scale)
           == (if r == i + 1 then Prod(Prod(x[i], dvs[0]), scale) else 0.0) + Dot(rest + d', r, x, scale)
    {
      DotConcat(rest, d, r, x, scale);
      DotConcat(rest, d', r, x, scale);
    }
  }

  lemma {:induction false} DiagCols(dvs: seq<real>, row: nat, n: nat)
    requires row >= 1 && row + |dvs| <= n + 1
    ensures ColsWithin(DiagFrom(dvs, row), n)
  {
  }

  /** The diagonal of the next `jmp` rows. */
  method AddDiagonal(sm: CsxSym, x: seq<real>, y: array<real>, scale: real, yc: nat, jmp: nat, ghost tmp: array<real>,
                     ghost log: Log, ghost before: seq<real>, ghost rest: seq<Cell>, ghost all: seq<Cell>)
    returns (yc': nat)
    requires LogOf(sm, log, y.Length)
    requires tmp.Length == y.Length == |x| && |Mem(y, tmp)| == |before| && log.Shows(Mem(y, tmp))
    requires sm.lower.rowStart <= yc && yc + jmp <= sm.lower.rowStart + |sm.dvalues| <= y.Length
    requires ColsWithin(rest, |x|)
    requires Acc(before, Mem(y, tmp), yc + 1, 0.0, rest + DiagFrom(sm.dvalues[yc - sm.lower.rowStart..], yc + 1), all,
                 x, scale)
    modifies y, log
    ensures yc' == yc + jmp && |Mem(y, tmp)| == |before| && log.Shows(Mem(y, tmp))
    ensures Acc(before, Mem(y, tmp), yc' + 1, 0.0, rest + DiagFrom(sm.dvalues[yc' - sm.lower.rowStart..], yc' + 1), all,
                x, scale)
  {
    hide Prod, Acc, Dot, ColsWithin, Mem, DiagFrom, Log.Shows;
    ghost var rs := sm.lower.rowStart;
    yc' := yc;
    var i := 0;
    while i < jmp
      invariant i <= jmp && yc' == yc + i && |Mem(y, tmp)| == |before| && log.Shows(Mem(y, tmp))
      invariant Acc(before, Mem(y, tmp), yc' + 1, 0.0, rest + DiagFrom(sm.dvalues[yc' - rs..], yc' + 1), all, x, scale)
    {
      ghost var dvs := sm.dvalues[yc' - rs..];
      MemLength(y, y, tmp, OwnPlace(sm, log));
      DiagCols(dvs, yc' + 1, |x|);
      AccDiag(before, Mem(y, tmp), yc' + 1, yc' + 2, rest, dvs, all, x, scale, yc');
      assert dvs[1..] == sm.dvalues[yc' + 1 - rs..];
      AddTo(y, yc', Prod(Prod(x[yc'], sm.dvalues[yc' - sm.lower.rowStart]), scale), y, tmp, OwnPlace(sm, log));
      yc' := yc' + 1;
      i := i + 1;
    }
  }

  /** Code inserted where a unit starts a new row: the diagonal of the rows that are left. */
  method SymNewRowHook(sm: CsxSym, flags: byte, pos: nat, yc: nat, x: seq<real>, y: array<real>, scale: real,
                       ghost u: Unit, ghost tmp: array<real>, ghost log: Log, ghost before: seq<real>,
                       ghost rest: seq<Cell>, ghost all: seq<Cell>)
    returns (yc': nat, pos': nat)
    requires TestBit(flags, CTL_RJMP_BIT) <==> u.rowjmp != 0
    requires !sm.lower.rowJumps ==> u.rowjmp == 0
    requires u.rowjmp != 0 ==> At(sm.lower.ctl, pos, VarInt(u.rowjmp))
    requires LogOf(sm, log, y.Length)
    requires tmp.Length == y.Length == |x| && |Mem(y, tmp)| == |before| && log.Shows(Mem(y, tmp))
    requires ColsWithin(rest, |x|)
    requires sm.lower.rowStart <= yc && sm.lower.rowStart + |sm.dvalues| <= y.Length
    requires yc + (if u.rowjmp != 0 then u.rowjmp else 1) <= sm.lower.rowStart + |sm.dvalues|
    requires Acc(before, Mem(y, tmp), yc + 1, 0.0, rest + DiagFrom(sm.dvalues[yc - sm.lower.rowStart..], yc + 1), all,
                 x, scale)
    modifies y, log
    ensures yc' == yc + (if u.rowjmp != 0 then u.rowjmp else 1)
    ensures pos' == pos + (if u.rowjmp != 0 then |VarInt(u.rowjmp)| else 0)
    ensures |Mem(y, tmp)| == |before| && log.Shows(Mem(y, tmp))
    ensures Acc(before, Mem(y, tmp), yc' + 1, 0.0, rest + DiagFrom(sm.dvalues[yc' - sm.lower.rowStart..], yc' + 1), all,
                x, scale)
  {
    hide Prod, Acc, Dot, ColsWithin, Mem, DiagFrom, VarInt, At, TestBit, Log.Shows;
    pos' := pos;
    if sm.lower.rowJumps {
      if TestBit(flags, CTL_RJMP_BIT) {
        var jmp;
        jmp, pos' := UlGet(sm.lower.ctl, pos, u.rowjmp);
        yc' := AddDiagonal(sm, x, y, scale, yc, jmp, tmp, log, before, rest, all);
      } else {
        yc' := AddDiagonal(sm, x, y, scale, yc, 1, tmp, log, before, rest, all);
      }
    } else {
      yc' := AddDiagonal(sm, x, y, scale, yc, 1, tmp, log, before, rest, all);
    }
  }

  /** Decodes the head of a unit.  A new row stores the pending sum and the diagonal, and sends
      mirror images to the local buffer again. */
  method SymDecodeHead(sm: CsxSym, x: seq<real>, y: array<real>, tmp: array<real>, cur0: array<real>, scale: real,
                       pos: nat, xc: nat, yc: nat, yr: real, ghost u: Unit, ghost more: seq<byte>,
                       ghost log: Log, ghost before: seq<real>, ghost rest: seq<Cell>, ghost all: seq<Cell>)
    returns (flags: byte, size: nat, cur: array<real>, pos': nat, xc': nat, yc': nat, yr': real)
    requires WellFormed(u, sm.lower.full) && (!sm.lower.rowJumps ==> u.rowjmp == 0)
    requires At(sm.lower.ctl, pos, UnitBytes(u, sm.lower.full) + more)
    requires LogOf(sm, log, y.Length)
    requires tmp.Length == y.Length == |x| && |Mem(y, tmp)| == |before| && log.Shows(Mem(y, tmp))
    requires ColsWithin(rest, |x|)
    requires sm.lower.rowStart <= yc < sm.lower.rowStart + |sm.dvalues| <= y.Length
    requires Start(u, Pos(yc + 1, xc), sm.lower.full).row <= sm.lower.rowStart + |sm.dvalues|
    requires Acc(before, Mem(y, tmp), yc + 1, yr, rest + DiagFrom(sm.dvalues[yc - sm.lower.rowStart..], yc + 1), all, x,
                 scale)
    modifies y, log
    ensures PatternBits(flags) == u.flag && size == u.size && cur == (if u.nr then tmp else cur0)
    ensures At(sm.lower.ctl, pos', DeltaBytes(u.deltas, Width(u)))
    ensures pos' + |DeltaBytes(u.deltas, Width(u))| == pos + |UnitBytes(u, sm.lower.full)|
    ensures Pos(yc' + 1, xc') == Start(u, Pos(yc + 1, xc), sm.lower.full)
    ensures |Mem(y, tmp)| == |before| && log.Shows(Mem(y, tmp))
    ensures yc' >= sm.lower.rowStart && yc' < sm.lower.rowStart + |sm.dvalues|
    ensures Acc(before, Mem(y, tmp), yc' + 1, yr', rest + DiagFrom(sm.dvalues[yc' - sm.lower.rowStart..], yc' + 1), all,
                x, scale)
  {
    hide FlagByte, TestBit, UnitBytes, At, WellFormed, Fits, DeltaBytes, VarInt, FixedInt, Acc, Mem, DiagFrom,
         ColsWithin, Dot, Log.Shows;
    ghost var m := sm.lower;
    UnitAt(m.ctl, pos, u, more, m.full);
    HeadFields(u, m.full);
    yc', xc', yr', pos', cur := yc, xc, yr, pos, cur0;
    flags := sm.lower.ctl[pos'];
    pos' := pos' + 1;
    size := sm.lower.ctl[pos'];
    pos' := pos' + 1;
    if TestBit(flags, CTL_NR_BIT) {
      MemLength(y, y, tmp, OwnPlace(sm, log));
      AccFlush(before, Mem(y, tmp), yc', yr', yc' + 1, rest + DiagFrom(sm.dvalues[yc - m.rowStart..], yc + 1), all, x,
               scale);
      AddTo(y, yc', yr', y, tmp, OwnPlace(sm, log));
      yc', pos' := SymNewRowHook(sm, flags, pos', yc', x, y, scale, u, tmp, log, before, rest, all);
      yr' := 0.0;
      xc' := 0;
      cur := tmp;
    }
    xc', pos' := NextX(sm.lower, pos', xc', u);
  }

  /** Dispatch on the pattern id of the unit. */
  method SymBodyHook(m: Csx, pattId: nat, pos: nat, size: nat, v: nat, x: seq<real>, xc: nat, y: array<real>,
                     cur: array<real>, yc: nat, scale: real, ghost tmp: array<real>, ghost g: Place, ghost u: Unit)
    returns (ret: real, v': nat, pos': nat, xc': nat)
    requires WellFormed(u, m.full) && size == u.size
    requires pattId < |m.idMap| && m.idMap[pattId] == u.pid
    requires At(m.ctl, pos, DeltaBytes(u.deltas, Width(u)))
    requires v + size <= |m.values| && |x| == y.Length && Target(cur, y, tmp, g) && g.log.Shows(Mem(y, tmp))
    requires OwnCells(UnitCells(u, Pos(yc + 1, xc), m.values[v..v + size], m.full), g)
    modifies y, cur, g.log
    ensures v' == v + size
    ensures pos' == pos + |DeltaBytes(u.deltas, Width(u))|
    ensures Pos(yc + 1, xc') == Leave(u, Pos(yc + 1, xc), m.full)
    ensures g.log.Shows(Mem(y, tmp))
    ensures Acc(old(Mem(y, tmp)), Mem(y, tmp), yc + 1, ret, [],
                Pairs(UnitCells(u, Pos(yc + 1, xc), m.values[v..v + size], m.full), g.base), x, scale)
  {
    hide Acc, Inside, RunCells, DeltaCells, Offset, Fits, DeltaBytes, At, Dot, Prod, Pairs, Mem, Log.Shows;
    OwnInside(UnitCells(u, Pos(yc + 1, xc), m.values[v..v + size], m.full), g, y.Length);
    FirstCell(u, yc + 1, xc, m.values[v..v + size], m.full, y.Length, y.Length);
    var pid: nat := m.idMap[pattId];
    var ty, dim := PidType(pid), PidDim(pid);
    if ty.None? {
      ret, v', pos', xc' := DeltaSymCase(dim / 8, m.ctl, pos, size, m.values, v, x, y, cur, xc, yc, scale, tmp, g,
                                         u.deltas);
    } else {
      NoDeltaBytes(Width(u));
      pos' := pos;
      if ty.IsBlock() {
        ret, v' := BlockSymCase(Inst(ty, dim), m.values, size, v, x, xc, y, cur, yc, scale, tmp, g);
        xc' := xc;
      } else {
        ret, v', xc' := LinearSymCase(Inst(ty, dim), m.values, size, v, x, xc, y, cur, yc, scale, tmp, g);
      }
    }
  }

  method LinearSymCase(inst: Instantiation, vals: seq<real>, size: nat, v: nat, x: seq<real>, xc: nat, y: array<real>,
                       cur: array<real>, yc: nat, scale: real, ghost tmp: array<real>, ghost g: Place)
    returns (ret: real, v': nat, xc': nat)
    requires inst.ty.IsOrder() && inst.dim >= 1 && size >= 1 && !inst.ty.IsBlock()
    requires Ready(inst, vals, v, size, x, y, cur, xc, yc, tmp, g) && xc < |x| && yc < |x|
    requires g.log.Shows(Mem(y, tmp))
    modifies y, cur, g.log
    ensures v' == v + size
    ensures xc' == if inst.ty.Horizontal? then xc + (size - 1) * inst.dim else xc
    ensures g.log.Shows(Mem(y, tmp))
    ensures Added(old(Mem(y, tmp)), Mem(y, tmp), inst, vals, v, size, xc, yc, g, ret, x, scale)
  {
    hide Added, Ready, RunCells, Offset, Mem, Log.Shows;
    var dim := inst.dim;
    xc' := xc;
    match inst.ty
    case Horizontal =>
      ret, v', xc' := HorizSymCase(size, dim, vals, v, x, y, cur, xc, yc, scale, tmp, g);
    case Vertical =>
      ret, v' := VertSymCase(size, dim, vals, v, x, y, cur, xc, yc, scale, tmp, g);
    case Diagonal =>
      ret, v' := DiagSymCase(size, dim, vals, v, x, y, cur, xc, yc, scale, tmp, g);
    case AntiDiagonal =>
      ret, v' := RDiagSymCase(size, dim, vals, v, x, y, cur, xc, yc, scale, tmp, g);
  }

  method BlockSymCase(inst: Instantiation, vals: seq<real>, size: nat, v: nat, x: seq<real>, xc: nat, y: array<real>,
                      cur: array<real>, yc: nat, scale: real, ghost tmp: array<real>, ghost g: Place)
    returns (ret: real, v': nat)
    requires inst.ty.IsOrder() && inst.ty.IsBlock() && size == inst.ty.Alignment() * inst.dim
    requires Ready(inst, vals, v, size, x, y, cur, xc, yc, tmp, g)
    requires g.log.Shows(Mem(y, tmp))
    modifies y, cur, g.log
    ensures v' == v + size
    ensures g.log.Shows(Mem(y, tmp))
    ensures Added(old(Mem(y, tmp)), Mem(y, tmp), inst, vals, v, size, xc, yc, g, ret, x, scale)
  {
    hide Added, Ready, RunCells, Offset, Mem, Log.Shows;
    var a, dim := inst.ty.Alignment(), inst.dim;
    if inst.ty.BlockRow? {
      assert inst == Inst(BlockRow(a), dim);
      ret, v' := BlockRowSymCase(a, dim, vals, v, x, y, cur, xc, yc, scale, tmp, g);
    } else {
      assert inst == Inst(BlockCol(a), dim);
      ret, v' := BlockColSymCase(dim, a, vals, v, x, y, cur, xc, yc, scale, tmp, g);
    }
  }

  /** The cells still to be visited lie in the partition's rows and not right of them. */
  predicate Within(cells: seq<Cell>, lo: nat, hi: nat) { RowsWithin(cells, lo + 1, hi) && ColsWithin(cells, hi) }

  lemma {:induction false} WithinConcat(a: seq<Cell>, b: seq<Cell>, lo: nat, hi: nat)
    requires Within(a + b, lo, hi)
    ensures Within(a, lo, hi) && Within(b, lo, hi)
  {
    assert forall i :: 0 <= i < |a| ==> a[i] == (a + b)[i];
    assert forall i :: 0 <= i < |b| ==> b[i] == (a + b)[|a| + i];
  }

  /** On one side of the boundary, cells and their mirror images are in the thread's place. */
  lemma {:induction false} WithinOwn(cells: seq<Cell>, lo: nat, hi: nat, n: nat, near: bool, log: Log)
    requires Within(cells, lo, hi) && OnSide(cells, lo, near) && hi <= n && (n == 0 ==> near || cells == [])
    ensures OwnCells(cells, Place(if near then 0 else n, lo, hi, log)) && Inside(cells, hi, hi) && Inside(cells, n, n)
  {
  }

  lemma {:induction false} PairsCols(cells: seq<Cell>, n: nat, lo: nat, hi: nat)
    requires Within(cells, lo, hi) && hi <= n
    ensures ColsWithin(AllPairs(cells, lo, n), n)
  {
  }

  lemma {:induction false} BytesHead(us: seq<Unit>, full: bool)
    requires us != [] && AllWellFormed(us, full)
    ensures AllWellFormed(us[1..], full) && Bytes(us, full) == UnitBytes(us[0], full) + Bytes(us[1..], full)
    ensures |UnitBytes(us[0], full)| >= 2
  {
    hide DeltaBytes, FixedInt, VarInt, FlagByte;
  }

  /** The state of the loop when the units `us` are still to be visited. */
  ghost predicate LoopState(sm: CsxSym, x: seq<real>, y: array<real>, tmp: array<real>, cur: array<real>, scale: real,
                            pos: nat, v: nat, xc: nat, yc: nat, yr: real,
                            us: seq<Unit>, near: bool, log: Log, before: seq<real>, all: seq<Cell>)
    reads y, tmp, log
  {
    var m, rs, n := sm.lower, sm.lower.rowStart, y.Length;
    && AllWellFormed(us, m.full) && At(m.ctl, pos, Bytes(us, m.full)) && pos + |Bytes(us, m.full)| == |m.ctl|
    && v + NrValues(us) == |m.values|
    && tmp.Length == n == |x| && (tmp == y ==> rs == 0) && |Mem(y, tmp)| == |before|
    && LogOf(sm, log, n) && log.Shows(Mem(y, tmp))
    && rs <= yc < rs + |sm.dvalues| <= n
    && cur == (if near then y else tmp)
    && var p, vals := Pos(yc + 1, xc), m.values[v..];
       && Sided(us, p, vals, m.full, rs, near)
       && Within(Run(us, p, vals, m.full), rs, rs + |sm.dvalues|)
       && Acc(before, Mem(y, tmp), yc + 1, yr,
              AllPairs(Run(us, p, vals, m.full), rs, n) + DiagFrom(sm.dvalues[yc - rs..], yc + 1), all, x, scale)
  }

  /** One round of the loop: head, choice of the target, kernel. */
  method SymDoUnit(sm: CsxSym, x: seq<real>, y: array<real>, tmp: array<real>, cur0: array<real>, scale: real, pos: nat,
                   v: nat, xc: nat, yc: nat, yr: real, ghost us: seq<Unit>, ghost near0: bool, ghost log: Log,
                   ghost before: seq<real>, ghost all: seq<Cell>)
    returns (cur: array<real>, pos': nat, v': nat, xc': nat, yc': nat, yr': real, ghost near: bool)
    requires us != []
    requires us[0].flag < |sm.lower.idMap| && sm.lower.idMap[us[0].flag] == us[0].pid
    requires !sm.lower.rowJumps ==> us[0].rowjmp == 0
    requires LoopState(sm, x, y, tmp, cur0, scale, pos, v, xc, yc, yr, us, near0, log, before, all)
    modifies y, tmp, log
    ensures LoopState(sm, x, y, tmp, cur, scale, pos', v', xc', yc', yr', us[1..], near, log, before, all)
    ensures pos' > pos
  {
    hide Acc, Inside, UnitCells, UnitBytes, At, WellFormed, AllWellFormed, Leave, Start, DeltaBytes, Sided, Mem,
         DiagFrom, AllPairs, Bytes, Run, Within, OnSide, Pairs, Dot, NrValues, ColsWithin, RowsWithin, Log.Shows;
    ghost var m, rs, n := sm.lower, sm.lower.rowStart, y.Length;
    ghost var lastRow := rs + |sm.dvalues|;
    ghost var u, p, vals := us[0], Pos(yc + 1, xc), m.values[v..];
    ghost var s := Start(u, p, m.full);
    SidedHead(us, p, vals, m.full, rs, near0);
    BytesHead(us, m.full);
    RunHead(us, p, vals, m.full);
    ghost var unit := UnitCells(u, s, vals[..u.size], m.full);
    ghost var rest := Run(us[1..], Next(u, p, m.full), vals[u.size..], m.full);
    ghost var todo := AllPairs(unit, rs, n) + AllPairs(rest, rs, n);
    assert vals[..u.size] == m.values[v..v + u.size] && vals[u.size..] == m.values[v + u.size..];
    AllPairsConcat(unit, rest, rs, n);
    WithinConcat(unit, rest, rs, lastRow);
    WithinOwn(unit, rs, lastRow, n, s.col >= rs, log);
    FirstCell(u, s.row, s.col, vals[..u.size], m.full, lastRow, lastRow);
    PairsCols(unit + rest, n, rs, lastRow);
    var flags, size;
    flags, size, cur, pos', xc', yc', yr' :=
      SymDecodeHead(sm, x, y, tmp, cur0, scale, pos, xc, yc, yr, u, Bytes(us[1..], m.full), log, before, todo, all);
    near := xc' >= rs;
    if cur != y && xc' >= sm.lower.rowStart {
      cur := y;
    }
    ghost var mid, pending, base := Mem(y, tmp), yr', if near then 0 else n;
    ghost var g := Place(base, rs, lastRow, log);
    ghost var diag := DiagFrom(sm.dvalues[yc' - rs..], yc' + 1);
    PairsOfSide(unit, rs, n, near);
    MemLength(y, y, tmp, OwnPlace(sm, log));
    var ret;
    ret, v', pos', xc' := SymBodyHook(sm.lower, PatternBits(flags), pos', size, v, x, xc', y, cur, yc', scale, tmp, g,
                                      u);
    assert todo + diag == AllPairs(unit, rs, n) + (AllPairs(rest, rs, n) + diag);
    PairsCols(rest, n, rs, lastRow);
    DiagCols(sm.dvalues[yc' - rs..], yc' + 1, n);
    ColsConcat(AllPairs(rest, rs, n), diag, n);
    AccUnit(before, mid, Mem(y, tmp), yc' + 1, pending, ret, AllPairs(unit, rs, n), AllPairs(rest, rs, n) + diag, all,
            x, scale);
    AfterUnit(m.ctl, pos, us, m.full);
    yr' := yr' + ret;
  }

  lemma {:induction false} ColsConcat(a: seq<Cell>, b: seq<Cell>, n: nat)
    requires ColsWithin(a, n) && ColsWithin(b, n)
    ensures ColsWithin(a + b, n)
  {
  }

  lemma {:induction false} AfterUnit(ctl: seq<byte>, pos: nat, us: seq<Unit>, full: bool)
    requires us != [] && AllWellFormed(us, full) && At(ctl, pos, Bytes(us, full))
    ensures AllWellFormed(us[1..], full)
    ensures At(ctl, pos + |UnitBytes(us[0], full)|, Bytes(us[1..], full))
    ensures |UnitBytes(us[0], full)| + |Bytes(us[1..], full)| == |Bytes(us, full)|
  {
    hide UnitBytes, At;
    AtSplit(ctl, pos, UnitBytes(us[0], full), Bytes(us[1..], full));
  }

  /** The generated routine: y and the local buffer get the products of the lower triangle, of
      its mirror image and of the diagonal. */
  method SpmCsxSymMultiply(sm: CsxSym, x: seq<real>, y: array<real>, tmp: array<real>, scale: real, ghost us: seq<Unit>,
                           ghost log: Log)
    requires log.start == Mem(y, tmp) && log.Shows(Mem(y, tmp)) && LogOf(sm, log, y.Length)
    requires Encodes(sm.lower, us) && us != []
    requires tmp.Length == y.Length == |x| && (tmp == y ==> sm.lower.rowStart == 0)
    requires |sm.dvalues| == sm.lower.nrows >= 1 && sm.lower.rowStart + sm.lower.nrows <= y.Length
    requires Sided(us, Pos(sm.lower.rowStart + 1, 0), sm.lower.values, sm.lower.full, sm.lower.rowStart, false)
    requires Within(Run(us, Pos(sm.lower.rowStart + 1, 0), sm.lower.values, sm.lower.full),
                    sm.lower.rowStart, sm.lower.rowStart + sm.lower.nrows)
    modifies y, tmp, log
    ensures log.Shows(Mem(y, tmp))
    ensures AddsProduct(old(Mem(y, tmp)), Mem(y, tmp),
                        AllPairs(Run(us, Pos(sm.lower.rowStart + 1, 0), sm.lower.values, sm.lower.full),
                                 sm.lower.rowStart, y.Length)
                        + DiagFrom(sm.dvalues, sm.lower.rowStart + 1), x, scale)
  {
    hide Acc, WellFormed, AllWellFormed, At, Next, Run, NrValues, Bytes, Encodes, Sided, Within, AllPairs, DiagFrom,
         Mem, AddsProduct, LoopState, Dot, Log.Shows;
    EncodesFacts(sm.lower, us);
    ghost var m, rs, n := sm.lower, sm.lower.rowStart, y.Length;
    ghost var before := Mem(y, tmp);
    ghost var all := AllPairs(Run(us, Pos(rs + 1, 0), m.values, m.full), rs, n) + DiagFrom(sm.dvalues, rs + 1);
    var pos: nat, v: nat, xc: nat, yc: nat, yr := 0, 0, 0, sm.lower.rowStart, 0.0;
    var cur := tmp;
    ghost var k, near := 0, false;
    LoopStart(sm, x, y, tmp, scale, us, log, all);
    assert us[0..] == us;
    while true
      invariant k < |us| && LoopState(sm, x, y, tmp, cur, scale, pos, v, xc, yc, yr, us[k..], near, log, before, all)
      decreases |us| - k
    {
      assert us[k..][1..] == us[k + 1..];
      cur, pos, v, xc, yc, yr, near := SymDoUnit(sm, x, y, tmp, cur, scale, pos, v, xc, yc, yr, us[k..], near, log,
                                                 before, all);
      k := k + 1;
      MoreUnits(sm, x, y, tmp, cur, scale, pos, v, xc, yc, yr, us[k..], near, log, before, all);
      if !(pos < |sm.lower.ctl|) {
        break;
      }
    }
    ghost var diag := DiagFrom(sm.dvalues[yc - rs..], yc + 1);
    MemLength(y, y, tmp, OwnPlace(sm, log));
    AccFlush(before, Mem(y, tmp), yc, yr, yc + 1, [] + diag, all, x, scale);
    AddTo(y, yc, yr, y, tmp, OwnPlace(sm, log));
    var yEnd := sm.lower.rowStart + sm.lower.nrows;
    yc := AddDiagonal(sm, x, y, scale, yc, yEnd - yc, tmp, log, before, [], all);
    NoDiagonal(sm.dvalues[yc - rs..], yc + 1);
    AccDone(before, Mem(y, tmp), yc + 1, all, x, scale);
  }

  lemma {:induction false} LoopStart(sm: CsxSym, x: seq<real>, y: array<real>, tmp: array<real>, scale: real,
                                     us: seq<Unit>, log: Log, all: seq<Cell>)
    requires Encodes(sm.lower, us) && us != [] && LogOf(sm, log, y.Length) && log.Shows(Mem(y, tmp))
    requires tmp.Length == y.Length == |x| && (tmp == y ==> sm.lower.rowStart == 0)
    requires |sm.dvalues| == sm.lower.nrows >= 1 && sm.lower.rowStart + sm.lower.nrows <= y.Length
    requires var m, p := sm.lower, Pos(sm.lower.rowStart + 1, 0);
             && Sided(us, p, m.values, m.full, m.rowStart, false)
             && Within(Run(us, p, m.values, m.full), m.rowStart, m.rowStart + m.nrows)
             && all == AllPairs(Run(us, p, m.values, m.full), m.rowStart, y.Length)
                  + DiagFrom(sm.dvalues, m.rowStart + 1)
    ensures LoopState(sm, x, y, tmp, tmp, scale, 0, 0, 0, sm.lower.rowStart, 0.0, us, false, log, Mem(y, tmp), all)
  {
    hide Acc, WellFormed, At, Next, Run, NrValues, Bytes, Sided, Within, AllPairs, DiagFrom, Mem, Dot, Log.Shows;
    var m, rs, n := sm.lower, sm.lower.rowStart, y.Length;
    WholeAt(m.ctl);
    assert m.values[0..] == m.values && sm.dvalues[0..] == sm.dvalues;
    var cells := Run(us, Pos(rs + 1, 0), m.values, m.full);
    PairsCols(cells, n, rs, rs + m.nrows);
    DiagCols(sm.dvalues, rs + 1, n);
    ColsConcat(AllPairs(cells, rs, n), DiagFrom(sm.dvalues, rs + 1), n);
    AccWhole(Mem(y, tmp), rs + 1, all, x, scale);
  }

  lemma {:induction false} AccWhole(now: seq<real>, row: int, all: seq<Cell>, x: seq<real>, scale: real)
    requires ColsWithin(all, |x|)
    ensures Acc(now, now, row, 0.0, all, all, x, scale)
  {
  }

  /** The loop goes on as long as there are units. */
  lemma {:induction false} MoreUnits(sm: CsxSym, x: seq<real>, y: array<real>, tmp: array<real>, cur: array<real>,
                                     scale: real, pos: nat, v: nat, xc: nat, yc: nat, yr: real, us: seq<Unit>,
                                     near: bool, log: Log, before: seq<real>, all: seq<Cell>)
    requires LoopState(sm, x, y, tmp, cur, scale, pos, v, xc, yc, yr, us, near, log, before, all)
    ensures pos < |sm.lower.ctl| <==> us != []
    ensures sm.lower.rowStart <= yc < sm.lower.rowStart + |sm.dvalues| && |Mem(y, tmp)| == |before|
    ensures log.Shows(Mem(y, tmp))
    ensures us == [] ==>
      Acc(before, Mem(y, tmp), yc + 1, yr, [] + DiagFrom(sm.dvalues[yc - sm.lower.rowStart..], yc + 1), all, x, scale)
  {
    hide Acc, Sided, Within, DiagFrom, Mem, Dot, Log.Shows;
    NothingLeft(us, sm.lower.full);
    if us == [] {
      var m := sm.lower;
      RunEmpty(us, Pos(yc + 1, xc), m.values[v..], m.full);
      assert AllPairs([], m.rowStart, y.Length) == [];
    }
  }

  lemma {:induction false} NoDiagonal(dvs: seq<real>, row: int)
    requires dvs == []
    ensures [] + DiagFrom(dvs, row) == []
  {
  }
}
