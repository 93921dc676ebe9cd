/** The units of a compiled partition row by row, and the table that finds them. */
module RowsInfo {
  import opened Encodings
  import opened Cells
  import opened Units

  /** The units of all rows, one after the other. */
  function Flat(blocks: seq<seq<Unit>>): seq<Unit> {
    if blocks == [] then [] else Flat(blocks[..|blocks| - 1]) + blocks[|blocks| - 1]
  }

  lemma {:induction false} FlatSnoc(blocks: seq<seq<Unit>>, b: seq<Unit>)
    ensures Flat(blocks + [b]) == Flat(blocks) + b
  {
    assert (blocks + [b])[..|blocks|] == blocks;
  }

  /** Start of a unit that is known to be on row p.row. */
  function StartIn(u: Unit, p: Pos, full: bool): Pos { Pos(p.row, if full then u.ucol else p.col + u.ucol) }

  /** The cells of the units of one row, whatever their new-row marks say. */
  function BlockRun(us: seq<Unit>, p: Pos, vals: seq<real>, full: bool): (cs: seq<Cell>)
    requires AllWellFormed(us, full) && |vals| == NrValues(us)
  {
    if us == [] then []
    else
      var s := StartIn(us[0], p, full);
      UnitCells(us[0], s, vals[..us[0].size], full) + BlockRun(us[1..], Leave(us[0], s, full), vals[us[0].size..], full)
  }

  lemma {:induction false} BlockRunLength(us: seq<Unit>, p: Pos, vals: seq<real>, full: bool)
    requires AllWellFormed(us, full) && |vals| == NrValues(us)
    ensures |BlockRun(us, p, vals, full)| == |vals|
  {
    if us != [] {
      hide UnitCells, Leave, WellFormed;
      BlockRunLength(us[1..], Leave(us[0], StartIn(us[0], p, full), full), vals[us[0].size..], full);
    }
  }

  lemma {:induction false} RunLengthIs(us: seq<Unit>, p: Pos, vals: seq<real>, full: bool)
    requires AllWellFormed(us, full) && |vals| == NrValues(us)
    ensures |Run(us, p, vals, full)| == |vals|
    decreases |us|
  {
    if us != [] {
      hide UnitCells, Next, Start, WellFormed;
      RunLengthIs(us[1..], Next(us[0], p, full), vals[us[0].size..], full);
    }
  }

  /** Only the first unit of a row is marked, unless it is the first of all. */
  predicate Marks(us: seq<Unit>, first: bool) {
    && (us != [] && !first ==> us[0].nr)
    && forall k :: 0 < k < |us| ==> !us[k].nr
  }

  /** Row of the k-th value of a unit, from the row of the unit. */
  function RowOffset(u: Unit, k: nat): int
    requires u.pid < 21 * PATTERN_ID_OFFSET
  {
    if IsDelta(u) then 0 else if UnitInst(u).ty.Valid() then Offset(UnitInst(u), k).row else 0
  }

  /** No value is more than `span` rows below the row of its unit. */
  predicate Spanned(us: seq<Unit>, span: nat) {
    forall k, j: nat :: 0 <= k < |us| && j < us[k].size && us[k].pid < 21 * PATTERN_ID_OFFSET ==>
      RowOffset(us[k], j) <= span
  }

  /** Row i of the table.  An empty row repeats the pointer of the row before it. */
  predicate RowInfoOk(infos: seq<RowInfo>, blocks: seq<seq<Unit>>, i: nat, full: bool)
    requires i < |infos| && i < |blocks| && AllWellFormed(Flat(blocks[..i]), full)
  {
    var before := Flat(blocks[..i]);
    if blocks[i] == [] then infos[i] == RowInfo(if i == 0 then 0 else infos[i - 1].rowptr, 0, 0)
    else
      && infos[i].rowptr == |Bytes(before, full)| && infos[i].valptr == NrValues(before)
      && Marks(blocks[i], before == []) && Spanned(blocks[i], infos[i].span)
      && Start(blocks[i][0], EndPos(before, ORIGIN, full), full).row == i + 1
  }

  /** All well-formed units, row by row. */
  predicate BlocksOk(blocks: seq<seq<Unit>>, full: bool) {
    forall i :: 0 <= i < |blocks| ==> AllWellFormed(blocks[i], full)
  }

  /** The table fits the units. */
  ghost predicate TableOk(infos: seq<RowInfo>, blocks: seq<seq<Unit>>, us: seq<Unit>, full: bool) {
    && |infos| == |blocks| && BlocksOk(blocks, full) && us == Flat(blocks)
    && forall i :: 0 <= i < |blocks| ==> AllWellFormed(Flat(blocks[..i]), full) && RowInfoOk(infos, blocks, i, full)
  }

  /** The table does not change when rows are added. */
  lemma {:induction false} TableSnoc(infos: seq<RowInfo>, blocks: seq<seq<Unit>>, us: seq<Unit>, full: bool,
                                     info: RowInfo, b: seq<Unit>)
    requires TableOk(infos, blocks, us, full) && AllWellFormed(b, full)
    requires AllWellFormed(us, full)
    requires b == [] ==> info == RowInfo(if |infos| == 0 then 0 else infos[|infos| - 1].rowptr, 0, 0)
    requires b != [] ==>
      && info.rowptr == |Bytes(us, full)| && info.valptr == NrValues(us) && Marks(b, us == []) && Spanned(b, info.span)
      && Start(b[0], EndPos(us, ORIGIN, full), full).row == |infos| + 1
    ensures TableOk(infos + [info], blocks + [b], us + b, full)
  {
    hide Marks, Spanned, Bytes, EndPos, NrValues, Start, AllWellFormed;
    var infos', blocks' := infos + [info], blocks + [b];
    FlatSnoc(blocks, b);
    forall i | 0 <= i < |blocks'|
      ensures AllWellFormed(Flat(blocks'[..i]), full) && RowInfoOk(infos', blocks', i, full)
    {
      assert blocks'[..i] == blocks[..i];
      if i == |blocks| {
        assert blocks[..i] == blocks;
      } else {
        assert RowInfoOk(infos, blocks, i, full);
      }
    }
  }

  // ----- Rows of the units -----

  lemma {:induction false} StartRow(u: Unit, p: Pos, full: bool)
    requires WellFormed(u, full)
    ensures Next(u, p, full).row == Start(u, p, full).row >= p.row
    ensures u.nr <==> Start(u, p, full).row > p.row
    ensures !u.nr || p.col == 0 ==> Start(u, p, full) == StartIn(u, Pos(Start(u, p, full).row, p.col), full)
    ensures u.nr ==> Start(u, p, full) == StartIn(u, Pos(Start(u, p, full).row, 0), full)
  {
  }

  lemma {:induction false} RowsGrow(us: seq<Unit>, p: Pos, full: bool)
    requires AllWellFormed(us, full)
    ensures EndPos(us, p, full).row >= p.row
    decreases |us|
  {
    if us != [] {
      hide WellFormed, Next, Start;
      StartRow(us[0], p, full);
      RowsGrow(us[1..], Next(us[0], p, full), full);
    }
  }

  /** Units that stay on a row are not marked, and their cells do not depend on marks. */
  lemma {:induction false} SameRow(us: seq<Unit>, p: Pos, vals: seq<real>, full: bool)
    requires AllWellFormed(us, full) && |vals| == NrValues(us) && EndPos(us, p, full).row == p.row
    ensures forall k :: 0 <= k < |us| ==> !us[k].nr
    ensures Run(us, p, vals, full) == BlockRun(us, p, vals, full)
    decreases |us|
  {
    if us != [] {
      hide WellFormed, Next, Start, UnitCells, Leave;
      var u := us[0];
      StartRow(u, p, full);
      RowsGrow(us[1..], Next(u, p, full), full);
      NextIs(u, p, full);
      SameRow(us[1..], Next(u, p, full), vals[u.size..], full);
      forall k | 0 <= k < |us| ensures !us[k].nr {
        assert k > 0 ==> us[k] == us[1..][k - 1];
      }
    }
  }

  lemma {:induction false} NextIs(u: Unit, p: Pos, full: bool)
    requires WellFormed(u, full)
    ensures Next(u, p, full) == Leave(u, Start(u, p, full), full)
  {
  }

  /** The units of a row: they start on it, so only the first may be marked. */
  lemma {:induction false} RowUnits(us: seq<Unit>, p: Pos, vals: seq<real>, full: bool, row: int)
    requires us != [] && AllWellFormed(us, full) && |vals| == NrValues(us)
    requires Start(us[0], p, full).row == row == EndPos(us, p, full).row && (p.row < row || p.col == 0)
    ensures Marks(us, p.row == row)
    ensures Run(us, p, vals, full) == BlockRun(us, Pos(row, 0), vals, full)
  {
    hide WellFormed, Next, Start, UnitCells, Leave, Run, EndPos;
    var u := us[0];
    StartRow(u, p, full);
    NextIs(u, p, full);
    EndPosHead(us, p, full);
    RunHead(us, p, vals, full);
    SameRow(us[1..], Next(u, p, full), vals[u.size..], full);
    forall k | 0 < k < |us| ensures !us[k].nr {
      assert us[k] == us[1..][k - 1];
    }
  }

  lemma {:induction false} UnitCellRow(u: Unit, s: Pos, vals: seq<real>, full: bool, k: nat)
    requires WellFormed(u, full) && |vals| == u.size && k < u.size
    ensures u.pid < 21 * PATTERN_ID_OFFSET && UnitCells(u, s, vals, full)[k].row == s.row + RowOffset(u, k)
    ensures UnitCells(u, s, vals, full)[k].val == vals[k]
  {
  }

  /** If no cell is below row + span, no value is. */
  lemma {:induction false} SpanFromCells(us: seq<Unit>, p: Pos, vals: seq<real>, full: bool, span: nat)
    requires AllWellFormed(us, full) && |vals| == NrValues(us)
    requires RowsWithin(BlockRun(us, p, vals, full), p.row, p.row + span)
    ensures Spanned(us, span)
    decreases |us|
  {
    if us != [] {
      hide WellFormed, UnitCells, Leave, RowOffset;
      var u, s := us[0], StartIn(us[0], p, full);
      var unit, rest :=
        UnitCells(u, s, vals[..u.size], full), BlockRun(us[1..], Leave(u, s, full), vals[u.size..], full);
      LeaveRow(u, s, full);
      RowsSplit(unit, rest, p.row, p.row + span);
      SpanFromCells(us[1..], Leave(u, s, full), vals[u.size..], full, span);
      forall k, j: nat | 0 <= k < |us| && j < us[k].size && us[k].pid < 21 * PATTERN_ID_OFFSET
        ensures RowOffset(us[k], j) <= span
      {
        if k == 0 {
          UnitCellRow(u, s, vals[..u.size], full, j);
        } else {
          assert us[k] == us[1..][k - 1];
        }
      }
    }
  }

  lemma {:induction false} LeaveRow(u: Unit, s: Pos, full: bool)
    requires WellFormed(u, full)
    ensures Leave(u, s, full).row == s.row
  {
  }

  lemma {:induction false} RowsSplit(a: seq<Cell>, b: seq<Cell>, lo: int, hi: int)
    requires RowsWithin(a + b, lo, hi)
    ensures RowsWithin(a, lo, hi) && RowsWithin(b, lo, hi)
  {
    assert forall i :: 0 <= i < |a| ==> a[i] == (a + b)[i];
    assert forall i :: 0 <= i < |b| ==> b[i] == (a + b)[|a| + i];
  }

  /** The units written for a row whose cells are `line`. */
  lemma {:induction false} BlockWritten(us: seq<Unit>, more: seq<Unit>, va: seq<real>, vb: seq<real>, done: seq<Cell>,
                                        line: seq<Cell>, row: int, span: nat, full: bool)
    requires AllWellFormed(us, full) && AllWellFormed(more, full) && |va| == NrValues(us) && |vb| == NrValues(more)
    requires AllWellFormed(us + more, full) && |va + vb| == NrValues(us + more)
    requires Run(us + more, ORIGIN, va + vb, full) == done + line && |done| == |va|
    requires line != [] && line[0].row == row && RowsWithin(line, row, row + span)
    requires (us == [] && row >= 1) || EndPos(us, ORIGIN, full).row < row
    requires EndPos(us + more, ORIGIN, full).row == row
    ensures more != [] && Marks(more, us == []) && Spanned(more, span)
    ensures Start(more[0], EndPos(us, ORIGIN, full), full).row == row
  {
    hide WellFormed, Next, Start, UnitCells, Leave, Run, EndPos, NrValues, Spanned, BlockRun, AllWellFormed;
    var p := EndPos(us, ORIGIN, full);
    RunConcat(us, more, ORIGIN, va, vb, full);
    RunLengthIs(us, ORIGIN, va, full);
    SplitSame(Run(us, ORIGIN, va, full), Run(more, p, vb, full), done, line);
    EndPosConcat(us, more, ORIGIN, full);
    if more == [] {
      NoUnits(more, p, vb, full);
      assert false;
    }
    WellFormedHead(more, full);
    RunHead(more, p, vb, full);
    FirstRow(more[0], Start(more[0], p, full), vb[..more[0].size], full);
    AtOrigin(us, full);
    RowUnits(more, p, vb, full, row);
    FirstMarked(more[0], p, full, row);
    SpanFromCells(more, Pos(row, 0), vb, full, span);
  }

  lemma {:induction false} FirstMarked(u: Unit, p: Pos, full: bool, row: int)
    requires WellFormed(u, full) && Start(u, p, full).row == row
    ensures p.row < row ==> u.nr
  {
  }

  lemma {:induction false} AtOrigin(us: seq<Unit>, full: bool)
    requires AllWellFormed(us, full)
    ensures us == [] ==> EndPos(us, ORIGIN, full) == ORIGIN
  {
  }

  lemma {:induction false} WellFormedHead(us: seq<Unit>, full: bool)
    requires AllWellFormed(us, full) && us != []
    ensures WellFormed(us[0], full) && AllWellFormed(us[1..], full)
  {
  }

  lemma {:induction false} FirstRow(u: Unit, s: Pos, vals: seq<real>, full: bool)
    requires WellFormed(u, full) && |vals| == u.size
    ensures UnitCells(u, s, vals, full) != [] && UnitCells(u, s, vals, full)[0].row == s.row
  {
  }

  lemma {:induction false} SplitSame(a: seq<Cell>, b: seq<Cell>, c: seq<Cell>, d: seq<Cell>)
    requires a + b == c + d && |a| == |c|
    ensures a == c && b == d
  {
    assert a == (a + b)[..|a|] == (c + d)[..|c|];
    assert b == (a + b)[|a|..] == (c + d)[|c|..];
  }
}
