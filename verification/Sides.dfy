/** Units and the boundary between the columns of earlier partitions and those of the partition. */
module Sides {
  import opened Cells
  import opened Units

  /** All cells on one side of the boundary between the columns of earlier partitions and the
      partition's own. */
  predicate OnSide(cs: seq<Cell>, rs: nat, near: bool) {
    forall i :: 0 <= i < |cs| ==> (near <==> cs[i].col > rs)
  }

  /** No unit crosses the boundary, and within a row those before it come first. */
  predicate Sided(us: seq<Unit>, p: Pos, vals: seq<real>, full: bool, rs: nat, near: bool)
    requires AllWellFormed(us, full) && |vals| == NrValues(us)
  {
    us == [] ||
    (var u, s := us[0], Start(us[0], p, full);
     && OnSide(UnitCells(u, s, vals[..u.size], full), rs, s.col >= rs)
     && (!u.nr && near ==> s.col >= rs)
     && Sided(us[1..], Next(u, p, full), vals[u.size..], full, rs, s.col >= rs))
  }

  lemma {:induction false} SidedHead(us: seq<Unit>, p: Pos, vals: seq<real>, full: bool, rs: nat, near: bool)
    requires us != [] && AllWellFormed(us, full) && |vals| == NrValues(us) && Sided(us, p, vals, full, rs, near)
    ensures AllWellFormed(us[1..], full) && WellFormed(us[0], full) && NrValues(us) == us[0].size + NrValues(us[1..])
    ensures var u, s := us[0], Start(us[0], p, full);
            && OnSide(UnitCells(u, s, vals[..u.size], full), rs, s.col >= rs)
            && (!u.nr && near ==> s.col >= rs)
            && Sided(us[1..], Next(u, p, full), vals[u.size..], full, rs, s.col >= rs)
  {
  }

  lemma {:induction false} OnSideConcat(a: seq<Cell>, b: seq<Cell>, rs: nat, near: bool)
    requires OnSide(a + b, rs, near)
    ensures OnSide(a, rs, near) && OnSide(b, rs, near)
  {
    assert forall i :: 0 <= i < |a| ==> a[i] == (a + b)[i];
    assert forall i :: 0 <= i < |b| ==> b[i] == (a + b)[|a| + i];
  }

  /** The first cell of a unit. */
  lemma {:induction false} FirstOfUnit(u: Unit, s: Pos, vals: seq<real>, full: bool)
    requires WellFormed(u, full) && |vals| == u.size
    ensures var cs := UnitCells(u, s, vals, full); cs != [] && cs[0].row == s.row && cs[0].col == s.col + 1
  {
  }

  /** Units whose cells all lie on one side are sided. */
  lemma {:induction false} SideOfRun(us: seq<Unit>, p: Pos, vals: seq<real>, full: bool, rs: nat, near0: bool,
                                     near: bool)
    requires AllWellFormed(us, full) && |vals| == NrValues(us)
    requires OnSide(Run(us, p, vals, full), rs, near)
    requires near0 && !near && us != [] ==> us[0].nr
    ensures Sided(us, p, vals, full, rs, near0)
    decreases |us|
  {
    if us != [] {
      hide UnitCells, Start, Next, Run, OnSide, WellFormed;
      RunHead(us, p, vals, full);
      var u, s := us[0], Start(us[0], p, full);
      var unit, rest := UnitCells(u, s, vals[..u.size], full), Run(us[1..], Next(u, p, full), vals[u.size..], full);
      OnSideConcat(unit, rest, rs, near);
      FirstOfUnit(u, s, vals[..u.size], full);
      FirstSide(unit, rs, near);
      SideOfRun(us[1..], Next(u, p, full), vals[u.size..], full, rs, near, near);
    }
  }

  lemma {:induction false} FirstSide(cs: seq<Cell>, rs: nat, near: bool)
    requires OnSide(cs, rs, near) && cs != []
    ensures near <==> cs[0].col > rs
  {
  }

  /** The side of the last unit. */
  function LastSide(us: seq<Unit>, p: Pos, full: bool, rs: nat, near: bool): bool
    requires AllWellFormed(us, full)
  {
    if us == [] then near else LastSide(us[1..], Next(us[0], p, full), full, rs, Start(us[0], p, full).col >= rs)
  }

  lemma {:induction false} SidedCons(us: seq<Unit>, p: Pos, vals: seq<real>, full: bool, rs: nat, near: bool)
    requires us != [] && AllWellFormed(us, full) && |vals| == NrValues(us)
    requires var u, s := us[0], Start(us[0], p, full);
             && OnSide(UnitCells(u, s, vals[..u.size], full), rs, s.col >= rs)
             && (!u.nr && near ==> s.col >= rs)
             && Sided(us[1..], Next(u, p, full), vals[u.size..], full, rs, s.col >= rs)
    ensures Sided(us, p, vals, full, rs, near)
  {
  }

  lemma {:induction false} LastSideHead(us: seq<Unit>, p: Pos, full: bool, rs: nat, near: bool)
    requires us != [] && AllWellFormed(us, full)
    ensures LastSide(us, p, full, rs, near)
      == LastSide(us[1..], Next(us[0], p, full), full, rs, Start(us[0], p, full).col >= rs)
    ensures EndPos(us, p, full) == EndPos(us[1..], Next(us[0], p, full), full)
  {
  }

  /** Only the first unit of a row may go back over the boundary. */
  lemma {:induction false} SidedConcat(a: seq<Unit>, b: seq<Unit>, p: Pos, va: seq<real>, vb: seq<real>, full: bool,
                                       rs: nat, near: bool)
    requires AllWellFormed(a, full) && AllWellFormed(b, full) && |va| == NrValues(a) && |vb| == NrValues(b)
    requires Sided(a, p, va, full, rs, near)
    requires Sided(b, EndPos(a, p, full), vb, full, rs, LastSide(a, p, full, rs, near))
    ensures AllWellFormed(a + b, full) && |va + vb| == NrValues(a + b)
    ensures Sided(a + b, p, va + vb, full, rs, near)
    decreases |a|
  {
    NrValuesConcat(a, b);
    if a == [] {
      assert a + b == b && va + vb == vb;
    } else {
      var u := a[0];
      SidedHead(a, p, va, full, rs, near);
      LastSideHead(a, p, full, rs, near);
      hide UnitCells, Start, Next, OnSide, WellFormed, NrValues, Sided, EndPos, LastSide;
      Slices(a, b, 1);
      Slices(va, vb, u.size);
      SidedConcat(a[1..], b, Next(u, p, full), va[u.size..], vb, full, rs, Start(u, p, full).col >= rs);
      SidedCons(a + b, p, va + vb, full, rs, near);
    }
  }

  /** A unit whose first cell is in a later row starts a new row. */
  lemma {:induction false} FirstUnitNr(us: seq<Unit>, p: Pos, vals: seq<real>, full: bool, row: int)
    requires us != [] && AllWellFormed(us, full) && |vals| == NrValues(us)
    requires p.row < row && Run(us, p, vals, full) != [] && Run(us, p, vals, full)[0].row == row
    ensures us[0].nr
  {
    RunHead(us, p, vals, full);
    FirstOfUnit(us[0], Start(us[0], p, full), vals[..us[0].size], full);
  }

  /** Units for cells on one side behind sided units. */
  lemma {:induction false} SidedAppend(us: seq<Unit>, more: seq<Unit>, p: Pos, va: seq<real>, vb: seq<real>, full: bool,
                                       rs: nat, cells: seq<Cell>, near: bool)
    requires AllWellFormed(us, full) && AllWellFormed(more, full) && |va| == NrValues(us) && |vb| == NrValues(more)
    requires Sided(us, p, va, full, rs, false)
    requires AllWellFormed(us + more, full) && |va + vb| == NrValues(us + more)
    requires Run(us + more, p, va + vb, full) == Run(us, p, va, full) + cells && OnSide(cells, rs, near)
    requires LastSide(us, p, full, rs, false) && !near && more != [] ==> more[0].nr
    ensures Sided(us + more, p, va + vb, full, rs, false)
  {
    hide Sided, Run, LastSide, OnSide, WellFormed, EndPos, NrValues;
    RunConcat(us, more, p, va, vb, full);
    var q := EndPos(us, p, full);
    SameTail(Run(us, p, va, full), Run(more, q, vb, full), cells);
    SideOfRun(more, q, vb, full, rs, LastSide(us, p, full, rs, false), near);
    SidedConcat(us, more, p, va, vb, full, rs, false);
  }

  lemma {:induction false} SameTail<T>(a: seq<T>, b: seq<T>, c: seq<T>)
    requires a + b == a + c
    ensures b == c
  {
    assert b == (a + b)[|a|..] && c == (a + c)[|a|..];
  }

  /** Sides only depend on columns. */
  lemma {:induction false} SidedShift(us: seq<Unit>, p: Pos, q: Pos, vals: seq<real>, full: bool, rs: nat, near: bool)
    requires AllWellFormed(us, full) && |vals| == NrValues(us) && p.col == q.col
    requires Sided(us, p, vals, full, rs, near)
    ensures Sided(us, q, vals, full, rs, near)
    decreases |us|
  {
    if us != [] {
      var u, s, t := us[0], Start(us[0], p, full), Start(us[0], q, full);
      SidedHead(us, p, vals, full, rs, near);
      SameColumns(u, s, t, vals[..u.size], full, rs);
      SidedShift(us[1..], Next(u, p, full), Next(u, q, full), vals[u.size..], full, rs, s.col >= rs);
    }
  }

  lemma {:induction false} SameColumns(u: Unit, s: Pos, t: Pos, vals: seq<real>, full: bool, rs: nat)
    requires WellFormed(u, full) && |vals| == u.size && s.col == t.col
    ensures OnSide(UnitCells(u, s, vals, full), rs, s.col >= rs) ==>
      OnSide(UnitCells(u, t, vals, full), rs, s.col >= rs)
    ensures Leave(u, s, full).col == Leave(u, t, full).col
  {
    var a, b := UnitCells(u, s, vals, full), UnitCells(u, t, vals, full);
    forall i | 0 <= i < |a| ensures a[i].col == b[i].col {
    }
  }
}
