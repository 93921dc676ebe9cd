/** Units: what one entry of `ctl` denotes, between the compiler and the interpreters. */
module Units {
  import opened Encodings
  import opened Cells
  import opened Elements
  import opened CtlCodec

  /** `flag` is the CSX id standing for pattern id `pid`; `deltas` are the column steps after
      the first value of a delta unit. */
  datatype Unit = Unit(nr: bool, rowjmp: nat, flag: nat, pid: nat, size: nat, ucol: nat, deltas: seq<nat>)

  /** Where an interpreter stands: 1-based row of the partition, 0-based column. */
  datatype Pos = Pos(row: int, col: int)

  const ORIGIN: Pos := Pos(1, 0)

  predicate IsDelta(u: Unit) { u.pid < PATTERN_ID_OFFSET }

  function Width(u: Unit): nat { u.pid / 8 }

  function UnitInst(u: Unit): Instantiation
    requires u.pid < 21 * PATTERN_ID_OFFSET
  {
    Inst(PidType(u.pid), PidDim(u.pid))
  }

  predicate WellFormed(u: Unit, full: bool) {
    && u.flag < MAX_PATTERNS
    && 1 <= u.size <= CTL_SIZE_MAX
    && (u.rowjmp != 0 ==> u.nr)
    && (full ==> Fits(u.ucol, 4))
    && (IsDelta(u) ==>
          && (u.pid == 8 || u.pid == 16 || u.pid == 32 || u.pid == 64)
          && |u.deltas| == u.size - 1
          && forall i :: 0 <= i < |u.deltas| ==> Fits(u.deltas[i], Width(u)))
    && (!IsDelta(u) ==>
          && u.pid < 21 * PATTERN_ID_OFFSET
          && UnitInst(u).ty.IsOrder()
          && UnitInst(u).dim >= 1
          && u.deltas == []
          && (UnitInst(u).ty.IsBlock() ==> u.size == UnitInst(u).ty.Alignment() * UnitInst(u).dim))
  }

  predicate AllWellFormed(us: seq<Unit>, full: bool) {
    forall i :: 0 <= i < |us| ==> WellFormed(us[i], full)
  }

  // ----- Bytes -----

  function DeltaBytes(ds: seq<nat>, width: nat): seq<byte> {
    if ds == [] then [] else FixedInt(ds[0], width) + DeltaBytes(ds[1..], width)
  }

  lemma {:induction false} DeltaBytesSnoc(ds: seq<nat>, d: nat, width: nat)
    ensures DeltaBytes(ds + [d], width) == DeltaBytes(ds, width) + FixedInt(d, width)
  {
    if ds == [] {
      assert DeltaBytes([d], width) == FixedInt(d, width) + DeltaBytes([], width);
      assert ds + [d] == [d];
    } else {
      assert (ds + [d])[1..] == ds[1..] + [d];
      DeltaBytesSnoc(ds[1..], d, width);
    }
  }

  function UnitBytes(u: Unit, full: bool): seq<byte>
    requires WellFormed(u, full)
  {
    HeadBytes(u.nr, u.rowjmp, u.flag, u.size, u.ucol, 4, full) + DeltaBytes(u.deltas, Width(u))
  }

  function Bytes(us: seq<Unit>, full: bool): seq<byte>
    requires AllWellFormed(us, full)
  {
    if us == [] then [] else UnitBytes(us[0], full) + Bytes(us[1..], full)
  }

  lemma {:induction false} BytesConcat(a: seq<Unit>, b: seq<Unit>, full: bool)
    requires AllWellFormed(a, full) && AllWellFormed(b, full)
    ensures AllWellFormed(a + b, full)
    ensures Bytes(a + b, full) == Bytes(a, full) + Bytes(b, full)
  {
    if a == [] {
      assert a + b == b;
    } else {
      AllConcat(a, b, full);
      hide WellFormed, AllWellFormed, UnitBytes;
      assert (a + b)[1..] == a[1..] + b && (a + b)[0] == a[0];
      BytesConcat(a[1..], b, full);
    }
  }

  lemma {:induction false} AllConcat(a: seq<Unit>, b: seq<Unit>, full: bool)
    requires AllWellFormed(a, full) && AllWellFormed(b, full)
    ensures AllWellFormed(a + b, full)
    ensures a != [] ==> WellFormed(a[0], full) && AllWellFormed(a[1..], full)
  {
    hide WellFormed;
  }

  lemma {:induction false} BytesSnoc(us: seq<Unit>, u: Unit, full: bool)
    requires AllWellFormed(us, full) && WellFormed(u, full)
    ensures AllWellFormed(us + [u], full)
    ensures Bytes(us + [u], full) == Bytes(us, full) + UnitBytes(u, full)
  {
    hide WellFormed, UnitBytes;
    BytesConcat(us, [u], full);
    assert Bytes([u], full) == UnitBytes(u, full) + Bytes([], full);
  }

  // ----- Meaning -----

  function Sum(ds: seq<nat>): nat {
    if ds == [] then 0 else Sum(ds[..|ds| - 1]) + ds[|ds| - 1]
  }

  lemma {:induction false} SumNext(ds: seq<nat>, k: nat)
    requires k < |ds|
    ensures Sum(ds[..k + 1]) == Sum(ds[..k]) + ds[k]
  {
    assert ds[..k + 1][..k] == ds[..k];
  }

  /** Column (0-based) of the k-th value of a delta unit whose first one is at `col`. */
  function DeltaCol(ds: seq<nat>, col: int, k: nat): int
    requires k <= |ds|
  {
    col + Sum(ds[..k])
  }

  function DeltaCells(ds: seq<nat>, p: Pos, vals: seq<real>): (cs: seq<Cell>)
    requires |vals| <= |ds| + 1
    ensures |cs| == |vals|
  {
    seq(|vals|, k requires 0 <= k < |vals| => Cell(p.row, DeltaCol(ds, p.col, k) + 1, vals[k]))
  }

  /** Where the first value of the unit stands, coming from `p`. */
  function Start(u: Unit, p: Pos, full: bool): Pos {
    var row := if !u.nr then p.row else if u.rowjmp != 0 then p.row + u.rowjmp else p.row + 1;
    var col := if u.nr then 0 else p.col;
    Pos(row, if full then u.ucol else col + u.ucol)
  }

  /** Where the unit leaves the column: at its last value on this row if it is a delta or a
      horizontal unit, at its first value otherwise. */
  function Leave(u: Unit, s: Pos, full: bool): Pos
    requires WellFormed(u, full)
  {
    if IsDelta(u) then Pos(s.row, s.col + Sum(u.deltas))
    else if UnitInst(u).ty.Horizontal? then Pos(s.row, s.col + (u.size - 1) * UnitInst(u).dim)
    else s
  }

  function Next(u: Unit, p: Pos, full: bool): Pos
    requires WellFormed(u, full)
  {
    Leave(u, Start(u, p, full), full)
  }

  function UnitCells(u: Unit, s: Pos, vals: seq<real>, full: bool): (cs: seq<Cell>)
    requires WellFormed(u, full) && |vals| == u.size
    ensures |cs| == u.size
  {
    if IsDelta(u) then DeltaCells(u.deltas, s, vals)
    else RunCells(UnitInst(u), s.row, s.col + 1, vals)
  }

  function NrValues(us: seq<Unit>): nat {
    if us == [] then 0 else us[0].size + NrValues(us[1..])
  }

  /** The cells a list of units denotes, reading its values in order. */
  function Run(us: seq<Unit>, p: Pos, vals: seq<real>, full: bool): seq<Cell>
    requires AllWellFormed(us, full) && |vals| == NrValues(us)
  {
    if us == [] then [] else
      var u := us[0];
      UnitCells(u, Start(u, p, full), vals[..u.size], full) + Run(us[1..], Next(u, p, full), vals[u.size..], full)
  }

  lemma {:induction false} RunHead(us: seq<Unit>, p: Pos, vals: seq<real>, full: bool)
    requires us != [] && AllWellFormed(us, full) && |vals| == NrValues(us)
    ensures AllWellFormed(us[1..], full) && WellFormed(us[0], full) && NrValues(us) == us[0].size + NrValues(us[1..])
    ensures Run(us, p, vals, full)
         == UnitCells(us[0], Start(us[0], p, full), vals[..us[0].size], full)
          + Run(us[1..], Next(us[0], p, full), vals[us[0].size..], full)
  {
  }

  function EndPos(us: seq<Unit>, p: Pos, full: bool): Pos
    requires AllWellFormed(us, full)
  {
    if us == [] then p else EndPos(us[1..], Next(us[0], p, full), full)
  }

  lemma {:induction false} NrValuesConcat(a: seq<Unit>, b: seq<Unit>)
    ensures NrValues(a + b) == NrValues(a) + NrValues(b)
  {
    if a == [] {
      assert a + b == b;
    } else {
      assert (a + b)[1..] == a[1..] + b;
      NrValuesConcat(a[1..], b);
    }
  }

  lemma {:induction false} NrValuesSnoc(us: seq<Unit>, u: Unit)
    ensures NrValues(us + [u]) == NrValues(us) + u.size
  {
    NrValuesConcat(us, [u]);
    assert NrValues([u]) == u.size + NrValues([]);
  }

  lemma {:induction false} Slices<T>(a: seq<T>, b: seq<T>, n: nat)
    requires n <= |a|
    ensures (a + b)[..n] == a[..n] && (a + b)[n..] == a[n..] + b
    ensures a != [] ==> (a + b)[1..] == a[1..] + b && (a + b)[0] == a[0]
  {
  }

  lemma {:induction false} EndPosHead(us: seq<Unit>, p: Pos, full: bool)
    requires us != [] && AllWellFormed(us, full)
    ensures EndPos(us, p, full) == EndPos(us[1..], Next(us[0], p, full), full)
  {
  }

  lemma {:induction false} EndPosConcat(a: seq<Unit>, b: seq<Unit>, p: Pos, full: bool)
    requires AllWellFormed(a, full) && AllWellFormed(b, full)
    ensures AllWellFormed(a + b, full) && EndPos(a + b, p, full) == EndPos(b, EndPos(a, p, full), full)
    decreases |a|
  {
    if a == [] {
      assert a + b == b;
    } else {
      hide WellFormed, Next;
      assert (a + b)[1..] == a[1..] + b && (a + b)[0] == a[0];
      EndPosConcat(a[1..], b, Next(a[0], p, full), full);
    }
  }

  lemma {:induction false} EndPosSnoc(us: seq<Unit>, u: Unit, p: Pos, full: bool)
    requires AllWellFormed(us, full) && WellFormed(u, full)
    ensures AllWellFormed(us + [u], full)
    ensures EndPos(us + [u], p, full) == Next(u, EndPos(us, p, full), full)
  {
    hide WellFormed, Next;
    EndPosConcat(us, [u], p, full);
    EndPosHead([u], EndPos(us, p, full), full);
  }

  /** Running two lists of units one after the other. */
  lemma {:induction false} RunConcat(a: seq<Unit>, b: seq<Unit>, p: Pos, va: seq<real>, vb: seq<real>, full: bool)
    requires AllWellFormed(a, full) && AllWellFormed(b, full) && |va| == NrValues(a) && |vb| == NrValues(b)
    ensures AllWellFormed(a + b, full) && |va + vb| == NrValues(a + b)
    ensures Run(a + b, p, va + vb, full) == Run(a, p, va, full) + Run(b, EndPos(a, p, full), vb, full)
    decreases |a|
  {
    NrValuesConcat(a, b);
    if a == [] {
      NoUnits(a, p, va, full);
      hide Run, NrValues, EndPos, WellFormed;
      assert a + b == b && va + vb == vb;
    } else {
      var u := a[0];
      EndPosHead(a, p, full);
      RunHead(a, p, va, full);
      hide UnitCells, Start, Next, WellFormed, NrValues, Run, EndPos;
      Slices(a, b, 1);
      Slices(va, vb, u.size);
      var next := Next(u, p, full);
      RunConcat(a[1..], b, next, va[u.size..], vb, full);
      RunHead(a + b, p, va + vb, full);
      Assoc(UnitCells(u, Start(u, p, full), va[..u.size], full), Run(a[1..], next, va[u.size..], full),
            Run(b, EndPos(a[1..], next, full), vb, full));
    }
  }

  lemma {:induction false} Assoc<T>(a: seq<T>, b: seq<T>, c: seq<T>)
    ensures a + (b + c) == (a + b) + c
  {
  }

  lemma {:induction false} NoUnits(us: seq<Unit>, p: Pos, vals: seq<real>, full: bool)
    requires us == [] && AllWellFormed(us, full) && |vals| == NrValues(us)
    ensures vals == [] && Run(us, p, vals, full) == [] && EndPos(us, p, full) == p
  {
  }

  /** Appending a unit and its values appends its cells. */
  lemma {:induction false} RunSnoc(us: seq<Unit>, u: Unit, p: Pos, vals: seq<real>, more: seq<real>, full: bool)
    requires AllWellFormed(us, full) && WellFormed(u, full)
    requires |vals| == NrValues(us) && |more| == u.size
    ensures AllWellFormed(us + [u], full) && NrValues(us + [u]) == |vals + more|
    ensures Run(us + [u], p, vals + more, full)
         == Run(us, p, vals, full) + UnitCells(u, Start(u, EndPos(us, p, full), full), more, full)
  {
    OneUnit(u);
    hide UnitCells, Next, Start, Run, NrValues, WellFormed, EndPos;
    var q := EndPos(us, p, full);
    RunConcat(us, [u], p, vals, more, full);
    RunHead([u], q, more, full);
    NoUnits([u][1..], Next(u, q, full), more[u.size..], full);
    assert more[..u.size] == more;
  }

  lemma {:induction false} OneUnit(u: Unit)
    ensures NrValues([u]) == u.size
  {
    assert NrValues([u]) == u.size + NrValues([]);
  }

  /** Where the units and the values of a row start, and how many rows below it they reach. */
  datatype RowInfo = RowInfo(rowptr: nat, valptr: nat, span: nat)

  /** A compiled partition. */
  datatype Csx = Csx(ctl: seq<byte>, values: seq<real>, rowStart: nat, nrows: nat, ncols: nat,
                     idMap: seq<int>, rowJumps: bool, full: bool, rowsInfo: seq<RowInfo>)

  /** `m` is the byte form of the units `us`. */
  ghost predicate Encodes(m: Csx, us: seq<Unit>) {
    && AllWellFormed(us, m.full)
    && m.ctl == Bytes(us, m.full)
    && |m.values| == NrValues(us)
    && (forall i :: 0 <= i < |us| ==> us[i].flag < |m.idMap| && m.idMap[us[i].flag] == us[i].pid)
    && (!m.rowJumps ==> forall i :: 0 <= i < |us| ==> us[i].rowjmp == 0)
  }
}
