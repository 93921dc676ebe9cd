/** Reading and writing entries of a matrix that is spread over compiled partitions. */
module CsxAccess {
  import opened Encodings
  import opened Cells
  import opened Elements
  import opened Units
  import opened RowsInfo
  import opened Kernels
  import opened CsxManager
  import opened SparsePartition
  import opened EncodingManager
  import opened CsxBuild
  import opened CsxSpmv
  import opened Partitions
  import opened MatVec
  import opened CsxGetSet

  /** The cells of a partition with the given values. */
  ghost function CellsWith(m: Csx, us: seq<Unit>, vals: seq<real>): seq<Cell>
    requires AllWellFormed(us, m.full) && |vals| == NrValues(us)
  {
    Run(us, Pos(m.rowStart + 1, 0), vals, m.full)
  }

  /** The cells of a partition where the search sees them: where they are, if the first row has
      units. */
  ghost function Seen(m: Csx, blocks: seq<seq<Unit>>, vals: seq<real>): seq<Cell>
    requires BlocksOk(blocks, m.full) && |vals| == NrValues(Flat(blocks))
  {
    SeenCells(blocks, vals, m.rowStart, |blocks|, m.full)
  }

  /** A partition the search can work on. */
  ghost predicate PartOk(m: Csx, us: seq<Unit>, blocks: seq<seq<Unit>>, vals: seq<real>) {
    && Searchable(m, us, blocks) && BlocksOk(blocks, m.full) && us == Flat(blocks)
    && |vals| == |m.values| == NrValues(us)
    && RowsWithin(Seen(m, blocks, vals), m.rowStart + 1, m.rowStart + m.nrows)
  }

  /** The first row has units, so that what is seen is true. */
  predicate StartsFull(blocks: seq<seq<Unit>>) { blocks != [] && blocks[0] != [] }

  /** Consecutive partitions, each with its own values. */
  ghost predicate MatrixOk(ms: seq<Csx>, values: seq<array<real>>, uss: seq<seq<Unit>>, blockss: seq<seq<seq<Unit>>>)
    reads values
  {
    && |ms| == |values| == |uss| == |blockss|
    && (forall i :: 0 <= i < |ms| ==> PartOk(ms[i], uss[i], blockss[i], values[i][..]))
    && (forall i, j :: 0 <= i < j < |values| ==> values[i] != values[j])
    && (forall i: nat :: i < |ms| ==> Follows(ms, i))
  }

  /** Partition i starts where the one before it ends. */
  predicate Follows(ms: seq<Csx>, i: nat)
    requires i < |ms|
  {
    ms[i].rowStart == if i == 0 then 0 else End(ms[i - 1])
  }

  /** Last row of a partition. */
  function End(m: Csx): nat { m.rowStart + m.nrows }

  /** What the search sees is what there is, if the first row has units. */
  lemma {:induction false} SeenIsTrue(m: Csx, us: seq<Unit>, blocks: seq<seq<Unit>>, vals: seq<real>)
    requires PartOk(m, us, blocks, vals)
    ensures AllWellFormed(us, m.full) && |Seen(m, blocks, vals)| == |vals| == NrValues(us)
    ensures StartsFull(blocks) <==> Seen(m, blocks, vals) == CellsWith(m, us, vals)
  {
    hide Searchable, BlocksOk, NrValues, Run, Flat, SeenCells, RowsWithin;
    SeenIsTrueIff(m, us, blocks, vals);
    SeenLength(blocks, vals, m.rowStart, |blocks|, m.full);
    assert blocks[..|blocks|] == blocks;
  }

  /** Nothing is seen above the first row. */
  lemma {:induction false} SeenFromFirst(blocks: seq<seq<Unit>>, vals: seq<real>, base: nat, n: nat, full: bool)
    requires BlocksOk(blocks, full) && n <= |blocks| && |vals| == NrValues(Flat(blocks))
    ensures forall k :: 0 <= k < |SeenCells(blocks, vals, base, n, full)| ==>
      SeenCells(blocks, vals, base, n, full)[k].row >= base + 1
    decreases n
  {
    hide NrValues, Flat, WellFormed, BlockRun;
    if n > 0 {
      SeenFromFirst(blocks, vals, base, n - 1, full);
      BlockFrom(blocks[n - 1], Pos(base + SeenRow(blocks, n - 1) + 1, 0), BlockVals(blocks, vals, n - 1), full);
    }
  }

  lemma {:induction false} BlockFrom(us: seq<Unit>, p: Pos, vals: seq<real>, full: bool)
    requires AllWellFormed(us, full) && |vals| == NrValues(us)
    ensures forall k :: 0 <= k < |BlockRun(us, p, vals, full)| ==> BlockRun(us, p, vals, full)[k].row >= p.row
    decreases |us|
  {
    hide UnitCells, WellFormed, BlockRun, NrValues, RowOffset;
    if us != [] {
      BlockHead(us, p, vals, full);
      var u, s := us[0], StartIn(us[0], p, full);
      BlockFrom(us[1..], Leave(u, s, full), vals[u.size..], full);
      forall k | 0 <= k < u.size ensures UnitCells(u, s, vals[..u.size], full)[k].row >= p.row {
        UnitCellRow(u, s, vals[..u.size], full, k);
        OffsetPositive(u, full, k);
      }
    } else {
      NoBlock(us, p, vals, full);
    }
  }

  /** Cells in the rows of the partition are seen there. */
  lemma {:induction false} SeenInside(m: Csx, us: seq<Unit>, blocks: seq<seq<Unit>>, vals: seq<real>)
    requires Searchable(m, us, blocks) && BlocksOk(blocks, m.full) && us == Flat(blocks) && AllWellFormed(us, m.full)
    requires |vals| == NrValues(us)
    requires RowsWithin(CellsWith(m, us, vals), m.rowStart + 1, m.rowStart + m.nrows)
    ensures RowsWithin(Seen(m, blocks, vals), m.rowStart + 1, m.rowStart + m.nrows)
  {
    hide Searchable, BlocksOk, NrValues, Run, Flat, SeenCells;
    var b := SeenExactly(m, us, blocks, vals);
    SeenFromFirst(blocks, vals, m.rowStart, |blocks|, m.full);
  }

  /** A cell outside the rows of the partition is not in it. */
  lemma {:induction false} NotHere(m: Csx, us: seq<Unit>, blocks: seq<seq<Unit>>, vals: seq<real>, row: int, col: int)
    requires PartOk(m, us, blocks, vals) && (row <= m.rowStart || row > End(m))
    ensures NoneAt(Seen(m, blocks, vals), row, col)
  {
    hide BlocksOk, NrValues, SeenCells, Flat;
  }

  /** One partition: afterwards it is as before, or one cell has a new value. */
  method AccessPart(m: Csx, values: array<real>, row: int, col: int, value: real, mode: bool, ghost us: seq<Unit>,
                    ghost blocks: seq<seq<Unit>>)
    returns (found: bool, value': real, at: nat)
    requires PartOk(m, us, blocks, values[..]) && m.rowStart < row <= End(m)
    modifies values
    ensures PartOk(m, us, blocks, values[..]) && values.Length == NrValues(Flat(blocks)) && BlocksOk(blocks, m.full)
    ensures !found ==>
      NoneAt(old(Seen(m, blocks, values[..])), row, col) && values[..] == old(values[..]) && value' == value
    ensures found ==> at < |old(Seen(m, blocks, values[..]))| && IsAt(old(Seen(m, blocks, values[..]))[at], row, col)
    ensures found && !mode ==> values[..] == old(values[..]) && value' == old(Seen(m, blocks, values[..]))[at].val
    ensures found && mode ==> value' == value
                              && Seen(m, blocks, values[..])
                                   == old(Seen(m, blocks, values[..]))[at := Cell(row, col, value)]
  {
    hide PartOk, SeenCells, Searchable, BlocksOk, Flat, NrValues, Run;
    PartFacts(m, us, blocks, values[..]);
    ghost var vals := values[..];
    found, value', at := SearchValue(m, values, row, col, value, mode, us, blocks);
    if found {
      SetChangesOne(blocks, vals, m.rowStart, m.full, at, value);
      if mode {
        StillOk(m, us, blocks, vals, at, value);
      }
    }
  }

  lemma {:induction false} PartFacts(m: Csx, us: seq<Unit>, blocks: seq<seq<Unit>>, vals: seq<real>)
    requires PartOk(m, us, blocks, vals)
    ensures Searchable(m, us, blocks) && BlocksOk(blocks, m.full) && us == Flat(blocks)
    ensures |vals| == |m.values| == NrValues(Flat(blocks))
    ensures AllWellFormed(us, m.full) && |vals| == NrValues(us)
  {
  }

  lemma {:induction false} StillOk(m: Csx, us: seq<Unit>, blocks: seq<seq<Unit>>, vals: seq<real>, at: nat, value: real)
    requires PartOk(m, us, blocks, vals) && at < |vals|
    ensures PartOk(m, us, blocks, vals[at := value])
  {
    hide SeenCells, Searchable, BlocksOk, Flat, NrValues, Run;
    PartFacts(m, us, blocks, vals);
    SetChangesOne(blocks, vals, m.rowStart, m.full, at, value);
  }

  /** Where the first row of a partition has units, its cells are seen where they are. */
  ghost predicate TrueWhereFull(ms: seq<Csx>, values: seq<array<real>>, uss: seq<seq<Unit>>,
                                blockss: seq<seq<seq<Unit>>>)
    reads values
    requires |ms| == |values| == |uss| == |blockss|
    requires forall i :: 0 <= i < |ms| ==>
      BlocksOk(blockss[i], ms[i].full) && values[i].Length == NrValues(Flat(blockss[i]))
  {
    forall i :: 0 <= i < |ms| && StartsFull(blockss[i]) ==>
      AllWellFormed(uss[i], ms[i].full) && values[i].Length == NrValues(uss[i])
      && Seen(ms[i], blockss[i], values[i][..]) == CellsWith(ms[i], uss[i], values[i][..])
  }

  lemma {:induction false} AllTrue(ms: seq<Csx>, values: seq<array<real>>, uss: seq<seq<Unit>>,
                                   blockss: seq<seq<seq<Unit>>>)
    requires |ms| == |values| == |uss| == |blockss|
    requires forall i :: 0 <= i < |ms| ==>
      BlocksOk(blockss[i], ms[i].full) && values[i].Length == NrValues(Flat(blockss[i]))
    requires forall i :: 0 <= i < |ms| ==> Searchable(ms[i], uss[i], blockss[i])
    ensures TrueWhereFull(ms, values, uss, blockss)
  {
    hide SeenCells, Searchable, BlocksOk, Flat, NrValues, Run;
    forall i | 0 <= i < |ms| && StartsFull(blockss[i])
      ensures AllWellFormed(uss[i], ms[i].full) && values[i].Length == NrValues(uss[i])
      ensures Seen(ms[i], blockss[i], values[i][..]) == CellsWith(ms[i], uss[i], values[i][..])
    {
      SeenIsTrueIff(ms[i], uss[i], blockss[i], values[i][..]);
    }
  }

  lemma {:induction false} PartsSearchable(ms: seq<Csx>, values: seq<array<real>>, uss: seq<seq<Unit>>,
                                           blockss: seq<seq<seq<Unit>>>)
    requires MatrixOk(ms, values, uss, blockss)
    ensures forall i :: 0 <= i < |ms| ==>
      BlocksOk(blockss[i], ms[i].full) && values[i].Length == NrValues(Flat(blockss[i]))
    ensures forall i :: 0 <= i < |ms| ==> Searchable(ms[i], uss[i], blockss[i])
  {
    hide Searchable, BlocksOk, Flat, NrValues, Seen;
    forall i | 0 <= i < |ms|
      ensures BlocksOk(blockss[i], ms[i].full) && values[i].Length == NrValues(Flat(blockss[i]))
      ensures Searchable(ms[i], uss[i], blockss[i])
    {
      PartFacts(ms[i], uss[i], blockss[i], values[i][..]);
    }
  }

  /** Finds the partition of the row, and reads or writes the entry there. */
  method AccessCsx(ms: seq<Csx>, values: seq<array<real>>, row: int, col: int, value: real, mode: bool,
                   ghost uss: seq<seq<Unit>>, ghost blockss: seq<seq<seq<Unit>>>)
    returns (found: bool, value': real, part: nat, at: nat)
    requires MatrixOk(ms, values, uss, blockss) && row >= 1
    modifies values
    ensures MatrixOk(ms, values, uss, blockss)
    ensures forall i :: 0 <= i < |ms| ==>
      BlocksOk(blockss[i], ms[i].full) && values[i].Length == NrValues(Flat(blockss[i]))
    ensures !found ==> value' == value && forall i :: 0 <= i < |ms| ==>
      values[i][..] == old(values[i][..]) && NoneAt(old(Seen(ms[i], blockss[i], values[i][..])), row, col)
    ensures found ==> part < |ms| && (forall i :: 0 <= i < |ms| && i != part ==> values[i][..] == old(values[i][..]))
    ensures found ==> at < |old(Seen(ms[part], blockss[part], values[part][..]))|
                      && IsAt(old(Seen(ms[part], blockss[part], values[part][..]))[at], row, col)
    ensures found && !mode ==>
      values[part][..] == old(values[part][..])
        && value' == old(Seen(ms[part], blockss[part], values[part][..]))[at].val
    ensures found && mode ==>
      Seen(ms[part], blockss[part], values[part][..])
        == old(Seen(ms[part], blockss[part], values[part][..]))[at := Cell(row, col, value)]
  {
    hide PartOk, Seen, NoneAt, IsAt, NrValues, BlocksOk, Flat;
    found, value', part, at := false, value, 0, 0;
    forall i | 0 <= i < |ms|
      ensures BlocksOk(blockss[i], ms[i].full) && values[i].Length == NrValues(Flat(blockss[i]))
    {
      PartFacts(ms[i], uss[i], blockss[i], values[i][..]);
    }
    var i := 0;
    while i < |ms|
      invariant i <= |ms| && (i > 0 ==> row > End(ms[i - 1]))
      invariant forall k :: 0 <= k < i ==> row > End(ms[k])
      invariant forall k :: 0 <= k < |ms| ==> values[k][..] == old(values[k][..])
      invariant MatrixOk(ms, values, uss, blockss)
    {
      assert Follows(ms, i);
      if row <= ms[i].rowStart + ms[i].nrows {
        found, value', at := AccessPart(ms[i], values[i], row, col, value, mode, uss[i], blockss[i]);
        part := i;
        OtherParts(ms, row, i);
        forall k | 0 <= k < |ms| && k != i
          ensures values[k][..] == old(values[k][..]) && NoneAt(Seen(ms[k], blockss[k], values[k][..]), row, col)
        {
          assert values[k] != values[i];
          NotHere(ms[k], uss[k], blockss[k], values[k][..], row, col);
        }
        return;
      }
      i := i + 1;
    }
    forall k | 0 <= k < |ms| ensures NoneAt(Seen(ms[k], blockss[k], values[k][..]), row, col) {
      NotHere(ms[k], uss[k], blockss[k], values[k][..], row, col);
    }
  }

  /** Partitions behind the one with the row start below it. */
  lemma {:induction false} OtherParts(ms: seq<Csx>, row: int, i: nat)
    requires i < |ms| && row <= End(ms[i]) && forall k: nat :: k < |ms| ==> Follows(ms, k)
    ensures forall k :: i < k < |ms| ==> row <= ms[k].rowStart
  {
    var j := i + 1;
    while j < |ms|
      invariant i < j <= |ms| && forall k :: i < k < j ==> row <= ms[k].rowStart
    {
      assert Follows(ms, j);
      j := j + 1;
    }
  }

  method GetValueCsx(ms: seq<Csx>, values: seq<array<real>>, row: int, col: int, value: real,
                     ghost uss: seq<seq<Unit>>, ghost blockss: seq<seq<seq<Unit>>>)
    returns (found: bool, value': real)
    requires MatrixOk(ms, values, uss, blockss) && row >= 1
    modifies values
    ensures MatrixOk(ms, values, uss, blockss) && forall i :: 0 <= i < |ms| ==> values[i][..] == old(values[i][..])
    ensures forall i :: 0 <= i < |ms| ==>
      BlocksOk(blockss[i], ms[i].full) && values[i].Length == NrValues(Flat(blockss[i]))
    ensures TrueWhereFull(ms, values, uss, blockss)
    ensures !found ==> value' == value && forall i :: 0 <= i < |ms| ==>
      NoneAt(Seen(ms[i], blockss[i], values[i][..]), row, col)
    ensures found ==> exists i :: 0 <= i < |ms| && Cell(row, col, value') in Seen(ms[i], blockss[i], values[i][..])
  {
    hide PartOk, Seen, NoneAt, NrValues, BlocksOk, Flat, Searchable, TrueWhereFull;
    var part, at;
    found, value', part, at := AccessCsx(ms, values, row, col, value, false, uss, blockss);
    PartsSearchable(ms, values, uss, blockss);
    AllTrue(ms, values, uss, blockss);
    if found {
      ghost var cells := Seen(ms[part], blockss[part], values[part][..]);
      assert cells[at] == Cell(row, col, value');
    }
  }

  method SetValueCsx(ms: seq<Csx>, values: seq<array<real>>, row: int, col: int, value: real,
                     ghost uss: seq<seq<Unit>>, ghost blockss: seq<seq<seq<Unit>>>)
    returns (found: bool, ghost part: nat, ghost at: nat)
    requires MatrixOk(ms, values, uss, blockss) && row >= 1
    modifies values
    ensures MatrixOk(ms, values, uss, blockss)
    ensures forall i :: 0 <= i < |ms| ==>
      BlocksOk(blockss[i], ms[i].full) && values[i].Length == NrValues(Flat(blockss[i]))
    ensures TrueWhereFull(ms, values, uss, blockss)
    ensures !found ==> forall i :: 0 <= i < |ms| ==>
      values[i][..] == old(values[i][..]) && NoneAt(Seen(ms[i], blockss[i], values[i][..]), row, col)
    ensures found ==> part < |ms| && (forall i :: 0 <= i < |ms| && i != part ==> values[i][..] == old(values[i][..]))
    ensures found ==> at < |old(Seen(ms[part], blockss[part], values[part][..]))|
    ensures found ==> IsAt(old(Seen(ms[part], blockss[part], values[part][..]))[at], row, col)
    ensures found ==>
      Seen(ms[part], blockss[part], values[part][..])
        == old(Seen(ms[part], blockss[part], values[part][..]))[at := Cell(row, col, value)]
  {
    hide PartOk, Seen, NoneAt, IsAt, NrValues, BlocksOk, Flat, Searchable, TrueWhereFull;
    var value';
    found, value', part, at := AccessCsx(ms, values, row, col, value, true, uss, blockss);
    PartsSearchable(ms, values, uss, blockss);
    AllTrue(ms, values, uss, blockss);
  }

  // ----- Symmetric matrices -----

  /** What the symmetric routines need to run at all. */
  ghost predicate SymMatrixOk(ms: seq<Csx>, values: seq<array<real>>, dvalues: seq<array<real>>, uss: seq<seq<Unit>>,
                              blockss: seq<seq<seq<Unit>>>) {
    && |ms| == |values| == |dvalues| == |uss| == |blockss|
    && (forall i: nat :: i < |ms| ==> Follows(ms, i))
    && (forall i :: 0 <= i < |ms| ==>
          && Searchable(ms[i], uss[i], blockss[i]) && BlocksOk(blockss[i], ms[i].full)
          && dvalues[i].Length == ms[i].nrows
          && values[i].Length == |ms[i].values| == NrValues(Flat(blockss[i])))
  }

  /** The partition of a row. */
  predicate Holds(ms: seq<Csx>, i: nat, row: int) { i < |ms| && ms[i].rowStart < row <= End(ms[i]) }

  method FindPart(ms: seq<Csx>, row: int) returns (i: nat)
    requires row >= 1 && forall k: nat :: k < |ms| ==> Follows(ms, k)
    ensures i < |ms| ==> Holds(ms, i, row)
    ensures i >= |ms| ==> forall k :: 0 <= k < |ms| ==> row > End(ms[k])
  {
    i := 0;
    while i < |ms|
      invariant i <= |ms| && forall k :: 0 <= k < i ==> row > End(ms[k])
    {
      assert Follows(ms, i);
      if row <= ms[i].rowStart + ms[i].nrows {
        return;
      }
      i := i + 1;
    }
  }

  /** An entry above the diagonal is looked up below it.  On the diagonal the entry itself is
      returned as the truth value, and `value` is left alone: the call succeeds exactly when the
      entry is not zero, and never delivers it. */
  method GetValueCsxSym(ms: seq<Csx>, values: seq<array<real>>, dvalues: seq<array<real>>, row0: int, col0: int,
                        value: real, ghost uss: seq<seq<Unit>>, ghost blockss: seq<seq<seq<Unit>>>)
    returns (found: bool, value': real)
    requires SymMatrixOk(ms, values, dvalues, uss, blockss) && row0 >= 1 && col0 >= 1
    modifies values
    ensures forall i :: 0 <= i < |ms| ==>
      BlocksOk(blockss[i], ms[i].full) && values[i].Length == NrValues(Flat(blockss[i]))
    ensures TrueWhereFull(ms, values, uss, blockss)
    ensures row0 == col0 ==> value' == value
    ensures row0 == col0 ==>
      (found <==> exists i: nat :: Holds(ms, i, row0) && dvalues[i][row0 - ms[i].rowStart - 1] != 0.0)
    ensures row0 != col0 ==>
      var row, col := if row0 < col0 then col0 else row0, if row0 < col0 then row0 else col0;
      && (found ==> exists i: nat ::
            Holds(ms, i, row) && Cell(row, col, value') in Seen(ms[i], blockss[i], values[i][..]))
      && (!found ==> value' == value && forall i: nat :: Holds(ms, i, row) ==>
            NoneAt(Seen(ms[i], blockss[i], values[i][..]), row, col))
  {
    hide NoneAt, SeenCells, Searchable, BlocksOk, Flat, NrValues, TrueWhereFull;
    AllTrue(ms, values, uss, blockss);
    var row, col := row0, col0;
    if row < col {
      row, col := col, row;
    }
    found, value' := false, value;
    var i := FindPart(ms, row);
    if i < |ms| {
      OnePart(ms, i, row);
      if row == col {
        return dvalues[i][row - ms[i].rowStart - 1] != 0.0, value;
      }
      var at;
      ghost var vals := values[i][..];
      found, value', at := SearchValue(ms[i], values[i], row, col, value, false, uss[i], blockss[i]);
      if found {
        SetChangesOne(blockss[i], vals, ms[i].rowStart, ms[i].full, at, 0.0);
        assert Seen(ms[i], blockss[i], vals)[at] == Cell(row, col, value');
      }
    }
    AllTrue(ms, values, uss, blockss);
  }

  /** Each partition has arrays of its own. */
  ghost predicate AllDifferent(values: seq<array<real>>, dvalues: seq<array<real>>) {
    && (forall i, j :: 0 <= i < j < |values| ==> values[i] != values[j])
    && (forall i, j :: 0 <= i < j < |dvalues| ==> dvalues[i] != dvalues[j])
    && (forall i, j :: 0 <= i < |values| && 0 <= j < |dvalues| ==> values[i] != dvalues[j])
  }

  /** Sets an entry and its mirror image, which are one value; unlike reading, this also works
      on the diagonal, where the entry is always there. */
  method SetValueCsxSym(ms: seq<Csx>, values: seq<array<real>>, dvalues: seq<array<real>>, row0: int, col0: int,
                        value: real, ghost uss: seq<seq<Unit>>, ghost blockss: seq<seq<seq<Unit>>>)
    returns (found: bool, ghost part: nat, ghost at: nat)
    requires SymMatrixOk(ms, values, dvalues, uss, blockss) && AllDifferent(values, dvalues) && row0 >= 1 && col0 >= 1
    modifies values, dvalues
    ensures forall i :: 0 <= i < |ms| ==>
      BlocksOk(blockss[i], ms[i].full) && values[i].Length == NrValues(Flat(blockss[i]))
    ensures TrueWhereFull(ms, values, uss, blockss)
    ensures row0 == col0 ==> (found <==> exists i: nat :: Holds(ms, i, row0))
    ensures row0 == col0 ==> forall i: nat :: i < |ms| ==>
      && values[i][..] == old(values[i][..])
      && dvalues[i][..] == if Holds(ms, i, row0) then old(dvalues[i][..])[row0 - ms[i].rowStart - 1 := value]
                           else old(dvalues[i][..])
    ensures row0 != col0 ==> forall i :: 0 <= i < |ms| ==> dvalues[i][..] == old(dvalues[i][..])
    ensures row0 != col0 ==>
      var row, col := if row0 < col0 then col0 else row0, if row0 < col0 then row0 else col0;
      && (!found ==> forall i: nat :: i < |ms| ==>
            && values[i][..] == old(values[i][..])
            && (Holds(ms, i, row) ==> NoneAt(Seen(ms[i], blockss[i], values[i][..]), row, col)))
      && (found ==>
            && Holds(ms, part, row) && (forall i :: 0 <= i < |ms| && i != part ==> values[i][..] == old(values[i][..]))
            && var seen := Seen(ms[part], blockss[part], old(values[part][..]));
            && at < |seen| && IsAt(seen[at], row, col)
            && Seen(ms[part], blockss[part], values[part][..])
               == seen[at := Cell(row, col, value)])
  {
    hide NoneAt, SeenCells, Searchable, BlocksOk, Flat, NrValues, TrueWhereFull;
    var row, col := row0, col0;
    if row < col {
      row, col := col, row;
    }
    found, part, at := false, 0, 0;
    var i := FindPart(ms, row);
    if i < |ms| {
      OnePart(ms, i, row);
      if row == col {
        dvalues[i][row - ms[i].rowStart - 1] := value;
        AllTrue(ms, values, uss, blockss);
        return true, i, 0;
      }
      ghost var vals := values[i][..];
      var value', at';
      found, value', at' := SearchValue(ms[i], values[i], row, col, value, true, uss[i], blockss[i]);
      part, at := i, at';
      if found {
        SetChangesOne(blockss[i], vals, ms[i].rowStart, ms[i].full, at, value);
      }
    }
    AllTrue(ms, values, uss, blockss);
  }

  lemma {:induction false} OnePart(ms: seq<Csx>, i: nat, row: int)
    requires Holds(ms, i, row) && forall k: nat :: k < |ms| ==> Follows(ms, k)
    ensures forall k: nat :: Holds(ms, k, row) ==> k == i
  {
    forall k: nat | Holds(ms, k, row) ensures k == i {
      if k < i {
        EndsBefore(ms, k, i);
      } else if i < k {
        EndsBefore(ms, i, k);
      }
    }
  }

  lemma {:induction false} EndsBefore(ms: seq<Csx>, i: nat, k: nat)
    requires i < k < |ms| && forall q: nat :: q < |ms| ==> Follows(ms, q)
    ensures End(ms[i]) <= ms[k].rowStart
    decreases k
  {
    assert Follows(ms, k);
    if i < k - 1 {
      EndsBefore(ms, i, k - 1);
    }
  }

  /** No cell is above the row the first unit starts on. */
  lemma {:induction false} RunFromRow(us: seq<Unit>, p: Pos, vals: seq<real>, full: bool, row: int)
    requires AllWellFormed(us, full) && |vals| == NrValues(us) && (us != [] ==> row <= Start(us[0], p, full).row)
    ensures forall k :: 0 <= k < |Run(us, p, vals, full)| ==> Run(us, p, vals, full)[k].row >= row
    decreases |us|
  {
    if us != [] {
      hide WellFormed, UnitCells, Next, Start, RowOffset;
      var u, s := us[0], Start(us[0], p, full);
      StartRow(u, p, full);
      if us[1..] != [] {
        StartRow(us[1], Next(u, p, full), full);
      }
      RunFromRow(us[1..], Next(u, p, full), vals[u.size..], full, row);
      forall k | 0 <= k < u.size ensures UnitCells(u, s, vals[..u.size], full)[k].row >= row {
        UnitCellRow(u, s, vals[..u.size], full, k);
        OffsetPositive(u, full, k);
      }
    }
  }

  /** The first row has units exactly when the matrix has a cell there. */
  lemma {:induction false} FirstRowIff(m: Csx, us: seq<Unit>, blocks: seq<seq<Unit>>, vals: seq<real>)
    requires Searchable(m, us, blocks) && BlocksOk(blocks, m.full) && |vals| == NrValues(Flat(blocks))
    requires us == Flat(blocks) && AllWellFormed(us, m.full)
    ensures |blocks| > 0
    ensures blocks[0] != [] <==>
      exists k :: 0 <= k < |CellsWith(m, us, vals)| && CellsWith(m, us, vals)[k].row == m.rowStart + 1
  {
    hide TableOk, WellFormed, NrValues, Flat, UnitCells, Next, Encodes, NarrowDims, Run, SeenCells, BlocksOk, Start;
    SeenIsTrueIff(m, us, blocks, vals);
    FirstCellRow(m, us, blocks, vals);
    if blocks[0] == [] {
      Misplaced(m, us, blocks, vals);
      var p := Pos(m.rowStart + 1, 0);
      RunHead(us, p, vals, m.full);
      FirstRow(us[0], Start(us[0], p, m.full), vals[..us[0].size], m.full);
      RunFromRow(us, p, vals, m.full, CellsWith(m, us, vals)[0].row);
    }
  }

  /** In the first partition of a symmetric matrix, the first row has nothing below the diagonal,
      so the search never sees its units where they are. */
  lemma {:induction false} FirstPartitionMisread(m: Csx, us: seq<Unit>, blocks: seq<seq<Unit>>, vals: seq<real>)
    requires Searchable(m, us, blocks) && BlocksOk(blocks, m.full) && |vals| == NrValues(Flat(blocks))
    requires m.rowStart == 0
    requires us == Flat(blocks) && AllWellFormed(us, m.full)
    requires forall k :: 0 <= k < |CellsWith(m, us, vals)| ==>
      1 <= CellsWith(m, us, vals)[k].col < CellsWith(m, us, vals)[k].row
    ensures SeenCells(blocks, vals, m.rowStart, |blocks|, m.full) != CellsWith(m, us, vals)
  {
    hide SeenCells, Searchable, BlocksOk, NrValues, Flat, Run;
    SeenIsTrueIff(m, us, blocks, vals);
    FirstCellRow(m, us, blocks, vals);
  }

  /** If the first row has units, it has the first cell. */
  lemma {:induction false} FirstCellRow(m: Csx, us: seq<Unit>, blocks: seq<seq<Unit>>, vals: seq<real>)
    requires Searchable(m, us, blocks) && |vals| == NrValues(Flat(blocks)) && us == Flat(blocks)
    requires AllWellFormed(us, m.full) && |blocks| > 0
    ensures blocks[0] != [] ==> |CellsWith(m, us, vals)| > 0 && CellsWith(m, us, vals)[0].row == m.rowStart + 1
  {
    hide TableOk, WellFormed, NrValues, Flat, UnitCells, Next, Encodes, NarrowDims, EndPos;
    TableFacts(m, us, blocks);
    TableRow(m, blocks, us, 0);
    if blocks[0] != [] {
      NoValues();
      assert blocks[..0] == [];
      FirstUnitIs(blocks, 0);
      WellFormedHead(us, m.full);
      var p := Pos(m.rowStart + 1, 0);
      AtOrigin([], m.full);
      RunHead(us, p, vals, m.full);
      FirstRow(us[0], Start(us[0], p, m.full), vals[..us[0].size], m.full);
    }
  }

  // ----- Looking up what has been built -----

  /** What has been built from cells, one of them in the first row, can be searched. */
  lemma {:induction false} BuiltPart(m: Csx, us: seq<Unit>, blocks: seq<seq<Unit>>, cells: seq<Cell>)
    requires Encodes(m, us) && NarrowPids(us) && TableOk(m.rowsInfo, blocks, us, m.full) && |m.rowsInfo| == m.nrows
    requires multiset(Run(us, ORIGIN, m.values, m.full)) == multiset(cells) && RowsWithin(cells, 1, m.nrows)
    requires ColsWithin(cells, m.ncols)
    requires exists k :: 0 <= k < |cells| && cells[k].row == 1
    ensures AllWellFormed(us, m.full) && PartOk(m, us, blocks, m.values) && StartsFull(blocks)
    ensures multiset(CellsWith(m, us, m.values)) == multiset(Shifted(cells, m.rowStart))
  {
    hide TableOk, Encodes, NarrowDims, Run, Flat, NrValues, AllWellFormed, SeenCells, BlocksOk, Bytes;
    NarrowSearch(us);
    EncodesFacts(m, us);
    SomeUnits(m, us, cells);
    CompiledCells(m, us, cells, m.rowStart + m.nrows, m.ncols);
    BlocksOf(m, us, blocks);
    var run, at := CellsWith(m, us, m.values), Shifted(cells, m.rowStart);
    InsidePermuted(at, run, m.rowStart + 1, m.rowStart + m.nrows, m.ncols);
    var k :| 0 <= k < |cells| && cells[k].row == 1;
    assert at[k] in multiset(run);
    FirstRowIff(m, us, blocks, m.values);
    SeenInside(m, us, blocks, m.values);
  }

  lemma {:induction false} NarrowSearch(us: seq<Unit>)
    requires NarrowPids(us)
    ensures NarrowDims(us)
  {
  }

  lemma {:induction false} BlocksOf(m: Csx, us: seq<Unit>, blocks: seq<seq<Unit>>)
    requires Encodes(m, us) && TableOk(m.rowsInfo, blocks, us, m.full)
    ensures AllWellFormed(us, m.full) && |m.values| == NrValues(us) && BlocksOk(blocks, m.full) && us == Flat(blocks)
  {
  }

  /** Builds a partition and looks up one entry: when its first row is not empty and all
      dimensions mining may select are below 256, what the search returns is what was loaded. */
  method BuildAndGet(spm: SparsePartition, mgr: EncodingManager, plan: Plan, surveys: nat -> Encoding -> Report,
                     full: bool, row: int, col: int, value: real)
    returns (outcome: Outcome, found: bool, value': real)
    requires Loaded(spm) && mgr.spm == spm && mgr.LimitsOk() && PlanOk(plan, mgr)
    requires mgr.encodedInst == {} && mgr.xformsIgnore == Types(NR_TYPES)
    requires forall n: nat :: mgr.SurveyOk(surveys(n))
    requires exists k :: 0 <= k < |spm.CellsOf()| && spm.CellsOf()[k].row == 1
    requires NarrowPlan(plan, surveys, mgr)
    requires spm.rowStart < row <= spm.rowStart + spm.nrRows
    modifies mgr, spm`elems, spm`rowptr, spm`ty, spm`elemsSize
    ensures outcome.Built? ==> (found <==> !NoneAt(Shifted(old(spm.CellsOf()), spm.rowStart), row, col))
    ensures outcome.Built? && found ==> Cell(row, col, value') in Shifted(old(spm.CellsOf()), spm.rowStart)
    ensures !outcome.Built? || !found ==> value' == value
  {
    hide Loaded, PlanOk, EncodingManager.SurveyOk, Types, MayBuild, Encodes, Run, TableOk, AllCells, NoneAt, InstsOf,
         NeededIds, Compilable, NarrowPlan, NarrowPids, CellsWith, Seen, PartOk, BlocksOk, Flat, NrValues, IsAt,
         AllWellFormed, RowsWithin, ColsWithin, Shifted;
    LoadedInside(spm);
    LoadedFacts(spm);
    found, value' := false, value;
    ghost var cells := spm.CellsOf();
    ghost var us, blocks;
    outcome, us, blocks := PreprocessThread(spm, mgr, plan, surveys, full);
    if outcome.Built? {
      var m := outcome.m;
      BuiltPart(m, us, blocks, cells);
      SeenIsTrue(m, us, blocks, m.values);
      var values := new real[|m.values|](i requires 0 <= i < |m.values| => m.values[i]);
      assert values[..] == m.values;
      var at;
      found, value', at := AccessPart(m, values, row, col, value, false, us, blocks);
      Same(CellsWith(m, us, m.values), Shifted(cells, m.rowStart), row, col);
    }
  }

  lemma {:induction false} Same(a: seq<Cell>, b: seq<Cell>, row: int, col: int)
    requires multiset(a) == multiset(b)
    ensures NoneAt(a, row, col) <==> NoneAt(b, row, col)
    ensures forall c :: c in a ==> c in b
    ensures forall k :: 0 <= k < |a| && IsAt(a[k], row, col) ==> !NoneAt(a, row, col) && Cell(row, col, a[k].val) in a
  {
    forall c | c in a ensures c in b {
      assert c in multiset(a);
    }
    forall c | c in b ensures c in a {
      assert c in multiset(b);
    }
    NoneOfFewer(a, b, row, col);
    NoneOfFewer(b, a, row, col);
  }

  lemma {:induction false} NoneOfFewer(a: seq<Cell>, b: seq<Cell>, row: int, col: int)
    requires forall c :: c in a ==> c in b
    ensures NoneAt(b, row, col) ==> NoneAt(a, row, col)
  {
    forall k | 0 <= k < |a| && NoneAt(b, row, col) ensures !IsAt(a[k], row, col) {
      assert a[k] in b;
    }
  }

  // ----- The whole matrix -----

  /** The row a partition starts with has an element: no empty row before it. */
  predicate StartsAtOnce(cells: seq<Cell>, at: nat) { at < |cells| && cells[at].row == RowBefore(cells, at) + 1 }

  /** The arrays of values of the partitions. */
  method ValueArrays(ms: seq<Csx>) returns (values: seq<array<real>>)
    ensures |values| == |ms| && forall i :: 0 <= i < |ms| ==> fresh(values[i]) && values[i][..] == ms[i].values
    ensures forall i, j :: 0 <= i < j < |values| ==> values[i] != values[j]
  {
    values := [];
    for i := 0 to |ms|
      invariant |values| == i
      invariant forall k :: 0 <= k < i ==> fresh(values[k]) && values[k][..] == ms[k].values
      invariant forall j, k :: 0 <= j < k < i ==> values[j] != values[k]
    {
      var value := new real[|ms[i].values|](k requires 0 <= k < |ms[i].values| => ms[i].values[k]);
      assert value[..] == ms[i].values;
      values := values + [value];
    }
  }

  /** A compiled part of the input can be searched, and its cells are those of the part. */
  lemma {:induction false} PartSearchable(m: Csx, us: seq<Unit>, blocks: seq<seq<Unit>>, cells: seq<Cell>, lo: nat,
                                          hi: nat, nrRows: nat, nrCols: nat)
    requires Input(cells, nrRows, nrCols) && CompiledPart(m, us, cells, lo, hi, nrCols) && BetweenRows(cells, lo)
    requires NarrowPids(us) && TableOk(m.rowsInfo, blocks, us, m.full) && |m.rowsInfo| == m.nrows
    requires StartsAtOnce(cells, lo)
    ensures PartOk(m, us, blocks, m.values) && SeenAsPart(m, blocks, cells, lo, hi)
  {
    hide Input, Encodes, Run, NarrowPids, TableOk, PartOk, Shifted, RowsWithin, ColsWithin, BetweenRows, CellsWith,
         Seen, AllWellFormed;
    var part := cells[lo..hi];
    var rel := Shifted(part, 0 - m.rowStart);
    RowsBetween(cells, lo, hi, nrRows, nrCols);
    ShiftedInside(part, m.rowStart, m.nrows, nrCols);
    FirstShifted(part, rel, m.rowStart);
    BuiltPart(m, us, blocks, rel);
    SeenIsTrue(m, us, blocks, m.values);
    PartFacts(m, us, blocks, m.values);
  }

  lemma {:induction false} FirstShifted(part: seq<Cell>, rel: seq<Cell>, rs: nat)
    requires part != [] && part[0].row == rs + 1 && rel == Shifted(part, 0 - rs)
    ensures exists k :: 0 <= k < |rel| && rel[k].row == 1
  {
    assert rel[0].row == 1;
  }

  /** The cells of a partition are seen as those of its part of the input. */
  ghost predicate SeenAsPart(m: Csx, blocks: seq<seq<Unit>>, cells: seq<Cell>, lo: nat, hi: nat) {
    && lo <= hi <= |cells| && BlocksOk(blocks, m.full) && |m.values| == NrValues(Flat(blocks))
    && multiset(Seen(m, blocks, m.values)) == multiset(cells[lo..hi])
  }

  /** All partitions of an input can be searched. */
  lemma {:induction false} AllSearchable(ms: seq<Csx>, values: seq<array<real>>, uss: seq<seq<Unit>>,
                                         blockss: seq<seq<seq<Unit>>>, cells: seq<Cell>, cuts: seq<nat>, nrRows: nat,
                                         nrCols: nat)
    requires Input(cells, nrRows, nrCols) && CompiledParts(ms, uss, cells, cuts, nrCols) && Tables(ms, uss, blockss)
    requires |values| == |ms| && forall i :: 0 <= i < |ms| ==> values[i][..] == ms[i].values && NarrowPids(uss[i])
    requires forall i, j :: 0 <= i < j < |values| ==> values[i] != values[j]
    requires forall i :: 0 <= i < |ms| ==> BetweenRows(cells, cuts[i]) && StartsAtOnce(cells, cuts[i])
    ensures MatrixOk(ms, values, uss, blockss)
    ensures forall i :: 0 <= i < |ms| ==> SeenAsPart(ms[i], blockss[i], cells, cuts[i], cuts[i + 1])
  {
    hide Input, CompiledPart, PartOk, SeenAsPart, TableOk, NarrowPids, BetweenRows, StartsAtOnce;
    forall i | 0 <= i < |ms|
      ensures PartOk(ms[i], uss[i], blockss[i], ms[i].values)
      ensures SeenAsPart(ms[i], blockss[i], cells, cuts[i], cuts[i + 1])
    {
      PartSearchable(ms[i], uss[i], blockss[i], cells, cuts[i], cuts[i + 1], nrRows, nrCols);
    }
    forall i: nat | i < |ms| ensures Follows(ms, i) {
      PartRows(ms, uss, cells, cuts, nrCols, i);
      if i > 0 {
        PartRows(ms, uss, cells, cuts, nrCols, i - 1);
      }
    }
  }

  predicate NoneBetween(cells: seq<Cell>, lo: nat, hi: nat, row: int, col: int) {
    lo <= hi <= |cells| && NoneAt(cells[lo..hi], row, col)
  }

  /** Nothing in any part: nothing in the whole. */
  lemma {:induction false} NoneInAll(cells: seq<Cell>, cuts: seq<nat>, row: int, col: int, n: nat)
    requires n < |cuts| && cuts[0] == 0 && forall i :: 0 <= i < n ==> NoneBetween(cells, cuts[i], cuts[i + 1], row, col)
    ensures cuts[n] <= |cells| && NoneAt(cells[..cuts[n]], row, col)
  {
    if n > 0 {
      NoneInAll(cells, cuts, row, col, n - 1);
      var a, b := cells[..cuts[n - 1]], cells[cuts[n - 1]..cuts[n]];
      assert cells[..cuts[n]] == a + b;
      NoneConcat(a, b, row, col);
    }
  }

  /** From the triplets to an entry: the input is cut, every part is mined and compiled, and one
      entry is looked up.  When no partition starts with an empty row and all dimensions that may
      be picked are below 256, it is found exactly when the input has it, with its value. */
  method TuneAndGet(cells: seq<Cell>, ghost nrRows: nat, nrCols: nat, nr: nat, config: EncodingManager, plan: Plan,
                    surveys: nat -> nat -> Encoding -> Report, full: bool, row: int, col: int, value: real)
    returns (ok: bool, found: bool, value': real)
    requires Divisible(cells, nrRows, nrCols, nr) && Configured(config, plan, surveys) && row >= 1
    requires forall i: nat :: NarrowPlan(plan, surveys(i), config)
    requires forall i :: 0 <= i < nr ==> StartsAtOnce(cells, CutAt(cells, |cells|, nr, i))
    ensures ok && found ==> Cell(row, col, value') in cells
    ensures ok && !found ==> NoneAt(cells, row, col)
    ensures !found ==> value' == value
    ensures PartsBuildable(config, plan, surveys, cells, nr) ==> ok
  {
    hide Input, Configured, CompiledPart, CutAt, BetweenRows, Tables, NarrowPlan, NarrowPids, PartsBuildable,
         StartsAtOnce, PartOk, Seen, NoneAt, BlocksOk, Flat, NrValues, TrueWhereFull;
    found, value' := false, value;
    var ms;
    ghost var uss, blockss, cuts;
    ms, ok, uss, blockss, cuts := TuneMatrix(cells, nrRows, nrCols, nr, config, plan, surveys, full);
    if ok {
      var values := ValueArrays(ms);
      AllSearchable(ms, values, uss, blockss, cells, cuts, nrRows, nrCols);
      found, value' := GetValueCsx(ms, values, row, col, value, uss, blockss);
      if found {
        ghost var i :| 0 <= i < |ms| && Cell(row, col, value') in Seen(ms[i], blockss[i], values[i][..]);
        Same(Seen(ms[i], blockss[i], ms[i].values), cells[cuts[i]..cuts[i + 1]], row, col);
        InPart(cells, cuts[i], cuts[i + 1], Cell(row, col, value'));
      } else {
        forall i | 0 <= i < nr ensures NoneBetween(cells, cuts[i], cuts[i + 1], row, col) {
          Same(Seen(ms[i], blockss[i], ms[i].values), cells[cuts[i]..cuts[i + 1]], row, col);
        }
        NoneInAll(cells, cuts, row, col, nr);
        assert cells[..|cells|] == cells;
      }
    }
  }

  lemma {:induction false} InPart(cells: seq<Cell>, lo: nat, hi: nat, c: Cell)
    requires lo <= hi <= |cells| && c in cells[lo..hi]
    ensures c in cells
  {
  }
}
