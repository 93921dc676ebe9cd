/** Cutting a matrix into partitions of whole rows with about the same number of elements. */
module Partitions {
  import opened Encodings
  import opened Cells
  import opened Elements
  import opened SparsePartition
  import opened SparsePartitionSym
  import opened CsxManager
  import opened CsxBuild
  import opened CsxSpmv

  /** The input as the file readers give it: inside the matrix, row by row. */
  ghost predicate Input(cells: seq<Cell>, nrRows: nat, nrCols: nat) {
    && (forall i :: 0 <= i < |cells| ==> 1 <= cells[i].row <= nrRows && 1 <= cells[i].col <= nrCols)
    && (forall i, j :: 0 <= i < j < |cells| ==>
          Before(Coord(cells[i].row, cells[i].col), Coord(cells[j].row, cells[j].col)))
  }

  /** Single elements whose rows count from row rs + 1. */
  function Relative(cs: seq<Cell>, rs: nat): (es: seq<Element>)
    ensures |es| == |cs|
  {
    seq(|cs|, k requires 0 <= k < |cs| => Single(cs[k].row - rs, cs[k].col, cs[k].val))
  }

  /** Last row before position `p` of the input. */
  function RowBefore(cells: seq<Cell>, p: nat): int
    requires p <= |cells|
  {
    if p == 0 then 0 else cells[p - 1].row
  }

  /** Where a partition that starts at `pi` ends, looking from `p` on: at the first new row when
      it has `limit` elements; without a limit at the end of the input. */
  function Stop(cells: seq<Cell>, pi: nat, p: nat, limit: nat): (r: nat)
    requires pi <= p <= |cells|
    ensures p <= r <= |cells|
    decreases |cells| - p
  {
    if p == |cells| then p
    else if limit > 0 && p - pi >= limit && cells[p].row != cells[p - 1].row then p
    else Stop(cells, pi, p + 1, limit)
  }

  /** The cut is the first allowed one. */
  lemma {:induction false} StopFirst(cells: seq<Cell>, pi: nat, p: nat, limit: nat)
    requires pi <= p <= |cells|
    ensures var r := Stop(cells, pi, p, limit);
            && (r < |cells| ==> limit > 0 && r - pi >= limit && r > 0 && cells[r].row != cells[r - 1].row)
            && (forall k :: p <= k < r && limit > 0 && k - pi >= limit ==> cells[k].row == cells[k - 1].row)
    decreases |cells| - p
  {
    if p < |cells| && !(limit > 0 && p - pi >= limit && cells[p].row != cells[p - 1].row) {
      StopFirst(cells, pi, p + 1, limit);
    }
  }

  lemma {:induction false} NothingRelative(cells: seq<Cell>, pi0: nat, rs: nat)
    requires pi0 <= |cells|
    ensures Relative(cells[pi0..pi0], rs) == []
  {
  }

  lemma {:induction false} RelativeNext(cells: seq<Cell>, pi0: nat, pi: nat, rs: nat)
    requires pi0 <= pi < |cells|
    ensures Relative(cells[pi0..pi + 1], rs)
      == Relative(cells[pi0..pi], rs) + [Single(cells[pi].row - rs, cells[pi].col, cells[pi].val)]
    ensures |Relative(cells[pi0..pi], rs)| == pi - pi0
    ensures pi > pi0 ==> Relative(cells[pi0..pi], rs)[pi - pi0 - 1].row == cells[pi - 1].row - rs
  {
    assert cells[pi0..pi + 1] == cells[pi0..pi] + [cells[pi]];
  }

  lemma {:induction false} StopNext(cells: seq<Cell>, pi0: nat, pi: nat, limit: nat, nrRows: nat, nrCols: nat)
    requires Input(cells, nrRows, nrCols) && pi0 <= pi < |cells|
    ensures pi > pi0 ==> cells[pi].row >= cells[pi - 1].row
    ensures Stop(cells, pi0, pi, limit)
         == if limit > 0 && pi - pi0 >= limit && cells[pi].row != cells[pi - 1].row then pi
            else Stop(cells, pi0, pi + 1, limit)
  {
  }

  lemma {:induction false} StopEnd(cells: seq<Cell>, pi0: nat, pi: nat, limit: nat)
    requires pi0 <= pi <= |cells|
    ensures pi == |cells| ==> Stop(cells, pi0, pi, limit) == pi
  {
  }

  method SetElems(spm: SparsePartition, cells: seq<Cell>, pi0: nat, rs: nat, limit: nat, ghost nrRows: nat,
                  ghost nrCols: nat)
    returns (pi: nat)
    requires Input(cells, nrRows, nrCols) && pi0 <= |cells| && spm.elems == []
    requires forall k :: pi0 <= k < |cells| ==> cells[k].row > rs
    modifies spm`elems, spm`elemsSize, spm`rowptr
    ensures pi == Stop(cells, pi0, pi0, limit)
    ensures spm.elems == Relative(cells[pi0..pi], rs) && spm.elemsSize == |spm.elems|
    ensures IsRowptr(spm.rowptr, spm.elems) && Tight(spm.rowptr, spm.elems)
  {
    hide Partial, IsRowptr, Tight, Relative, Stop, Input;
    var bld := new Builder();
    var rowPrev := 1;
    pi := pi0;
    NothingYet(bld.rowptr);
    NothingRelative(cells, pi0, rs);
    while pi < |cells|
      invariant pi0 <= pi <= |cells| && Stop(cells, pi0, pi, limit) == Stop(cells, pi0, pi0, limit)
      invariant spm.elems == Relative(cells[pi0..pi], rs)
      invariant rowPrev == if spm.elems == [] then 1 else spm.elems[|spm.elems| - 1].row
      invariant Partial(bld.rowptr, spm.elems, |spm.elems|, rowPrev)
    {
      var row := cells[pi].row - rs;
      StopNext(cells, pi0, pi, limit, nrRows, nrCols);
      RelativeNext(cells, pi0, pi, rs);
      if row != rowPrev {
        if limit > 0 && |spm.elems| >= limit {
          break;
        }
      }
      rowPrev := Append(spm, bld, rowPrev, Single(row, cells[pi].col, cells[pi].val));
      pi := pi + 1;
    }
    StopEnd(cells, pi0, pi, limit);
    ghost var rp := bld.rowptr;
    PartialNonempty(rp, spm.elems, rowPrev);
    spm.elemsSize := |spm.elems|;
    bld.Finalize(spm.elemsSize);
    Closed(rp, spm.elems, rowPrev, bld.rowptr);
    spm.rowptr := bld.rowptr;
  }

  lemma {:induction false} NothingYet(rp: seq<nat>)
    requires rp == [0]
    ensures Partial(rp, [], 0, 1)
  {
  }

  lemma {:induction false} PartialNonempty(rp: seq<nat>, es: seq<Element>, last: int)
    requires Partial(rp, es, |es|, last)
    ensures |rp| >= 1 && last >= 1
  {
  }

  lemma {:induction false} NoRows(value: nat)
    ensures seq(0, _ => value) == []
  {
  }

  /** Appends an element, opening its row first. */
  method Append(spm: SparsePartition, bld: Builder, rowPrev: int, elem: Element) returns (row: int)
    requires Partial(bld.rowptr, spm.elems, |spm.elems|, rowPrev) && elem.row >= rowPrev
    modifies spm`elems, bld
    ensures spm.elems == old(spm.elems) + [elem] && row == elem.row
    ensures Partial(bld.rowptr, spm.elems, |spm.elems|, row)
  {
    hide Partial;
    row := elem.row;
    PartialNonempty(bld.rowptr, spm.elems, rowPrev);
    ghost var rp := bld.rowptr;
    if row != rowPrev {
      bld.NewRow(row - rowPrev, |spm.elems|);
    } else {
      NoRows(|spm.elems|);
    }
    Placed(rp, bld.rowptr, spm.elems, elem, rowPrev - 1, row - 1);
    spm.elems := spm.elems + [elem];
  }

  // ----- All partitions -----

  const TWO_TO_THE_64 := 0x1_0000_0000_0000_0000

  /** The share of a partition when `c` of the `nnz` elements have been taken and `k` partitions
      are left; the subtraction is one of 64-bit unsigned integers. */
  function Limit(nnz: nat, c: nat, k: nat): nat
    requires k > 0
  {
    ((nnz - c) % TWO_TO_THE_64) / k
  }

  /** Where partition i starts. */
  function CutAt(cells: seq<Cell>, nnz: nat, nr: nat, i: nat): (c: nat)
    requires i <= nr
    ensures c <= |cells|
  {
    if i == 0 then 0
    else
      var c := CutAt(cells, nnz, nr, i - 1);
      Stop(cells, c, c, Limit(nnz, c, nr - (i - 1)))
  }

  /** The partition holds the elements lo..hi of the input, and its rows follow those of the
      partitions before it. */
  ghost predicate IsPartition(spm: SparsePartition, cells: seq<Cell>, lo: nat, hi: nat, nrCols: nat)
    reads spm
  {
    && lo <= hi <= |cells| && Loaded(spm)
    && spm.elems == Relative(cells[lo..hi], spm.rowStart) && spm.elemsSize == hi - lo
    && spm.rowStart == RowBefore(cells, lo) && spm.rowStart + spm.nrRows == RowBefore(cells, hi)
    && spm.nrCols == nrCols && spm.nrRows == |spm.rowptr| - 1
  }

  /** Cells of rows behind row rs, row by row. */
  ghost predicate RowByRow(cs: seq<Cell>, rs: nat, nrCols: nat) {
    && (forall k :: 0 <= k < |cs| ==> cs[k].row > rs && 1 <= cs[k].col <= nrCols)
    && (forall i, j :: 0 <= i < j < |cs| ==> Before(Coord(cs[i].row, cs[i].col), Coord(cs[j].row, cs[j].col)))
  }

  /** What makes up a loaded partition. */
  lemma {:induction false} SetIsLoaded(cs: seq<Cell>, es: seq<Element>, rs: nat, rp: seq<nat>, nrCols: nat)
    requires RowByRow(cs, rs, nrCols) && es == Relative(cs, rs) && IsRowptr(rp, es) && Tight(rp, es)
    ensures |rp| >= 1 && |rp| - 1 == if cs == [] then 0 else cs[|cs| - 1].row - rs
    ensures AllShaped(es) && Sorted(es) && StartsInBounds(es, Horizontal, Dims(|rp| - 1, nrCols))
    ensures forall i :: 0 <= i < |es| ==> !es[i].IsPattern()
  {
    hide IsRowptr;
    assert |rp| >= 1 by { RowptrEnds(rp, es); }
    forall i | 0 <= i < |es|
      ensures Shaped(es[i]) && !es[i].IsPattern() && 1 <= es[i].row <= |rp| - 1 && 1 <= es[i].col <= nrCols
    {
      if i < |es| - 1 {
        assert Before(Coord(cs[i].row, cs[i].col), Coord(cs[|es| - 1].row, cs[|es| - 1].col));
      }
    }
  }

  lemma {:induction false} SliceRowByRow(cells: seq<Cell>, lo: nat, hi: nat, nrRows: nat, nrCols: nat)
    requires Input(cells, nrRows, nrCols) && lo <= hi <= |cells|
    requires forall k :: lo <= k < |cells| ==> cells[k].row > RowBefore(cells, lo)
    requires RowBefore(cells, lo) >= 0
    ensures RowByRow(cells[lo..hi], RowBefore(cells, lo), nrCols)
  {
  }

  predicate BetweenRows(cells: seq<Cell>, c: nat) { c == 0 || c >= |cells| || cells[c].row != cells[c - 1].row }

  lemma {:induction false} CutFollows(cells: seq<Cell>, nrRows: nat, nrCols: nat, lo: nat)
    requires Input(cells, nrRows, nrCols) && lo <= |cells|
    requires BetweenRows(cells, lo)
    ensures RowBefore(cells, lo) >= 0 && forall k :: lo <= k < |cells| ==> cells[k].row > RowBefore(cells, lo)
  {
    if lo > 0 {
      forall k | lo <= k < |cells| ensures cells[k].row > RowBefore(cells, lo) {
        assert Before(Coord(cells[lo - 1].row, cells[lo - 1].col), Coord(cells[lo].row, cells[lo].col));
        if k > lo {
          assert Before(Coord(cells[lo].row, cells[lo].col), Coord(cells[k].row, cells[k].col));
        }
      }
    }
  }

  /** Cuts are between rows. */
  lemma {:induction false} CutBetweenRows(cells: seq<Cell>, nnz: nat, nr: nat, i: nat)
    requires i <= nr
    ensures BetweenRows(cells, CutAt(cells, nnz, nr, i))
  {
    if i > 0 {
      var c := CutAt(cells, nnz, nr, i - 1);
      StopFirst(cells, c, c, Limit(nnz, c, nr - (i - 1)));
    }
  }

  method BuildPartition(cells: seq<Cell>, rowStart: nat, iter0: nat, limit: nat, ghost nrRows: nat, nrCols: nat)
    returns (partition: SparsePartition, iter: nat)
    requires Input(cells, nrRows, nrCols) && nrCols <= MAX_INDEX && iter0 <= |cells|
    requires rowStart == RowBefore(cells, iter0)
    requires forall k :: iter0 <= k < |cells| ==> cells[k].row > RowBefore(cells, iter0)
    ensures fresh(partition) && iter == Stop(cells, iter0, iter0, limit)
    ensures IsPartition(partition, cells, iter0, iter, nrCols)
  {
    hide Input, IsRowptr, Tight, Sorted, StartsInBounds, AllShaped, Relative;
    partition := new SparsePartition();
    iter := SetElems(partition, cells, iter0, rowStart, limit, nrRows, nrCols);
    SliceRowByRow(cells, iter0, iter, nrRows, nrCols);
    SetIsLoaded(cells[iter0..iter], partition.elems, rowStart, partition.rowptr, nrCols);
    partition.nrNonzeros := partition.elemsSize;
    partition.nrRows := |partition.rowptr| - 1;
    partition.nrCols := nrCols;
    partition.rowStart := rowStart;
    partition.ty := Horizontal;
    assert partition.Live() == partition.elems;
  }

  /** Cuts the input into `nr` partitions; `ok` says whether they hold as many elements as the
      input was said to have. */
  method BuildPartitions(cells: seq<Cell>, nnz: nat, ghost nrRows: nat, nrCols: nat, nr: nat)
    returns (partitions: seq<SparsePartition>, ok: bool)
    requires Input(cells, nrRows, nrCols) && nrCols <= MAX_INDEX
    ensures |partitions| == nr
    ensures forall i :: 0 <= i < nr ==> fresh(partitions[i])
    ensures forall i, j :: 0 <= i < j < nr ==> partitions[i] != partitions[j]
    ensures forall i :: 0 <= i < nr ==>
      IsPartition(partitions[i], cells, CutAt(cells, nnz, nr, i), CutAt(cells, nnz, nr, i + 1), nrCols)
    ensures forall i :: 0 <= i < nr ==> Fair(cells, nnz, nr - i, CutAt(cells, nnz, nr, i), CutAt(cells, nnz, nr, i + 1))
    ensures nnz == |cells| < TWO_TO_THE_64 ==>
      forall i, most :: 0 <= i < nr && RowsUpTo(cells, most) ==> NotTooLarge(partitions[i].elemsSize, |cells|, nr, most)
    ensures ok <==> CutAt(cells, nnz, nr, nr) == nnz
    ensures nr >= 1 && |cells| < TWO_TO_THE_64 ==> (ok && CutAt(cells, nnz, nr, nr) == |cells| <==> nnz == |cells|)
  {
    hide Input, IsPartition, Limit, Fair, RowsUpTo, NotTooLarge;
    if nr >= 1 && |cells| < TWO_TO_THE_64 {
      AcceptedWholeIff(cells, nnz, nr);
    }
    partitions := [];
    var rowStart, cnt := 0, 0;
    var i := 0;
    while i < nr
      invariant i <= nr && |partitions| == i && cnt == CutAt(cells, nnz, nr, i) && rowStart == RowBefore(cells, cnt)
      invariant forall k :: 0 <= k < i ==> fresh(partitions[k])
      invariant forall k, l :: 0 <= k < l < i ==> partitions[k] != partitions[l]
      invariant forall k :: 0 <= k < i ==>
        IsPartition(partitions[k], cells, CutAt(cells, nnz, nr, k), CutAt(cells, nnz, nr, k + 1), nrCols)
    {
      var limit := Limit(nnz, cnt, nr - i);
      CutBetweenRows(cells, nnz, nr, i);
      CutFollows(cells, nrRows, nrCols, cnt);
      var partition;
      partition, cnt := BuildPartition(cells, rowStart, cnt, limit, nrRows, nrCols);
      RowsOfPartition(partition, cells, CutAt(cells, nnz, nr, i), cnt, nrCols);
      rowStart := rowStart + partition.nrRows;
      partitions := partitions + [partition];
      i := i + 1;
    }
    ok := cnt == nnz;
    ShareSizes(partitions, cells, nnz, nr, nrCols);
  }

  lemma {:induction false} RowsOfPartition(spm: SparsePartition, cells: seq<Cell>, lo: nat, hi: nat, nrCols: nat)
    requires IsPartition(spm, cells, lo, hi, nrCols)
    ensures spm.rowStart == RowBefore(cells, lo) && spm.rowStart + spm.nrRows == RowBefore(cells, hi)
    ensures spm.nrCols == nrCols && lo <= hi <= |cells| && spm.elemsSize == hi - lo
  {
  }

  /** The partitions are fair shares, and none is too large. */
  lemma {:induction false} ShareSizes(partitions: seq<SparsePartition>, cells: seq<Cell>, nnz: nat, nr: nat,
                                      nrCols: nat)
    requires |partitions| == nr
    requires forall i :: 0 <= i < nr ==>
      IsPartition(partitions[i], cells, CutAt(cells, nnz, nr, i), CutAt(cells, nnz, nr, i + 1), nrCols)
    ensures forall i :: 0 <= i < nr ==> Fair(cells, nnz, nr - i, CutAt(cells, nnz, nr, i), CutAt(cells, nnz, nr, i + 1))
    ensures nnz == |cells| < TWO_TO_THE_64 ==>
      forall i, most :: 0 <= i < nr && RowsUpTo(cells, most) ==> NotTooLarge(partitions[i].elemsSize, |cells|, nr, most)
  {
    hide IsPartition, CutAt, Fair, RowsUpTo, NotTooLarge;
    forall i | 0 <= i < nr
      ensures Fair(cells, nnz, nr - i, CutAt(cells, nnz, nr, i), CutAt(cells, nnz, nr, i + 1))
    {
      Balance(cells, nnz, nr, i);
    }
    if nnz == |cells| < TWO_TO_THE_64 {
      forall i, most: nat | 0 <= i < nr && RowsUpTo(cells, most)
        ensures NotTooLarge(partitions[i].elemsSize, |cells|, nr, most)
      {
        RowsOfPartition(partitions[i], cells, CutAt(cells, nnz, nr, i), CutAt(cells, nnz, nr, i + 1), nrCols);
        LargestPart(cells, nr, i, most);
      }
    }
  }

  // ----- What the cuts give -----

  lemma {:induction false} RelativeCells(cs: seq<Cell>, rs: nat, d: Dims)
    ensures AllShaped(Relative(cs, rs))
    ensures Shifted(AllCells(Relative(cs, rs), Horizontal, d), rs) == cs
  {
    hide ElemCells, Shifted;
    if cs != [] {
      RelativeCells(cs[1..], rs, d);
      var es := Relative(cs, rs);
      assert es[1..] == Relative(cs[1..], rs);
      OneRelative(cs[0], rs, d);
      ShiftedConcat(ElemCells(es[0], Horizontal, d), AllCells(es[1..], Horizontal, d), rs);
      assert cs == [cs[0]] + cs[1..];
    }
  }

  lemma {:induction false} OneRelative(c: Cell, rs: nat, d: Dims)
    ensures Shifted(ElemCells(Single(c.row - rs, c.col, c.val), Horizontal, d), rs) == [c]
  {
  }

  /** Moved back to its rows, a partition is its part of the input. */
  lemma {:induction false} PartitionConserves(spm: SparsePartition, cells: seq<Cell>, lo: nat, hi: nat, nrCols: nat)
    requires IsPartition(spm, cells, lo, hi, nrCols)
    ensures Shifted(spm.CellsOf(), spm.rowStart) == cells[lo..hi]
  {
    RelativeCells(cells[lo..hi], spm.rowStart, spm.D());
    assert spm.Live() == spm.elems;
  }

  /** The partitions one after the other, moved back to their rows. */
  ghost function Restored(partitions: seq<SparsePartition>): seq<Cell>
    reads partitions
    requires forall i :: 0 <= i < |partitions| ==> Loaded(partitions[i])
  {
    if partitions == [] then []
    else
      var last := partitions[|partitions| - 1];
      assert Loaded(last);
      Restored(partitions[..|partitions| - 1]) + Shifted(last.CellsOf(), last.rowStart)
  }

  /** Together the partitions are the input up to the last cut. */
  lemma {:induction false} AllConserved(partitions: seq<SparsePartition>, cells: seq<Cell>, nnz: nat, nr: nat,
                                        nrCols: nat)
    requires |partitions| <= nr
    requires forall i :: 0 <= i < |partitions| ==>
      IsPartition(partitions[i], cells, CutAt(cells, nnz, nr, i), CutAt(cells, nnz, nr, i + 1), nrCols)
    ensures forall i :: 0 <= i < |partitions| ==> Loaded(partitions[i])
    ensures Restored(partitions) == cells[..CutAt(cells, nnz, nr, |partitions|)]
    decreases |partitions|
  {
    hide Loaded, CutAt, Relative, IsPartition, AllCells, Shifted;
    forall i | 0 <= i < |partitions| ensures Loaded(partitions[i]) {
      PartitionLoaded(partitions[i], cells, CutAt(cells, nnz, nr, i), CutAt(cells, nnz, nr, i + 1), nrCols);
    }
    if partitions != [] {
      var k := |partitions| - 1;
      var lo, hi := CutAt(cells, nnz, nr, k), CutAt(cells, nnz, nr, k + 1);
      AllConserved(partitions[..k], cells, nnz, nr, nrCols);
      PartitionLoaded(partitions[k], cells, lo, hi, nrCols);
      PartitionConserves(partitions[k], cells, lo, hi, nrCols);
      assert cells[..hi] == cells[..lo] + cells[lo..hi];
    } else {
      NoCut(cells, nnz, nr);
    }
  }

  lemma {:induction false} PartitionLoaded(spm: SparsePartition, cells: seq<Cell>, lo: nat, hi: nat, nrCols: nat)
    requires IsPartition(spm, cells, lo, hi, nrCols)
    ensures Loaded(spm) && lo <= hi <= |cells|
  {
  }

  lemma {:induction false} NoCut(cells: seq<Cell>, nnz: nat, nr: nat)
    ensures cells[..CutAt(cells, nnz, nr, 0)] == []
  {
  }

  /** If the input has as many elements as it was said to have, all are taken. */
  lemma {:induction false} AllTaken(cells: seq<Cell>, nr: nat)
    requires nr >= 1 && |cells| < TWO_TO_THE_64
    ensures CutAt(cells, |cells|, nr, nr) == |cells|
  {
    var c := CutAt(cells, |cells|, nr, nr - 1);
    StopFirst(cells, c, c, Limit(|cells|, c, 1));
  }

  /** The partitions hold the whole input and are accepted exactly when the input has as many
      elements as it was said to have. */
  lemma {:induction false} AcceptedWholeIff(cells: seq<Cell>, nnz: nat, nr: nat)
    requires nr >= 1 && |cells| < TWO_TO_THE_64
    ensures CutAt(cells, nnz, nr, nr) == nnz && CutAt(cells, nnz, nr, nr) == |cells| <==> nnz == |cells|
  {
    if nnz == |cells| {
      AllTaken(cells, nr);
    }
  }

  /** An input that has fewer elements than it was said to have is always refused; one that has
      more is accepted exactly when the last cut, which is the end of a row, is at that number. */
  lemma {:induction false} WrongClaim(cells: seq<Cell>, nnz: nat, nr: nat)
    ensures nnz > |cells| ==> CutAt(cells, nnz, nr, nr) != nnz
    ensures CutAt(cells, nnz, nr, nr) == nnz ==> nnz <= |cells| && BetweenRows(cells, nnz)
  {
    CutBetweenRows(cells, nnz, nr, nr);
  }

  /** A claim is accepted exactly when it is right, or elements are left, a row ends there and the
      last partition starts before it. */
  lemma {:induction false} AcceptedIff(cells: seq<Cell>, nnz: nat, nr: nat)
    requires nr >= 1 && nnz < TWO_TO_THE_64
    ensures CutAt(cells, nnz, nr, nr) == nnz
       <==> nnz == |cells| || (nnz < |cells| && BetweenRows(cells, nnz) && CutAt(cells, nnz, nr, nr - 1) < nnz)
  {
    var c := CutAt(cells, nnz, nr, nr - 1);
    StopFirst(cells, c, c, Limit(nnz, c, 1));
    if nnz == |cells| {
      AllTaken(cells, nr);
    }
  }

  lemma {:induction false} CutsGrow(cells: seq<Cell>, nnz: nat, nr: nat, i: nat, j: nat)
    requires i <= j <= nr
    ensures CutAt(cells, nnz, nr, i) <= CutAt(cells, nnz, nr, j)
    decreases j
  {
    if i < j {
      CutsGrow(cells, nnz, nr, i, j - 1);
    }
  }

  /** The last partition starts before the claim exactly when none finds fewer elements left of
      the claim than there are partitions; one that does takes everything. */
  lemma {:induction false} LastStartsBefore(cells: seq<Cell>, nnz: nat, nr: nat)
    requires nr >= 1 && nnz < |cells| && nnz < TWO_TO_THE_64
    ensures CutAt(cells, nnz, nr, nr - 1) < nnz <==>
      forall i :: 0 <= i < nr ==> CutAt(cells, nnz, nr, i) + (nr - i) <= nnz
  {
    if CutAt(cells, nnz, nr, nr - 1) < nnz {
      forall i | 0 <= i < nr ensures CutAt(cells, nnz, nr, i) + (nr - i) <= nnz {
        CutsGrow(cells, nnz, nr, i, nr - 1);
        if i < nr - 1 && CutAt(cells, nnz, nr, i) + (nr - i) > nnz {
          NoLimit(cells, nnz, nr, i);
          CutsGrow(cells, nnz, nr, i + 1, nr - 1);
        }
      }
    }
  }

  /** With fewer elements left than partitions, the share is 0 and everything is taken. */
  lemma {:induction false} NoLimit(cells: seq<Cell>, nnz: nat, nr: nat, i: nat)
    requires i < nr && CutAt(cells, nnz, nr, i) <= nnz < CutAt(cells, nnz, nr, i) + (nr - i) && nnz < TWO_TO_THE_64
    ensures CutAt(cells, nnz, nr, i + 1) == |cells|
  {
    hide Limit;
    var c := CutAt(cells, nnz, nr, i);
    LimitZero(nnz, c, nr - i);
    StopFirst(cells, c, c, Limit(nnz, c, nr - i));
  }

  lemma {:induction false} LimitZero(nnz: nat, c: nat, k: nat)
    requires c <= nnz < c + k && nnz < TWO_TO_THE_64
    ensures Limit(nnz, c, k) == 0
  {
    var left := nnz - c;
    assert left % TWO_TO_THE_64 == left;
    assert left / k == 0;
  }

  /** With one partition: accepted exactly when the number is right or a row ends there. */
  lemma {:induction false} OneCutIff(cells: seq<Cell>, nnz: nat)
    requires nnz < TWO_TO_THE_64
    ensures CutAt(cells, nnz, 1, 1) == nnz <==> nnz == |cells| || (0 < nnz < |cells| && BetweenRows(cells, nnz))
  {
    assert CutAt(cells, nnz, 1, 0) == 0 && Limit(nnz, 0, 1) == nnz;
    StopFirst(cells, 0, 0, nnz);
  }

  /** It is not an error if the input was said to have too few elements, as long as a row ends
      there: the rest is silently dropped. */
  lemma {:induction false} TooFewClaimed(a: real, b: real)
    ensures var cells := [Cell(1, 1, a), Cell(2, 1, b)];
            Input(cells, 2, 1) && CutAt(cells, 1, 1, 1) == 1 < |cells|
  {
    var cells := [Cell(1, 1, a), Cell(2, 1, b)];
    StopFirst(cells, 0, 0, Limit(1, 0, 1));
  }

  /** Number of cells in a row. */
  function InRow(cs: seq<Cell>, row: int): nat {
    if cs == [] then 0 else (if cs[0].row == row then 1 else 0) + InRow(cs[1..], row)
  }

  lemma {:induction false} InRowAll(cs: seq<Cell>, k: nat, row: int)
    requires k <= |cs| && forall i :: k <= i < |cs| ==> cs[i].row == row
    ensures InRow(cs, row) >= |cs| - k
  {
    if cs != [] {
      InRowAll(cs[1..], if k == 0 then 0 else k - 1, row);
    }
  }

  /** The elements lo..hi are a fair share of what is left of `nnz` when k partitions are left:
      unless the input ends there, the k-th part of it or more, and without the last row less. */
  predicate Fair(cells: seq<Cell>, nnz: nat, k: nat, lo: nat, hi: nat)
    requires k > 0
  {
    var left := if lo <= nnz < TWO_TO_THE_64 then nnz - lo else (nnz - lo) % TWO_TO_THE_64;
    && lo <= hi <= |cells|
    && (hi < |cells| ==> left / k > 0 && hi - lo >= left / k)
    && (left / k > 0 && hi > lo ==> hi - lo <= left / k - 1 + InRow(cells[lo..hi], cells[hi - 1].row))
  }

  /** Every partition is a fair share. */
  lemma {:induction false} Balance(cells: seq<Cell>, nnz: nat, nr: nat, i: nat)
    requires i < nr
    ensures Fair(cells, nnz, nr - i, CutAt(cells, nnz, nr, i), CutAt(cells, nnz, nr, i + 1))
  {
    var lo, hi, limit :=
      CutAt(cells, nnz, nr, i), CutAt(cells, nnz, nr, i + 1), Limit(nnz, CutAt(cells, nnz, nr, i), nr - i);
    LimitIs(nnz, lo, nr - i);
    hide Limit, CutAt;
    CutNext(cells, nnz, nr, i);
    StopFirst(cells, lo, lo, limit);
    if limit > 0 && hi > lo {
      var part := cells[lo..hi];
      if |part| >= limit {
        SameRow(cells, lo, hi, limit);
        forall k | limit - 1 <= k < |part| ensures part[k].row == cells[hi - 1].row {
          assert part[k] == cells[lo + k];
        }
        InRowAll(part, limit - 1, cells[hi - 1].row);
      }
    }
  }

  lemma {:induction false} LimitIs(nnz: nat, c: nat, k: nat)
    requires k > 0
    ensures Limit(nnz, c, k) == (if c <= nnz < TWO_TO_THE_64 then nnz - c else (nnz - c) % TWO_TO_THE_64) / k
  {
    if c <= nnz < TWO_TO_THE_64 {
      assert (nnz - c) % TWO_TO_THE_64 == nnz - c;
    }
  }

  lemma {:induction false} CutNext(cells: seq<Cell>, nnz: nat, nr: nat, i: nat)
    requires i < nr
    ensures var c := CutAt(cells, nnz, nr, i);
            CutAt(cells, nnz, nr, i + 1) == Stop(cells, c, c, Limit(nnz, c, nr - i))
  {
  }

  /** The greatest number of elements in one of nr partitions, for n elements in rows of at most
      `most`: the average rounded up and all but one of a row, or fewer than there are partitions. */
  predicate NotTooLarge(size: nat, n: nat, nr: nat, most: nat)
    requires nr > 0
  {
    size <= (n + nr - 1) / nr + most - 1 || size < nr
  }

  /** No partition is too large. */
  lemma {:induction false} LargestPart(cells: seq<Cell>, nr: nat, i: nat, most: nat)
    requires i < nr && RowsUpTo(cells, most) && |cells| < TWO_TO_THE_64
    ensures var lo, hi := CutAt(cells, |cells|, nr, i), CutAt(cells, |cells|, nr, i + 1);
            lo <= hi && NotTooLarge(hi - lo, |cells|, nr, most)
  {
    hide CutAt, InRow;
    var q := (|cells| + nr - 1) / nr;
    var lo, hi := CutAt(cells, |cells|, nr, i), CutAt(cells, |cells|, nr, i + 1);
    Balance(cells, |cells|, nr, i);
    LeftAtMost(cells, nr, i, q);
    ShareAtMost(|cells| - lo, nr - i, q);
    if hi > lo {
      InRowPart(cells, lo, hi, cells[hi - 1].row);
      if (|cells| - lo) / (nr - i) == 0 {
        ShareZero(|cells| - lo, nr - i);
      }
    }
  }

  /** What is left never exceeds the rounded-up average times the partitions left. */
  lemma {:induction false} LeftAtMost(cells: seq<Cell>, nr: nat, i: nat, q: nat)
    requires i < nr && |cells| < TWO_TO_THE_64 && q == (|cells| + nr - 1) / nr
    ensures |cells| - CutAt(cells, |cells|, nr, i) <= Mul(nr - i, q)
  {
    hide CutAt, Mul, InRow;
    if i == 0 {
      RoundedUp(|cells|, nr, q);
    } else {
      LeftAtMost(cells, nr, i - 1, q);
      Balance(cells, |cells|, nr, i - 1);
      var lo, hi := CutAt(cells, |cells|, nr, i - 1), CutAt(cells, |cells|, nr, i);
      LeftShrinks(|cells| - lo, nr - i + 1, q, hi - lo);
      MulFacts(nr - i, q, 0);
    }
  }

  lemma {:induction false} RoundedUp(n: nat, nr: nat, q: nat)
    requires nr > 0 && q == (n + nr - 1) / nr
    ensures n <= Mul(nr, q)
  {
    assert n + nr - 1 == nr * q + (n + nr - 1) % nr;
  }

  lemma {:induction false} ShareAtMost(left: nat, k: nat, q: nat)
    requires k > 0 && left <= Mul(k, q)
    ensures left / k <= q
  {
    if left / k > q {
      ShareOf(left, k, 0);
      MulFacts(k, left / k, q + 1);
      MulFacts(k, q, 1);
    }
  }

  lemma {:induction false} ShareZero(left: nat, k: nat)
    requires k > 0 && left / k == 0
    ensures left < k
  {
    assert left == k * (left / k) + left % k;
  }

  /** Taking the k-th part or more of what is left, for k partitions, keeps the average. */
  lemma {:induction false} LeftShrinks(left: nat, k: nat, q: nat, taken: nat)
    requires k >= 2 && left <= Mul(k, q) && (taken >= left / k || taken == left)
    ensures left - taken <= Mul(k - 1, q)
  {
    hide Mul;
    var s, r := left / k, left % k;
    ShareAtMost(left, k, q);
    Divided(left, k, s, r);
    MulFacts(k - 1, s, 0);
    MulFacts(k - 1, q, 0);
    if s < q {
      MulFacts(k - 1, q - 1, 1);
      MulFacts(k - 1, q - 1, s);
    }
  }

  lemma {:induction false} Divided(left: nat, k: nat, s: nat, r: nat)
    requires k > 0 && s == left / k && r == left % k
    ensures left == Mul(k, s) + r && r < k
  {
  }

  lemma {:induction false} SameRow(cells: seq<Cell>, lo: nat, hi: nat, limit: nat)
    requires limit > 0 && lo + limit <= hi <= |cells|
    requires forall k :: lo <= k < hi && k - lo >= limit ==> cells[k].row == cells[k - 1].row
    ensures forall k :: lo + limit - 1 <= k < hi ==> cells[k].row == cells[hi - 1].row
    decreases hi
  {
    if lo + limit < hi {
      SameRow(cells, lo, hi - 1, limit);
    }
  }

  /** A partition is empty exactly when the ones before it have taken everything. */
  lemma {:induction false} EmptyPartition(cells: seq<Cell>, nnz: nat, nr: nat, i: nat)
    requires i < nr
    ensures CutAt(cells, nnz, nr, i) == CutAt(cells, nnz, nr, i + 1) <==> CutAt(cells, nnz, nr, i) == |cells|
  {
    var c := CutAt(cells, nnz, nr, i);
    StopFirst(cells, c, c, Limit(nnz, c, nr - i));
  }

  /** Two partitions for one element: the first one takes it, as it has no limit. */
  lemma {:induction false} SecondIsEmpty(a: real)
    ensures var cells := [Cell(1, 1, a)];
            Input(cells, 1, 1) && CutAt(cells, 1, 2, 1) == CutAt(cells, 1, 2, 2) == 1
  {
    var cells := [Cell(1, 1, a)];
    AllTaken(cells, 2);
    StopFirst(cells, 0, 0, Limit(1, 0, 2));
  }

  /** No row has more than `most` elements. */
  ghost predicate RowsUpTo(cells: seq<Cell>, most: nat) { forall row :: InRow(cells, row) <= most }

  lemma {:induction false} InRowPart(cells: seq<Cell>, lo: nat, hi: nat, row: int)
    requires lo <= hi <= |cells|
    ensures InRow(cells[lo..hi], row) <= InRow(cells, row)
    decreases |cells|
  {
    if lo > 0 {
      assert cells[1..][lo - 1..hi - 1] == cells[lo..hi];
      InRowPart(cells[1..], lo - 1, hi - 1, row);
    } else if hi > 0 {
      assert cells[0..hi][1..] == cells[1..][0..hi - 1];
      InRowPart(cells[1..], 0, hi - 1, row);
    }
  }

  /** Multiplication under a name, so that proofs can treat products as plain terms. */
  function Mul(a: nat, b: nat): nat { a * b }

  /** Elements that are enough for k partitions, whatever rows end where: k * (1 + (k - 1) * (most - 1)). */
  function Enough(k: nat, most: nat): nat
    requires k >= 1 && most >= 1
  {
    Mul(k, 1 + Mul(k - 1, most - 1))
  }

  lemma {:induction false} MulFacts(a: nat, b: nat, c: nat)
    ensures Mul(a, b + c) == Mul(a, b) + Mul(a, c) && Mul(a + 1, b) == Mul(a, b) + b
    ensures b >= c ==> Mul(a, b) >= Mul(a, c)
    ensures Mul(a, 0) == Mul(0, a) == 0 && Mul(a, 1) == Mul(1, a) == a
  {
    assert b >= c ==> a * b == a * c + a * (b - c);
  }

  lemma {:induction false} ShareOf(left: nat, k: nat, q: nat)
    requires k >= 1 && left >= Mul(k, q)
    ensures left / k >= q && Mul(k, left / k) <= left
  {
    var share := left / k;
    assert left == k * share + left % k;
    if share < q {
      MulFacts(k, q, share + 1);
      MulFacts(k, share, 1);
    }
  }

  /** Taking a share and the rest of a row leaves enough for one partition fewer. */
  lemma {:induction false} StillEnough(left: nat, taken: nat, share: nat, k: nat, most: nat)
    requires k >= 2 && most >= 1 && left >= Mul(k, share) && share >= 1 + Mul(k - 1, most - 1)
    requires taken <= share - 1 + most
    ensures left - taken >= Enough(k - 1, most)
  {
    hide Mul;
    var m := most - 1;
    var rest := 1 + Mul(k - 2, m);
    MulFacts(k - 1, share, 1);
    MulFacts(k - 2, m, 0);
    MulFacts(k - 1, share, rest + m);
    MulFacts(k - 1, rest, m);
  }

  /** When rows are short for the number of elements, no partition is empty. */
  lemma {:induction false} NoneEmpty(cells: seq<Cell>, nr: nat, most: nat)
    requires nr >= 1 && most >= 1 && RowsUpTo(cells, most) && Enough(nr, most) <= |cells| < TWO_TO_THE_64
    ensures CutAt(cells, |cells|, nr, nr - 1) < |cells|
  {
    hide CutAt;
    LeftEnough(cells, nr, most, nr - 1);
  }

  lemma {:induction false} LeftEnough(cells: seq<Cell>, nr: nat, most: nat, i: nat)
    requires i < nr && most >= 1 && RowsUpTo(cells, most) && Enough(nr, most) <= |cells| < TWO_TO_THE_64
    ensures |cells| - CutAt(cells, |cells|, nr, i) >= Enough(nr - i, most)
  {
    hide Mul, CutAt;
    if i > 0 {
      LeftEnough(cells, nr, most, i - 1);
      var lo, hi, k := CutAt(cells, |cells|, nr, i - 1), CutAt(cells, |cells|, nr, i), nr - (i - 1);
      var share := (|cells| - lo) / k;
      ShareOf(|cells| - lo, k, 1 + Mul(k - 1, most - 1));
      ShareTaken(cells, nr, i - 1, most);
      CutsGrow(cells, |cells|, nr, i - 1, i);
      StillEnough(|cells| - lo, hi - lo, share, k, most);
    } else {
      NoCut(cells, |cells|, nr);
    }
  }

  lemma {:induction false} ShareTaken(cells: seq<Cell>, nr: nat, i: nat, most: nat)
    requires i < nr && most >= 1 && RowsUpTo(cells, most) && |cells| < TWO_TO_THE_64
    ensures var lo, hi := CutAt(cells, |cells|, nr, i), CutAt(cells, |cells|, nr, i + 1);
            (|cells| - lo) / (nr - i) >= 1 ==> hi - lo <= (|cells| - lo) / (nr - i) - 1 + most
  {
    hide CutAt;
    var lo, hi := CutAt(cells, |cells|, nr, i), CutAt(cells, |cells|, nr, i + 1);
    Balance(cells, |cells|, nr, i);
    if hi > lo {
      InRowPart(cells, lo, hi, cells[hi - 1].row);
    }
  }
}
