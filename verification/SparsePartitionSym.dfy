/** A partition of a symmetric matrix: diagonal and lower triangle, and the halves of the latter. */
module SparsePartitionSym {
  import opened Encodings
  import opened Elements
  import opened SparsePartition

  /** The elements before column rs + 1, resp. from it on, in order. */
  function Half(es: seq<Element>, rs: nat, near: bool): (h: seq<Element>)
    ensures |h| <= |es|
  {
    if es == [] then []
    else
      var n := |es| - 1;
      Half(es[..n], rs, near) + if near <==> es[n].col > rs then [es[n]] else []
  }

  lemma {:induction false} HalfSnoc(es: seq<Element>, e: Element, rs: nat, near: bool)
    ensures Half(es + [e], rs, near) == Half(es, rs, near) + if near <==> e.col > rs then [e] else []
  {
    assert (es + [e])[..|es|] == es;
  }

  /** Half of the elements are some of the elements, in their order. */
  lemma {:induction false} HalfFacts(es: seq<Element>, rs: nat, near: bool)
    requires Sorted(es)
    ensures var h := Half(es, rs, near);
            Sorted(h) && forall i :: 0 <= i < |h| ==> h[i] in es && (near <==> h[i].col > rs)
    decreases |es|
  {
    if es != [] {
      var n := |es| - 1;
      HalfFacts(es[..n], rs, near);
      var h := Half(es[..n], rs, near);
      forall i | 0 <= i < |h| ensures Before(h[i].At(), es[n].At()) && h[i] in es {
        assert h[i] in es[..n];
        var k :| 0 <= k < |es[..n]| && es[..n][k] == h[i];
        assert es[k] == h[i];
      }
      assert es[n] in es;
    }
  }

  /** The two halves make up the whole. */
  lemma {:induction false} HalvesWhole(es: seq<Element>, rs: nat)
    ensures multiset(Half(es, rs, false)) + multiset(Half(es, rs, true)) == multiset(es)
    decreases |es|
  {
    if es != [] {
      var n := |es| - 1;
      HalvesWhole(es[..n], rs);
      assert es == es[..n] + [es[n]];
    }
  }

  /** Closing the pointers when all elements have been placed. */
  lemma {:induction false} Closed(rp: seq<nat>, es: seq<Element>, last: int, rp': seq<nat>)
    requires Partial(rp, es, |es|, last) && last == (if es == [] then 1 else es[|es| - 1].row)
    requires rp' == rp + if rp[|rp| - 1] != |es| then [|es|] else []
    ensures IsRowptr(rp', es) && Tight(rp', es)
  {
  }

  lemma {:induction false} Placed(rp: seq<nat>, rp': seq<nat>, es: seq<Element>, e: Element, rows: nat, i: nat)
    requires Partial(rp, es, |es|, rows + 1) && rows <= i && e.row == i + 1
    requires rp' == rp + seq(i - rows, _ => |es|)
    ensures Partial(rp', es + [e], |es + [e]|, i + 1)
  {
  }

  // ----- Merging -----

  /** The elements of line i + 1, none if there are fewer lines. */
  function LineAt(rp: seq<nat>, es: seq<Element>, i: nat): seq<Element>
    requires IsRowptr(rp, es)
  {
    if i + 1 < |rp| then es[rp[i]..rp[i + 1]] else []
  }

  /** The first n lines of both halves, line by line. */
  function Merge(rp1: seq<nat>, es1: seq<Element>, rp2: seq<nat>, es2: seq<Element>, n: nat): seq<Element>
    requires IsRowptr(rp1, es1) && IsRowptr(rp2, es2)
  {
    if n == 0 then [] else Merge(rp1, es1, rp2, es2, n - 1) + (LineAt(rp1, es1, n - 1) + LineAt(rp2, es2, n - 1))
  }

  lemma {:induction false} LineFacts(rp: seq<nat>, es: seq<Element>, i: nat)
    requires IsRowptr(rp, es) && Sorted(es)
    ensures var line := LineAt(rp, es, i);
            Sorted(line) && forall k :: 0 <= k < |line| ==> line[k] in es && line[k].row == i + 1
  {
  }

  /** All lines of one list. */
  function Prefix(rp: seq<nat>, es: seq<Element>, n: nat): seq<Element>
    requires IsRowptr(rp, es)
  {
    if n < |rp| then es[..rp[n]] else es
  }

  lemma {:induction false} PrefixNext(rp: seq<nat>, es: seq<Element>, n: nat)
    requires IsRowptr(rp, es)
    ensures Prefix(rp, es, n + 1) == Prefix(rp, es, n) + LineAt(rp, es, n)
  {
    if n + 1 < |rp| {
      assert es[..rp[n + 1]] == es[..rp[n]] + es[rp[n]..rp[n + 1]];
    } else if n < |rp| {
      assert es[..rp[n]] == es;
    }
  }

  /** Merging loses nothing. */
  lemma {:induction false} MergeWhole(rp1: seq<nat>, es1: seq<Element>, rp2: seq<nat>, es2: seq<Element>, n: nat)
    requires IsRowptr(rp1, es1) && IsRowptr(rp2, es2)
    ensures multiset(Merge(rp1, es1, rp2, es2, n)) == multiset(Prefix(rp1, es1, n)) + multiset(Prefix(rp2, es2, n))
  {
    hide IsRowptr, LineAt, Prefix;
    if n > 0 {
      MergeWhole(rp1, es1, rp2, es2, n - 1);
      PrefixNext(rp1, es1, n - 1);
      PrefixNext(rp2, es2, n - 1);
    } else {
      NoPrefix(rp1, es1);
      NoPrefix(rp2, es2);
    }
  }

  lemma {:induction false} NoPrefix(rp: seq<nat>, es: seq<Element>)
    requires IsRowptr(rp, es)
    ensures Prefix(rp, es, 0) == []
  {
  }

  /** The merged list is in order, line by line. */
  lemma {:induction false} MergeSorted(rp1: seq<nat>, es1: seq<Element>, rp2: seq<nat>, es2: seq<Element>, rs: nat,
                                       n: nat)
    requires IsRowptr(rp1, es1) && IsRowptr(rp2, es2) && Sorted(es1) && Sorted(es2)
    requires forall k :: 0 <= k < |es1| ==> es1[k].col <= rs
    requires forall k :: 0 <= k < |es2| ==> es2[k].col > rs
    ensures var m := Merge(rp1, es1, rp2, es2, n);
            Sorted(m) && forall k :: 0 <= k < |m| ==> m[k].row <= n && (m[k] in es1 || m[k] in es2)
  {
    hide IsRowptr, LineAt;
    if n > 0 {
      MergeSorted(rp1, es1, rp2, es2, rs, n - 1);
      LineFacts(rp1, es1, n - 1);
      LineFacts(rp2, es2, n - 1);
      JoinSorted(LineAt(rp1, es1, n - 1), LineAt(rp2, es2, n - 1));
      JoinSorted(Merge(rp1, es1, rp2, es2, n - 1), LineAt(rp1, es1, n - 1) + LineAt(rp2, es2, n - 1));
    }
  }

  lemma {:induction false} JoinSorted(a: seq<Element>, b: seq<Element>)
    requires Sorted(a) && Sorted(b)
    requires forall i, j :: 0 <= i < |a| && 0 <= j < |b| ==> Before(a[i].At(), b[j].At())
    ensures Sorted(a + b)
  {
  }

  /** Pointers to the merged lines. */
  predicate MergePointers(rp: seq<nat>, rp1: seq<nat>, es1: seq<Element>, rp2: seq<nat>, es2: seq<Element>, n: nat)
    requires IsRowptr(rp1, es1) && IsRowptr(rp2, es2)
  {
    |rp| == n + 1 && forall k :: 0 <= k <= n ==> rp[k] == |Merge(rp1, es1, rp2, es2, k)|
  }

  lemma {:induction false} MergeRowptr(rp: seq<nat>, rp1: seq<nat>, es1: seq<Element>, rp2: seq<nat>, es2: seq<Element>,
                                       n: nat)
    requires IsRowptr(rp1, es1) && IsRowptr(rp2, es2) && Sorted(es1) && Sorted(es2)
    requires MergePointers(rp, rp1, es1, rp2, es2, n)
    ensures IsRowptr(rp, Merge(rp1, es1, rp2, es2, n))
    decreases n
  {
    hide IsRowptr, Sorted, LineAt;
    if n == 0 {
      FirstPointers(rp, rp1, es1, rp2, es2);
    } else {
      var line := LineAt(rp1, es1, n - 1) + LineAt(rp2, es2, n - 1);
      PointersNext(rp, rp1, es1, rp2, es2, n);
      MergeRowptr(rp[..n], rp1, es1, rp2, es2, n - 1);
      LineFacts(rp1, es1, n - 1);
      LineFacts(rp2, es2, n - 1);
      ExtendRowptr(rp[..n], Merge(rp1, es1, rp2, es2, n - 1), line);
    }
  }

  lemma {:induction false} FirstPointers(rp: seq<nat>, rp1: seq<nat>, es1: seq<Element>, rp2: seq<nat>,
                                         es2: seq<Element>)
    requires IsRowptr(rp1, es1) && IsRowptr(rp2, es2) && MergePointers(rp, rp1, es1, rp2, es2, 0)
    ensures IsRowptr(rp, Merge(rp1, es1, rp2, es2, 0))
  {
    assert rp == [0];
  }

  lemma {:induction false} PointersNext(rp: seq<nat>, rp1: seq<nat>, es1: seq<Element>, rp2: seq<nat>,
                                        es2: seq<Element>, n: nat)
    requires IsRowptr(rp1, es1) && IsRowptr(rp2, es2) && MergePointers(rp, rp1, es1, rp2, es2, n) && n > 0
    ensures MergePointers(rp[..n], rp1, es1, rp2, es2, n - 1)
    ensures Merge(rp1, es1, rp2, es2, n)
      == Merge(rp1, es1, rp2, es2, n - 1) + (LineAt(rp1, es1, n - 1) + LineAt(rp2, es2, n - 1))
    ensures |rp| == n + 1 && rp == rp[..n] + [|Merge(rp1, es1, rp2, es2, n)|]
  {
    hide IsRowptr, LineAt;
  }

  /** One more line behind the others. */
  lemma {:induction false} ExtendRowptr(rp: seq<nat>, es: seq<Element>, line: seq<Element>)
    requires IsRowptr(rp, es) && forall k :: 0 <= k < |line| ==> line[k].row == |rp|
    ensures IsRowptr(rp + [|es + line|], es + line)
  {
    var rp', es' := rp + [|es + line|], es + line;
    forall i, j | 0 <= i < |rp'| - 1 && rp'[i] <= j < rp'[i + 1] ensures es'[j].row == i + 1 {
      if i < |rp| - 1 {
        assert rp'[i] == rp[i] && rp'[i + 1] == rp[i + 1] && es'[j] == es[j];
      } else {
        assert es'[j] == line[j - |es|];
      }
    }
  }

  /** Merging the halves of a list gives back the list. */
  lemma {:induction false} MergeHalves(es: seq<Element>, rs: nat, rp1: seq<nat>, rp2: seq<nat>, n: nat)
    requires Sorted(es) && IsRowptr(rp1, Half(es, rs, false)) && IsRowptr(rp2, Half(es, rs, true))
    requires n + 1 >= |rp1| && n + 1 >= |rp2|
    ensures Merge(rp1, Half(es, rs, false), rp2, Half(es, rs, true), n) == es
  {
    hide Sorted, IsRowptr, Half, Merge;
    var es1, es2 := Half(es, rs, false), Half(es, rs, true);
    HalfFacts(es, rs, false);
    HalfFacts(es, rs, true);
    HalvesWhole(es, rs);
    MergeSorted(rp1, es1, rp2, es2, rs, n);
    MergeWhole(rp1, es1, rp2, es2, n);
    WholePrefix(rp1, es1, n);
    WholePrefix(rp2, es2, n);
    SortedDistinct(Merge(rp1, es1, rp2, es2, n));
    SortedUnique(es, Merge(rp1, es1, rp2, es2, n));
  }

  lemma {:induction false} WholePrefix(rp: seq<nat>, es: seq<Element>, n: nat)
    requires IsRowptr(rp, es) && n + 1 >= |rp|
    ensures Prefix(rp, es, n) == es
  {
    if n < |rp| {
      assert es[..rp[n]] == es;
    }
  }

  class SparsePartitionSym {
    var lower: SparsePartition
    var diagonal: seq<real>
    var m1: SparsePartition
    var m2: SparsePartition

    constructor ()
      ensures fresh(lower) && fresh(m1) && fresh(m2) && lower != m1 && lower != m2 && m1 != m2
      ensures diagonal == []
      ensures lower.elems == m1.elems == m2.elems == [] && m1.nrNonzeros == m2.nrNonzeros == 0
    {
      lower := new SparsePartition();
      m1 := new SparsePartition();
      m2 := new SparsePartition();
      diagonal := [];
    }

    /** Puts one element of row i + 1 behind those of its half. */
    method Place(m: SparsePartition, bld: Builder, rows: nat, i: nat, elem: Element) returns (rows': nat)
      requires m.nrNonzeros == |m.elems| && rows <= i && elem.row == i + 1
      requires Partial(bld.rowptr, m.elems, |m.elems|, rows + 1)
      modifies m`elems, m`nrNonzeros, bld
      ensures m.elems == old(m.elems) + [elem] && m.nrNonzeros == |m.elems| && rows' == i
      ensures Partial(bld.rowptr, m.elems, |m.elems|, rows' + 1)
    {
      hide Partial;
      rows' := rows;
      PartialMonotone(bld.rowptr, m.elems, rows + 1);
      if rows < i {
        bld.NewRow(i - rows, m.nrNonzeros);
        rows' := i;
      } else {
        NoRows(m.nrNonzeros);
      }
      Placed(old(bld.rowptr), bld.rowptr, m.elems, elem, rows, i);
      m.nrNonzeros := m.nrNonzeros + 1;
      m.elems := m.elems + [elem];
    }

    lemma {:induction false} NoRows(value: nat)
      ensures seq(0, _ => value) == []
    {
    }

    lemma {:induction false} PartialMonotone(rp: seq<nat>, es: seq<Element>, last: int)
      requires Partial(rp, es, |es|, last)
      ensures |rp| >= 1 && rp + [] == rp
    {
    }

    /** One half of the lower triangle. */
    ghost predicate IsHalf(m: SparsePartition, es: seq<Element>, near: bool)
      reads m, this, lower
    {
      && m.elems == Half(es, lower.rowStart, near) && m.nrNonzeros == m.elemsSize == |m.elems|
      && IsRowptr(m.rowptr, m.elems) && Tight(m.rowptr, m.elems)
      && m.ty == Horizontal && m.rowStart == lower.rowStart && m.nrCols == lower.nrCols && m.nrRows == |m.rowptr| - 1
    }

    /** Divides the lower triangle into what is before the partition's own columns and the rest. */
    method DivideMatrix()
      requires lower.Valid() && lower.ty == Horizontal
      requires lower != m1 && lower != m2 && m1 != m2
      requires m1.elems == m2.elems == [] && m1.nrNonzeros == m2.nrNonzeros == 0
      modifies m1, m2
      ensures IsHalf(m1, lower.Live(), false) && IsHalf(m2, lower.Live(), true)
    {
      hide Partial, IsRowptr, Tight, Sorted, StartsInBounds, AllShaped, Dividing, IsHalf;
      var matrix := lower;
      ghost var live := matrix.Live();
      var rowStart, nrRows, nrCols := matrix.rowStart, |matrix.rowptr| - 1, matrix.nrCols;
      var bld1 := new Builder();
      var bld2 := new Builder();
      m1.ty, m1.rowStart, m1.nrCols := Horizontal, rowStart, nrCols;
      m2.ty, m2.rowStart, m2.nrCols := Horizontal, rowStart, nrCols;
      var rows1: nat, rows2: nat := 0, 0;
      RowptrEnds(matrix.rowptr, live);
      NothingPlaced(m1, bld1, rowStart, false);
      NothingPlaced(m2, bld2, rowStart, true);
      assert live[..0] == [];
      var i := 0;
      while i < nrRows
        modifies m1`elems, m1`nrNonzeros, m2`elems, m2`nrNonzeros, bld1, bld2
        invariant i <= nrRows && matrix.rowptr[i] <= |live|
        invariant Dividing(m1, bld1, rows1, live[..matrix.rowptr[i]], rowStart, false) && rows1 <= i
        invariant Dividing(m2, bld2, rows2, live[..matrix.rowptr[i]], rowStart, true) && rows2 <= i
      {
        var j := matrix.rowptr[i];
        while j < matrix.rowptr[i + 1]
          invariant matrix.rowptr[i] <= j <= matrix.rowptr[i + 1] <= |live|
          invariant Dividing(m1, bld1, rows1, live[..j], rowStart, false) && rows1 <= i
          invariant Dividing(m2, bld2, rows2, live[..j], rowStart, true) && rows2 <= i
        {
          RowOf(matrix.rowptr, live, i, j);
          assert live[..j + 1] == live[..j] + [live[j]] && live[j] == matrix.elems[j];
          rows1, rows2 := DivideOne(matrix.elems[j], i, rowStart, bld1, bld2, rows1, rows2, live[..j]);
          j := j + 1;
        }
        i := i + 1;
      }
      assert live[..matrix.rowptr[i]] == live;
      Finish(m1, bld1, rows1, live, false);
      Finish(m2, bld2, rows2, live, true);
    }

    /** One element goes to its half. */
    method DivideOne(elem: Element, i: nat, rowStart: nat, bld1: Builder, bld2: Builder, rows10: nat, rows20: nat,
                     ghost done: seq<Element>)
      returns (rows1: nat, rows2: nat)
      requires Dividing(m1, bld1, rows10, done, rowStart, false) && rows10 <= i
      requires Dividing(m2, bld2, rows20, done, rowStart, true) && rows20 <= i
      requires elem.row == i + 1 && m1 != m2 && bld1 != bld2
      modifies m1`elems, m1`nrNonzeros, m2`elems, m2`nrNonzeros, bld1, bld2
      ensures Dividing(m1, bld1, rows1, done + [elem], rowStart, false) && rows1 <= i
      ensures Dividing(m2, bld2, rows2, done + [elem], rowStart, true) && rows2 <= i
    {
      hide Partial, Half;
      rows1, rows2 := rows10, rows20;
      HalfSnoc(done, elem, rowStart, false);
      HalfSnoc(done, elem, rowStart, true);
      if elem.col < rowStart + 1 {
        rows1 := Place(m1, bld1, rows1, i, elem);
      } else {
        rows2 := Place(m2, bld2, rows2, i, elem);
      }
    }

    lemma {:induction false} RowOf(rp: seq<nat>, es: seq<Element>, i: nat, j: nat)
      requires IsRowptr(rp, es) && i + 1 < |rp| && rp[i] <= j < rp[i + 1]
      ensures j < |es| && es[j].row == i + 1
    {
    }

    lemma {:induction false} NothingPlaced(m: SparsePartition, bld: Builder, rs: nat, near: bool)
      requires m.elems == [] && m.nrNonzeros == 0 && bld.rowptr == [0]
      ensures Dividing(m, bld, 0, [], rs, near)
    {
    }

    /** While the elements `done` have been divided. */
    ghost predicate Dividing(m: SparsePartition, bld: Builder, rows: nat, done: seq<Element>, rs: nat, near: bool)
      reads m, bld
    {
      && m.elems == Half(done, rs, near) && m.nrNonzeros == |m.elems|
      && Partial(bld.rowptr, m.elems, |m.elems|, rows + 1)
      && rows + 1 == if m.elems == [] then 1 else m.elems[|m.elems| - 1].row
    }

    method Finish(m: SparsePartition, bld: Builder, ghost rows: nat, ghost live: seq<Element>, ghost near: bool)
      requires Dividing(m, bld, rows, live, lower.rowStart, near) && m != lower
      requires m.ty == Horizontal && m.rowStart == lower.rowStart && m.nrCols == lower.nrCols
      modifies m, bld
      ensures IsHalf(m, live, near) && m.elems == old(m.elems)
    {
      ghost var rp := bld.rowptr;
      bld.Finalize(m.nrNonzeros);
      Closed(rp, m.elems, rows + 1, bld.rowptr);
      m.rowptr := bld.rowptr;
      m.elemsSize := |m.elems|;
      m.nrRows := |m.rowptr| - 1;
    }

    /** Appends line i + 1 of a half. */
    method AppendLine(temp: SparsePartition, m: SparsePartition, i: nat, cnt0: nat) returns (cnt: nat)
      requires temp != m && m.elemsSize <= |m.elems| && IsRowptr(m.rowptr, m.Live()) && cnt0 == |temp.elems|
      modifies temp`elems
      ensures temp.elems == old(temp.elems) + LineAt(m.rowptr, m.Live(), i) && cnt == |temp.elems|
    {
      cnt := cnt0;
      RowptrEnds(m.rowptr, m.Live());
      if |m.rowptr| - 1 > i {
        var j := m.rowptr[i];
        while j < m.rowptr[i + 1]
          invariant m.rowptr[i] <= j <= m.rowptr[i + 1]
          invariant temp.elems == old(temp.elems) + m.Live()[m.rowptr[i]..j] && cnt == |temp.elems|
        {
          temp.elems := temp.elems + [m.elems[j]];
          cnt := cnt + 1;
          j := j + 1;
        }
      }
    }

    /** Line i + 1 of both halves. */
    method MergeLine(temp: SparsePartition, bld: Builder, i: nat, cnt0: nat) returns (cnt: nat)
      requires temp != m1 && temp != m2 && cnt0 == |temp.elems|
      requires m1.elemsSize <= |m1.elems| && m2.elemsSize <= |m2.elems|
      requires IsRowptr(m1.rowptr, m1.Live()) && IsRowptr(m2.rowptr, m2.Live())
      requires temp.elems == Merge(m1.rowptr, m1.Live(), m2.rowptr, m2.Live(), i)
      requires MergePointers(bld.rowptr, m1.rowptr, m1.Live(), m2.rowptr, m2.Live(), i)
      modifies temp`elems, bld
      ensures temp.elems == Merge(m1.rowptr, m1.Live(), m2.rowptr, m2.Live(), i + 1) && cnt == |temp.elems|
      ensures MergePointers(bld.rowptr, m1.rowptr, m1.Live(), m2.rowptr, m2.Live(), i + 1)
    {
      hide IsRowptr, LineAt;
      ghost var before := temp.elems;
      cnt := AppendLine(temp, m1, i, cnt0);
      cnt := AppendLine(temp, m2, i, cnt);
      assert temp.elems == before + (LineAt(m1.rowptr, m1.Live(), i) + LineAt(m2.rowptr, m2.Live(), i));
      OneRow(cnt);
      bld.NewRow(1, cnt);
    }

    /** Puts the halves back together, line by line. */
    method MergeMatrix()
      requires lower.rowptr != []
      requires m1.elemsSize <= |m1.elems| && m2.elemsSize <= |m2.elems|
      requires IsRowptr(m1.rowptr, m1.Live()) && IsRowptr(m2.rowptr, m2.Live()) && Sorted(m1.Live())
      requires Sorted(m2.Live())
      modifies this`lower
      ensures fresh(lower) && lower.ty == Horizontal && lower.elemsSize == |lower.elems|
      ensures lower.elems == Merge(m1.rowptr, m1.Live(), m2.rowptr, m2.Live(), old(|lower.rowptr|) - 1)
      ensures IsRowptr(lower.rowptr, lower.elems) && |lower.rowptr| == old(|lower.rowptr|)
      ensures lower.nrRows == |lower.rowptr| - 1
      ensures lower.rowStart == old(lower.rowStart) && lower.nrCols == old(lower.nrCols)
      ensures lower.nrNonzeros == old(lower.nrNonzeros)
    {
      hide IsRowptr, Sorted, LineAt, Merge;
      NothingMerged(m1.rowptr, m1.Live(), m2.rowptr, m2.Live());
      var matrix := lower;
      var nrRows := |matrix.rowptr| - 1;
      var temp: SparsePartition := new SparsePartition();
      var bld := new Builder();
      temp.ty, temp.rowStart, temp.nrCols, temp.nrNonzeros :=
        Horizontal, matrix.rowStart, matrix.nrCols, matrix.nrNonzeros;
      var elemCnt := 0;
      var i := 0;
      while i < nrRows
        modifies temp`elems, bld
        invariant i <= nrRows && elemCnt == |temp.elems|
        invariant temp.elems == Merge(m1.rowptr, m1.Live(), m2.rowptr, m2.Live(), i)
        invariant MergePointers(bld.rowptr, m1.rowptr, m1.Live(), m2.rowptr, m2.Live(), i)
      {
        elemCnt := MergeLine(temp, bld, i, elemCnt);
        i := i + 1;
      }
      ghost var rp := bld.rowptr;
      MergeRowptr(rp, m1.rowptr, m1.Live(), m2.rowptr, m2.Live(), nrRows);
      bld.Finalize(elemCnt);
      assert bld.rowptr == rp;
      temp.rowptr := bld.rowptr;
      temp.elemsSize := elemCnt;
      temp.nrRows := |temp.rowptr| - 1;
      lower := temp;
    }

    lemma {:induction false} NothingMerged(rp1: seq<nat>, es1: seq<Element>, rp2: seq<nat>, es2: seq<Element>)
      requires IsRowptr(rp1, es1) && IsRowptr(rp2, es2)
      ensures Merge(rp1, es1, rp2, es2, 0) == []
    {
    }

    lemma {:induction false} OneRow(value: nat)
      ensures seq(1, _ => value) == [value]
    {
    }
  }
}
