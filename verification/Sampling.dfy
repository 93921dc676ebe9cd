/** Sampled windows of a partition, and when one of them starts behind its last line. */
module Sampling {
  import opened Encodings
  import opened Cells
  import opened Elements
  import opened SparsePartition

  /** A window of lines to sample. */
  datatype Sample = Sample(start: nat, size: nat)

  // ----- Reading behind the last line -----

  /** The last line an element starts on. */
  function LastLine(es: seq<Element>): int { if es == [] then 0 else es[|es| - 1].row }

  /** An element starts on one of the lines of the window. */
  predicate HasLine(es: seq<Element>, s: Sample) {
    exists k :: 0 <= k < |es| && s.start < es[k].row <= s.start + s.size
  }

  /** Sampling in this order comes to a window that starts behind the last line, before it comes
      to one of at most one line or without elements, where it ends. */
  predicate Misses(es: seq<Element>, samples: seq<Sample>) {
    samples != [] && samples[0].size > 1 &&
    (samples[0].start > LastLine(es) || (HasLine(es, samples[0]) && Misses(es, samples[1..])))
  }

  lemma {:induction false} MissesNext(es: seq<Element>, samples: seq<Sample>, i: nat)
    requires i < |samples|
    ensures Misses(es, samples[i..]) <==>
      samples[i].size > 1
        && (samples[i].start > LastLine(es) || (HasLine(es, samples[i]) && Misses(es, samples[i + 1..])))
  {
    assert samples[i..][1..] == samples[i + 1..];
  }

  /** Line pointers tell whether an element starts in the window. */
  lemma {:induction false} WindowHasLine(es: seq<Element>, rp: seq<nat>, s: Sample, n: nat)
    requires IsRowptr(rp, es) && Tight(rp, es) && s.start < |rp|
    requires n == if s.start + s.size > |rp| - 1 then |rp| - s.start - 1 else s.size
    ensures rp[s.start] != rp[s.start + n] <==> HasLine(es, s)
  {
    RowptrEnds(rp, es);
    var lo, hi := rp[s.start], rp[s.start + n];
    if lo < hi {
      LineOfElement(es, rp, s.start, s.start + n, lo);
    }
    if HasLine(es, s) {
      var k :| 0 <= k < |es| && s.start < es[k].row <= s.start + s.size;
      var i := LineWith(es, rp, |rp| - 1, k);
      assert es[k].row == i + 1;
    }
  }

  lemma {:induction false} LineWith(es: seq<Element>, rp: seq<nat>, n: nat, k: nat) returns (i: nat)
    requires IsRowptr(rp, es) && n < |rp| && k < rp[n]
    ensures i < n && rp[i] <= k < rp[i + 1] && es[k].row == i + 1
  {
    if k >= rp[n - 1] {
      i := n - 1;
    } else {
      i := LineWith(es, rp, n - 1, k);
    }
  }

  lemma {:induction false} LineOfElement(es: seq<Element>, rp: seq<nat>, a: nat, b: nat, k: nat)
    requires IsRowptr(rp, es) && a <= b < |rp| && rp[a] <= k < rp[b]
    ensures k < |es| && a < es[k].row <= b
  {
    RowptrEnds(rp, es);
    var i := LineWith(es, rp, b, k);
  }

  // ----- What keeps a line in the table -----

  /** A substructure of this type that starts at `p` may cover `q`. */
  predicate MayCover(t: Encoding, p: Cell, q: Cell) {
    match t
    case None => p.row == q.row && p.col == q.col
    case Horizontal => q.row == p.row
    case Vertical => q.col == p.col
    case Diagonal => q.row - p.row == q.col - p.col
    case AntiDiagonal => q.row + q.col == p.row + p.col
    case BlockRow(r) => p.row <= q.row < p.row + r
    case BlockCol(c) => p.col <= q.col < p.col + c
  }

  /** Some cell below row `s` cannot be swallowed by a substructure that starts above it,
      whatever substructures of the types `types` are written. */
  ghost predicate Anchored(cells: seq<Cell>, types: set<Encoding>, s: nat) {
    exists j :: 0 <= j < |cells| && cells[j].row > s && Alone(cells, types, s, cells[j])
  }

  predicate Alone(cells: seq<Cell>, types: set<Encoding>, s: nat, q: Cell) {
    forall i, t :: 0 <= i < |cells| && t in types && cells[i].row <= s ==> !MayCover(t, cells[i], q)
  }

  ghost predicate AllAnchored(cells: seq<Cell>, types: set<Encoding>, samples: seq<Sample>) {
    forall i :: 0 <= i < |samples| && samples[i].size > 1 ==> Anchored(cells, types, samples[i].start)
  }

  lemma {:induction false} FewerTypes(cells: seq<Cell>, types: set<Encoding>, more: set<Encoding>, samples: seq<Sample>)
    requires AllAnchored(cells, more, samples) && types <= more
    ensures AllAnchored(cells, types, samples)
  {
    hide MayCover;
    forall i | 0 <= i < |samples| && samples[i].size > 1 ensures Anchored(cells, types, samples[i].start) {
      var s := samples[i].start;
      var j :| 0 <= j < |cells| && cells[j].row > s && Alone(cells, more, s, cells[j]);
      assert Alone(cells, types, s, cells[j]);
    }
  }

  /** Types of the substructures of a list of elements. */
  function TypesOf(es: seq<Element>): set<Encoding> { set i | 0 <= i < |es| && es[i].IsPattern() :: es[i].inst.ty }

  /** A cell of an element is one its first cell may cover. */
  lemma {:induction false} CoveredBy(e: Element, d: Dims, k: nat)
    requires Shaped(e) && k < |ElemCells(e, Horizontal, d)|
    ensures var cs := ElemCells(e, Horizontal, d);
            cs[0].row == e.row && cs[0].col == e.col
              && MayCover(if e.IsPattern() then e.inst.ty else None, cs[0], cs[k])
  {
  }

  /** Where a cell comes from. */
  lemma {:induction false} ElementOf(es: seq<Element>, d: Dims, j: nat) returns (i: nat, k: nat)
    requires AllShaped(es) && j < |AllCells(es, Horizontal, d)|
    ensures i < |es| && Shaped(es[i]) && k < |ElemCells(es[i], Horizontal, d)|
    ensures AllCells(es, Horizontal, d)[j] == ElemCells(es[i], Horizontal, d)[k]
    ensures ElemCells(es[i], Horizontal, d)[0] in AllCells(es, Horizontal, d)
  {
    hide ElemCells;
    var n := |ElemCells(es[0], Horizontal, d)|;
    if j < n {
      i, k := 0, j;
      assert ElemCells(es[0], Horizontal, d)[0] == AllCells(es, Horizontal, d)[0];
    } else {
      i, k := ElementOf(es[1..], d, j - n);
      i := i + 1;
      assert forall c :: c in AllCells(es[1..], Horizontal, d) ==> c in AllCells(es, Horizontal, d);
    }
  }

  /** The line of an anchored cell stays in the table, however the cells are encoded. */
  lemma {:induction false} AnchoredStays(es: seq<Element>, d: Dims, cells: seq<Cell>, types: set<Encoding>, s: nat)
    requires AllShaped(es) && Sorted(es) && multiset(AllCells(es, Horizontal, d)) == multiset(cells)
    requires TypesOf(es) <= types && Anchored(cells, types, s)
    ensures LastLine(es) > s
  {
    hide AllCells, ElemCells, MayCover;
    var all := AllCells(es, Horizontal, d);
    var m :| 0 <= m < |cells| && cells[m].row > s && Alone(cells, types, s, cells[m]);
    assert cells[m] in multiset(all);
    var j :| 0 <= j < |all| && all[j] == cells[m];
    var i, k := ElementOf(es, d, j);
    var e, first := es[i], ElemCells(es[i], Horizontal, d)[0];
    CoveredBy(e, d, k);
    assert first in multiset(cells);
    var f :| 0 <= f < |cells| && cells[f] == first;
    if e.IsPattern() {
      assert e.inst.ty in TypesOf(es);
      Uncovered(cells, types, s, cells[m], f, e.inst.ty);
    } else {
      SameCell(first, cells[m]);
    }
    if i < |es| - 1 {
      assert Before(es[i].At(), es[|es| - 1].At());
    }
  }

  lemma {:induction false} Uncovered(cells: seq<Cell>, types: set<Encoding>, s: nat, q: Cell, i: nat, t: Encoding)
    requires Alone(cells, types, s, q) && i < |cells| && t in types && MayCover(t, cells[i], q)
    ensures cells[i].row > s
  {
  }

  lemma {:induction false} SameCell(p: Cell, q: Cell)
    requires MayCover(None, p, q)
    ensures p.row == q.row
  {
  }

  /** With all windows anchored, none is missed. */
  lemma {:induction false} AnchoredNotMissed(es: seq<Element>, d: Dims, cells: seq<Cell>, types: set<Encoding>,
                                             samples: seq<Sample>)
    requires AllShaped(es) && Sorted(es) && multiset(AllCells(es, Horizontal, d)) == multiset(cells)
    requires TypesOf(es) <= types && AllAnchored(cells, types, samples)
    ensures !Misses(es, samples)
  {
    hide AllCells, Sorted, HasLine, Anchored;
    if samples != [] && samples[0].size > 1 {
      AnchoredStays(es, d, cells, types, samples[0].start);
      AnchoredNotMissed(es, d, cells, types, samples[1..]);
    }
  }
}
