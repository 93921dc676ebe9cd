/** A partition of the matrix: its elements in some order, and where each line starts. */
module SparsePartition {
  import opened Encodings
  import opened Elements
  import opened Cells
  import opened Utility
  import opened Seqs

  // ----- Sorted element lists -----

  /** Strictly increasing coordinates. */
  predicate Sorted(es: seq<Element>) {
    forall i, j :: 0 <= i < j < |es| ==> Before(es[i].At(), es[j].At())
  }

  /** Not decreasing coordinates: what a library sort promises. */
  predicate Ordered(es: seq<Element>) {
    forall i, j :: 0 <= i < j < |es| ==> !Before(es[j].At(), es[i].At())
  }

  predicate Distinct(es: seq<Element>) {
    forall i, j :: 0 <= i < j < |es| ==> es[i].At() != es[j].At()
  }

  lemma {:induction false} MembersOfInsert(r: seq<Element>, e: Element, es: seq<Element>)
    requires multiset(r) == multiset{e} + multiset(es)
    ensures forall i :: 0 <= i < |r| ==> r[i] == e || r[i] in es
  {
    forall i | 0 <= i < |r| ensures r[i] == e || r[i] in es {
      assert r[i] in multiset(r);
    }
  }

  lemma {:induction false} Prepend(h: Element, es: seq<Element>)
    requires Ordered(es) && forall i :: 0 <= i < |es| ==> !Before(es[i].At(), h.At())
    ensures Ordered([h] + es)
  {
    var r := [h] + es;
    forall i, j | 0 <= i < j < |r| ensures !Before(r[j].At(), r[i].At()) {
      assert r[j] == es[j - 1];
    }
  }

  function Insert(e: Element, es: seq<Element>): (r: seq<Element>)
    requires Ordered(es)
    ensures Ordered(r) && multiset(r) == multiset{e} + multiset(es)
  {
    if es == [] then [e]
    else if !Before(es[0].At(), e.At()) then
      Prepend(e, es);
      [e] + es
    else
      var rest := Insert(e, es[1..]);
      assert es == [es[0]] + es[1..];
      MembersOfInsert(rest, e, es[1..]);
      Prepend(es[0], rest);
      [es[0]] + rest
  }

  /** Stands for the library sort: some ordered permutation. */
  function Sort(es: seq<Element>): (r: seq<Element>)
    ensures Ordered(r) && multiset(r) == multiset(es)
  {
    if es == [] then []
    else
      assert es == [es[0]] + es[1..];
      Insert(es[0], Sort(es[1..]))
  }

  /** Distinctness only depends on the elements, not on their order. */
  lemma {:induction false} DistinctPermuted(a: seq<Element>, b: seq<Element>)
    requires multiset(a) == multiset(b) && Distinct(a)
    ensures Distinct(b)
  {
    forall i, j | 0 <= i < j < |b| ensures b[i].At() != b[j].At() {
      if b[i].At() == b[j].At() {
        var x, y := b[i], b[j];
        assert x in multiset(b) && y in multiset(b);
        assert x in a && y in a;
        if x == y {
          assert b == b[..i] + [x] + b[i + 1..j] + [y] + b[j + 1..];
          assert multiset(b)[x] >= 2;
          TwiceMeansTwo(a, x);
        }
      }
    }
  }

  lemma {:induction false} TwiceMeansTwo(a: seq<Element>, x: Element)
    requires multiset(a)[x] >= 2
    ensures !Distinct(a)
  {
    var p :| 0 <= p < |a| && a[p] == x;
    assert a == a[..p] + [x] + a[p + 1..];
    var rest := a[..p] + a[p + 1..];
    assert multiset(a) == multiset(rest) + multiset{x};
    assert x in rest;
    var q :| 0 <= q < |rest| && rest[q] == x;
    var q' := if q < p then q else q + 1;
    assert a[q'] == x;
  }

  lemma {:induction false} OrderedDistinct(es: seq<Element>)
    requires Ordered(es) && Distinct(es)
    ensures Sorted(es)
  {
  }

  /** Elements with distinct coordinates have one sorted order only. */
  lemma {:induction false} SortedUnique(a: seq<Element>, b: seq<Element>)
    requires Sorted(a) && Ordered(b) && multiset(a) == multiset(b)
    ensures a == b
  {
    assert |a| == |multiset(a)| && |b| == |multiset(b)|;
    if a != [] {
      SameLeast(a, b);
      SameTail(a, b);
      SortedUnique(a[1..], b[1..]);
      assert a == [a[0]] + a[1..] && b == [b[0]] + b[1..];
    }
  }

  lemma {:induction false} SameLeast(a: seq<Element>, b: seq<Element>)
    requires Sorted(a) && Ordered(b) && multiset(a) == multiset(b) && a != [] && b != []
    ensures a[0] == b[0]
  {
    assert b[0] in multiset(a) && a[0] in multiset(b);
    var p :| 0 <= p < |a| && a[p] == b[0];
    var q :| 0 <= q < |b| && b[q] == a[0];
    if q > 0 {
      assert !Before(b[q].At(), b[0].At());
      assert p == 0;
    }
  }

  lemma {:induction false} SameTail(a: seq<Element>, b: seq<Element>)
    requires a != [] && b != [] && a[0] == b[0] && multiset(a) == multiset(b)
    ensures multiset(a[1..]) == multiset(b[1..])
  {
    assert a == [a[0]] + a[1..] && b == [b[0]] + b[1..];
    assert multiset(a[1..]) == multiset(a) - multiset{a[0]};
    assert multiset(b[1..]) == multiset(b) - multiset{a[0]};
  }

  lemma {:induction false} SortedDistinct(es: seq<Element>)
    requires Sorted(es)
    ensures Distinct(es) && Ordered(es)
  {
  }

  // ----- Line pointers -----

  /** `rp[i]..rp[i + 1]` delimits exactly the elements of line i + 1. */
  predicate IsRowptr(rp: seq<nat>, es: seq<Element>) {
    && |rp| >= 1 && rp[0] == 0 && rp[|rp| - 1] == |es|
    && (forall i, j :: 0 <= i <= j < |rp| ==> rp[i] <= rp[j])
    && (forall i, j :: 0 <= i < |rp| - 1 && rp[i] <= j < rp[i + 1] ==> es[j].row == i + 1)
  }

  /** There is no line behind the last element's. */
  predicate Tight(rp: seq<nat>, es: seq<Element>) {
    |rp| - 1 == if es == [] then 0 else es[|es| - 1].row
  }

  predicate RowsFromOne(es: seq<Element>) {
    && (forall i :: 0 <= i < |es| ==> es[i].row >= 1)
    && (forall i, j :: 0 <= i <= j < |es| ==> es[i].row <= es[j].row)
  }

  lemma {:induction false} RowptrEnds(rp: seq<nat>, es: seq<Element>)
    requires IsRowptr(rp, es)
    ensures |rp| >= 1 && rp[0] == 0 && rp[|rp| - 1] == |es|
    ensures forall i, j :: 0 <= i <= j < |rp| ==> rp[i] <= rp[j] <= |es|
  {
  }

  /** Nothing has been sorted yet. */
  lemma {:induction false} NoGroups(b: seq<Element>, m: nat)
    requires m >= 1 && Split(b[..0], b, m, 0)
    ensures Ordered([]) && Split([], b, m, 0)
  {
    assert b[..0] == [];
  }

  lemma {:induction false} AllBelow(b: seq<Element>, m: nat, top: int)
    requires m >= 1 && forall i :: 0 <= i < |b| ==> Group(b[i], m) < top
    ensures Split(b, [], m, top)
  {
  }

  /** An element before the start of line i + 1 is on a line up to i, and vice versa. */
  lemma {:induction false} LineOf(rp: seq<nat>, es: seq<Element>, i: nat, j: nat)
    requires IsRowptr(rp, es) && i < |rp| && j < |es|
    ensures j < rp[i] <==> es[j].row <= i
  {
    var r := i;
    if j < rp[i] {
      while r > 0 && j < rp[r]
        invariant 0 <= r <= i
        invariant j < rp[r] || (r < i && rp[r] <= j < rp[r + 1])
        decreases r, j < rp[r]
      {
        r := r - 1;
      }
      assert es[j].row == r + 1;
    } else {
      while r < |rp| - 1 && rp[r] <= j
        invariant i <= r < |rp|
        invariant rp[r] <= j || (r > i && rp[r - 1] <= j < rp[r])
      {
        r := r + 1;
      }
      assert es[j].row == r;
    }
  }

  /** A list of elements has at most one tight line pointer array. */
  lemma {:induction false} RowptrUnique(a: seq<nat>, b: seq<nat>, es: seq<Element>)
    requires IsRowptr(a, es) && Tight(a, es) && IsRowptr(b, es) && Tight(b, es)
    ensures a == b
  {
    forall i | 0 <= i < |a| ensures a[i] == b[i] {
      if a[i] < b[i] {
        LineOf(a, es, i, a[i]);
        LineOf(b, es, i, a[i]);
      } else if b[i] < a[i] {
        LineOf(a, es, i, b[i]);
        LineOf(b, es, i, b[i]);
      }
    }
  }

  class Builder {
    var rowptr: seq<nat>

    constructor ()
      ensures rowptr == [0]
    {
      rowptr := [0];
    }

    method NewRow(rdiff: nat, value: nat)
      modifies this
      ensures rowptr == old(rowptr) + seq(rdiff, _ => value)
    {
      var i := 0;
      while i < rdiff
        invariant i <= rdiff && rowptr == old(rowptr) + seq(i, _ => value)
      {
        rowptr := rowptr + [value];
        i := i + 1;
      }
    }

    method Finalize(size: nat)
      requires rowptr != []
      modifies this
      ensures rowptr == old(rowptr) + if old(rowptr)[|old(rowptr)| - 1] != size then [size] else []
    {
      if rowptr[|rowptr| - 1] != size {
        NewRow(1, size);
      }
    }
  }

  /** The pointers while `es[..n]` has been read and the last line seen is `last`. */
  ghost predicate Partial(rp: seq<nat>, es: seq<Element>, n: nat, last: int)
    requires n <= |es|
  {
    && last >= 1 && |rp| == last && rp[0] == 0
    && (forall i, j :: 0 <= i <= j < |rp| ==> rp[i] <= rp[j])
    && rp[last - 1] <= n && (n > 0 ==> rp[last - 1] < n)
    && (forall i, j :: 0 <= i < |rp| - 1 && rp[i] <= j < rp[i + 1] ==> es[j].row == i + 1)
    && (forall j :: rp[last - 1] <= j < n ==> es[j].row == last)
  }

  /** Rebuilds the pointers from the elements. */
  method SetRowptr(es: seq<Element>) returns (rp: seq<nat>)
    requires RowsFromOne(es)
    ensures IsRowptr(rp, es) && Tight(rp, es)
  {
    hide Partial, IsRowptr, Tight;
    var bld := new Builder();
    var rowPrev, cnt := 1, 0;
    NothingBuilt(es);
    while cnt < |es|
      invariant cnt <= |es|
      invariant rowPrev == if cnt == 0 then 1 else es[cnt - 1].row
      invariant Partial(bld.rowptr, es, cnt, rowPrev)
    {
      var row := es[cnt].row;
      ghost var was := bld.rowptr;
      RowReached(was, es, cnt, rowPrev);
      if row != rowPrev {
        bld.NewRow(row - rowPrev, cnt);
        rowPrev := row;
      }
      cnt := cnt + 1;
    }
    RowsDone(bld.rowptr, es, rowPrev);
    bld.Finalize(cnt);
    rp := bld.rowptr;
  }

  lemma {:induction false} NothingBuilt(es: seq<Element>)
    ensures Partial([0], es, 0, 1)
  {
  }

  /** Reading the next element, on the same line or after a new one. */
  lemma {:induction false} RowReached(rp: seq<nat>, es: seq<Element>, n: nat, last: int)
    requires RowsFromOne(es) && n < |es| && Partial(rp, es, n, last) && last == if n == 0 then 1 else es[n - 1].row
    ensures rp != [] && es[n].row >= last
    ensures es[n].row == last ==> Partial(rp, es, n + 1, last)
    ensures es[n].row != last ==> Partial(rp + seq(es[n].row - last, _ => n), es, n + 1, es[n].row)
  {
  }

  lemma {:induction false} RowsDone(rp: seq<nat>, es: seq<Element>, last: int)
    requires RowsFromOne(es) && Partial(rp, es, |es|, last) && last == if |es| == 0 then 1 else es[|es| - 1].row
    ensures rp != []
    ensures var rp' := rp + if rp[|rp| - 1] != |es| then [|es|] else []; IsRowptr(rp', es) && Tight(rp', es)
  {
  }

  // ----- Grouping lines of one family -----

  /** Types whose lines are bundles of rows, resp. of columns. */
  predicate RowFamily(t: Encoding) { t.Horizontal? || t.BlockRow? }

  predicate ColFamily(t: Encoding) { t.Vertical? || t.BlockCol? }

  predicate SameFamily(a: Encoding, b: Encoding) {
    (RowFamily(a) && RowFamily(b)) || (ColFamily(a) && ColFamily(b))
  }

  /** How many rows (columns) one line of the type bundles. */
  function Bundle(t: Encoding): nat { if t.IsBlock() then t.Alignment() else 1 }

  lemma {:induction false} LineOfRow(t: Order, h: Coord, d: Dims)
    requires RowFamily(t) || ColFamily(t)
    ensures Bundle(t) >= 1
    ensures FromHoriz(t, h, d).row - 1 == ((if RowFamily(t) then h.row else h.col) - 1) / Bundle(t)
  {
    match t
    case BlockRow(r) =>
    case BlockCol(c) =>
    case _ =>
  }

  lemma {:induction false} SameQuotient(x: nat, a: nat, k: nat, b: nat, m: nat, p: int, q: int)
    requires a > 0 && k > 0 && b > 0 && m > 0 && a * k == b * m && p == x / a && q == x / b
    ensures p >= 0 && q >= 0 && p / k == q / m
  {
    DivDivSame(x, a, k, b, m);
  }

  /** Two types of one family cut the matrix at the common multiples of their bundles. */
  lemma {:induction false} SameGroup(from: Order, to: Order, h: Coord, d: Dims, k: nat, m: nat)
    requires SameFamily(from, to) && h.row >= 1 && h.col >= 1
    requires k >= 1 && m >= 1 && Bundle(from) * k == Bundle(to) * m
    ensures FromHoriz(from, h, d).row >= 1 && FromHoriz(to, h, d).row >= 1
    ensures (FromHoriz(from, h, d).row - 1) / k == (FromHoriz(to, h, d).row - 1) / m
  {
    hide FromHoriz, Bundle;
    var x := (if RowFamily(from) then h.row else h.col) - 1;
    LineOfRow(from, h, d);
    LineOfRow(to, h, d);
    SameQuotient(x, Bundle(from), k, Bundle(to), m, FromHoriz(from, h, d).row - 1, FromHoriz(to, h, d).row - 1);
  }

  // ----- The partition -----

  predicate InBounds(p: Coord, d: Dims) { 1 <= p.row <= d.rows && 1 <= p.col <= d.cols }

  /** In every coordinate system, a cell of the matrix has positive coordinates. */
  lemma {:induction false} PositiveCoords(t: Order, p: Coord, d: Dims)
    requires InBounds(p, d)
    ensures FromHoriz(t, p, d).row >= 1 && FromHoriz(t, p, d).col >= 1
  {
    match t
    case BlockRow(r) => BlockPositive(r, p);
    case BlockCol(c) => BlockPositive(c, Swap(p));
    case _ =>
  }

  lemma {:induction false} BlockPositive(k: nat, p: Coord)
    requires 1 <= k <= 8 && p.row >= 1 && p.col >= 1
    ensures FromBlock(k, p).row >= 1 && FromBlock(k, p).col >= 1
  {
    assert k * (p.col - 1) >= 0;
  }

  predicate StartsInBounds(es: seq<Element>, t: Order, d: Dims) {
    forall i :: 0 <= i < |es| ==> InBounds(ToHoriz(t, es[i].At(), d), d)
  }

  function Moved(es: seq<Element>, from: Order, to: Order, d: Dims): (r: seq<Element>)
    ensures |r| == |es|
  {
    seq(|es|, i requires 0 <= i < |es| => MoveTo(es[i], from, to, d))
  }

  lemma {:induction false} MovedAt(es: seq<Element>, from: Order, to: Order, d: Dims, i: nat)
    requires i < |es|
    ensures Moved(es, from, to, d)[i] == MoveTo(es[i], from, to, d)
  {
  }

  lemma {:induction false} MovedFacts(es: seq<Element>, from: Order, to: Order, d: Dims)
    requires AllShaped(es) && Distinct(es) && StartsInBounds(es, from, d)
    ensures AllShaped(Moved(es, from, to, d)) && Distinct(Moved(es, from, to, d))
    ensures StartsInBounds(Moved(es, from, to, d), to, d)
    ensures AllCells(Moved(es, from, to, d), to, d) == AllCells(es, from, d)
  {
    var b := Moved(es, from, to, d);
    MoveKeepsCells(es, from, to, d);
    assert b == seq(|es|, i requires 0 <= i < |es| => MoveTo(es[i], from, to, d));
    forall i | 0 <= i < |b| ensures ToHoriz(to, b[i].At(), d) == ToHoriz(from, es[i].At(), d) {
      XformSameCell(from, to, to, es[i].At(), d);
    }
    forall i, j | 0 <= i < j < |b| ensures b[i].At() != b[j].At() {
      if b[i].At() == b[j].At() {
        XformInverse(from, es[i].At(), d);
        XformInverse(from, es[j].At(), d);
      }
    }
  }

  // ----- Sorting group by group -----

  /** The group of an element when `m` lines of its order form one. */
  function Group(e: Element, m: nat): int
    requires m >= 1
  {
    (e.row - 1) / m
  }

  /** Members of the first list belong to groups below `g`, those of the second to `g` or above. */
  predicate Split(a: seq<Element>, b: seq<Element>, m: nat, g: int)
    requires m >= 1
  {
    && (forall i :: 0 <= i < |a| ==> Group(a[i], m) < g)
    && (forall i :: 0 <= i < |b| ==> Group(b[i], m) >= g)
  }

  lemma {:induction false} LowerGroupBefore(x: Element, y: Element, m: nat)
    requires m >= 1 && Group(x, m) < Group(y, m)
    ensures Before(x.At(), y.At())
  {
    var p, q := Group(x, m), Group(y, m);
    assert x.row - 1 == m * p + (x.row - 1) % m;
    assert y.row - 1 == m * q + (y.row - 1) % m;
    AtLeastOne(m, p, q);
  }

  /** One more sorted group behind the sorted groups. */
  lemma {:induction false} GlueGroups(front: seq<Element>, chunk: seq<Element>, sorted: seq<Element>,
                                      back: seq<Element>, m: nat, g: int, g': int)
    requires m >= 1 && g <= g'
    requires Ordered(front) && Ordered(sorted) && multiset(sorted) == multiset(chunk)
    requires Split(front, chunk + back, m, g) && Split(front + chunk, back, m, g')
    ensures Ordered(front + sorted) && Split(front + sorted, back, m, g')
  {
    forall i | 0 <= i < |sorted| ensures g <= Group(sorted[i], m) < g' {
      assert sorted[i] in multiset(chunk);
      var q :| 0 <= q < |chunk| && chunk[q] == sorted[i];
      assert (chunk + back)[q] == chunk[q];
      assert (front + chunk)[|front| + q] == chunk[q];
    }
    assert forall i :: 0 <= i < |front| ==> (front + chunk)[i] == front[i];
    var r := front + sorted;
    forall i, j | 0 <= i < j < |r| ensures !Before(r[j].At(), r[i].At()) {
      if i < |front| <= j {
        LowerGroupBefore(r[i], r[j], m);
      }
    }
  }

  /** The elements before line i of the old order are those of the groups below i / k. */
  lemma {:induction false} SplitAtLine(old_: seq<Element>, from: Order, to: Order, d: Dims, rp: seq<nat>, i: nat,
                                       k: nat, m: nat, g: nat)
    requires IsRowptr(rp, old_) && i < |rp| && StartsInBounds(old_, from, d)
    requires SameFamily(from, to) && k >= 1 && m >= 1 && Bundle(from) * k == Bundle(to) * m
    requires i == g * k
    ensures rp[i] <= |old_|
    ensures Split(Moved(old_, from, to, d)[..rp[i]], Moved(old_, from, to, d)[rp[i]..], m, g)
  {
    var b := Moved(old_, from, to, d);
    forall j | 0 <= j < |b| ensures Group(b[j], m) < g <==> j < rp[i] {
      var h := ToHoriz(from, old_[j].At(), d);
      XformSameCell(from, to, to, old_[j].At(), d);
      XformInverse(from, old_[j].At(), d);
      XformInverse(to, b[j].At(), d);
      SameGroup(from, to, h, d, k, m);
      LineOf(rp, old_, i, j);
      GroupBelow(old_[j].row - 1, k, g);
    }
  }

  lemma {:induction false} GroupBelow(x: nat, k: nat, g: nat)
    requires k >= 1
    ensures x / k < g <==> x < g * k
  {
    var p := x / k;
    assert x == k * p + x % k;
    if p < g {
      AtLeastOne(k, p, g);
    } else if g < p {
      AtLeastOne(k, g, p);
    }
  }

  // ----- Re-ordering twice -----

  lemma {:induction false} MovedConcat(a: seq<Element>, b: seq<Element>, from: Order, to: Order, d: Dims)
    ensures Moved(a + b, from, to, d) == Moved(a, from, to, d) + Moved(b, from, to, d)
  {
    hide MoveTo;
  }

  lemma {:induction false} MovedPermuted(a: seq<Element>, b: seq<Element>, from: Order, to: Order, d: Dims)
    requires multiset(a) == multiset(b)
    ensures multiset(Moved(a, from, to, d)) == multiset(Moved(b, from, to, d))
  {
    hide Moved;
    if a == [] {
      assert |multiset(b)| == 0;
      assert b == [];
    } else {
      var i := RemoveHead(a, b);
      var front, back, one := b[..i], b[i + 1..], [a[0]];
      MovedPermuted(a[1..], front + back, from, to, d);
      assert a == one + a[1..] && b == front + one + back;
      MovedConcat(one, a[1..], from, to, d);
      MovedConcat(front, back, from, to, d);
      MovedConcat(front, one, from, to, d);
      MovedConcat(front + one, back, from, to, d);
    }
  }

  lemma {:induction false} MovedDistinct(es: seq<Element>, from: Order, to: Order, d: Dims)
    requires Distinct(es)
    ensures Distinct(Moved(es, from, to, d))
  {
    hide ToHoriz, Xform;
    var b := Moved(es, from, to, d);
    forall i, j | 0 <= i < j < |b| ensures b[i].At() != b[j].At() {
      XformSameCell(from, to, to, es[i].At(), d);
      XformSameCell(from, to, to, es[j].At(), d);
      if b[i].At() == b[j].At() {
        XformInverse(from, es[i].At(), d);
        XformInverse(from, es[j].At(), d);
      }
    }
  }

  /** The order of a partition does not depend on the orders it has been in before. */
  lemma {:induction false} TransformPath(es: seq<Element>, from: Order, mid: Order, to: Order, d: Dims)
    requires Distinct(es)
    ensures Sort(Moved(Sort(Moved(es, from, mid, d)), mid, to, d)) == Sort(Moved(es, from, to, d))
  {
    hide Sort, Distinct, Xform, Ordered;
    var a := Moved(es, from, mid, d);
    MovedPermuted(Sort(a), a, mid, to, d);
    forall i | 0 <= i < |es| ensures Moved(a, mid, to, d)[i] == Moved(es, from, to, d)[i] {
      XformSameCell(from, mid, to, es[i].At(), d);
    }
    assert Moved(a, mid, to, d) == Moved(es, from, to, d);
    MovedDistinct(es, from, to, d);
    var r := Sort(Moved(es, from, to, d));
    DistinctPermuted(Moved(es, from, to, d), r);
    OrderedDistinct(r);
    SortedUnique(r, Sort(Moved(Sort(a), mid, to, d)));
  }

  /** A sorted list of elements is already in its own order. */
  lemma {:induction false} SortSorted(es: seq<Element>, t: Order, d: Dims)
    requires Sorted(es)
    ensures Sort(Moved(es, t, t, d)) == es
  {
    assert Moved(es, t, t, d) == es;
    SortedUnique(es, Sort(es));
  }

  // ----- Windows -----

  function ShiftRows(es: seq<Element>, n: int): (r: seq<Element>)
    ensures |r| == |es|
  {
    seq(|es|, i requires 0 <= i < |es| => es[i].(row := es[i].row + n))
  }

  /** The elements of some lines are those of a smaller, well-formed partition. */
  lemma {:induction false} WindowFacts(es: seq<Element>, rp: seq<nat>, d: Dims, rs: nat, n: nat)
    requires IsRowptr(rp, es) && rs + n < |rp|
    requires AllShaped(es) && Sorted(es) && StartsInBounds(es, Horizontal, d)
    ensures rp[rs] <= rp[rs + n] <= |es|
    ensures var w := ShiftRows(es[rp[rs]..rp[rs + n]], 0 - rs);
            AllShaped(w) && Sorted(w) && RowsFromOne(w) && StartsInBounds(w, Horizontal, Dims(n, d.cols))
            && ShiftRows(w, rs) == es[rp[rs]..rp[rs + n]]
  {
    hide Shaped;
    var a, b := rp[rs], rp[rs + n];
    forall j | a <= j < b ensures rs < es[j].row <= rs + n {
      LineOf(rp, es, rs, j);
      LineOf(rp, es, rs + n, j);
    }
    ShiftedFacts(es[a..b], rs, n, d);
  }

  lemma {:induction false} ShiftedFacts(es: seq<Element>, rs: nat, n: nat, d: Dims)
    requires AllShaped(es) && Sorted(es) && StartsInBounds(es, Horizontal, d)
    requires forall i :: 0 <= i < |es| ==> rs < es[i].row <= rs + n
    ensures var w := ShiftRows(es, 0 - rs);
            AllShaped(w) && Sorted(w) && RowsFromOne(w) && StartsInBounds(w, Horizontal, Dims(n, d.cols))
            && ShiftRows(w, rs) == es
  {
    hide Shaped;
    var w := ShiftRows(es, 0 - rs);
    forall i | 0 <= i < |w| ensures Shaped(w[i]) && ShiftRows(w, rs)[i] == es[i] {
      assert Shaped(es[i]);
      ShapedAnywhere(es[i], w[i]);
    }
  }

  lemma {:induction false} ShapedAnywhere(e: Element, e': Element)
    requires Shaped(e) && e'.inst == e.inst && e'.vals == e.vals
    ensures Shaped(e')
  {
  }

  class SparsePartition {
    var nrRows: nat
    var nrCols: nat
    var nrNonzeros: nat
    var ty: Encoding
    var elems: seq<Element>
    var elemsSize: nat
    var rowptr: seq<nat>
    var rowStart: nat

    constructor ()
      ensures nrRows == nrCols == nrNonzeros == elemsSize == rowStart == 0
      ensures ty == None && elems == [] && rowptr == []
    {
      nrRows, nrCols, nrNonzeros, elemsSize, rowStart := 0, 0, 0, 0, 0;
      ty, elems, rowptr := None, [], [];
    }

    function D(): Dims
      reads this
    {
      Dims(nrRows, nrCols)
    }

    /** The elements in use; encoding may leave unused slots behind them. */
    function Live(): seq<Element>
      reads this
      requires elemsSize <= |elems|
    {
      elems[..elemsSize]
    }

    ghost predicate Valid()
      reads this
    {
      && elemsSize <= |elems|
      && ty.IsOrder()
      && AllShaped(Live())
      && Sorted(Live())
      && StartsInBounds(Live(), ty, D())
      && IsRowptr(rowptr, Live())
    }

    /** All cells of the partition. */
    ghost function CellsOf(): seq<Cell>
      reads this
      requires elemsSize <= |elems| && ty.IsOrder() && AllShaped(Live())
    {
      AllCells(Live(), ty, D())
    }

    /** Elements of line i + 1. */
    function Line(i: nat): seq<Element>
      reads this
      requires i + 1 < |rowptr| && rowptr[i] <= rowptr[i + 1] <= |elems|
    {
      elems[rowptr[i]..rowptr[i + 1]]
    }

    /** Sorts the slots lo..hi in place. */
    method SortRange(lo: nat, hi: nat)
      requires lo <= hi <= |elems|
      modifies this`elems
      ensures elems == old(elems[..lo]) + Sort(old(elems[lo..hi])) + old(elems[hi..])
      ensures |elems| == old(|elems|)
    {
      SortLength(elems[lo..hi]);
      elems := elems[..lo] + Sort(elems[lo..hi]) + elems[hi..];
    }

    lemma {:induction false} SortLength(es: seq<Element>)
      ensures |Sort(es)| == |es|
    {
      assert |multiset(Sort(es))| == |multiset(es)|;
    }

    /** Moves every element to the coordinates of type `t`. */
    method TransformCoordinates(t: Order)
      requires elemsSize <= |elems| && ty.IsOrder()
      modifies this`elems
      ensures elems == Moved(old(Live()), ty, t, D()) + old(elems[elemsSize..])
    {
      hide MoveTo, Moved;
      ghost var was := elems;
      ghost var moved := Moved(Live(), ty, t, D());
      var i := 0;
      while i < elemsSize
        invariant i <= elemsSize == |moved| <= |was|
        invariant elems == moved[..i] + was[i..]
      {
        MovedAt(was[..elemsSize], ty, t, D(), i);
        assert moved[..i + 1] == moved[..i] + [moved[i]];
        elems := elems[i := MoveTo(elems[i], ty, t, D())];
        i := i + 1;
      }
    }

    /** How many lines of the current type form a group no element leaves. */
    method GroupLines(t: Order) returns (k: nat, ghost m: nat)
      requires ty.IsOrder()
      ensures k >= 1 && m >= 1 && Bundle(ty) * k == Bundle(t) * m
    {
      var oldAlign, newAlign := Bundle(ty), Bundle(t);
      var l := Lcm(oldAlign, newAlign);
      ExactDiv(l, oldAlign);
      ExactDiv(l, newAlign);
      k, m := l / oldAlign, l / newAlign;
    }

    /** Sorts the moved elements group by group: enough between types of one family. */
    method SortGroups(t: Order, ghost old_: seq<Element>)
      requires elemsSize == |old_| <= |elems| && ty.IsOrder() && SameFamily(ty, t)
      requires StartsInBounds(old_, ty, D()) && IsRowptr(rowptr, old_)
      requires elems[..elemsSize] == Moved(old_, ty, t, D())
      modifies this`elems
      ensures |elems| == old(|elems|)
      ensures Ordered(elems[..elemsSize]) && multiset(elems[..elemsSize]) == old(multiset(elems[..elemsSize]))
    {
      hide Ordered, Split, Sort, IsRowptr, StartsInBounds, Moved, FromHoriz, ToHoriz, Bundle, SameFamily;
      ghost var m;
      var k;
      k, m := GroupLines(t);
      ghost var b := Moved(old_, ty, t, D());
      var re := |rowptr| - 1;
      var ee := 0;
      var i := k;
      ghost var g := 0;
      RowptrEnds(rowptr, old_);
      SplitAtLine(old_, ty, t, D(), rowptr, 0, k, m, 0);
      assert b[0..] == b && elems[..0] == [];
      NoGroups(b, m);
      while i < re
        invariant i >= k && i - k == g * k && i - k < |rowptr| && ee == rowptr[i - k] <= elemsSize
        invariant |elems| == old(|elems|)
        invariant elems[ee..elemsSize] == b[ee..]
        invariant Ordered(elems[..ee]) && Split(elems[..ee], b[ee..], m, g)
        invariant multiset(elems[..ee]) == multiset(b[..ee])
      {
        var es := ee;
        ee := ee + (rowptr[i] - rowptr[i - k]);
        NextMultiple(g, k);
        ghost var was := elems;
        SplitAtLine(old_, ty, t, D(), rowptr, i, k, m, g + 1);
        SortRange(es, ee);
        NextGroup(was, b, elems, es, ee, elemsSize, m, g, g + 1);
        i := i + k;
        g := g + 1;
      }
      SortLastGroup(b, ee, m, g);
    }

    lemma {:induction false} NextMultiple(g: nat, k: nat)
      ensures (g + 1) * k == g * k + k
    {
    }

    method SortLastGroup(ghost b: seq<Element>, es: nat, ghost m: nat, ghost g: int)
      requires es <= elemsSize == |b| <= |elems| && m >= 1
      requires elems[es..elemsSize] == b[es..]
      requires Ordered(elems[..es]) && Split(elems[..es], b[es..], m, g)
      requires multiset(elems[..es]) == multiset(b[..es])
      modifies this`elems
      ensures |elems| == old(|elems|)
      ensures Ordered(elems[..elemsSize]) && multiset(elems[..elemsSize]) == multiset(b)
    {
      hide Ordered, Split, Sort;
      ghost var was := elems;
      ghost var top := TopGroup(b, m, g);
      SortRange(es, elemsSize);
      assert b[elemsSize..] == [] && b[..elemsSize] == b;
      AllBelow(b, m, top);
      NextGroup(was, b, elems, es, elemsSize, elemsSize, m, g, top);
    }

    /** New coordinates and new order.  Within a family only groups of lines are sorted;
        otherwise everything is. */
    method Reorder(t: Order, ghost old_: seq<Element>, ghost b: seq<Element>)
      requires elemsSize == |old_| == |b| <= |elems| && ty.IsOrder() && old_ == Live()
      requires StartsInBounds(old_, ty, D()) && IsRowptr(rowptr, old_)
      requires b == Moved(old_, ty, t, D())
      modifies this`elems
      ensures |elems| == old(|elems|)
      ensures Ordered(elems[..elemsSize]) && multiset(elems[..elemsSize]) == multiset(b)
    {
      hide Ordered, IsRowptr, StartsInBounds, Moved, FromHoriz, ToHoriz, Bundle;
      TransformCoordinates(t);
      assert elems[..elemsSize] == b;
      if SameFamily(ty, t) {
        SortGroups(t, old_);
      } else {
        SortRange(0, elemsSize);
        assert elems[..elemsSize] == Sort(b);
      }
    }

    /** Re-orders the partition by lines of type `t`. */
    method Transform(t: Order)
      requires Valid()
      modifies this`elems, this`rowptr, this`ty
      ensures Valid() && ty == t && elemsSize == old(elemsSize) && |elems| == old(|elems|)
      ensures Live() == Sort(Moved(old(Live()), old(ty), t, D()))
      ensures multiset(CellsOf()) == multiset(old(CellsOf()))
      ensures elemsSize > 0 && old(ty) != t ==> Tight(rowptr, Live())
      ensures old(ty) == t ==> elems == old(elems) && rowptr == old(rowptr)
    {
      hide AllCells, Sort, Ordered, Sorted, Distinct, IsRowptr, StartsInBounds, Moved, FromHoriz, ToHoriz, AllShaped,
           Bundle, RowsFromOne, Tight;
      if ty == t {
        MovedToSame(Live(), ty, D());
        SortedUnique(Live(), Sort(Live()));
        return;
      }
      ghost var old_, d := Live(), D();
      ghost var b := Moved(old_, ty, t, d);
      SortedDistinct(old_);
      MovedFacts(old_, ty, t, d);
      Reorder(t, old_, b);
      ghost var now := elems[..elemsSize];
      SortedFacts(b, now, t, d);
      SortedUnique(now, Sort(b));
      if elemsSize > 0 {
        rowptr := SetRowptr(elems[..elemsSize]);
      } else {
        EmptyRowptr(rowptr, old_, now);
      }
      ty := t;
    }

    /** Moves the elements of the lines rs + 1..rs + length to a window of their own.  The
        slots they leave hold nothing of use until the window is put back. */
    method GetWindow(rs: nat, length: nat) returns (w: SparsePartition)
      requires Valid() && ty.Horizontal? && rs < |rowptr|
      modifies this`elems
      ensures fresh(w) && |elems| == old(|elems|)
      ensures w.nrNonzeros == 0 ==> elems == old(elems)
      ensures var n := if rs + length > |rowptr| - 1 then |rowptr| - rs - 1 else length;
              && rowptr[rs] <= rowptr[rs + n] <= elemsSize
              && (w.nrNonzeros == 0 <==> rowptr[rs] == rowptr[rs + n])
              && (w.nrNonzeros != 0 ==>
                    && w.Valid() && w.ty == Horizontal && w.rowStart == rowStart + rs && w.D() == Dims(n, nrCols)
                    && w.elems == w.Live() == ShiftRows(old(elems[rowptr[rs]..rowptr[rs + n]]), 0 - rs)
                    && elems[..rowptr[rs]] == old(elems[..rowptr[rs]])
                    && elems[rowptr[rs + n]..] == old(elems[rowptr[rs + n]..]))
    {
      hide IsRowptr, AllShaped, Sorted, StartsInBounds, RowsFromOne, ShiftRows;
      var n := if rs + length > |rowptr| - 1 then |rowptr| - rs - 1 else length;
      w := new SparsePartition();
      WindowFacts(Live(), rowptr, D(), rs, n);
      var es, ee := rowptr[rs], rowptr[rs + n];
      if es == ee {
        return;
      }
      assert Live()[es..ee] == elems[es..ee];
      w.FillWindow(ShiftRows(elems[es..ee], 0 - rs), n, nrCols, rowStart + rs);
      elems := elems[..es] + seq(ee - es, _ => Single(0, 0, 0.0)) + elems[ee..];
    }

    method FillWindow(es: seq<Element>, rows: nat, cols: nat, start: nat)
      requires AllShaped(es) && Sorted(es) && RowsFromOne(es) && StartsInBounds(es, Horizontal, Dims(rows, cols))
      modifies this
      ensures Valid() && ty == Horizontal && rowStart == start && D() == Dims(rows, cols)
      ensures elems == Live() == es && nrNonzeros == |es|
    {
      hide AllShaped, Sorted, StartsInBounds, RowsFromOne, IsRowptr;
      elems, elemsSize := es, |es|;
      assert elems[..elemsSize] == es;
      rowptr := SetRowptr(elems);
      nrRows, nrCols, nrNonzeros := rows, cols, |es|;
      rowStart := start;
      ty := Horizontal;
    }

    /** Renumbers the rows of every element. */
    method MoveRows(n: int)
      requires elemsSize == |elems|
      modifies this`elems
      ensures elems == ShiftRows(old(elems), n)
    {
      ghost var was, target := elems, ShiftRows(elems, n);
      var i := 0;
      while i < elemsSize
        invariant i <= elemsSize == |elems| == |was|
        invariant forall k :: 0 <= k < i ==> elems[k] == target[k]
        invariant forall k :: i <= k < elemsSize ==> elems[k] == was[k]
      {
        var e := elems[i];
        elems := elems[i := e.(row := e.row + n)];
        i := i + 1;
      }
      assert elems == target;
    }

    /** Moves the elements of a window back. */
    method PutWindow(w: SparsePartition)
      requires w != this && w.ty == ty == Horizontal && w.elemsSize == |w.elems|
      requires rowStart <= w.rowStart && w.rowStart - rowStart < |rowptr|
      requires rowptr[w.rowStart - rowStart] + |w.elems| <= |elems|
      modifies this`elems, w`elems
      ensures w.elems == ShiftRows(old(w.elems), w.rowStart - rowStart)
      ensures var es := rowptr[w.rowStart - rowStart];
              elems == old(elems[..es]) + w.elems + old(elems[es + |w.elems|..])
    {
      hide ShiftRows;
      var rs := w.rowStart - rowStart;
      var es := rowptr[rs];
      w.MoveRows(rs);
      elems := elems[..es] + w.elems + elems[es + |w.elems|..];
    }

    lemma {:induction false} EmptyRowptr(rp: seq<nat>, a: seq<Element>, b: seq<Element>)
      requires IsRowptr(rp, a) && a == [] && b == []
      ensures IsRowptr(rp, b)
    {
    }

    lemma {:induction false} MovedToSame(es: seq<Element>, t: Order, d: Dims)
      ensures Moved(es, t, t, d) == es
    {
    }

    /** A sorted permutation of the moved elements is a proper element list of type `t`. */
    lemma {:induction false} SortedFacts(b: seq<Element>, es: seq<Element>, t: Order, d: Dims)
      requires AllShaped(b) && Distinct(b) && StartsInBounds(b, t, d)
      requires Ordered(es) && multiset(es) == multiset(b)
      ensures AllShaped(es) && Sorted(es) && StartsInBounds(es, t, d) && RowsFromOne(es)
      ensures multiset(AllCells(es, t, d)) == multiset(AllCells(b, t, d))
    {
      DistinctPermuted(b, es);
      OrderedDistinct(es);
      AllCellsPermuted(b, es, t, d);
      forall i | 0 <= i < |es| ensures InBounds(ToHoriz(t, es[i].At(), d), d) && es[i].row >= 1 {
        assert es[i] in multiset(b);
        var q :| 0 <= q < |b| && b[q] == es[i];
        PositiveCoords(t, ToHoriz(t, es[i].At(), d), d);
        XformInverse(t, es[i].At(), d);
      }
    }

    /** Sorting the slots of one more group. */
    lemma {:induction false} NextGroup(was: seq<Element>, b: seq<Element>, now: seq<Element>, es: nat, ee: nat, n: nat,
                                       m: nat, g: int, g': int)
      requires es <= ee <= n == |b| <= |was| == |now| && m >= 1 && g <= g'
      requires was[es..n] == b[es..]
      requires Ordered(was[..es]) && Split(was[..es], b[es..], m, g)
      requires multiset(was[..es]) == multiset(b[..es])
      requires Split(b[..ee], b[ee..], m, g')
      requires now == was[..es] + Sort(was[es..ee]) + was[ee..]
      ensures now[ee..n] == b[ee..]
      ensures Ordered(now[..ee]) && Split(now[..ee], b[ee..], m, g')
      ensures multiset(now[..ee]) == multiset(b[..ee])
    {
      hide Ordered, Split, Sort;
      var chunk := was[es..ee];
      SortLength(chunk);
      assert chunk == b[es..ee] by {
        assert was[es..n][..ee - es] == chunk;
        assert b[es..][..ee - es] == b[es..ee];
      }
      assert now[..ee] == was[..es] + Sort(chunk);
      assert now[ee..n] == b[ee..] by {
        assert now[ee..n] == was[ee..n];
        assert was[es..n][ee - es..] == was[ee..n];
        assert b[es..][ee - es..] == b[ee..];
      }
      assert chunk + b[ee..] == b[es..];
      assert b[..ee] == b[..es] + chunk;
      FrontBelow(was[..es], b[..es], chunk, b[ee..], m, g');
      GlueGroups(was[..es], chunk, Sort(chunk), b[ee..], m, g, g');
    }

    lemma {:induction false} FrontBelow(a: seq<Element>, a': seq<Element>, chunk: seq<Element>, back: seq<Element>,
                                        m: nat, g: int)
      requires m >= 1 && multiset(a) == multiset(a') && Split(a' + chunk, back, m, g)
      ensures Split(a + chunk, back, m, g)
    {
      forall i | 0 <= i < |a| ensures Group(a[i], m) < g {
        assert a[i] in multiset(a');
        var q :| 0 <= q < |a'| && a'[q] == a[i];
        assert (a' + chunk)[q] == a'[q];
      }
      forall i | 0 <= i < |chunk| ensures Group(chunk[i], m) < g {
        assert (a' + chunk)[|a'| + i] == chunk[i];
      }
    }

    ghost method TopGroup(es: seq<Element>, m: nat, g: int) returns (top: int)
      requires m >= 1
      ensures top >= g && forall i :: 0 <= i < |es| ==> Group(es[i], m) < top
    {
      top := g;
      var i := 0;
      while i < |es|
        invariant i <= |es| && top >= g
        invariant forall j :: 0 <= j < i ==> Group(es[j], m) < top
      {
        if Group(es[i], m) >= top {
          top := Group(es[i], m) + 1;
        }
        i := i + 1;
      }
    }
  }
}
