/** What encoding one type may do to a list of elements, and what it keeps. */
module Rewriting {
  import opened Encodings
  import opened Elements
  import opened CtlCodec
  import opened RunLength
  import opened RowEncoder
  import opened SparsePartition

  /** Position of the last cell on the element's own line, when lines are those of type `t`. */
  function EndCol(e: Element, t: Encoding): int {
    if e.inst.ty == t then Walk(e.col, Step(e.inst), |e.vals| - 1) else e.col
  }

  function EndAt(e: Element, t: Encoding): Coord { Coord(e.row, EndCol(e, t)) }

  function Starts(es: seq<Element>): set<Coord> { set i | 0 <= i < |es| :: es[i].At() }

  function Ends(es: seq<Element>, t: Encoding): set<Coord> { set i | 0 <= i < |es| :: EndAt(es[i], t) }

  /** An element that was there before, or a new one that starts at an old start and ends at
      an old end. */
  predicate Derived(e: Element, old_: seq<Element>, t: Encoding) {
    && e.At() in Starts(old_)
    && EndAt(e, t) in Ends(old_, t)
    && (e in old_ || Fresh(e, e.row, t))
  }

  /** No element reaches the start of the next one on its line. */
  predicate Apart(es: seq<Element>, t: Encoding) {
    forall i, j :: 0 <= i < j < |es| ==> Before(EndAt(es[i], t), es[j].At())
  }

  /** `new_` stands for the same cells as `old_`, in the same order, in no more elements. */
  ghost predicate Rewrites(new_: seq<Element>, old_: seq<Element>, t: Order, d: Dims) {
    && AllShaped(new_) && AllShaped(old_)
    && |new_| <= |old_|
    && (forall k :: 0 <= k < |new_| ==> Derived(new_[k], old_, t))
    && Sorted(new_)
    && (Apart(old_, t) ==> Apart(new_, t))
    && AllCells(new_, t, d) == AllCells(old_, t, d)
  }

  lemma {:induction false} StartsMember(es: seq<Element>, p: Coord) returns (i: nat)
    requires p in Starts(es)
    ensures i < |es| && es[i].At() == p
  {
    i :| 0 <= i < |es| && es[i].At() == p;
  }

  lemma {:induction false} EndsMember(es: seq<Element>, t: Encoding, p: Coord) returns (i: nat)
    requires p in Ends(es, t)
    ensures i < |es| && EndAt(es[i], t) == p
  {
    i :| 0 <= i < |es| && EndAt(es[i], t) == p;
  }

  lemma {:induction false} DerivedWider(e: Element, old_: seq<Element>, wider: seq<Element>, t: Encoding, shift: nat)
    requires Derived(e, old_, t)
    requires shift + |old_| <= |wider| && wider[shift..shift + |old_|] == old_
    ensures Derived(e, wider, t)
  {
    var p := StartsMember(old_, e.At());
    var q := EndsMember(old_, t, EndAt(e, t));
    assert wider[shift + p] == old_[p] && wider[shift + q] == old_[q];
    if e in old_ {
      var r :| 0 <= r < |old_| && old_[r] == e;
      assert wider[shift + r] == e;
    }
  }

  /** Rewriting piece by piece. */
  lemma {:induction false} RewritesConcat(a: seq<Element>, a': seq<Element>, b: seq<Element>, b': seq<Element>,
                                          t: Order, d: Dims)
    requires Rewrites(a, a', t, d) && Rewrites(b, b', t, d)
    requires Sorted(a' + b')
    ensures Rewrites(a + b, a' + b', t, d)
  {
    hide Derived, AllCells, Shaped, EndAt, Starts, Ends, Apart, Sorted;
    var r, w := a + b, a' + b';
    AllCellsConcat(a, b, t, d);
    AllCellsConcat(a', b', t, d);
    forall k | 0 <= k < |r| ensures Derived(r[k], w, t) {
      if k < |a| {
        assert w[0..|a'|] == a';
        DerivedWider(a[k], a', w, t, 0);
      } else {
        assert w[|a'|..|w|] == b';
        DerivedWider(b[k - |a|], b', w, t, |a'|);
      }
    }
    SortedConcat(a, a', b, b', t);
    if Apart(w, t) {
      ApartConcat(a, a', b, b', t);
    }
  }

  lemma {:induction false} SortedConcat(a: seq<Element>, a': seq<Element>, b: seq<Element>, b': seq<Element>, t: Order)
    requires Sorted(a) && Sorted(b) && Sorted(a' + b')
    requires forall k :: 0 <= k < |a| ==> Derived(a[k], a', t)
    requires forall k :: 0 <= k < |b| ==> Derived(b[k], b', t)
    ensures Sorted(a + b)
  {
    hide Fresh;
    var r, w := a + b, a' + b';
    forall i, j | 0 <= i < j < |r| ensures Before(r[i].At(), r[j].At()) {
      if i < |a| <= j {
        var p := StartsMember(a', a[i].At());
        var q := StartsMember(b', b[j - |a|].At());
        assert Before(w[p].At(), w[|a'| + q].At());
      }
    }
  }

  lemma {:induction false} ApartConcat(a: seq<Element>, a': seq<Element>, b: seq<Element>, b': seq<Element>, t: Order)
    requires Apart(a' + b', t)
    requires Apart(a', t) ==> Apart(a, t)
    requires Apart(b', t) ==> Apart(b, t)
    requires forall k :: 0 <= k < |a| ==> Derived(a[k], a', t)
    requires forall k :: 0 <= k < |b| ==> Derived(b[k], b', t)
    ensures Apart(a + b, t)
  {
    hide Fresh, EndAt;
    var r, w := a + b, a' + b';
    assert forall i :: 0 <= i < |a'| ==> w[i] == a'[i];
    assert forall i :: 0 <= i < |b'| ==> w[|a'| + i] == b'[i];
    assert Apart(a', t) && Apart(b', t);
    forall i, j | 0 <= i < j < |r| ensures Before(EndAt(r[i], t), r[j].At()) {
      if i < |a| <= j {
        var p := EndsMember(a', t, EndAt(a[i], t));
        var q := StartsMember(b', b[j - |a|].At());
        assert Before(EndAt(w[p], t), w[|a'| + q].At());
      }
    }
  }

  lemma {:induction false} RewritesNothing(t: Order, d: Dims)
    ensures Rewrites([], [], t, d)
  {
  }

  /** An element may stay as it is. */
  lemma {:induction false} RewritesSame(e: Element, t: Order, d: Dims)
    requires Shaped(e)
    ensures Rewrites([e], [e], t, d)
  {
    hide AllCells, Shaped, EndAt;
    assert [e][0].At() in Starts([e]) && EndAt([e][0], t) in Ends([e], t);
  }

  // ----- A stretch of single elements -----

  lemma {:induction false} IncreasingPrefix(a: seq<int>, b: seq<int>)
    requires Increasing(a + b)
    ensures Increasing(a)
    ensures forall i, j :: 0 <= i < |a| && 0 <= j < |b| ==> a[i] < b[j]
  {
    var w := a + b;
    assert forall i :: 0 <= i < |a| ==> w[i] == a[i];
    assert forall j :: 0 <= j < |b| ==> w[|a| + j] == b[j];
  }

  lemma {:induction false} PositionsEnds(e: Element, row: int, t: Order)
    requires Fresh(e, row, t)
    ensures var ps := Positions(e, t); ps != [] && ps[0] == e.col && ps[|ps| - 1] == EndCol(e, t)
  {
    WalkNext(e.col, Step(e.inst), 0);
  }

  /** Every element starts and ends at one of the positions, apart from the next one. */
  predicate Between(es: seq<Element>, t: Encoding, xs: seq<int>) {
    && (forall k :: 0 <= k < |es| ==> es[k].col in xs && EndCol(es[k], t) in xs)
    && (forall j, k :: 0 <= j < k < |es| ==> EndCol(es[j], t) < es[k].col)
  }

  lemma {:induction false} CoversSplit(es: seq<Element>, row: int, t: Order, xs: seq<int>, vs: seq<real>)
    returns (pre: seq<int>)
    requires es != [] && Covers(es, row, t, xs, vs)
    ensures var n := |es| - 1;
            Covers(es[..n], row, t, pre, AllValues(es[..n]))
            && xs == pre + Positions(es[n], t) && Fresh(es[n], row, t)
  {
    hide Fresh, Positions;
    pre := AllPositions(es[..|es| - 1], t);
  }

  lemma {:induction false} BetweenSnoc(es: seq<Element>, n: nat, row: int, t: Order, pre: seq<int>, last: seq<int>)
    requires n + 1 == |es| && Between(es[..n], t, pre) && Increasing(pre + last)
    requires Fresh(es[n], row, t) && last == Positions(es[n], t)
    ensures Between(es, t, pre + last)
  {
    hide Increasing, Fresh, Positions, EndCol;
    var xs := pre + last;
    IncreasingPrefix(pre, last);
    PositionsEnds(es[n], row, t);
    assert xs[|pre|] == es[n].col && xs[|xs| - 1] == EndCol(es[n], t);
    forall k | 0 <= k < n ensures es[k].col in xs && EndCol(es[k], t) in xs && EndCol(es[k], t) < es[n].col {
      assert es[..n][k] == es[k];
      assert es[k].col in pre && EndCol(es[k], t) in pre;
    }
    forall j, k | 0 <= j < k < |es| ensures EndCol(es[j], t) < es[k].col {
      if k < n {
        assert es[..n][j] == es[j] && es[..n][k] == es[k];
      }
    }
  }

  /** New elements over increasing positions lie between them, apart from each other. */
  lemma {:induction false} CoversApart(es: seq<Element>, row: int, t: Order, xs: seq<int>, vs: seq<real>)
    requires Covers(es, row, t, xs, vs) && Increasing(xs)
    ensures Between(es, t, xs)
    decreases |es|
  {
    if es != [] {
      hide Increasing, Covers, Fresh, Positions, Between;
      var n := |es| - 1;
      var pre := CoversSplit(es, row, t, xs, vs);
      IncreasingPrefix(pre, Positions(es[n], t));
      CoversApart(es[..n], row, t, pre, AllValues(es[..n]));
      BetweenSnoc(es, n, row, t, pre, Positions(es[n], t));
    }
  }

  /** Position and value buffers filled from single elements of one line. */
  predicate Buffers(singles: seq<Element>, row: int, xs: seq<int>, vs: seq<real>) {
    && |singles| == |xs| == |vs|
    && forall i :: 0 <= i < |singles| ==> singles[i] == Single(row, xs[i], vs[i])
  }

  lemma {:induction false} BufferCells(singles: seq<Element>, row: int, xs: seq<int>, vs: seq<real>, t: Order, d: Dims)
    requires Buffers(singles, row, xs, vs)
    ensures AllShaped(singles)
    ensures AllCells(singles, t, d) == LineCells(t, row, xs, vs, d)
  {
    if singles != [] {
      BufferCells(singles[1..], row, xs[1..], vs[1..], t, d);
      assert xs == [xs[0]] + xs[1..] && vs == [vs[0]] + vs[1..];
      LineCellsConcat(t, row, [xs[0]], [vs[0]], xs[1..], vs[1..], d);
      assert ElemCells(singles[0], t, d) == LineCells(t, row, [xs[0]], [vs[0]], d);
    }
  }

  lemma {:induction false} BufferIncreasing(singles: seq<Element>, row: int, xs: seq<int>, vs: seq<real>)
    requires Buffers(singles, row, xs, vs) && Sorted(singles)
    ensures Increasing(xs)
  {
    forall i, j | 0 <= i < j < |xs| ensures xs[i] < xs[j] {
      assert Before(singles[i].At(), singles[j].At());
    }
  }

  /** Encoding a stretch of single elements is a rewriting of them. */
  lemma {:induction false} CoversRewrites(es: seq<Element>, singles: seq<Element>, row: int, t: Order, xs: seq<int>,
                                          vs: seq<real>, d: Dims)
    requires Covers(es, row, t, xs, vs) && Buffers(singles, row, xs, vs) && Sorted(singles)
    ensures Rewrites(es, singles, t, d)
  {
    hide AllCells, LineCells, AllPositions, AllValues, Shaped, Sorted;
    BufferIncreasing(singles, row, xs, vs);
    CoversCells(es, row, t, xs, vs, d);
    BufferCells(singles, row, xs, vs, t, d);
    CoversCount(es, row, t, xs, vs);
    CoversApart(es, row, t, xs, vs);
    forall k | 0 <= k < |es| ensures Derived(es[k], singles, t) {
      CoversDerived(es, k, singles, row, t, xs, vs);
    }
    ApartSorted(es, t, row, singles, xs, vs);
  }

  lemma {:induction false} CoversDerived(es: seq<Element>, k: nat, singles: seq<Element>, row: int, t: Order,
                                         xs: seq<int>, vs: seq<real>)
    requires Covers(es, row, t, xs, vs) && Buffers(singles, row, xs, vs)
    requires k < |es| && es[k].col in xs && EndCol(es[k], t) in xs
    ensures Derived(es[k], singles, t)
  {
    var e := es[k];
    assert Fresh(e, row, t);
    var p :| 0 <= p < |xs| && xs[p] == e.col;
    var q :| 0 <= q < |xs| && xs[q] == EndCol(e, t);
    assert singles[p].At() == e.At() && EndAt(singles[q], t) == EndAt(e, t);
  }

  lemma {:induction false} EndNotBefore(e: Element, row: int, t: Order)
    requires Fresh(e, row, t)
    ensures EndCol(e, t) >= e.col
  {
    hide Walk;
    WalkForward(e.col, Step(e.inst), |e.vals| - 1);
  }

  lemma {:induction false} WalkForward(a: int, v: nat, i: nat)
    ensures Walk(a, v, i) >= a
  {
  }

  lemma {:induction false} ApartSorted(es: seq<Element>, t: Order, row: int, singles: seq<Element>, xs: seq<int>,
                                       vs: seq<real>)
    requires Covers(es, row, t, xs, vs)
    requires forall j, k :: 0 <= j < k < |es| ==> EndCol(es[j], t) < es[k].col
    ensures Sorted(es) && Apart(es, t)
  {
    hide EndCol;
    forall j, k | 0 <= j < k < |es| ensures Before(es[j].At(), es[k].At()) && Before(EndAt(es[j], t), es[k].At()) {
      assert Fresh(es[j], row, t) && Fresh(es[k], row, t);
      EndNotBefore(es[j], row, t);
    }
  }

  // ----- What every round of encoding keeps -----

  /** Elements the compiler can lower. */
  predicate Fine(e: Element) { e.Size() <= CTL_SIZE_MAX && e.inst.dim < PATTERN_ID_OFFSET }

  predicate AllFine(es: seq<Element>) { forall i :: 0 <= i < |es| ==> Fine(es[i]) }

  function HStart(e: Element, t: Order, d: Dims): Coord { ToHoriz(t, e.At(), d) }

  /** The last cell of a horizontal substructure, the first one of anything else. */
  function HEnd(e: Element, t: Order, d: Dims): Coord {
    var h := HStart(e, t, d);
    if e.inst.ty.Horizontal? then Coord(h.row, Walk(h.col, Step(e.inst), |e.vals| - 1)) else h
  }

  /** In row-major order, no horizontal substructure reaches the start of another element. */
  predicate Readable(es: seq<Element>, t: Order, d: Dims) {
    forall i, j :: 0 <= i < |es| && 0 <= j < |es| && Before(HStart(es[i], t, d), HStart(es[j], t, d)) ==>
      Before(HEnd(es[i], t, d), HStart(es[j], t, d))
  }

  lemma {:induction false} ReadableIsApart(es: seq<Element>, d: Dims)
    requires Sorted(es)
    ensures Readable(es, Horizontal, d) <==> Apart(es, Horizontal)
  {
    hide Walk;
    assert forall e: Element :: HStart(e, Horizontal, d) == e.At();
    assert forall e: Element :: HEnd(e, Horizontal, d) == EndAt(e, Horizontal);
    if Readable(es, Horizontal, d) {
      forall i, j | 0 <= i < j < |es| ensures Before(EndAt(es[i], Horizontal), es[j].At()) {
        assert Before(HStart(es[i], Horizontal, d), HStart(es[j], Horizontal, d));
      }
    }
    if Apart(es, Horizontal) {
      forall i, j | 0 <= i < |es| && 0 <= j < |es| && Before(HStart(es[i], Horizontal, d), HStart(es[j], Horizontal, d))
        ensures Before(HEnd(es[i], Horizontal, d), HStart(es[j], Horizontal, d))
      {
        if i >= j {
          assert i == j || Before(es[j].At(), es[i].At());
        }
      }
    }
  }

  lemma {:induction false} RewritesReadable(new_: seq<Element>, old_: seq<Element>, t: Order, d: Dims)
    requires Rewrites(new_, old_, t, d) && Sorted(old_) && Readable(old_, t, d)
    ensures Readable(new_, t, d)
  {
    hide AllCells, Shaped, Sorted, HEnd, HStart, EndAt, Starts, Ends, Apart;
    if t.Horizontal? {
      ReadableIsApart(old_, d);
      ReadableIsApart(new_, d);
    } else {
      forall i, j | 0 <= i < |new_| && 0 <= j < |new_| && Before(HStart(new_[i], t, d), HStart(new_[j], t, d))
        ensures Before(HEnd(new_[i], t, d), HStart(new_[j], t, d))
      {
        assert Derived(new_[i], old_, t) && Derived(new_[j], old_, t);
        if new_[i] in old_ {
          var p :| 0 <= p < |old_| && old_[p] == new_[i];
          var q := StartsMember(old_, new_[j].At());
          SameStart(old_[q], new_[j], t, d);
        } else {
          FreshEnd(new_[i], t, d);
        }
      }
    }
  }

  lemma {:induction false} SameStart(a: Element, b: Element, t: Order, d: Dims)
    requires a.At() == b.At()
    ensures HStart(a, t, d) == HStart(b, t, d)
  {
  }

  lemma {:induction false} FreshEnd(e: Element, t: Order, d: Dims)
    requires Fresh(e, e.row, t) && !t.Horizontal?
    ensures HEnd(e, t, d) == HStart(e, t, d)
  {
  }

  lemma {:induction false} RewritesFine(new_: seq<Element>, old_: seq<Element>, t: Order, d: Dims)
    requires Rewrites(new_, old_, t, d) && AllFine(old_)
    ensures AllFine(new_)
  {
    hide AllCells, Shaped, Sorted, EndAt, Starts, Ends, Apart;
    forall k | 0 <= k < |new_| ensures Fine(new_[k]) {
      assert Derived(new_[k], old_, t);
    }
  }

  lemma {:induction false} RewritesInBounds(new_: seq<Element>, old_: seq<Element>, t: Order, d: Dims)
    requires Rewrites(new_, old_, t, d) && StartsInBounds(old_, t, d)
    ensures StartsInBounds(new_, t, d)
  {
    hide AllCells, Shaped, Sorted, EndAt, Ends, Apart, ToHoriz;
    forall k | 0 <= k < |new_| ensures InBounds(ToHoriz(t, new_[k].At(), d), d) {
      assert Derived(new_[k], old_, t);
      var p := StartsMember(old_, new_[k].At());
    }
  }

  /** Re-ordering keeps all of it. */
  lemma {:induction false} MovedKeeps(old_: seq<Element>, new_: seq<Element>, from: Order, to: Order, d: Dims)
    requires new_ == Sort(Moved(old_, from, to, d))
    ensures AllFine(old_) ==> AllFine(new_)
    ensures Readable(old_, from, d) ==> Readable(new_, to, d)
  {
    hide Sort, Ordered, Readable, AllFine, MoveTo, HEnd, HStart;
    var b := Moved(old_, from, to, d);
    forall i | 0 <= i < |new_|
      ensures exists p :: 0 <= p < |old_| && new_[i] == MoveTo(old_[p], from, to, d)
    {
      assert new_[i] in multiset(b);
      var p :| 0 <= p < |b| && b[p] == new_[i];
      assert b[p] == MoveTo(old_[p], from, to, d);
    }
    MembersKeep(old_, new_, from, to, d);
  }

  lemma {:induction false} MembersKeep(old_: seq<Element>, new_: seq<Element>, from: Order, to: Order, d: Dims)
    requires forall i :: 0 <= i < |new_| ==> exists p :: 0 <= p < |old_| && new_[i] == MoveTo(old_[p], from, to, d)
    ensures AllFine(old_) ==> AllFine(new_)
    ensures Readable(old_, from, d) ==> Readable(new_, to, d)
  {
    hide MoveTo, HEnd, HStart, Fine;
    if AllFine(old_) {
      forall i | 0 <= i < |new_| ensures Fine(new_[i]) {
        var p :| 0 <= p < |old_| && new_[i] == MoveTo(old_[p], from, to, d);
        MoveToKeeps(old_[p], from, to, d);
      }
    }
    if Readable(old_, from, d) {
      forall i, j | 0 <= i < |new_| && 0 <= j < |new_| && Before(HStart(new_[i], to, d), HStart(new_[j], to, d))
        ensures Before(HEnd(new_[i], to, d), HStart(new_[j], to, d))
      {
        var p :| 0 <= p < |old_| && new_[i] == MoveTo(old_[p], from, to, d);
        var q :| 0 <= q < |old_| && new_[j] == MoveTo(old_[q], from, to, d);
        MoveToKeeps(old_[p], from, to, d);
        MoveToKeeps(old_[q], from, to, d);
      }
    }
  }

  lemma {:induction false} MoveToKeeps(e: Element, from: Order, to: Order, d: Dims)
    ensures Fine(e) ==> Fine(MoveTo(e, from, to, d))
    ensures HStart(MoveTo(e, from, to, d), to, d) == HStart(e, from, d)
    ensures HEnd(MoveTo(e, from, to, d), to, d) == HEnd(e, from, d)
  {
    hide ToHoriz, Xform;
    XformSameCell(from, to, to, e.At(), d);
  }
}
