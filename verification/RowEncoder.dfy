/** Replacing runs of single elements of one line by substructures. */
module RowEncoder {
  import opened Encodings
  import opened Cells
  import opened Elements
  import opened CtlCodec
  import opened RunLength

  /** Limits and instantiations the encoder works with. */
  datatype Config = Config(minLimit: nat, maxLimit: nat, splitBlocks: bool, useNuma: bool, insts: set<Instantiation>)

  /** What encoding needs of the configuration and of the instantiations the statistics pick. */
  predicate Usable(c: Config) {
    && c.minLimit >= 1 && 1 <= c.maxLimit <= CTL_SIZE_MAX
    && forall i :: i in c.insts ==> InstOk(i, c.splitBlocks)
  }

  /** Pattern ids carry dimensions below the offset only, which no filter of the statistics
      checks; what goes wrong beyond it is LargeStepMisdecodes.  The block splitter bounds the
      blocks it selects by the size of a unit. */
  predicate InstOk(i: Instantiation, splitBlocks: bool) {
    && i.ty.Valid()
    && 1 <= i.dim < PATTERN_ID_OFFSET
    && (splitBlocks && i.ty.IsBlock() ==> i.ty.Alignment() * i.dim <= CTL_SIZE_MAX)
  }

  // ----- What a list of new elements stands for -----

  /** Positions on its line an element of order `t` covers: all of a substructure of that
      type, the first cell of any other element. */
  function Positions(e: Element, t: Encoding): seq<int> {
    if e.inst.ty == t then seq(|e.vals|, k requires 0 <= k < |e.vals| => Walk(e.col, Step(e.inst), k))
    else [e.col]
  }

  function AllPositions(es: seq<Element>, t: Encoding): seq<int> {
    if es == [] then [] else AllPositions(es[..|es| - 1], t) + Positions(es[|es| - 1], t)
  }

  function AllValues(es: seq<Element>): seq<real> {
    if es == [] then [] else AllValues(es[..|es| - 1]) + es[|es| - 1].vals
  }

  /** An element the encoder may write on line `row` of order `t`. */
  predicate Fresh(e: Element, row: int, t: Encoding)
  {
    && Shaped(e) && e.row == row && e.col >= 1
    && e.Size() <= CTL_SIZE_MAX && e.inst.dim < PATTERN_ID_OFFSET
    && (e.IsPattern() ==> e.inst.ty == t && Aligned(e.inst, e.At()) && |e.vals| >= 2)
    && (!e.IsPattern() ==> |e.vals| == 1)
  }

  /** `es` covers exactly the positions `xs` of line `row` with the values `vs`, in order. */
  ghost predicate Covers(es: seq<Element>, row: int, t: Encoding, xs: seq<int>, vs: seq<real>) {
    && (forall i :: 0 <= i < |es| ==> Fresh(es[i], row, t))
    && AllPositions(es, t) == xs
    && AllValues(es) == vs
  }

  lemma {:induction false} CoversSnoc(es: seq<Element>, e: Element, row: int, t: Encoding, xs: seq<int>, vs: seq<real>)
    requires Covers(es, row, t, xs, vs) && Fresh(e, row, t)
    ensures Covers(es + [e], row, t, xs + Positions(e, t), vs + e.vals)
  {
    assert (es + [e])[..|es|] == es;
  }

  /** Taking back a single element that was written last. */
  lemma {:induction false} CoversPop(es: seq<Element>, row: int, t: Encoding, xs: seq<int>, vs: seq<real>)
    requires es != [] && Covers(es, row, t, xs, vs)
    requires t != None && !es[|es| - 1].IsPattern()
    ensures |xs| >= 1 && |vs| >= 1
    ensures xs[|xs| - 1] == es[|es| - 1].col
    ensures Covers(es[..|es| - 1], row, t, xs[..|xs| - 1], vs[..|vs| - 1])
  {
    var n := |es| - 1;
    assert xs == AllPositions(es[..n], t) + [es[n].col];
    assert vs == AllValues(es[..n]) + es[n].vals;
    assert xs[..|xs| - 1] == AllPositions(es[..n], t);
    assert vs[..|vs| - 1] == AllValues(es[..n]);
  }

  lemma {:induction false} CoversNothing(row: int, t: Encoding)
    ensures Covers([], row, t, [], [])
  {
  }

  /** A line holds at least as many positions as elements. */
  lemma {:induction false} CoversCount(es: seq<Element>, row: int, t: Encoding, xs: seq<int>, vs: seq<real>)
    requires Covers(es, row, t, xs, vs)
    ensures |es| <= |xs| == |vs|
    ensures es == [] <==> xs == []
  {
    if es != [] {
      var n := |es| - 1;
      CoversCount(es[..n], row, t, AllPositions(es[..n], t), AllValues(es[..n]));
      assert Fresh(es[n], row, t);
    }
  }

  /** The next stretch of a row in equal steps. */
  predicate Stretch(xs: seq<int>, b: nat, n: nat, start: int, step: int) {
    b + n <= |xs| && forall k :: b <= k < b + n ==> xs[k] == Walk(start, step, k - b)
  }

  /** A substructure over the next `n` entries of a stretch. */
  lemma {:induction false} CoversRun(es: seq<Element>, row: int, t: Order, xs: seq<int>, vs: seq<real>, b: nat, n: nat,
                                     e: Element)
    requires b + n <= |xs| == |vs| && n >= 1
    requires Covers(es, row, t, xs[..b], vs[..b])
    requires Fresh(e, row, t) && e.vals == vs[b..b + n]
    requires e.inst.ty == t || n == 1
    requires Stretch(xs, b, n, e.col, if e.inst.ty == t then Step(e.inst) else 0)
    ensures Covers(es + [e], row, t, xs[..b + n], vs[..b + n])
  {
    CoversSnoc(es, e, row, t, xs[..b], vs[..b]);
    assert xs[..b + n] == xs[..b] + Positions(e, t);
    assert vs[..b + n] == vs[..b] + e.vals;
  }

  // ----- From positions to cells -----

  function LineCells(t: Order, row: int, xs: seq<int>, vs: seq<real>, d: Dims): (cs: seq<Cell>)
    requires |xs| == |vs|
    ensures |cs| == |xs|
  {
    seq(|xs|, k requires 0 <= k < |xs| =>
      var p := ToHoriz(t, Coord(row, xs[k]), d);
      Cell(p.row, p.col, vs[k]))
  }

  /** A new element's cells are those of the positions it covers. */
  lemma {:induction false} FreshCells(e: Element, row: int, t: Order, d: Dims)
    requires Fresh(e, row, t)
    ensures |Positions(e, t)| == |e.vals|
    ensures ElemCells(e, t, d) == LineCells(t, row, Positions(e, t), e.vals, d)
  {
    if e.inst.ty == t {
      forall k | 0 <= k < |e.vals|
        ensures ElemCells(e, t, d)[k] == LineCells(t, row, Positions(e, t), e.vals, d)[k]
      {
        RunGeometry(e.inst, e.At(), k, d);
      }
    }
  }

  lemma {:induction false} LineCellsConcat(t: Order, row: int, xs: seq<int>, vs: seq<real>, xs': seq<int>,
                                           vs': seq<real>, d: Dims)
    requires |xs| == |vs| && |xs'| == |vs'|
    ensures LineCells(t, row, xs + xs', vs + vs', d) == LineCells(t, row, xs, vs, d) + LineCells(t, row, xs', vs', d)
  {
  }

  /** Encoding a line keeps its cells, in the order of the line. */
  lemma {:induction false} CoversCells(es: seq<Element>, row: int, t: Order, xs: seq<int>, vs: seq<real>, d: Dims)
    requires Covers(es, row, t, xs, vs)
    ensures |xs| == |vs| && AllShaped(es)
    ensures AllCells(es, t, d) == LineCells(t, row, xs, vs, d)
  {
    CoversCount(es, row, t, xs, vs);
    if es != [] {
      var n := |es| - 1;
      var e, front := es[n], es[..n];
      hide LineCells, Positions, Fresh, ElemCells, ToHoriz;
      CoversCells(front, row, t, AllPositions(front, t), AllValues(front), d);
      FreshCells(e, row, t, d);
      FreshShaped(e, row, t);
      AllCellsSnoc(front, e, t, d);
      assert es == front + [e];
      LineCellsConcat(t, row, AllPositions(front, t), AllValues(front), Positions(e, t), e.vals, d);
    }
  }

  lemma {:induction false} FreshShaped(e: Element, row: int, t: Encoding)
    requires Fresh(e, row, t)
    ensures Shaped(e)
  {
  }
}
