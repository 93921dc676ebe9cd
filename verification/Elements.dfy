/** Generic elements of the internal representation: single non-zeros and substructures. */
module Elements {
  import opened Encodings
  import opened Cells
  import opened Seqs

  /** `row`/`col` are the coordinates of the first value, in the current order of the
      partition; `vals` are the values in the order of the substructure. */
  datatype Element = Element(row: int, col: int, vals: seq<real>, inst: Instantiation) {
    predicate IsPattern() { inst.dim != 0 }

    function Size(): nat { |vals| }

    function At(): Coord { Coord(row, col) }
  }

  function Single(row: int, col: int, v: real): Element { Element(row, col, [v], SINGLE) }

  /** The substructure constructor: with one value it makes a single element. */
  function MakePattern(row: int, col: int, vals: seq<real>, inst: Instantiation): Element
    requires vals != []
  {
    if |vals| == 1 then Single(row, col, vals[0]) else Element(row, col, vals, inst)
  }

  /** Shape of an element regardless of where it stands. */
  predicate Shaped(e: Element) {
    && e.inst.ty.Valid()
    && e.vals != []
    && (!e.IsPattern() ==> e.inst == SINGLE && |e.vals| == 1)
    && (e.IsPattern() ==> e.inst.ty.IsOrder())
    && (e.inst.ty.IsBlock() ==> |e.vals| == e.inst.ty.Alignment() * e.inst.dim)
  }

  /** The cells of a substructure whose first cell is (row, col), in the order of its values. */
  function RunCells(inst: Instantiation, row: int, col: int, vals: seq<real>): (cs: seq<Cell>)
    requires inst.ty.Valid()
    ensures |cs| == |vals|
  {
    seq(|vals|, k requires 0 <= k < |vals| =>
      Cell(row + Offset(inst, k).row, col + Offset(inst, k).col, vals[k]))
  }

  function ElemCells(e: Element, t: Order, d: Dims): seq<Cell>
    requires e.inst.ty.Valid()
  {
    var p := ToHoriz(t, e.At(), d);
    RunCells(e.inst, p.row, p.col, e.vals)
  }

  predicate AllShaped(es: seq<Element>) {
    forall i :: 0 <= i < |es| ==> Shaped(es[i])
  }

  /** All cells of a list of elements, element by element. */
  function AllCells(es: seq<Element>, t: Order, d: Dims): seq<Cell>
    requires AllShaped(es)
  {
    if es == [] then [] else ElemCells(es[0], t, d) + AllCells(es[1..], t, d)
  }

  lemma {:induction false} AllCellsConcat(a: seq<Element>, b: seq<Element>, t: Order, d: Dims)
    requires AllShaped(a) && AllShaped(b)
    ensures AllShaped(a + b)
    ensures AllCells(a + b, t, d) == AllCells(a, t, d) + AllCells(b, t, d)
  {
    if a == [] {
      assert a + b == b;
    } else {
      assert (a + b)[1..] == a[1..] + b;
      AllCellsConcat(a[1..], b, t, d);
    }
  }

  lemma {:induction false} AllCellsSnoc(a: seq<Element>, e: Element, t: Order, d: Dims)
    requires AllShaped(a) && Shaped(e)
    ensures AllShaped(a + [e])
    ensures AllCells(a + [e], t, d) == AllCells(a, t, d) + ElemCells(e, t, d)
  {
    AllCellsConcat(a, [e], t, d);
    assert AllCells([e], t, d) == ElemCells(e, t, d) + AllCells([], t, d);
  }

  /** Reordering elements only reorders cells. */
  lemma {:induction false} AllCellsPermuted(a: seq<Element>, b: seq<Element>, t: Order, d: Dims)
    requires multiset(a) == multiset(b)
    requires AllShaped(a)
    ensures AllShaped(b)
    ensures multiset(AllCells(a, t, d)) == multiset(AllCells(b, t, d))
  {
    hide Shaped, AllCells;
    forall i | 0 <= i < |b| ensures Shaped(b[i]) {
      assert b[i] in multiset(b);
      assert b[i] in a;
    }
    if a == [] {
      assert |multiset(b)| == 0;
      assert b == [];
    } else {
      var i := RemoveHead(a, b);
      var front, back, one := b[..i], b[i+1..], [a[0]];
      assert a == one + a[1..] && b == front + (one + back);
      AllCellsPermuted(a[1..], front + back, t, d);
      AllCellsConcat(front, back, t, d);
      AllCellsConcat(front, one + back, t, d);
      AllCellsConcat(one, back, t, d);
      AllCellsConcat(one, a[1..], t, d);
    }
  }

  /** Moving an element to the coordinate system of another type. */
  function MoveTo(e: Element, from: Order, to: Order, d: Dims): Element {
    var p := Xform(from, to, e.At(), d);
    e.(row := p.row, col := p.col)
  }

  /** Re-coordinating elements does not move their cells. */
  lemma {:induction false} MoveKeepsCells(a: seq<Element>, from: Order, to: Order, d: Dims)
    requires AllShaped(a)
    ensures var b := seq(|a|, i requires 0 <= i < |a| => MoveTo(a[i], from, to, d));
            AllShaped(b) && AllCells(b, to, d) == AllCells(a, from, d)
  {
    hide MoveTo, ElemCells, Shaped;
    var b := seq(|a|, i requires 0 <= i < |a| => MoveTo(a[i], from, to, d));
    if a != [] {
      MoveKeepsCells(a[1..], from, to, d);
      assert b[1..] == seq(|a[1..]|, i requires 0 <= i < |a[1..]| => MoveTo(a[1..][i], from, to, d));
      OneMoved(a[0], from, to, d);
      assert b[0] == MoveTo(a[0], from, to, d);
      forall i | 0 <= i < |b| ensures Shaped(b[i]) {
        assert i > 0 ==> b[i] == b[1..][i - 1];
      }
    }
  }

  lemma {:induction false} OneMoved(e: Element, from: Order, to: Order, d: Dims)
    requires Shaped(e)
    ensures Shaped(MoveTo(e, from, to, d)) && ElemCells(MoveTo(e, from, to, d), to, d) == ElemCells(e, from, d)
  {
    XformSameCell(from, to, to, e.At(), d);
  }
}
