/** Non-zero cells and the product of a list of cells with a vector: the reference for every layer. */
module Cells {
  import opened Seqs

  /** A non-zero of the matrix; rows and columns are 1-based. */
  datatype Cell = Cell(row: int, col: int, val: real)

  predicate ColsWithin(cells: seq<Cell>, n: nat) {
    forall i :: 0 <= i < |cells| ==> 1 <= cells[i].col <= n
  }

  predicate RowsWithin(cells: seq<Cell>, lo: int, hi: int) {
    forall i :: 0 <= i < |cells| ==> lo <= cells[i].row <= hi
  }

  /** Multiplication under a name, so that proofs can treat products as plain terms. */
  function Prod(a: real, b: real): real { a * b }

  /** What one cell adds to its row of the product. */
  function Term(c: Cell, x: seq<real>, scale: real): real
    requires 1 <= c.col <= |x|
  {
    Prod(Prod(x[c.col - 1], c.val), scale)
  }

  /** scale * (row `row` of the cells) * x. */
  function Dot(cells: seq<Cell>, row: int, x: seq<real>, scale: real): real
    requires ColsWithin(cells, |x|)
  {
    if cells == [] then 0.0
    else (if cells[0].row == row then Term(cells[0], x, scale) else 0.0) + Dot(cells[1..], row, x, scale)
  }

  lemma {:induction false} DotConcat(a: seq<Cell>, b: seq<Cell>, row: int, x: seq<real>, scale: real)
    requires ColsWithin(a, |x|) && ColsWithin(b, |x|)
    ensures ColsWithin(a + b, |x|)
    ensures Dot(a + b, row, x, scale) == Dot(a, row, x, scale) + Dot(b, row, x, scale)
  {
    if a == [] {
      assert a + b == b;
    } else {
      assert (a + b)[1..] == a[1..] + b;
      DotConcat(a[1..], b, row, x, scale);
    }
  }

  lemma {:induction false} DotOutside(cells: seq<Cell>, row: int, x: seq<real>, scale: real)
    requires ColsWithin(cells, |x|)
    requires forall i :: 0 <= i < |cells| ==> cells[i].row != row
    ensures Dot(cells, row, x, scale) == 0.0
  {
    if cells != [] {
      DotOutside(cells[1..], row, x, scale);
    }
  }

  lemma {:induction false} ColsPermuted(a: seq<Cell>, b: seq<Cell>, n: nat)
    requires multiset(a) == multiset(b) && ColsWithin(a, n)
    ensures ColsWithin(b, n)
  {
    forall i | 0 <= i < |b| ensures 1 <= b[i].col <= n {
      assert b[i] in multiset(b);
      assert b[i] in a;
    }
  }

  /** The product does not depend on the order the cells are listed in. */
  lemma {:induction false} DotPermuted(a: seq<Cell>, b: seq<Cell>, row: int, x: seq<real>, scale: real)
    requires multiset(a) == multiset(b)
    requires ColsWithin(a, |x|)
    ensures ColsWithin(b, |x|)
    ensures Dot(a, row, x, scale) == Dot(b, row, x, scale)
  {
    ColsPermuted(a, b, |x|);
    if a != [] {
      var i := RemoveHead(a, b);
      var front, back := b[..i], b[i+1..];
      DotPermuted(a[1..], front + back, row, x, scale);
      ColsPermuted(b, front + ([b[i]] + back), |x|);
      DotConcat(front, back, row, x, scale);
      DotConcat(front, [b[i]] + back, row, x, scale);
      assert ([b[i]] + back)[1..] == back;
    }
  }
}
