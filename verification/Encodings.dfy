/** Substructure types of CSX and the coordinate systems that belong to them. */
module Encodings {
  import Utility

  /** The types a non-zero element may be stored under.  `None` marks a single element. */
  datatype Encoding =
    | None
    | Horizontal
    | Vertical
    | Diagonal
    | AntiDiagonal
    | BlockRow(r: nat)
    | BlockCol(c: nat)
  {
    predicate IsBlock() { BlockRow? || BlockCol? }

    /** Alignment of a block type, 0 for every other type. */
    function Alignment(): nat {
      match this
      case BlockRow(r) => r
      case BlockCol(c) => c
      case _ => 0
    }

    /** The alignments 1..8 are the only ones the library enumerates. */
    predicate Valid() { IsBlock() ==> 1 <= Alignment() <= 8 }

    /** A type elements can be sorted by: anything but `None`. */
    predicate IsOrder() { Valid() && !None? }

    /** Position of the type in the library's enumeration. */
    function Code(): nat {
      match this
      case None => 0
      case Horizontal => 1
      case Vertical => 2
      case Diagonal => 3
      case AntiDiagonal => 4
      case BlockRow(r) => 4 + r
      case BlockCol(c) => 12 + c
    }
  }

  type Order = e: Encoding | e.IsOrder() witness Horizontal

  /** The inverse of Code, as the static_cast in the code generator performs it. */
  function FromCode(code: nat): Encoding
    requires code <= 20
  {
    if code == 0 then None
    else if code == 1 then Horizontal
    else if code == 2 then Vertical
    else if code == 3 then Diagonal
    else if code == 4 then AntiDiagonal
    else if code <= 12 then BlockRow(code - 4)
    else BlockCol(code - 12)
  }

  /** A type together with its delta (linear types) or its free dimension (blocks). */
  datatype Instantiation = Inst(ty: Encoding, dim: nat)

  const SINGLE: Instantiation := Inst(None, 0)

  /** Pattern ids: (pattern type) * 10000 + dimension for substructures,
      and 8 * (width in bytes) for delta units. */
  const PATTERN_ID_OFFSET: nat := 10000

  function PatternId(inst: Instantiation): nat { inst.ty.Code() * PATTERN_ID_OFFSET + inst.dim }

  function DeltaPatternId(bytes: nat): nat { 8 * bytes }

  function PidType(pid: nat): Encoding
    requires pid < 21 * PATTERN_ID_OFFSET
  { FromCode(pid / PATTERN_ID_OFFSET) }

  function PidDim(pid: nat): nat { pid % PATTERN_ID_OFFSET }

  /** A substructure's id is decoded to the substructure it was made from exactly when its
      dimension stays below the offset; past it, the id names another type. */
  lemma {:induction false} PatternIdDecodes(inst: Instantiation)
    requires inst.ty.Valid()
    ensures (PatternId(inst) < 21 * PATTERN_ID_OFFSET
             && PidType(PatternId(inst)) == inst.ty && PidDim(PatternId(inst)) == inst.dim)
            <==> inst.dim < PATTERN_ID_OFFSET
  {
    var code := inst.ty.Code();
    assert code <= 20;
    assert FromCode(code) == inst.ty;
    if inst.dim < PATTERN_ID_OFFSET {
      assert (code * PATTERN_ID_OFFSET + inst.dim) / PATTERN_ID_OFFSET == code;
    }
  }

  /** The id of a horizontal run with step 10000 is decoded as a vertical one with step 0. */
  lemma {:induction false} LargeStepMisdecodes()
    ensures PidType(PatternId(Inst(Horizontal, 10000))) == Vertical
    ensures PidDim(PatternId(Inst(Horizontal, 10000))) == 0
  {
  }

  // ----- Coordinates -----

  /** 1-based coordinates.  In the coordinate system of a type, `row` is the line along
      which its substructures run and `col` the position on that line. */
  datatype Coord = Coord(row: int, col: int)

  datatype Dims = Dims(rows: int, cols: int)

  /** Lexicographic order of elements. */
  predicate Before(a: Coord, b: Coord) {
    a.row < b.row || (a.row == b.row && a.col < b.col)
  }

  function FromBlock(k: nat, p: Coord): Coord
    requires 1 <= k <= 8
  {
    Coord((p.row - 1) / k + 1, (p.row - 1) % k + k * (p.col - 1) + 1)
  }

  function ToBlock(k: nat, p: Coord): Coord
    requires 1 <= k <= 8
  {
    Coord(k * (p.row - 1) + (p.col - 1) % k + 1, (p.col - 1) / k + 1)
  }

  function Swap(p: Coord): Coord { Coord(p.col, p.row) }

  /** Row-major coordinates to those of type `t`. */
  function FromHoriz(t: Order, p: Coord, d: Dims): Coord {
    match t
    case Horizontal => p
    case Vertical => Swap(p)
    case Diagonal => Coord(d.rows + p.col - p.row, if p.col < p.row then p.col else p.row)
    case AntiDiagonal =>
      var line := p.row + p.col - 1;
      Coord(line, if line <= d.cols then p.row else d.cols - p.col + 1)
    case BlockRow(r) => FromBlock(r, p)
    case BlockCol(c) => FromBlock(c, Swap(p))
  }

  /** Coordinates of type `t` back to row-major ones. */
  function ToHoriz(t: Order, p: Coord, d: Dims): Coord {
    match t
    case Horizontal => p
    case Vertical => Swap(p)
    case Diagonal =>
      if p.row < d.rows then Coord(d.rows + p.col - p.row, p.col)
      else Coord(p.col, p.row + p.col - d.rows)
    case AntiDiagonal =>
      if p.row <= d.cols then Coord(p.col, p.row - p.col + 1)
      else Coord(p.row + p.col - d.cols, d.cols - p.col + 1)
    case BlockRow(r) => ToBlock(r, p)
    case BlockCol(c) => Swap(ToBlock(c, p))
  }

  /** The composed transformation between two arbitrary types. */
  function Xform(from: Order, to: Order, p: Coord, d: Dims): Coord {
    if from == to then p
    else if from == Horizontal then FromHoriz(to, p, d)
    else if to == Horizontal then ToHoriz(from, p, d)
    else FromHoriz(to, ToHoriz(from, p, d), d)
  }

  lemma {:induction false} BlockInverse(k: nat, p: Coord)
    requires 1 <= k <= 8
    ensures ToBlock(k, FromBlock(k, p)) == p
    ensures FromBlock(k, ToBlock(k, p)) == p
  {
    if k == 1 {} else if k == 2 {} else if k == 3 {} else if k == 4 {}
    else if k == 5 {} else if k == 6 {} else if k == 7 {} else { assert k == 8; }
  }

  /** Every coordinate system is a bijection of the plane. */
  lemma {:induction false} XformInverse(t: Order, p: Coord, d: Dims)
    ensures ToHoriz(t, FromHoriz(t, p, d), d) == p
    ensures FromHoriz(t, ToHoriz(t, p, d), d) == p
  {
    match t
    case BlockRow(r) => BlockInverse(r, p);
    case BlockCol(c) => BlockInverse(c, p); BlockInverse(c, Swap(p));
    case _ =>
  }

  /** A composed transformation names the same row-major cell and composes with the next one. */
  lemma {:induction false} XformSameCell(from: Order, to: Order, next: Order, p: Coord, d: Dims)
    ensures ToHoriz(to, Xform(from, to, p, d), d) == ToHoriz(from, p, d)
    ensures Xform(to, next, Xform(from, to, p, d), d) == Xform(from, next, p, d)
  {
    XformInverse(to, ToHoriz(from, p, d), d);
    XformInverse(from, p, d);
    XformInverse(next, p, d);
  }

  // ----- Geometry of substructures -----

  /** Distance of successive cells of a substructure on its own line. */
  function Step(inst: Instantiation): nat {
    if inst.ty.IsBlock() then 1 else inst.dim
  }

  /** Row-major offset of the k-th value of a substructure from its first one:
      the order in which the generated multiplication routines walk it. */
  function Offset(inst: Instantiation, k: nat): Coord
    requires inst.ty.Valid()
  {
    match inst.ty
    case None => Coord(0, 0)
    case Horizontal => Coord(0, k * inst.dim)
    case Vertical => Coord(k * inst.dim, 0)
    case Diagonal => Coord(k * inst.dim, k * inst.dim)
    case AntiDiagonal => Coord(k * inst.dim, -(k * inst.dim))
    case BlockRow(r) => Coord(k % r, k / r)
    case BlockCol(c) => Coord(k / c, k % c)
  }

  /** A block must start at a multiple of its alignment. */
  predicate Aligned(inst: Instantiation, p: Coord)
    requires inst.ty.Valid()
  {
    inst.ty.IsBlock() ==> (p.col - 1) % inst.ty.Alignment() == 0
  }

  lemma {:induction false} AlignedBlockRun(b: nat, p: Coord, k: nat)
    requires 1 <= b <= 8 && (p.col - 1) % b == 0
    ensures ToBlock(b, Coord(p.row, p.col + k))
         == Coord(ToBlock(b, p).row + k % b, ToBlock(b, p).col + k / b)
  {
    Utility.CountOn(p.col - 1, k, b);
    assert p.col + k - 1 == p.col - 1 + k;
  }

  /** Walking k steps along the line of a type reaches the cell the multiplication routine
      of that type visits k-th. */
  lemma {:induction false} RunGeometry(inst: Instantiation, p: Coord, k: nat, d: Dims)
    requires inst.ty.IsOrder() && Aligned(inst, p)
    ensures ToHoriz(inst.ty, Coord(p.row, p.col + k * Step(inst)), d)
         == Coord(ToHoriz(inst.ty, p, d).row + Offset(inst, k).row,
                  ToHoriz(inst.ty, p, d).col + Offset(inst, k).col)
  {
    match inst.ty
    case BlockRow(r) => BlockGeometry(inst, p, k, d, r);
    case BlockCol(c) => BlockGeometry(inst, p, k, d, c);
    case _ => LinearGeometry(inst, p, k, d);
  }

  lemma {:induction false} BlockGeometry(inst: Instantiation, p: Coord, k: nat, d: Dims, b: nat)
    requires inst.ty.IsOrder() && Aligned(inst, p) && (inst.ty == BlockRow(b) || inst.ty == BlockCol(b))
    ensures ToHoriz(inst.ty, Coord(p.row, p.col + k * Step(inst)), d)
         == Coord(ToHoriz(inst.ty, p, d).row + Offset(inst, k).row,
                  ToHoriz(inst.ty, p, d).col + Offset(inst, k).col)
  {
    hide ToBlock;
    assert k * Step(inst) == k;
    AlignedBlockRun(b, p, k);
  }

  lemma {:induction false} LinearGeometry(inst: Instantiation, p: Coord, k: nat, d: Dims)
    requires inst.ty.IsOrder() && !inst.ty.IsBlock()
    ensures ToHoriz(inst.ty, Coord(p.row, p.col + k * Step(inst)), d)
         == Coord(ToHoriz(inst.ty, p, d).row + Offset(inst, k).row,
                  ToHoriz(inst.ty, p, d).col + Offset(inst, k).col)
  {
    hide ToBlock;
    var away := k * inst.dim;
    assert Step(inst) == inst.dim;
  }
}
