/** The compiler: lowers the rows of an encoded partition to units, bytes and values. */
module CsxManager {
  import opened Encodings
  import opened Cells
  import opened Elements
  import opened CtlCodec
  import opened Units
  import opened PatternIds
  import opened RowsInfo
  import opened Sides
  import opened SparsePartition

  /** Largest 1-based index of the library's 32-bit index type. */
  const MAX_INDEX: nat := 0x7fff_ffff

  datatype PatInfo = PatInfo(flag: nat, npatterns: nat, nr: nat)

  // ----- Delta encoding of a column buffer -----

  function Deltas(xs: seq<int>, x0: int): (ds: seq<int>)
    ensures |ds| == |xs|
  {
    seq(|xs|, i requires 0 <= i < |xs| => xs[i] - (if i == 0 then x0 else xs[i - 1]))
  }

  method DeltaEncode(xs: seq<int>, x0: int) returns (ds: seq<int>)
    ensures ds == Deltas(xs, x0)
  {
    ds := xs;
    var prev := x0;
    var i := 0;
    while i < |ds|
      invariant i <= |ds| == |xs|
      invariant ds == Deltas(xs, x0)[..i] + xs[i..]
      invariant prev == if i == 0 then x0 else xs[i - 1]
    {
      var tmp := ds[i];
      ds := ds[i := ds[i] - prev];
      prev := tmp;
      i := i + 1;
    }
  }

  predicate NonDecreasing(xs: seq<int>) {
    forall i, j :: 0 <= i <= j < |xs| ==> xs[i] <= xs[j]
  }

  /** The steps of a delta unit: everything after the first entry. */
  function StepsOf(xs: seq<int>): (ds: seq<nat>)
    requires NonDecreasing(xs) && xs != []
    ensures |ds| == |xs| - 1
  {
    seq(|xs| - 1, i requires 0 <= i < |xs| - 1 => xs[i + 1] - xs[i])
  }

  lemma {:induction false} StepsAreDeltas(xs: seq<int>, x0: int)
    requires NonDecreasing(xs) && xs != []
    ensures Deltas(xs, x0)[1..] == StepsOf(xs) && Deltas(xs, x0)[0] == xs[0] - x0
  {
  }

  /** Adding up the steps gives back the columns. */
  lemma {:induction false} StepsSum(xs: seq<int>, k: nat)
    requires NonDecreasing(xs) && k < |xs|
    ensures xs[0] + Sum(StepsOf(xs)[..k]) == xs[k]
  {
    if k == 0 {
      assert StepsOf(xs)[..0] == [];
    } else {
      StepsSum(xs, k - 1);
      SumNext(StepsOf(xs), k - 1);
    }
  }

  function Max(xs: seq<int>): (m: int)
    requires xs != []
    ensures m in xs && forall i :: 0 <= i < |xs| ==> xs[i] <= m
  {
    if |xs| == 1 then xs[0]
    else
      var m := Max(xs[1..]);
      if xs[0] > m then xs[0] else m
  }

  /** The largest entry of an encoded buffer behind the first one is its largest step. */
  lemma {:induction false} MaxOfDeltas(xs: seq<int>, x0: int)
    requires NonDecreasing(xs) && xs != []
    ensures MaxStep(xs) == if |xs| > 1 then Max(Deltas(xs, x0)[1..]) else 0
  {
    if |xs| > 1 {
      MaxStepFacts(xs);
      hide MaxStep;
      var ds := Deltas(xs, x0)[1..];
      assert forall i :: 0 <= i < |ds| ==> ds[i] == xs[i + 1] - xs[i];
      MaxIs(xs, ds, MaxStep(xs), Max(ds));
    }
  }

  lemma {:induction false} MaxIs(xs: seq<int>, ds: seq<int>, m: nat, n: int)
    requires |xs| == |ds| + 1 && |ds| > 0 && NonDecreasing(xs)
    requires forall i :: 0 <= i < |ds| ==> ds[i] == xs[i + 1] - xs[i]
    requires forall i :: 0 < i < |xs| ==> xs[i] - xs[i - 1] <= m
    requires m == 0 || exists i :: 0 < i < |xs| && m == xs[i] - xs[i - 1]
    requires n in ds && forall i :: 0 <= i < |ds| ==> ds[i] <= n
    ensures m == n
  {
    var k :| 0 <= k < |ds| && ds[k] == n;
    assert xs[k + 1] - xs[k + 1 - 1] <= m;
    if m > 0 {
      var i :| 0 < i < |xs| && m == xs[i] - xs[i - 1];
      assert ds[i - 1] <= n;
    }
  }

  // ----- Rows the compiler accepts -----

  /** The column an element leaves the row at: the last cell of a horizontal run. */
  function LastCol(e: Element): int {
    if e.inst.ty.Horizontal? then e.col + (e.Size() - 1) * e.inst.dim else e.col
  }

  /** The column buffer of a row when the first `i` elements have been read. */
  predicate RowOk(es: seq<Element>, row: int) {
    && AllShaped(es)
    && (forall i :: 0 <= i < |es| ==>
          && es[i].row == row
          && 1 <= es[i].col <= MAX_INDEX
          && es[i].Size() <= CTL_SIZE_MAX
          && es[i].inst.dim < PATTERN_ID_OFFSET)
    && (forall i :: 0 < i < |es| ==> LastCol(es[i - 1]) <= es[i].col)
  }

  lemma {:induction false} RowShaped(es: seq<Element>, row: int)
    requires RowOk(es, row)
    ensures AllShaped(es)
    ensures forall n :: 0 <= n <= |es| ==> AllShaped(es[..n])
  {
  }

  lemma {:induction false} RowElem(es: seq<Element>, row: int, i: nat)
    requires RowOk(es, row) && i < |es|
    ensures Shaped(es[i]) && es[i].row == row && 1 <= es[i].col <= MAX_INDEX
    ensures es[i].Size() <= CTL_SIZE_MAX && es[i].inst.dim < PATTERN_ID_OFFSET
    ensures i > 0 ==> LastCol(es[i - 1]) <= es[i].col
  {
  }

  /** Rows below the first one an element reaches. */
  function ElemSpan(e: Element): nat
    requires Shaped(e)
  {
    match e.inst.ty
    case Vertical => (e.Size() - 1) * e.inst.dim
    case Diagonal => (e.Size() - 1) * e.inst.dim
    case AntiDiagonal => (e.Size() - 1) * e.inst.dim
    case BlockRow(r) => r - 1
    case BlockCol(c) => if e.Size() / c >= 1 then e.Size() / c - 1 else 0
    case _ => 0
  }

  function RowSpan(es: seq<Element>): nat
    requires AllShaped(es)
  {
    if es == [] then 0
    else
      var s := RowSpan(es[..|es| - 1]);
      var e := es[|es| - 1];
      if e.IsPattern() && ElemSpan(e) > s then ElemSpan(e) else s
  }

  lemma {:induction false} RowSpanConcat(a: seq<Element>, b: seq<Element>)
    requires AllShaped(a) && AllShaped(b)
    ensures AllShaped(a + b)
    ensures RowSpan(a + b) == if RowSpan(b) > RowSpan(a) then RowSpan(b) else RowSpan(a)
    decreases |b|
  {
    if b == [] {
      assert a + b == a;
    } else {
      hide ElemSpan, Shaped;
      assert (a + b)[..|a + b| - 1] == a + b[..|b| - 1];
      RowSpanConcat(a, b[..|b| - 1]);
    }
  }

  /** No cell of an element is further down than its span. */
  lemma {:induction false} ElemReach(e: Element, d: Dims)
    requires Shaped(e)
    ensures RowsWithin(ElemCells(e, Horizontal, d), e.row, e.row + if e.IsPattern() then ElemSpan(e) else 0)
  {
    var cs := ElemCells(e, Horizontal, d);
    forall k | 0 <= k < |cs| ensures e.row <= cs[k].row <= e.row + if e.IsPattern() then ElemSpan(e) else 0 {
      assert cs[k].row == e.row + Offset(e.inst, k).row;
      OffsetReach(e, k);
    }
  }

  lemma {:induction false} OffsetReach(e: Element, k: nat)
    requires Shaped(e) && k < e.Size()
    ensures 0 <= Offset(e.inst, k).row <= if e.IsPattern() then ElemSpan(e) else 0
  {
    match e.inst.ty
    case None =>
    case Horizontal =>
    case Vertical => StepsUpTo(k, e.Size() - 1, e.inst.dim);
    case Diagonal => StepsUpTo(k, e.Size() - 1, e.inst.dim);
    case AntiDiagonal => StepsUpTo(k, e.Size() - 1, e.inst.dim);
    case BlockRow(r) =>
    case BlockCol(c) => BlockDim(c, e.inst.dim); RowInBlock(c, e.inst.dim, k);
  }

  lemma {:induction false} StepsUpTo(k: nat, n: nat, d: nat)
    requires k <= n
    ensures 0 <= k * d <= n * d
  {
  }

  lemma {:induction false} RowInBlock(c: nat, dim: nat, k: nat)
    requires 1 <= c <= 8 && k < c * dim
    ensures 0 <= k / c <= dim - 1
  {
    if c == 1 {} else if c == 2 {} else if c == 3 {} else if c == 4 {}
    else if c == 5 {} else if c == 6 {} else if c == 7 {} else { assert c == 8; }
  }

  /** No cell of a row's elements is further down than the span of the row. */
  lemma {:induction false} LineReach(es: seq<Element>, row: int, d: Dims)
    requires AllShaped(es) && forall i :: 0 <= i < |es| ==> es[i].row == row
    ensures RowsWithin(AllCells(es, Horizontal, d), row, row + RowSpan(es))
    decreases |es|
  {
    if es != [] {
      hide ElemCells, ElemSpan, Shaped, AllCells;
      var n := |es| - 1;
      LineReach(es[..n], row, d);
      assert es == es[..n] + [es[n]];
      AllCellsSnoc(es[..n], es[n], Horizontal, d);
      ElemReach(es[n], d);
      RowsJoin(AllCells(es[..n], Horizontal, d), ElemCells(es[n], Horizontal, d), row, row + RowSpan(es));
    } else {
      assert AllCells(es, Horizontal, d) == [];
    }
  }

  /** And the span of a row is the distance of the lowest cell of its elements. */
  lemma {:induction false} LineSpanReached(es: seq<Element>, row: int, d: Dims) returns (c: Cell)
    requires es != [] && AllShaped(es) && forall i :: 0 <= i < |es| ==> es[i].row == row
    ensures c in AllCells(es, Horizontal, d) && c.row == row + RowSpan(es)
    decreases |es|
  {
    hide ElemCells, ElemSpan, Shaped, AllCells;
    var n := |es| - 1;
    assert es == es[..n] + [es[n]];
    AllCellsSnoc(es[..n], es[n], Horizontal, d);
    if RowSpan(es) == RowSpan(es[..n]) && n > 0 {
      c := LineSpanReached(es[..n], row, d);
    } else {
      c := ElemSpanReached(es[n], d);
    }
  }

  lemma {:induction false} ElemSpanReached(e: Element, d: Dims) returns (c: Cell)
    requires Shaped(e)
    ensures c in ElemCells(e, Horizontal, d) && c.row == e.row + if e.IsPattern() then ElemSpan(e) else 0
  {
    var k := if e.inst.ty.BlockRow? then e.inst.ty.r - 1 else e.Size() - 1;
    OffsetReached(e);
    c := ElemCells(e, Horizontal, d)[k];
  }

  lemma {:induction false} OffsetReached(e: Element)
    requires Shaped(e)
    ensures var k := if e.inst.ty.BlockRow? then e.inst.ty.r - 1 else e.Size() - 1;
            0 <= k < e.Size() && Offset(e.inst, k).row == if e.IsPattern() then ElemSpan(e) else 0
  {
    match e.inst.ty
    case None =>
    case Horizontal =>
    case Vertical =>
    case Diagonal =>
    case AntiDiagonal =>
    case BlockRow(r) => SmallestBlock(r, e.inst.dim, e.Size());
    case BlockCol(c) => SmallestBlock(c, e.inst.dim, e.Size());
  }

  lemma {:induction false} SmallestBlock(a: nat, dim: nat, size: nat)
    requires 1 <= a <= 8 && size == a * dim >= 1
    ensures size >= a && (a - 1) % a == a - 1 && (size - 1) / a == dim - 1 && size / a == dim
  {
    if a == 1 {} else if a == 2 {} else if a == 3 {} else if a == 4 {}
    else if a == 5 {} else if a == 6 {} else if a == 7 {} else { assert a == 8; }
  }

  lemma {:induction false} RowsJoin(a: seq<Cell>, b: seq<Cell>, lo: int, hi: int)
    requires RowsWithin(a, lo, hi) && RowsWithin(b, lo, hi)
    ensures RowsWithin(a + b, lo, hi)
  {
  }

  function ValueCount(es: seq<Element>): nat {
    if es == [] then 0 else ValueCount(es[..|es| - 1]) + es[|es| - 1].Size()
  }

  lemma {:induction false} ValueCountPrefix(es: seq<Element>, n: nat)
    requires n <= |es|
    ensures ValueCount(es[..n]) <= ValueCount(es)
    decreases |es|
  {
    if n == |es| {
      assert es[..n] == es;
    } else {
      assert es[..|es| - 1][..n] == es[..n];
      ValueCountPrefix(es[..|es| - 1], n);
    }
  }

  function ColCells(row: int, cols: seq<int>, vals: seq<real>): seq<Cell>
    requires |vals| == |cols|
  {
    seq(|cols|, k requires 0 <= k < |cols| => Cell(row, cols[k], vals[k]))
  }

  /** A row-ordered partition the compiler can lower: every line is readable left to right,
      and the value count is the number of non-zeros. */
  ghost predicate Compilable(spm: SparsePartition)
    reads spm
  {
    && spm.Valid()
    && spm.ty.Horizontal?
    && ValueCount(spm.Live()) == spm.nrNonzeros
    && |spm.rowptr| - 1 <= spm.nrRows
    && forall i :: 0 <= i < |spm.rowptr| - 1 ==> RowOk(spm.Line(i), i + 1)
  }

  lemma {:induction false} ValueCountConcat(a: seq<Element>, b: seq<Element>)
    ensures ValueCount(a + b) == ValueCount(a) + ValueCount(b)
    decreases |b|
  {
    if b == [] {
      assert a + b == a;
    } else {
      assert (a + b)[..|a + b| - 1] == a + b[..|b| - 1];
      ValueCountConcat(a, b[..|b| - 1]);
    }
  }

  /** No element crosses the boundary at column `rs`. */
  predicate SidedElems(es: seq<Element>, rs: nat, d: Dims)
    requires AllShaped(es)
  {
    forall i :: 0 <= i < |es| ==> OnSide(ElemCells(es[i], Horizontal, d), rs, es[i].col > rs)
  }

  /** What reading line i adds to what has been read. */
  lemma {:induction false} LineFacts(spm: SparsePartition, i: nat)
    requires Compilable(spm) && i < |spm.rowptr| - 1
    ensures spm.rowptr[i] <= spm.rowptr[i + 1] <= spm.elemsSize
    ensures RowOk(spm.Line(i), i + 1) && AllShaped(spm.Line(i))
    ensures AllShaped(spm.Live()[..spm.rowptr[i]]) && AllShaped(spm.Live()[..spm.rowptr[i + 1]])
    ensures AllCells(spm.Live()[..spm.rowptr[i + 1]], Horizontal, spm.D())
         == AllCells(spm.Live()[..spm.rowptr[i]], Horizontal, spm.D()) + AllCells(spm.Line(i), Horizontal, spm.D())
    ensures ValueCount(spm.Live()[..spm.rowptr[i + 1]])
      == ValueCount(spm.Live()[..spm.rowptr[i]]) + ValueCount(spm.Line(i))
    ensures ValueCount(spm.Live()[..spm.rowptr[i + 1]]) <= spm.nrNonzeros
    ensures spm.Line(i) == [] ==> spm.Live()[..spm.rowptr[i + 1]] == spm.Live()[..spm.rowptr[i]]
  {
    var live, lo, hi := spm.Live(), spm.rowptr[i], spm.rowptr[i + 1];
    LiveLine(spm.elems, spm.elemsSize, lo, hi);
    hide Sorted, IsRowptr, StartsInBounds, AllCells, ValueCount, Shaped;
    AllCellsConcat(live[..lo], spm.Line(i), Horizontal, spm.D());
    ValueCountConcat(live[..lo], spm.Line(i));
    ValueCountPrefix(live, hi);
  }

  lemma {:induction false} LiveLine(elems: seq<Element>, n: nat, lo: nat, hi: nat)
    requires lo <= hi <= n <= |elems|
    ensures elems[..n][..hi] == elems[..n][..lo] + elems[lo..hi]
    ensures elems[..n][lo..] == elems[lo..hi] + elems[..n][hi..]
  {
  }

  /** The lines of a partition. */
  ghost function LinesOf(spm: SparsePartition): (lines: seq<seq<Element>>)
    requires Compilable(spm)
    ensures LinesShaped(lines)
    reads spm
  {
    seq(|spm.rowptr| - 1, i requires 0 <= i < |spm.rowptr| - 1 reads spm requires Compilable(spm) => spm.Line(i))
  }

  /** Ids a partition needs. */
  ghost function NeededIds(spm: SparsePartition, symmetric: bool): set<nat>
    requires Compilable(spm)
    reads spm
  {
    LinesIds(LinesOf(spm), symmetric, spm.rowStart)
  }

  /** A partition needs the ids of its substructures, and at most the four of delta units
      besides. */
  lemma {:induction false} NeededIdsBounds(spm: SparsePartition, symmetric: bool)
    requires Compilable(spm)
    ensures spm.elemsSize <= |spm.elems| && AllShaped(spm.Live())
    ensures SubIds(spm.Live()) <= NeededIds(spm, symmetric) <= SubIds(spm.Live()) + DELTA_IDS
    ensures |SubIds(spm.Live())| + 4 <= MAX_PATTERNS ==> |NeededIds(spm, symmetric)| <= MAX_PATTERNS
    ensures |SubIds(spm.Live())| > MAX_PATTERNS ==> |NeededIds(spm, symmetric)| > MAX_PATTERNS
  {
    LinesIdsBounds(LinesOf(spm), symmetric, spm.rowStart);
    JoinedLines(spm, 0);
    RowptrEnds(spm.rowptr, spm.Live());
    assert LinesOf(spm)[0..] == LinesOf(spm) && spm.Live()[0..] == spm.Live();
    var subs, ids := SubIds(spm.Live()), NeededIds(spm, symmetric);
    FewerIn(subs, ids);
    FewerIn(ids, subs + DELTA_IDS);
    assert |subs + DELTA_IDS| <= |subs| + |DELTA_IDS|;
  }

  lemma {:induction false} JoinedLines(spm: SparsePartition, i: nat)
    requires Compilable(spm) && i < |spm.rowptr|
    ensures spm.rowptr[i] <= spm.elemsSize <= |spm.elems| && Joined(LinesOf(spm)[i..]) == spm.Live()[spm.rowptr[i]..]
    decreases |spm.rowptr| - i
  {
    RowptrEnds(spm.rowptr, spm.Live());
    if i < |spm.rowptr| - 1 {
      JoinedLines(spm, i + 1);
      var lines := LinesOf(spm);
      assert lines[i..][1..] == lines[i + 1..] && lines[i..][0] == spm.Line(i);
      LiveLine(spm.elems, spm.elemsSize, spm.rowptr[i], spm.rowptr[i + 1]);
    }
  }

  // ----- The manager -----

  class CsxManager {
    var patterns: map<nat, PatInfo>
    var flagAvail: nat
    var rowJmps: bool
    const full: bool
    const bld: CtlBuilder
    var values: array<real>
    var valuesIdx: nat
    var span: nat
    var lastCol: int
    var newRow: bool
    var emptyRows: nat

    /** The units written so far. */
    ghost var units: seq<Unit>

    constructor (full: bool)
      ensures this.full == full && fresh(bld) && fresh(values)
      ensures patterns == map[] && flagAvail == 0 && !rowJmps && bld.ctl == []
      ensures emptyRows == 0 && units == []
    {
      patterns, flagAvail, rowJmps := map[], 0, false;
      this.full := full;
      bld := new CtlBuilder();
      values := new real[0];
      valuesIdx, span, lastCol, newRow, emptyRows := 0, 0, 0, false, 0;
      units := [];
    }

    /** Pattern ids and flags are in one-to-one correspondence with 0..flagAvail. */
    ghost predicate FlagsOk()
      reads this`patterns, this`flagAvail
    {
      && flagAvail <= MAX_PATTERNS
      && |patterns| == flagAvail
      && (forall p :: p in patterns ==> patterns[p].flag < flagAvail)
      && (forall p, q :: p in patterns && q in patterns && patterns[p].flag == patterns[q].flag ==> p == q)
    }

    /** The pattern ids the table knows. */
    ghost function Known(): set<nat>
      reads this`patterns
    {
      patterns.Keys
    }

    /** The bytes are those of the units, and every unit is known to the pattern map. */
    ghost predicate Encoded()
      reads this`patterns, this`flagAvail, this`units, this`rowJmps, bld
      ensures Encoded() ==> AllWellFormed(units, full)
    {
      && FlagsOk()
      && AllWellFormed(units, full)
      && bld.ctl == Bytes(units, full)
      && (forall i :: 0 <= i < |units| ==> units[i].pid in patterns && patterns[units[i].pid].flag == units[i].flag)
      && (!rowJmps ==> forall i :: 0 <= i < |units| ==> units[i].rowjmp == 0)
    }

    /** An interpreter standing at `p` is where the manager thinks it is when the manager is
        about to write a unit of `row`. */
    ghost predicate StandsAt(p: Pos, row: int)
      reads this`lastCol, this`newRow, this`emptyRows
    {
      && lastCol >= 1
      && (newRow ==> p.row + 1 + emptyRows == row && lastCol == 1)
      && (!newRow ==> p.row == row && emptyRows == 0 && p.col + 1 == lastCol)
    }

    ghost predicate Positioned(row: int)
      reads this`lastCol, this`newRow, this`emptyRows, this`units
      requires AllWellFormed(units, full)
    {
      StandsAt(EndPos(units, ORIGIN, full), row)
    }

    /** The cells denoted by the units so far. */
    ghost function Done(): seq<Cell>
      reads this`units, this`values, values
      requires AllWellFormed(units, full) && NrValues(units) <= values.Length
    {
      Run(units, ORIGIN, values[..NrValues(units)], full)
    }

    /** A fresh flag for a new pattern id, the old one for a known id.  Fails when the
        pattern-id table has no slot left. */
    method GetFlag(pid: nat, nnz: nat) returns (ok: bool, flag: nat)
      requires FlagsOk()
      modifies this`patterns, this`flagAvail
      ensures !ok ==> pid !in patterns && |patterns| == MAX_PATTERNS
      ensures ok ==> FlagsOk() && flag < MAX_PATTERNS
      ensures ok ==> pid in patterns && patterns[pid].flag == flag
      ensures Learned(old(Known()), {pid}, Known(), ok)
      ensures ok ==> forall p :: p in old(patterns) ==> p in patterns && patterns[p].flag == old(patterns)[p].flag
    {
      if pid !in patterns {
        flag := flagAvail;
        if flag >= MAX_PATTERNS {
          return false, 0;
        }
        flagAvail := flagAvail + 1;
        patterns := patterns[pid := PatInfo(flag, 1, nnz)];
        assert patterns.Keys == old(patterns).Keys + {pid};
      } else {
        var info := patterns[pid];
        flag := info.flag;
        patterns := patterns[pid := info.(npatterns := info.npatterns + 1, nr := info.nr + nnz)];
        assert patterns.Keys == old(patterns).Keys;
      }
      ok := true;
    }

    method UpdateNewRow() returns (nr: bool, rowjmp: nat)
      modifies this`newRow, this`emptyRows, this`rowJmps
      ensures nr == old(newRow) && !newRow
      ensures nr ==> emptyRows == 0 && rowjmp == (if old(emptyRows) != 0 then old(emptyRows) + 1 else 0)
      ensures !nr ==> emptyRows == old(emptyRows) && rowjmp == 0
      ensures rowJmps == (old(rowJmps) || rowjmp != 0)
    {
      nr, rowjmp := false, 0;
      if newRow {
        nr := true;
        newRow := false;
        if emptyRows != 0 {
          rowjmp := emptyRows + 1;
          emptyRows := 0;
          rowJmps := true;
        }
      }
    }

    /** The head of `u` has been written behind the bytes `base` of the recorded units. */
    ghost predicate Opened(u: Unit, base: seq<byte>)
      reads this`patterns, this`flagAvail, this`units, this`rowJmps
    {
      && FlagsOk()
      && AllWellFormed(units, full)
      && base == Bytes(units, full)
      && (forall i :: 0 <= i < |units| ==> units[i].pid in patterns && patterns[units[i].pid].flag == units[i].flag)
      && u.pid in patterns && patterns[u.pid].flag == u.flag
      && (!rowJmps ==> u.rowjmp == 0 && forall i :: 0 <= i < |units| ==> units[i].rowjmp == 0)
    }

    /** Row change and flag of a unit of `row`, and its head. */
    method WriteHead(pid: nat, size: nat, ucol: nat, ghost p: Pos, ghost row: int, ghost ds: seq<nat>)
      returns (ok: bool, ghost u: Unit)
      requires FlagsOk() && StandsAt(p, row) && size <= CTL_SIZE_MAX
      modifies this`patterns, this`flagAvail, this`newRow, this`emptyRows, this`rowJmps, bld
      ensures ok ==> FlagsOk() && !newRow && emptyRows == 0
      ensures ok ==> u.pid == pid && u.size == size && u.ucol == ucol && u.deltas == ds
      ensures ok ==> u.flag < MAX_PATTERNS && (u.rowjmp != 0 ==> u.nr)
      ensures ok ==> pid in patterns && patterns[pid].flag == u.flag
      ensures ok ==> forall q :: q in old(patterns) ==> q in patterns && patterns[q].flag == old(patterns)[q].flag
      ensures ok ==> bld.ctl == old(bld.ctl) + HeadBytes(u.nr, u.rowjmp, u.flag, size, ucol, 4, full)
      ensures ok ==> (!rowJmps ==> u.rowjmp == 0 && !old(rowJmps))
      ensures ok ==> StartsAt(u, p, Pos(row, if full then ucol else lastCol - 1 + ucol))
      ensures !ok ==> |patterns| == MAX_PATTERNS
      ensures Learned(old(Known()), {pid}, Known(), ok)
    {
      hide FlagsOk, HeadBytes, Learned, Known;
      var nr, rowjmp := UpdateNewRow();
      var flag;
      ok, flag := GetFlag(pid, size);
      if ok {
        u := Unit(nr, rowjmp, flag, pid, size, ucol, ds);
        bld.AppendCtlHead(nr, rowjmp, flag, size, ucol, 4, full);
      } else {
        u := *;
      }
    }

    /** Starts a unit behind the recorded ones. */
    method StartUnit(pid: nat, size: nat, ucol: nat, ghost row: int, ghost ds: seq<nat>)
      returns (ok: bool, ghost u: Unit)
      requires Encoded() && Positioned(row) && size <= CTL_SIZE_MAX
      modifies this`patterns, this`flagAvail, this`newRow, this`emptyRows, this`rowJmps, bld
      ensures ok ==> !newRow && emptyRows == 0
      ensures ok ==> Opened(u, old(bld.ctl))
      ensures ok ==> u.pid == pid && u.size == size && u.ucol == ucol && u.deltas == ds
      ensures ok ==> u.flag < MAX_PATTERNS && (u.rowjmp != 0 ==> u.nr)
      ensures ok ==> bld.ctl == old(bld.ctl) + HeadBytes(u.nr, u.rowjmp, u.flag, size, ucol, 4, full)
      ensures ok ==> StartsAt(u, EndPos(units, ORIGIN, full), Pos(row, if full then ucol else lastCol - 1 + ucol))
      ensures !ok ==> |patterns| == MAX_PATTERNS
      ensures Learned(old(Known()), {pid}, Known(), ok)
    {
      hide WellFormed, EndPos, Bytes, FlagsOk, StandsAt, StartsAt, HeadBytes, Learned, Known;
      ok, u := WriteHead(pid, size, ucol, EndPos(units, ORIGIN, full), row, ds);
    }

    predicate StartsAt(u: Unit, p: Pos, s: Pos) { Start(u, p, full) == s }

    /** Records the unit `u`, whose bytes have just been completed. */
    ghost method CommitUnit(u: Unit, base: seq<byte>, row: int, s: Pos)
      requires Opened(u, base) && WellFormed(u, full)
      requires bld.ctl == base + UnitBytes(u, full)
      requires NrValues(units) + u.size <= values.Length
      requires StartsAt(u, EndPos(units, ORIGIN, full), s)
      requires StandsAt(Leave(u, s, full), row)
      modifies this`units
      ensures units == old(units) + [u]
      ensures Encoded() && Positioned(row)
      ensures NrValues(units) == old(NrValues(units)) + u.size
      ensures Done() == old(Done()) + UnitCells(u, s, values[old(NrValues(units))..NrValues(units)], full)
    {
      hide Bytes, UnitBytes, EndPos, Run, UnitCells, WellFormed, NrValues, Leave, Start;
      UnitWritten(units, u, NrValues(units));
      units := units + [u];
    }

    /** The unit `u` and its bytes are complete. */
    lemma {:induction false} UnitWritten(us: seq<Unit>, u: Unit, n: nat)
      requires AllWellFormed(us, full) && WellFormed(u, full)
      requires n == NrValues(us) && n + u.size <= values.Length
      ensures AllWellFormed(us + [u], full)
      ensures Bytes(us + [u], full) == Bytes(us, full) + UnitBytes(u, full)
      ensures NrValues(us + [u]) == n + u.size
      ensures EndPos(us + [u], ORIGIN, full) == Next(u, EndPos(us, ORIGIN, full), full)
      ensures Run(us + [u], ORIGIN, values[..n + u.size], full)
           == Run(us, ORIGIN, values[..n], full)
            + UnitCells(u, Start(u, EndPos(us, ORIGIN, full), full), values[n..n + u.size], full)
    {
      hide Bytes, UnitBytes, EndPos, Run, UnitCells, WellFormed, AllWellFormed, NrValues, Next, Start;
      BytesSnoc(us, u, full);
      NrValuesSnoc(us, u);
      EndPosSnoc(us, u, ORIGIN, full);
      RunSnoc(us, u, ORIGIN, values[..n], values[n..n + u.size], full);
      assert values[..n + u.size] == values[..n] + values[n..n + u.size];
    }

    /** Delta encoding of the buffer and the narrowest width for its steps. */
    static method EncodeCols(cols: seq<int>, x0: int) returns (ds: seq<int>, bytes: nat)
      requires cols != [] && NonDecreasing(cols) && 1 <= cols[0] && cols[|cols| - 1] <= MAX_INDEX
      ensures |ds| == |cols| && ds[0] == cols[0] - x0 && ds[1..] == StepsOf(cols)
      ensures bytes == DeltaSize(MaxStep(cols))
      ensures bytes == 1 || bytes == 2 || bytes == 4 || bytes == 8
      ensures forall i :: 0 <= i < |cols| - 1 ==> Fits(StepsOf(cols)[i], bytes)
    {
      ds := DeltaEncode(cols, x0);
      StepsAreDeltas(cols, x0);
      MaxOfDeltas(cols, x0);
      var max := 0;
      if |ds| > 1 {
        max := Max(ds[1..]);
      }
      bytes := DeltaSize(max);
      StepsFit(StepsOf(cols), max, bytes);
    }

    /** Writes the buffered columns as one delta unit. */
    method AddCols(cols: seq<int>, ghost row: int) returns (ok: bool)
      requires Encoded() && Positioned(row)
      requires cols != [] && |cols| <= CTL_SIZE_MAX && NonDecreasing(cols)
      requires lastCol <= cols[0] && cols[|cols| - 1] <= MAX_INDEX
      requires valuesIdx == NrValues(units) + |cols| <= values.Length
      modifies this, bld
      ensures values == old(values) && valuesIdx == old(valuesIdx) && span == old(span)
      ensures ok ==> Encoded() && Positioned(row) && !newRow && lastCol == cols[|cols| - 1]
      ensures ok ==> NrValues(units) == valuesIdx && old(units) <= units
      ensures ok ==> Done() == old(Done()) + ColCells(row, cols, values[old(NrValues(units))..valuesIdx])
      ensures !ok ==> |patterns| == MAX_PATTERNS
      ensures Learned(old(Known()), {ColPid(cols)}, Known(), ok)
    {
      hide Bytes, EndPos, Run, UnitCells, WellFormed, NrValues, Leave, StepsOf, Fits, HeadBytes, DeltaBytes, Opened,
           StartsAt, Encoded, AllWellFormed, Done, ColCells, Learned, Known, MaxStep;
      var last, colStart := cols[|cols| - 1], cols[0];
      var ds, bytes := EncodeCols(cols, lastCol);
      ghost var steps := StepsOf(cols);
      var ucol := if full then colStart - 1 else ds[0];
      ghost var n, base := NrValues(units), bld.ctl;
      ghost var u;
      ok, u := StartUnit(DeltaPatternId(bytes), |cols|, ucol, row, steps);
      if !ok {
        return;
      }
      AppendSteps(ds, bytes, steps);
      lastCol := last;
      DeltaUnitOk(u, row, cols, bytes, full);
      CommitUnit(u, base, row, Pos(row, cols[0] - 1));
      DeltaUnitCells(u, row, cols, values[n..n + u.size], full);
    }

    method AppendSteps(ds: seq<int>, bytes: nat, ghost steps: seq<nat>)
      requires |ds| >= 1 && ds[1..] == steps
      modifies bld
      ensures bld.ctl == old(bld.ctl) + DeltaBytes(steps, bytes)
    {
      var i := 1;
      while i < |ds|
        invariant 1 <= i <= |ds|
        invariant bld.ctl == old(bld.ctl) + DeltaBytes(steps[..i - 1], bytes)
      {
        DeltaBytesSnoc(steps[..i - 1], steps[i - 1], bytes);
        assert steps[..i] == steps[..i - 1] + [steps[i - 1]];
        bld.AppendFixedInt(ds[1..][i - 1], bytes);
        i := i + 1;
      }
      assert steps[..|steps|] == steps;
    }

    lemma {:induction false} DeltaUnitOk(u: Unit, row: int, cols: seq<int>, bytes: nat, full: bool)
      requires NonDecreasing(cols) && cols != [] && 1 <= cols[0] && cols[|cols| - 1] <= MAX_INDEX
      requires bytes == 1 || bytes == 2 || bytes == 4 || bytes == 8
      requires u.pid == DeltaPatternId(bytes) && u.size == |cols| <= CTL_SIZE_MAX
      requires u.deltas == StepsOf(cols) && forall i :: 0 <= i < |u.deltas| ==> Fits(u.deltas[i], bytes)
      requires u.flag < MAX_PATTERNS && (u.rowjmp != 0 ==> u.nr)
      requires full ==> u.ucol == cols[0] - 1
      ensures WellFormed(u, full) && IsDelta(u)
      ensures Leave(u, Pos(row, cols[0] - 1), full) == Pos(row, cols[|cols| - 1] - 1)
    {
      if full {
        FitsWider(u.ucol, 4);
      }
      StepsSum(cols, |cols| - 1);
      assert u.deltas[..|cols| - 1] == u.deltas;
    }

    static lemma {:induction false} StepsFit(steps: seq<nat>, max: int, bytes: nat)
      requires max == if steps == [] then 0 else Max(steps)
      requires max <= MAX_INDEX
      requires bytes == DeltaSize(max)
      ensures forall i :: 0 <= i < |steps| ==> Fits(steps[i], bytes)
    {
      forall i | 0 <= i < |steps| ensures Fits(steps[i], bytes) {
        FitsWider(steps[i], bytes);
      }
    }

    lemma {:induction false} DeltaUnitCells(u: Unit, row: int, cols: seq<int>, vals: seq<real>, full: bool)
      requires WellFormed(u, full) && IsDelta(u) && NonDecreasing(cols) && cols != []
      requires u.size == |cols| == |vals| && u.deltas == StepsOf(cols)
      ensures UnitCells(u, Pos(row, cols[0] - 1), vals, full) == ColCells(row, cols, vals)
    {
      forall k | 0 <= k < |cols|
        ensures UnitCells(u, Pos(row, cols[0] - 1), vals, full)[k] == ColCells(row, cols, vals)[k]
      {
        StepsSum(cols, k);
      }
    }

    /** Writes the unit of a substructure; its values are still to be copied. */
    method AddPattern(e: Element) returns (ok: bool, ghost u: Unit)
      requires Encoded() && Positioned(e.row)
      requires Shaped(e) && e.IsPattern() && e.inst.dim < PATTERN_ID_OFFSET && e.Size() <= CTL_SIZE_MAX
      requires lastCol <= e.col <= MAX_INDEX
      requires NrValues(units) + e.Size() <= values.Length
      modifies this, bld
      ensures values == old(values) && valuesIdx == old(valuesIdx) && span == old(span)
      ensures ok ==> Encoded() && Positioned(e.row) && !newRow && lastCol == LastCol(e)
      ensures ok ==> units == old(units) + [u] && NrValues(units) == old(NrValues(units)) + e.Size()
      ensures ok ==> IsUnitOf(u, e, full) && StartsAt(u, old(EndPos(units, ORIGIN, full)), Pos(e.row, e.col - 1))
      ensures !ok ==> |patterns| == MAX_PATTERNS
      ensures Learned(old(Known()), {ElemPid(e)}, Known(), ok)
    {
      hide Bytes, UnitBytes, EndPos, Run, UnitCells, WellFormed, NrValues, Leave, Fits, HeadBytes, DeltaBytes,
           RunCells, Shaped, Opened, StartsAt, Encoded, AllWellFormed, Done, Learned, Known, ElemPid;
      var pid := ElemPid(e);
      var size := e.Size();
      var ucol := if full then e.col - 1 else e.col - lastCol;
      ghost var base := bld.ctl;
      ok, u := StartUnit(pid, size, ucol, e.row, []);
      if !ok {
        return;
      }
      lastCol := LastCol(e);
      PatternUnitOk(u, e, full);
      CommitUnit(u, base, e.row, Pos(e.row, e.col - 1));
    }

    static ghost predicate IsUnitOf(u: Unit, e: Element, full: bool)
      requires Shaped(e)
    {
      && u.pid == ElemPid(e) && u.size == e.Size() && u.deltas == []
      && u.flag < MAX_PATTERNS && (u.rowjmp != 0 ==> u.nr)
      && (full ==> u.ucol == e.col - 1)
    }

    static lemma {:induction false} PatternUnitOk(u: Unit, e: Element, full: bool)
      requires Shaped(e) && e.IsPattern() && e.inst.dim < PATTERN_ID_OFFSET && e.Size() <= CTL_SIZE_MAX
      requires 1 <= e.col <= MAX_INDEX
      requires IsUnitOf(u, e, full)
      ensures WellFormed(u, full) && !IsDelta(u)
      ensures UnitBytes(u, full) == HeadBytes(u.nr, u.rowjmp, u.flag, u.size, u.ucol, 4, full)
      ensures UnitCells(u, Pos(e.row, e.col - 1), e.vals, full) == RunCells(e.inst, e.row, e.col, e.vals)
      ensures Leave(u, Pos(e.row, e.col - 1), full) == Pos(e.row, LastCol(e) - 1)
    {
      ElemPidDecodes(e);
      if full {
        FitsWider(u.ucol, 4);
      }
      assert DeltaBytes(u.deltas, Width(u)) == [];
    }

    /** Copies the values of an element behind the values written so far. */
    method CopyValues(vals: seq<real>)
      requires valuesIdx + |vals| <= values.Length
      modifies this`valuesIdx, values
      ensures valuesIdx == old(valuesIdx) + |vals|
      ensures values[..] == old(values[..valuesIdx]) + vals + old(values[valuesIdx + |vals|..])
    {
      var start, i := valuesIdx, 0;
      while i < |vals|
        modifies values
        invariant i <= |vals|
        invariant values[..] == old(values[..valuesIdx]) + vals[..i] + old(values[valuesIdx + i..])
      {
        ghost var was := values[..];
        values[start + i] := vals[i];
        assert values[..] == was[start + i := vals[i]];
        assert vals[..i + 1] == vals[..i] + [vals[i]];
        i := i + 1;
      }
      valuesIdx := valuesIdx + |vals|;
    }

    method UpdateRowSpan(e: Element)
      requires Shaped(e) && e.IsPattern()
      modifies this`span
      ensures span == if ElemSpan(e) > old(span) then ElemSpan(e) else old(span)
    {
      var s := ElemSpan(e);
      if s > span {
        span := s;
      }
    }

    /** Cells whose values are written but whose unit is not yet. */
    ghost function Pending(row: int, cols: seq<int>): seq<Cell>
      reads this, values
      requires NrValues(units) + |cols| == valuesIdx <= values.Length
    {
      ColCells(row, cols, values[NrValues(units)..valuesIdx])
    }

    /** Between two elements of a row, with `cols` buffered. */
    ghost predicate InRow(row: int, cols: seq<int>)
      reads this, bld
      ensures InRow(row, cols) ==>
        AllWellFormed(units, full) && NrValues(units) + |cols| == valuesIdx <= values.Length
    {
      && Encoded() && Positioned(row)
      && NrValues(units) + |cols| == valuesIdx <= values.Length
      && |cols| <= CTL_SIZE_MAX && NonDecreasing(cols)
      && (cols != [] ==> lastCol <= cols[0] && cols[|cols| - 1] <= MAX_INDEX)
    }

    /** The column the row has been read up to. */
    function Front(cols: seq<int>): int
      reads this
    {
      if cols == [] then lastCol else cols[|cols| - 1]
    }

    lemma {:induction false} NothingPending(row: int)
      ensures NrValues(units) == valuesIdx <= values.Length ==> Pending(row, []) == []
    {
    }

    /** Flushes the buffer, if there is anything in it. */
    method PreparePat(cols: seq<int>, ghost row: int) returns (ok: bool)
      requires InRow(row, cols)
      modifies this, bld
      ensures values == old(values) && valuesIdx == old(valuesIdx) && span == old(span)
      ensures ok ==> InRow(row, []) && lastCol == old(Front(cols)) && old(units) <= units
      ensures ok ==> (old(newRow) && cols == [] <==> newRow)
      ensures ok ==> Done() == old(Done()) + old(Pending(row, cols))
      ensures !ok ==> |patterns| == MAX_PATTERNS
      ensures Learned(old(Known()), FlushIds(cols), Known(), ok)
    {
      hide EndPos, Run, NrValues, Encoded, AllWellFormed, Done, Learned, Known, ColPid;
      ok := true;
      if |cols| != 0 {
        ok := AddCols(cols, row);
      } else {
        NothingPending(row);
        TableRoom();
        LearnedNothing(Known());
      }
    }

    /** One element of a row. */
    method DoElem(e: Element, cols: seq<int>, ghost d: Dims) returns (ok: bool, cols': seq<int>)
      requires InRow(e.row, cols) && Front(cols) <= e.col <= MAX_INDEX
      requires Shaped(e) && e.inst.dim < PATTERN_ID_OFFSET && e.Size() <= CTL_SIZE_MAX
      requires valuesIdx + e.Size() <= values.Length
      modifies this, bld, values
      ensures values == old(values)
      ensures !ok ==> |patterns| == MAX_PATTERNS
      ensures Learned(old(Known()), StepIds(e, cols), Known(), ok)
      ensures ok ==> values[..old(valuesIdx)] == old(values[..valuesIdx])
      ensures ok ==> InRow(e.row, cols') && Front(cols') == LastCol(e) && old(units) <= units
      ensures ok ==> newRow ==> cols' != []
      ensures ok ==> cols' == StepCols(e, cols)
      ensures ok ==> valuesIdx == old(valuesIdx) + e.Size()
      ensures ok ==> Done() + Pending(e.row, cols') == old(Done() + Pending(e.row, cols)) + ElemCells(e, Horizontal, d)
      ensures ok ==> span == if e.IsPattern() && ElemSpan(e) > old(span) then ElemSpan(e) else old(span)
    {
      hide EndPos, Run, NrValues, Encoded, AllWellFormed, Done, ElemCells, ElemSpan, ColCells, Positioned, Learned,
           Known, ColPid, ElemPid;
      if e.IsPattern() {
        cols' := [];
        UpdateRowSpan(e);
        ok := FlushAndWrite(e, cols, d);
      } else {
        ok, cols' := BufferOne(e, cols, d);
      }
    }

    /** A substructure: the buffer is flushed before it. */
    method FlushAndWrite(e: Element, cols: seq<int>, ghost d: Dims) returns (ok: bool)
      requires InRow(e.row, cols) && Front(cols) <= e.col <= MAX_INDEX
      requires Shaped(e) && e.IsPattern() && e.inst.dim < PATTERN_ID_OFFSET && e.Size() <= CTL_SIZE_MAX
      requires valuesIdx + e.Size() <= values.Length
      modifies this, bld, values
      ensures values == old(values) && span == old(span)
      ensures !ok ==> |patterns| == MAX_PATTERNS
      ensures Learned(old(Known()), FlushIds(cols) + {ElemPid(e)}, Known(), ok)
      ensures ok ==> values[..old(valuesIdx)] == old(values[..valuesIdx])
      ensures ok ==> InRow(e.row, []) && Front([]) == LastCol(e) && old(units) <= units && !newRow
      ensures ok ==> valuesIdx == old(valuesIdx) + e.Size()
      ensures ok ==> Done() + Pending(e.row, []) == old(Done() + Pending(e.row, cols)) + ElemCells(e, Horizontal, d)
    {
      hide EndPos, Run, NrValues, Encoded, AllWellFormed, Done, ElemCells, ElemSpan, ColCells, Positioned, Learned,
           Known, ColPid, ElemPid;
      ok := PreparePat(cols, e.row);
      ghost var known := Known();
      if !ok {
        LearnedStop(old(Known()), FlushIds(cols), known, {ElemPid(e)}, known);
        return;
      }
      ok := DoPattern(e, d);
      LearnedThen(old(Known()), FlushIds(cols), known, {ElemPid(e)}, Known(), ok);
      if ok { NothingPending(e.row); }
    }

    /** A single element: the buffer is flushed if it is full. */
    method BufferOne(e: Element, cols: seq<int>, ghost d: Dims) returns (ok: bool, cols': seq<int>)
      requires InRow(e.row, cols) && Front(cols) <= e.col <= MAX_INDEX
      requires Shaped(e) && !e.IsPattern()
      requires valuesIdx + 1 <= values.Length
      modifies this, bld, values
      ensures values == old(values) && span == old(span)
      ensures !ok ==> |patterns| == MAX_PATTERNS
      ensures Learned(old(Known()), if |cols| == CTL_SIZE_MAX then FlushIds(cols) else {}, Known(), ok)
      ensures ok ==> values[..old(valuesIdx)] == old(values[..valuesIdx])
      ensures ok ==> InRow(e.row, cols') && Front(cols') == e.col && old(units) <= units
      ensures ok ==> cols' == if |cols| == CTL_SIZE_MAX then [e.col] else cols + [e.col]
      ensures ok ==> valuesIdx == old(valuesIdx) + 1
      ensures ok ==> Done() + Pending(e.row, cols') == old(Done() + Pending(e.row, cols)) + ElemCells(e, Horizontal, d)
    {
      hide EndPos, Run, NrValues, Encoded, AllWellFormed, Done, ElemCells, ElemSpan, ColCells, Positioned, Learned,
           Known, ColPid, ElemPid;
      cols' := cols;
      NothingPending(e.row);
      ok := true;
      if |cols'| == CTL_SIZE_MAX {
        ok := AddCols(cols', e.row);
        if !ok { return; }
        cols' := [];
        NothingPending(e.row);
      } else {
        TableRoom();
        LearnedNothing(Known());
      }
      cols' := DoSingle(e, cols', d);
    }

    /** A single element goes into the buffer. */
    method DoSingle(e: Element, cols: seq<int>, ghost d: Dims) returns (cols': seq<int>)
      requires InRow(e.row, cols) && Front(cols) <= e.col <= MAX_INDEX && |cols| < CTL_SIZE_MAX
      requires Shaped(e) && !e.IsPattern()
      requires valuesIdx + 1 <= values.Length
      modifies this`valuesIdx, values
      ensures InRow(e.row, cols') && Front(cols') == e.col && cols' == cols + [e.col]
      ensures valuesIdx == old(valuesIdx) + 1 && values[..old(valuesIdx)] == old(values[..valuesIdx])
      ensures Done() + Pending(e.row, cols') == old(Done() + Pending(e.row, cols)) + ElemCells(e, Horizontal, d)
    {
      hide EndPos, Run, NrValues, Encoded, AllWellFormed;
      ghost var n := NrValues(units);
      cols' := cols + [e.col];
      CopyValues(e.vals);
      assert values[..n] == old(values[..n]);
      assert values[n..valuesIdx] == old(values[n..valuesIdx]) + e.vals;
      assert ElemCells(e, Horizontal, d) == [Cell(e.row, e.col, e.vals[0])];
      assert ColCells(e.row, cols', values[n..valuesIdx])
          == old(ColCells(e.row, cols, values[n..valuesIdx])) + [Cell(e.row, e.col, e.vals[0])];
    }

    /** A substructure becomes a unit of its own; its values follow. */
    method DoPattern(e: Element, ghost d: Dims) returns (ok: bool)
      requires InRow(e.row, []) && lastCol <= e.col <= MAX_INDEX
      requires Shaped(e) && e.IsPattern() && e.inst.dim < PATTERN_ID_OFFSET && e.Size() <= CTL_SIZE_MAX
      requires valuesIdx + e.Size() <= values.Length
      modifies this, bld, values
      ensures values == old(values) && span == old(span)
      ensures !ok ==> |patterns| == MAX_PATTERNS
      ensures Learned(old(Known()), {ElemPid(e)}, Known(), ok)
      ensures ok ==> InRow(e.row, []) && lastCol == LastCol(e) && old(units) <= units && !newRow
      ensures ok ==> valuesIdx == old(valuesIdx) + e.Size() && values[..old(valuesIdx)] == old(values[..valuesIdx])
      ensures ok ==> Done() == old(Done()) + ElemCells(e, Horizontal, d)
    {
      hide Bytes, UnitBytes, EndPos, Run, UnitCells, WellFormed, NrValues, Leave, RunCells, Encoded, AllWellFormed,
           Learned, Known, ElemPid;
      ghost var us, n := units, NrValues(units);
      ghost var p := EndPos(us, ORIGIN, full);
      ghost var u;
      ok, u := AddPattern(e);
      if ok {
        PatternUnitOk(u, e, full);
        CopyValues(e.vals);
        assert values[..n + u.size] == old(values[..n]) + e.vals;
        RunSnoc(us, u, ORIGIN, old(values[..n]), e.vals, full);
      }
    }

    /** Everything before `row` is written. */
    ghost predicate RowDue(row: int)
      reads this`patterns, this`flagAvail, this`units, this`rowJmps, this`values, this`valuesIdx, this`newRow,
        this`emptyRows, bld
      ensures RowDue(row) ==> AllWellFormed(units, full) && NrValues(units) == valuesIdx <= values.Length
    {
      && Encoded()
      && NrValues(units) == valuesIdx <= values.Length
      && (!newRow ==> units == [])
      && var p := EndPos(units, ORIGIN, full);
         && (newRow ==> p.row + 1 + emptyRows == row)
         && (!newRow ==> p.row == row && emptyRows == 0 && p.col == 0)
    }

    method BeginRow(ghost row: int)
      requires RowDue(row)
      modifies this`span, this`lastCol
      ensures InRow(row, []) && Front([]) == 1 && span == 0
    {
      span := 0;
      lastCol := 1;
    }

    method EndRow(ghost row: int)
      requires InRow(row, []) && !newRow
      modifies this`newRow
      ensures RowDue(row + 1) && newRow && EndPos(units, ORIGIN, full).row == row
    {
      newRow := true;
    }

    /** Elements of a row: buffer single elements, flush them before a substructure, when the
        buffer is full and at the end, write substructures as they come. */
    method DoElems(es: seq<Element>, row: int, ghost d: Dims) returns (ok: bool)
      requires InRow(row, []) && RowOk(es, row) && (es != [] ==> lastCol <= es[0].col)
      requires valuesIdx + ValueCount(es) <= values.Length
      requires AllShaped(es)
      modifies this, bld, values
      ensures values == old(values)
      ensures !ok ==> |patterns| == MAX_PATTERNS
      ensures Learned(old(Known()), ElemsIds(es, []), Known(), ok)
      ensures ok ==> InRow(row, []) && newRow == (old(newRow) && es == [])
      ensures ok ==> lastCol == if es == [] then old(lastCol) else LastCol(es[|es| - 1])
      ensures ok ==>
        valuesIdx == old(valuesIdx) + ValueCount(es) && values[..old(valuesIdx)] == old(values[..valuesIdx])
      ensures ok ==> old(units) <= units
      ensures ok ==> Done() == old(Done()) + AllCells(es, Horizontal, d)
      ensures ok ==> span == if RowSpan(es) > old(span) then RowSpan(es) else old(span)
    {
      NothingRead(es, d);
      hide EndPos, Run, NrValues, Encoded, AllWellFormed, Done, ElemCells, ElemSpan, ColCells, Shaped, AllShaped,
           RowOk, Positioned, InRow, Pending, Front, AllCells, ValueCount, RowSpan, LastCol, Learned, Known, Reading,
           ElemsIds, StepIds, StepCols, FlushIds;
      RowShaped(es, row);
      FrontOf();
      var cols: seq<int> := [];
      ghost var done, vals := Done(), values[..valuesIdx];
      NothingPending(row);
      InRowValues(row, cols);
      ghost var known, all := Known(), ElemsIds(es, []);
      TableRoomIn(row, cols);
      ReadingStart(known, all);
      assert es[0..] == es;
      var i := 0;
      while i < |es|
        invariant i <= |es| && values == old(values)
        invariant InRow(row, cols) && old(units) <= units
        invariant old(valuesIdx) <= valuesIdx == old(valuesIdx) + ValueCount(es[..i]) && valuesIdx <= values.Length
        invariant values[..old(valuesIdx)] == vals
        invariant Front(cols) == if i == 0 then old(lastCol) else LastCol(es[i - 1])
        invariant newRow && i > 0 ==> cols != []
        invariant i == 0 ==> cols == [] && newRow == old(newRow)
        invariant Done() + Pending(row, cols) == done + AllCells(es[..i], Horizontal, d)
        invariant AllShaped(es[i..]) && Reading(known, ElemsIds(es[i..], cols), all, Known())
        invariant span == if RowSpan(es[..i]) > old(span) then RowSpan(es[..i]) else old(span)
      {
        RowElem(es, row, i);
        Advance(es, row, i, d);
        ElemsIdsNext(es, cols, i);
        ghost var now, keys, more := values[..valuesIdx], Known(), StepIds(es[i], cols);
        ghost var rest := ElemsIds(es[i + 1..], StepCols(es[i], cols));
        ok, cols := DoElem(es[i], cols, d);
        ReadingNext(known, more, rest, all, keys, Known(), ok);
        if !ok { return; }
        assert values[..old(valuesIdx)] == now[..old(valuesIdx)] == vals;
        InRowValues(row, cols);
        i := i + 1;
      }
      assert es[..i] == es && es[i..] == [];
      ghost var keys := Known();
      ElemsIdsEnd(cols);
      ok := PreparePat(cols, row);
      ReadingNext(known, FlushIds(cols), {}, all, keys, Known(), ok);
      if ok { ReadingEnd(known, all, Known()); }
      if ok { FrontOf(); }
    }

    /** The table has not been filled beyond its end. */
    lemma {:induction false} TableRoom()
      requires Encoded()
      ensures |Known()| <= MAX_PATTERNS
    {
    }

    lemma {:induction false} TableRoomIn(row: int, cols: seq<int>)
      requires InRow(row, cols)
      ensures |Known()| <= MAX_PATTERNS
    {
    }

    static lemma {:induction false} ElemsIdsEnd(cols: seq<int>)
      ensures ElemsIds([], cols) == FlushIds(cols) == FlushIds(cols) + {}
    {
    }

    /** Reading one more element. */
    lemma {:induction false} Advance(es: seq<Element>, row: int, i: nat, d: Dims)
      requires RowOk(es, row) && i < |es|
      ensures AllShaped(es[..i]) && AllShaped(es[..i + 1]) && Shaped(es[i])
      ensures AllCells(es[..i + 1], Horizontal, d) == AllCells(es[..i], Horizontal, d) + ElemCells(es[i], Horizontal, d)
      ensures ValueCount(es[..i + 1]) == ValueCount(es[..i]) + es[i].Size() <= ValueCount(es)
      ensures var s := RowSpan(es[..i]);
              RowSpan(es[..i + 1]) == if es[i].IsPattern() && ElemSpan(es[i]) > s then ElemSpan(es[i]) else s
    {
      hide ElemCells, ElemSpan, Shaped, AllCells;
      RowShaped(es, row);
      RowElem(es, row, i);
      assert es[..i + 1] == es[..i] + [es[i]];
      AllCellsSnoc(es[..i], es[i], Horizontal, d);
      ValueCountPrefix(es, i + 1);
      assert es[..i + 1][..i] == es[..i];
    }

    lemma {:induction false} NothingRead(es: seq<Element>, d: Dims)
      ensures AllCells(es[..0], Horizontal, d) == [] && ValueCount(es[..0]) == 0 && RowSpan(es[..0]) == 0
    {
    }

    lemma {:induction false} FrontOf()
      ensures Front([]) == lastCol
    {
    }

    lemma {:induction false} InRowValues(row: int, cols: seq<int>)
      requires InRow(row, cols)
      ensures NrValues(units) <= valuesIdx <= values.Length
    {
    }

    /** One row. */
    method DoRow(es: seq<Element>, row: int, ghost d: Dims) returns (ok: bool)
      requires RowDue(row)
      requires RowOk(es, row) && AllShaped(es)
      requires valuesIdx + ValueCount(es) <= values.Length
      modifies this, bld, values
      ensures values == old(values)
      ensures !ok ==> |patterns| == MAX_PATTERNS
      ensures Learned(old(Known()), ElemsIds(es, []), Known(), ok)
      ensures ok ==> InRow(row, []) && (es != [] ==> !newRow)
      ensures ok ==> valuesIdx == old(valuesIdx) + ValueCount(es)
      ensures ok ==> old(units) <= units
      ensures ok ==> Done() == old(Done()) + AllCells(es, Horizontal, d)
      ensures ok ==> span == RowSpan(es)
    {
      hide EndPos, Run, NrValues, Encoded, AllWellFormed, Done, AllCells, Shaped, AllShaped, RowOk, Positioned, InRow,
           RowDue, LastCol, RowSpan, Learned, Known, ElemsIds;
      RowShaped(es, row);
      BeginRow(row);
      FrontOf();
      if es != [] {
        RowElem(es, row, 0);
      }
      ok := DoElems(es, row, d);
    }

    /** The units so far do not cross the boundary at column `rs`. */
    ghost predicate SidedSoFar(rs: nat)
      reads this`units, this`values, values
      requires AllWellFormed(units, full) && NrValues(units) <= values.Length
    {
      Sided(units, ORIGIN, values[..NrValues(units)], full, rs, false)
    }

    /** One row of the lower triangle of a symmetric matrix: what is before column rowStart + 1
        is written before the rest is looked at. */
    method DoSymRow(es: seq<Element>, row: int, rowStart: nat, ghost d: Dims) returns (ok: bool)
      requires RowDue(row) && SidedSoFar(rowStart)
      requires RowOk(es, row) && AllShaped(es) && SidedElems(es, rowStart, d)
      requires valuesIdx + ValueCount(es) <= values.Length
      modifies this, bld, values
      ensures values == old(values)
      ensures !ok ==> |patterns| == MAX_PATTERNS
      ensures Learned(old(Known()), LineIds(es, true, rowStart), Known(), ok)
      ensures ok ==> InRow(row, []) && (es != [] ==> !newRow) && SidedSoFar(rowStart)
      ensures ok ==> valuesIdx == old(valuesIdx) + ValueCount(es) && span == RowSpan(es)
      ensures ok ==> old(units) <= units
      ensures ok ==> Done() == old(Done()) + AllCells(es, Horizontal, d)
    {
      hide EndPos, Run, NrValues, Encoded, AllWellFormed, Done, AllCells, Shaped, AllShaped, RowOk, Positioned, InRow,
           RowDue, LastCol, RowSpan, SidedElems, OnSide, SidedSoFar, Learned, Known, ElemsIds, LineIds, SplitAt;
      RowShaped(es, row);
      var k := 0;
      while k < |es| && es[k].col < rowStart + 1
        invariant k <= |es| && forall i :: 0 <= i < k ==> es[i].col <= rowStart
      {
        k := k + 1;
      }
      SplitRow(es, row, k, rowStart, d);
      LineIdsSplit(es, rowStart, k);
      ghost var due := RowStartOf(row);
      BeginRow(row);
      FrontOf();
      ok := DoSide(es[..k], row, rowStart, false, due, d);
      ghost var known, ids, more := Known(), ElemsIds(es[..k], []), ElemsIds(es[k..], []);
      if !ok {
        LearnedStop(old(Known()), ids, known, more, known);
        return;
      }
      ok := DoSide(es[k..], row, rowStart, true, due, d);
      LearnedThen(old(Known()), ids, known, more, Known(), ok);
    }

    /** One side of a row. */
    method DoSide(es: seq<Element>, row: int, ghost rs: nat, ghost near: bool, ghost due: seq<Unit>, ghost d: Dims)
      returns (ok: bool)
      requires InRow(row, []) && RowOk(es, row) && (es != [] ==> lastCol <= es[0].col)
      requires SidedSoFar(rs) && AllShaped(es) && OnSide(AllCells(es, Horizontal, d), rs, near)
      requires !near ==> units == due && AllWellFormed(due, full) && (due != [] ==> EndPos(due, ORIGIN, full).row < row)
      requires valuesIdx + ValueCount(es) <= values.Length
      modifies this, bld, values
      ensures values == old(values)
      ensures !ok ==> |patterns| == MAX_PATTERNS
      ensures Learned(old(Known()), ElemsIds(es, []), Known(), ok)
      ensures ok ==> InRow(row, []) && newRow == (old(newRow) && es == []) && SidedSoFar(rs)
      ensures ok ==> lastCol == if es == [] then old(lastCol) else LastCol(es[|es| - 1])
      ensures ok ==> valuesIdx == old(valuesIdx) + ValueCount(es)
      ensures ok ==> old(units) <= units
      ensures ok ==> Done() == old(Done()) + AllCells(es, Horizontal, d)
      ensures ok ==> span == if RowSpan(es) > old(span) then RowSpan(es) else old(span)
    {
      hide EndPos, Run, NrValues, Encoded, AllCells, Shaped, AllShaped, RowOk, Positioned, LastCol, RowSpan, OnSide,
           WellFormed, Sided, Learned, Known, ElemsIds;
      ghost var us, va := units, values[..NrValues(units)];
      ok := DoElems(es, row, d);
      if ok {
        ghost var more := units[|us|..];
        ghost var vb := values[NrValues(us)..NrValues(units)];
        assert units == us + more;
        NrValuesConcat(us, more);
        assert values[..NrValues(units)] == va + vb;
        SideAppended(es, row, us, more, va, vb, rs, near, d);
      }
    }

    lemma {:induction false} SideAppended(es: seq<Element>, row: int, us: seq<Unit>, more: seq<Unit>, va: seq<real>,
                                          vb: seq<real>, rs: nat, near: bool, d: Dims)
      requires RowOk(es, row) && AllShaped(es) && OnSide(AllCells(es, Horizontal, d), rs, near)
      requires AllWellFormed(us + more, full) && AllWellFormed(us, full) && |va| == NrValues(us)
      requires |vb| == NrValues(more)
      requires NrValues(us + more) == |va + vb|
      requires Sided(us, ORIGIN, va, full, rs, false)
      requires !near && us != [] ==> EndPos(us, ORIGIN, full).row < row
      requires Run(us + more, ORIGIN, va + vb, full) == Run(us, ORIGIN, va, full) + AllCells(es, Horizontal, d)
      ensures Sided(us + more, ORIGIN, va + vb, full, rs, false)
    {
      hide Sided, Run, OnSide, WellFormed, EndPos, NrValues, AllCells, RowOk, Shaped;
      assert forall i :: 0 <= i < |more| ==> more[i] == (us + more)[|us| + i];
      if more != [] && us != [] && !near {
        RunConcat(us, more, ORIGIN, va, vb, full);
        var q := EndPos(us, ORIGIN, full);
        Sides.SameTail(Run(us, ORIGIN, va, full), Run(more, q, vb, full), AllCells(es, Horizontal, d));
        SomeCells(more, q, vb, full);
        FirstCellRow(es, row, d);
        FirstUnitNr(more, q, vb, full, row);
      }
      NoLastSide(us, rs);
      SidedAppend(us, more, ORIGIN, va, vb, full, rs, AllCells(es, Horizontal, d), near);
    }

    lemma {:induction false} NoLastSide(us: seq<Unit>, rs: nat)
      requires AllWellFormed(us, full)
      ensures us == [] ==> !LastSide(us, ORIGIN, full, rs, false)
    {
    }

    lemma {:induction false} SomeCells(us: seq<Unit>, p: Pos, vals: seq<real>, full: bool)
      requires us != [] && AllWellFormed(us, full) && |vals| == NrValues(us)
      ensures Run(us, p, vals, full) != []
    {
      RunHead(us, p, vals, full);
      FirstOfUnit(us[0], Start(us[0], p, full), vals[..us[0].size], full);
    }

    lemma {:induction false} FirstCellRow(es: seq<Element>, row: int, d: Dims)
      requires RowOk(es, row) && AllShaped(es) && AllCells(es, Horizontal, d) != []
      ensures AllCells(es, Horizontal, d)[0].row == row
    {
      assert Shaped(es[0]);
      assert ElemCells(es[0], Horizontal, d)[0].row == es[0].row;
    }

    /** Where the units stand before a row. */
    ghost method RowStartOf(row: int) returns (due: seq<Unit>)
      requires RowDue(row)
      ensures due == units && AllWellFormed(due, full) && (due != [] ==> EndPos(due, ORIGIN, full).row < row)
    {
      due := units;
    }

    /** The two sides of a row. */
    lemma {:induction false} SplitRow(es: seq<Element>, row: int, k: nat, rs: nat, d: Dims)
      requires RowOk(es, row) && SidedElems(es, rs, d) && k <= |es|
      requires forall i :: 0 <= i < k ==> es[i].col <= rs
      requires k < |es| ==> es[k].col > rs
      ensures AllShaped(es) && AllShaped(es[..k]) && AllShaped(es[k..])
      ensures RowOk(es[..k], row) && RowOk(es[k..], row)
      ensures ValueCount(es) == ValueCount(es[..k]) + ValueCount(es[k..])
      ensures AllCells(es, Horizontal, d) == AllCells(es[..k], Horizontal, d) + AllCells(es[k..], Horizontal, d)
      ensures OnSide(AllCells(es[..k], Horizontal, d), rs, false) && OnSide(AllCells(es[k..], Horizontal, d), rs, true)
      ensures 0 < k < |es| ==> LastCol(es[k - 1]) <= es[k].col
      ensures es != [] ==> 1 <= es[0].col
      ensures RowSpan(es) == if RowSpan(es[k..]) > RowSpan(es[..k]) then RowSpan(es[k..]) else RowSpan(es[..k])
    {
      hide AllCells, ValueCount, SidedElems, LastCol, RowOk, AllShaped, RowSpan;
      RowShaped(es, row);
      RowSlices(es, row, k);
      RowSpanConcat(es[..k], es[k..]);
      assert es == es[..k] + es[k..];
      ValueCountConcat(es[..k], es[k..]);
      AllCellsConcat(es[..k], es[k..], Horizontal, d);
      ColumnsGrow(es, row, k, rs);
      SidedSlice(es, 0, k, rs, d);
      SidedSlice(es, k, |es|, rs, d);
      assert es[0..k] == es[..k] && es[k..|es|] == es[k..];
      SideOfElems(es[..k], rs, false, d);
      SideOfElems(es[k..], rs, true, d);
    }

    lemma {:induction false} RowSlices(es: seq<Element>, row: int, k: nat)
      requires RowOk(es, row) && k <= |es|
      ensures RowOk(es[..k], row) && RowOk(es[k..], row) && AllShaped(es[..k]) && AllShaped(es[k..])
      ensures 0 < k < |es| ==> LastCol(es[k - 1]) <= es[k].col
      ensures es != [] ==> 1 <= es[0].col
    {
      hide Shaped, LastCol;
    }

    lemma {:induction false} ColumnsGrow(es: seq<Element>, row: int, k: nat, rs: nat)
      requires RowOk(es, row) && k <= |es| && (k < |es| ==> es[k].col > rs)
      ensures forall i :: k <= i < |es| ==> es[i].col > rs
    {
      hide Shaped, RowOk, LastCol;
      var i := k;
      while i < |es|
        invariant k <= i <= |es|
        invariant forall j :: k <= j < i ==> es[j].col > rs
      {
        if i > k {
          RowElem(es, row, i);
          RowElem(es, row, i - 1);
          LastAfterFirst(es[i - 1]);
        }
        i := i + 1;
      }
    }

    lemma {:induction false} LastAfterFirst(e: Element)
      requires Shaped(e)
      ensures LastCol(e) >= e.col
    {
    }

    lemma {:induction false} SidedSlice(es: seq<Element>, lo: nat, hi: nat, rs: nat, d: Dims)
      requires AllShaped(es) && SidedElems(es, rs, d) && lo <= hi <= |es|
      ensures AllShaped(es[lo..hi]) && SidedElems(es[lo..hi], rs, d)
    {
      hide OnSide, Shaped, ElemCells;
    }

    lemma {:induction false} SideOfElems(es: seq<Element>, rs: nat, near: bool, d: Dims)
      requires AllShaped(es) && SidedElems(es, rs, d)
      requires forall i :: 0 <= i < |es| ==> (near <==> es[i].col > rs)
      ensures OnSide(AllCells(es, Horizontal, d), rs, near)
    {
      if es != [] {
        hide ElemCells;
        SideOfElems(es[1..], rs, near, d);
        assert Shaped(es[0]) && OnSide(ElemCells(es[0], Horizontal, d), rs, es[0].col > rs);
      }
    }

    /** An empty row; the first row of the partition is not counted. */
    method EmptyRow(ghost row: int)
      requires RowDue(row)
      modifies this`newRow, this`emptyRows
      ensures RowDue(row + 1) && newRow
    {
      if !newRow {
        newRow := true;
      } else {
        emptyRows := emptyRows + 1;
      }
    }

    /** Before the first row. */
    lemma {:induction false} RunNothing()
      requires units == [] && bld.ctl == [] && patterns == map[] && flagAvail == 0 && !rowJmps && emptyRows == 0
      requires !newRow && valuesIdx == 0
      ensures RowDue(1) && Done() == []
    {
    }

    lemma {:induction false} NoCells(d: Dims)
      ensures AllCells([], Horizontal, d) == []
    {
    }

    /** The table from flags back to pattern ids, ended by a sentinel. */
    method AddMappings() returns (idMap: seq<int>)
      requires FlagsOk()
      ensures |idMap| == MAX_PATTERNS + 1 && idMap[|patterns|] == -1
      ensures forall p :: p in patterns ==> idMap[patterns[p].flag] == p
    {
      idMap := seq(MAX_PATTERNS + 1, _ => 0);
      var todo := patterns.Keys;
      while todo != {}
        invariant todo <= patterns.Keys && |idMap| == MAX_PATTERNS + 1
        invariant forall p :: p in patterns && p !in todo ==> idMap[patterns[p].flag] == p
        decreases todo
      {
        var p :| p in todo;
        idMap := idMap[patterns[p].flag := p];
        todo := todo - {p};
      }
      idMap := idMap[|patterns| := -1];
    }

    /** The elements `done` are compiled, and `row` comes next. */
    ghost predicate LinesDone(done: seq<Element>, row: int, rs: nat, d: Dims, symmetric: bool)
      reads this, bld, values
      ensures LinesDone(done, row, rs, d, symmetric) ==> AllWellFormed(units, full)
    {
      && AllShaped(done) && RowDue(row)
      && valuesIdx == ValueCount(done)
      && Done() == AllCells(done, Horizontal, d)
      && (symmetric ==> SidedSoFar(rs))
    }

    /** Compiles one line. */
    method DoLine(line: seq<Element>, row: int, symmetric: bool, rs: nat, ghost done: seq<Element>, ghost d: Dims)
      returns (ok: bool)
      requires RowOk(line, row) && AllShaped(line) && (symmetric ==> SidedElems(line, rs, d))
      requires LinesDone(done, row, rs, d, symmetric) && ValueCount(done) + ValueCount(line) <= values.Length
      modifies this, bld, values
      ensures !ok ==> |patterns| == MAX_PATTERNS
      ensures Learned(old(Known()), LineIds(line, symmetric, rs), Known(), ok)
      ensures values == old(values)
      ensures ok ==> LinesDone(done + line, row + 1, rs, d, symmetric)
      ensures ok ==> newRow && old(units) <= units && (line == [] ==> units == old(units))
      ensures ok && line != [] ==> EndPos(units, ORIGIN, full).row == row && span == RowSpan(line)
    {
      hide WellFormed, AllWellFormed, AllCells, Run, EndPos, Shaped, RowOk, Encoded, RowSpan, Done, SidedElems,
           SidedSoFar, InRow, RowDue, ValueCount, Run, Bytes, NrValues, FlagsOk, StandsAt, Positioned, Front, Learned,
           Known, ElemsIds;
      RowShaped(line, row);
      AllCellsConcat(done, line, Horizontal, d);
      ValueCountConcat(done, line);
      if line == [] {
        assert done + line == done;
        NoLineIds(symmetric, rs);
        TableRoomDue(done, row, rs, d, symmetric);
        LearnedNothing(Known());
        EmptyRow(row);
        return true;
      }
      if symmetric {
        ok := DoSymRow(line, row, rs, d);
      } else {
        ok := DoRow(line, row, d);
      }
      if ok {
        EndRow(row);
      }
    }

    /** Compiles one line and enters it in the table. */
    method DoTableLine(line: seq<Element>, i: nat, symmetric: bool, rs: nat, rowsInfo: seq<RowInfo>,
                       ghost blocks: seq<seq<Unit>>, ghost done: seq<Element>, ghost d: Dims)
      returns (ok: bool, info: RowInfo, ghost block: seq<Unit>)
      requires RowOk(line, i + 1) && AllShaped(line) && (symmetric ==> SidedElems(line, rs, d))
      requires LinesDone(done, i + 1, rs, d, symmetric) && ValueCount(done) + ValueCount(line) <= values.Length
      requires |rowsInfo| == i && TableOk(rowsInfo, blocks, units, full) && (newRow <==> i > 0)
      modifies this, bld, values
      ensures !ok ==> |patterns| == MAX_PATTERNS
      ensures Learned(old(Known()), LineIds(line, symmetric, rs), Known(), ok)
      ensures values == old(values)
      ensures ok ==> LinesDone(done + line, i + 2, rs, d, symmetric)
      ensures ok ==> newRow && TableOk(rowsInfo + [info], blocks + [block], units, full)
    {
      hide WellFormed, AllWellFormed, AllCells, Run, EndPos, RowOk, RowSpan, LinesDone, SidedElems, ValueCount, Bytes,
           NrValues, TableOk, Marks, Spanned, Start, Learned, Known, LineIds;
      RowShaped(line, i + 1);
      ghost var us, row := units, i + 1;
      DueFacts(done, row, rs, d, symmetric);
      block := [];
      if line == [] {
        info := RowInfo(if !newRow then 0 else rowsInfo[i - 1].rowptr, 0, 0);
        ok := DoLine(line, i + 1, symmetric, rs, done, d);
        if ok {
          NoMore(us);
          TableSnoc(rowsInfo, blocks, us, full, info, []);
        }
        return;
      }
      var rowptr, valptr := if i > 0 then |bld.ctl| else 0, valuesIdx;
      ok := DoLine(line, i + 1, symmetric, rs, done, d);
      info := RowInfo(rowptr, valptr, span);
      if ok {
        block := units[|us|..];
        assert units == us + block;
        LineWritten(us, block, line, done, row, rs, d, symmetric);
        TableSnoc(rowsInfo, blocks, us, full, info, block);
      }
    }

    static lemma {:induction false} NoLinesIds(symmetric: bool, rs: nat)
      ensures LinesIds([], symmetric, rs) == {}
    {
    }

    static lemma {:induction false} NoLineIds(symmetric: bool, rs: nat)
      ensures LineIds([], symmetric, rs) == {}
    {
    }

    lemma {:induction false} TableRoomDue(done: seq<Element>, row: int, rs: nat, d: Dims, symmetric: bool)
      requires LinesDone(done, row, rs, d, symmetric)
      ensures |Known()| <= MAX_PATTERNS
    {
    }

    lemma {:induction false} NoMore(us: seq<Unit>)
      ensures us + [] == us && AllWellFormed([], full)
    {
    }

    lemma {:induction false} DueFacts(done: seq<Element>, row: int, rs: nat, d: Dims, symmetric: bool)
      requires LinesDone(done, row, rs, d, symmetric)
      ensures AllWellFormed(units, full) && NrValues(units) == valuesIdx <= values.Length
      ensures |bld.ctl| == |Bytes(units, full)|
      ensures units == [] || EndPos(units, ORIGIN, full).row < row
      ensures !newRow ==> units == [] && |Bytes(units, full)| == 0
      ensures AllShaped(done) && |AllCells(done, Horizontal, d)| == NrValues(units)
      ensures Done() == AllCells(done, Horizontal, d)
    {
      hide WellFormed;
      RunLengthIs(units, ORIGIN, values[..NrValues(units)], full);
    }

    /** The units of the line just written. */
    lemma {:induction false} LineWritten(us: seq<Unit>, more: seq<Unit>, line: seq<Element>, done: seq<Element>,
                                         row: int, rs: nat, d: Dims, symmetric: bool)
      requires units == us + more && AllWellFormed(us, full) && (us == [] || EndPos(us, ORIGIN, full).row < row)
      requires row >= 1
      requires AllShaped(done) && |AllCells(done, Horizontal, d)| == NrValues(us)
      requires RowOk(line, row) && AllShaped(line) && line != [] && LinesDone(done + line, row + 1, rs, d, symmetric)
      requires EndPos(units, ORIGIN, full).row == row
      ensures more != [] && AllWellFormed(more, full) && Marks(more, us == []) && Spanned(more, RowSpan(line))
      ensures Start(more[0], EndPos(us, ORIGIN, full), full).row == row
    {
      hide WellFormed, AllCells, Run, EndPos, RowSpan, LinesDone, NrValues, Marks, Spanned, Start, Shaped, RowOk, Bytes;
      DueFacts(done + line, row + 1, rs, d, symmetric);
      AllCellsConcat(done, line, Horizontal, d);
      forall k | 0 <= k < |more| ensures WellFormed(more[k], full) {
        assert more[k] == units[|us| + k];
      }
      NrValuesConcat(us, more);
      var vals := values[..NrValues(units)];
      var va, vb := vals[..NrValues(us)], vals[NrValues(us)..];
      assert vals == va + vb;
      RowsOfLine(line, row);
      LineReach(line, row, d);
      SomeElems(line, d);
      FirstCellRow(line, row, d);
      BlockWritten(us, more, va, vb, AllCells(done, Horizontal, d), AllCells(line, Horizontal, d), row, RowSpan(line),
                   full);
    }

    lemma {:induction false} RowsOfLine(es: seq<Element>, row: int)
      requires RowOk(es, row)
      ensures forall i :: 0 <= i < |es| ==> es[i].row == row
    {
    }

    lemma {:induction false} SomeElems(es: seq<Element>, d: Dims)
      requires AllShaped(es) && es != []
      ensures AllCells(es, Horizontal, d) != []
    {
      assert Shaped(es[0]);
      assert ElemCells(es[0], Horizontal, d) != [];
    }

    /** Compiles the lines of a partition one by one. */
    method DoLines(spm: SparsePartition, symmetric: bool)
      returns (ok: bool, rowsInfo: seq<RowInfo>, ghost blocks: seq<seq<Unit>>)
      requires Compilable(spm)
      requires symmetric ==> SidedElems(spm.Live(), spm.rowStart, spm.D())
      requires RowDue(1) && Done() == [] && valuesIdx == 0 && values.Length == spm.nrNonzeros && units == [] && !newRow
      modifies this, bld, values
      ensures !ok ==> |patterns| == MAX_PATTERNS
      ensures Learned(old(Known()), NeededIds(spm, symmetric), Known(), ok)
      ensures values == old(values)
      ensures ok ==> Encoded() && NrValues(units) == valuesIdx == spm.nrNonzeros
      ensures ok ==> Done() == spm.CellsOf()
      ensures ok && symmetric ==> SidedSoFar(spm.rowStart)
      ensures ok ==> |rowsInfo| == spm.nrRows && TableOk(rowsInfo, blocks, units, full)
    {
      hide Compilable, LinesDone, SidedElems, RowDue, AllShaped, AllCells, ValueCount, RowOk, Encoded, SidedSoFar,
           Run, TableOk, Learned, Known, Reading, LinesIds, LineIds;
      CompilableFacts(spm);
      NoLinesDone(spm.rowStart, spm.D(), symmetric);
      ghost var keys, all, lines := Known(), NeededIds(spm, symmetric), LinesOf(spm);
      TableRoomDue([], 1, spm.rowStart, spm.D(), symmetric);
      ReadingStart(keys, all);
      assert lines[0..] == lines;
      ok := true;
      rowsInfo := [];
      blocks := [];
      assert TableOk([], [], [], full) by { NoTable(); }
      var i := 0;
      while i < |spm.rowptr| - 1
        invariant i < |spm.rowptr| && spm.rowptr[i] <= spm.elemsSize
        invariant values == old(values) && (newRow <==> i > 0)
        invariant LinesDone(spm.Live()[..spm.rowptr[i]], i + 1, spm.rowStart, spm.D(), symmetric)
        invariant LinesShaped(lines[i..]) && Reading(keys, LinesIds(lines[i..], symmetric, spm.rowStart), all, Known())
        invariant |rowsInfo| == i && TableOk(rowsInfo, blocks, units, full)
      {
        LineFacts(spm, i);
        LineJoins(spm, i, symmetric);
        var info;
        ghost var block;
        ghost var known, more := Known(), LineIds(spm.Line(i), symmetric, spm.rowStart);
        LinesIdsNext(lines, symmetric, spm.rowStart, i);
        ok, info, block := DoTableLine(spm.Line(i), i, symmetric, spm.rowStart, rowsInfo, blocks,
                                       spm.Live()[..spm.rowptr[i]], spm.D());
        ReadingNext(keys, more, LinesIds(lines[i + 1..], symmetric, spm.rowStart), all, known, Known(), ok);
        if !ok {
          return;
        }
        rowsInfo, blocks := rowsInfo + [info], blocks + [block];
        i := i + 1;
      }
      assert lines[i..] == [];
      NoLinesIds(symmetric, spm.rowStart);
      ReadingEnd(keys, all, Known());
      assert spm.Live()[..spm.elemsSize] == spm.Live();
      AllLinesDone(spm.Live(), i + 1, spm.rowStart, spm.D(), symmetric);
      rowsInfo, blocks := FillTable(rowsInfo, blocks, spm.nrRows);
    }

    lemma {:induction false} NoTable()
      ensures TableOk([], [], [], full)
    {
    }

    /** Rows behind the last line are empty. */
    method FillTable(rowsInfo: seq<RowInfo>, ghost blocks0: seq<seq<Unit>>, nrRows: nat)
      returns (r: seq<RowInfo>, ghost blocks: seq<seq<Unit>>)
      requires TableOk(rowsInfo, blocks0, units, full) && |rowsInfo| <= nrRows && AllWellFormed(units, full)
      ensures |r| == nrRows && TableOk(r, blocks, units, full)
    {
      hide TableOk, AllWellFormed;
      r, blocks := rowsInfo, blocks0;
      while |r| < nrRows
        invariant |r| <= nrRows && TableOk(r, blocks, units, full)
      {
        var info := RowInfo(if |r| == 0 then 0 else r[|r| - 1].rowptr, 0, 0);
        NoMore(units);
        TableSnoc(r, blocks, units, full, info, []);
        r, blocks := r + [info], blocks + [[]];
      }
    }

    lemma {:induction false} NoLinesDone(rs: nat, d: Dims, symmetric: bool)
      requires RowDue(1) && Done() == [] && valuesIdx == 0
      ensures LinesDone([], 1, rs, d, symmetric)
    {
      NoCells(d);
      NothingSided(rs);
    }

    /** Line i + 1 follows the lines before it. */
    lemma {:induction false} LineJoins(spm: SparsePartition, i: nat, symmetric: bool)
      requires Compilable(spm) && i < |spm.rowptr| - 1
      requires spm.rowptr[i] <= spm.rowptr[i + 1] <= spm.elemsSize <= |spm.elems|
      requires symmetric ==> AllShaped(spm.Live()) && SidedElems(spm.Live(), spm.rowStart, spm.D())
      ensures spm.Live()[..spm.rowptr[i + 1]] == spm.Live()[..spm.rowptr[i]] + spm.Line(i)
      ensures AllShaped(spm.Line(i))
      ensures symmetric ==> SidedElems(spm.Line(i), spm.rowStart, spm.D())
    {
      hide Compilable, SidedElems, AllShaped;
      assert spm.Line(i) == spm.Live()[spm.rowptr[i]..spm.rowptr[i + 1]];
      LineFacts(spm, i);
      if symmetric {
        SidedSlice(spm.Live(), spm.rowptr[i], spm.rowptr[i + 1], spm.rowStart, spm.D());
      }
    }

    lemma {:induction false} AllLinesDone(live: seq<Element>, row: int, rs: nat, d: Dims, symmetric: bool)
      requires LinesDone(live, row, rs, d, symmetric)
      ensures Encoded() && NrValues(units) == valuesIdx == ValueCount(live) && valuesIdx <= values.Length
      ensures AllShaped(live) && Done() == AllCells(live, Horizontal, d)
      ensures symmetric ==> SidedSoFar(rs)
    {
      hide Encoded, Run, AllCells, ValueCount, SidedSoFar;
    }

    lemma {:induction false} CompilableFacts(spm: SparsePartition)
      requires Compilable(spm)
      ensures spm.elemsSize <= |spm.elems| && |spm.rowptr| >= 1 && spm.rowptr[0] == 0
      ensures spm.rowptr[|spm.rowptr| - 1] == spm.elemsSize && AllShaped(spm.Live()) && spm.ty == Horizontal
      ensures spm.Live()[..0] == [] && ValueCount(spm.Live()) == spm.nrNonzeros && |spm.rowptr| - 1 <= spm.nrRows
    {
      RowptrEnds(spm.rowptr, spm.Live());
    }

    lemma {:induction false} NothingSided(rs: nat)
      ensures units == [] && NrValues(units) <= values.Length ==> SidedSoFar(rs)
    {
    }

    /** Compiles a row-ordered partition, which works exactly when the table has room for the ids
        it needs. */
    method MakeCsx(spm: SparsePartition, symmetric: bool) returns (ok: bool, m: Csx, ghost blocks: seq<seq<Unit>>)
      requires Compilable(spm)
      requires symmetric ==> SidedElems(spm.Live(), spm.rowStart, spm.D())
      requires units == [] && bld.ctl == [] && patterns == map[] && flagAvail == 0 && !rowJmps && emptyRows == 0
      modifies this, bld
      ensures ok <==> |NeededIds(spm, symmetric)| <= MAX_PATTERNS
      ensures !ok ==> |patterns| == MAX_PATTERNS
      ensures ok ==> Encodes(m, units) && m.full == full && m.rowStart == spm.rowStart
      ensures ok ==> m.nrows == spm.nrRows && m.ncols == spm.nrCols
      ensures ok ==> Run(units, ORIGIN, m.values, full) == spm.CellsOf()
      ensures ok && symmetric ==> Sided(units, ORIGIN, m.values, full, m.rowStart, false)
      ensures ok ==> |m.rowsInfo| == m.nrows && TableOk(m.rowsInfo, blocks, units, full)
      ensures ok ==> forall i :: 0 <= i < |units| ==> units[i].pid in NeededIds(spm, symmetric)
    {
      hide AllCells, Run, EndPos, Bytes, Shaped, RowOk, Fits, RowSpan, WellFormed, Sorted, IsRowptr, StartsInBounds,
           SidedElems, Sided, Compilable, TableOk, LinesIds, LinesOf;
      CompilableFacts(spm);
      values := new real[spm.nrNonzeros];
      valuesIdx := 0;
      newRow := false;
      RunNothing();
      var rowsInfo;
      ok, rowsInfo, blocks := DoLines(spm, symmetric);
      assert old(Known()) + NeededIds(spm, symmetric) == NeededIds(spm, symmetric);
      if !ok {
        m := *;
        return;
      }
      var idMap := AddMappings();
      assert values[..valuesIdx] == values[..];
      m := Csx(bld.ctl, values[..], spm.rowStart, spm.nrRows, spm.nrCols, idMap, rowJmps, full, rowsInfo);
    }
  }
}
