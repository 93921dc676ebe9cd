/** A matrix whose rows have runs of different steps: how many rows the table of pattern ids
    has room for. */
module PatternTableGap {
  import opened Encodings
  import opened Cells
  import opened CtlCodec
  import opened Elements
  import opened PatternIds
  import opened CsxManager
  import opened SparsePartition
  import opened RowEncoder
  import opened EncodingManager
  import opened Thorough
  import opened CsxBuild
  import opened Partitions

  function Times(j: nat, k: nat): nat {
    if j == 1 then k else if j == 2 then 2 * k else if j == 3 then 3 * k else 4 * k
  }

  /** Row k has four ones, at the multiples of k. */
  function StepAt(i: nat): Coord { Coord(i / 4 + 1, Times(i % 4 + 1, i / 4 + 1)) }

  lemma {:induction false} StepBefore(i: nat, j: nat)
    requires i < j
    ensures Before(StepAt(i), StepAt(j))
  {
    var a, b := i / 4, j / 4;
    assert a <= b;
    if a == b {
      assert i % 4 < j % 4 < 4;
    }
  }

  lemma {:induction false} StepInside(n: nat, i: nat)
    requires i < 4 * n
    ensures 1 <= StepAt(i).row <= n && 1 <= StepAt(i).col <= 4 * n
  {
  }

  function Steps(n: nat): (cells: seq<Cell>)
    ensures |cells| == 4 * n
    ensures forall i :: 0 <= i < 4 * n ==> cells[i] == Cell(StepAt(i).row, StepAt(i).col, 1.0)
  {
    seq(4 * n, i requires 0 <= i < 4 * n => Cell(StepAt(i).row, StepAt(i).col, 1.0))
  }

  lemma {:induction false} StepsInput(n: nat)
    ensures Input(Steps(n), n, 4 * n)
  {
    hide StepAt, Steps;
    forall i | 0 <= i < 4 * n ensures 1 <= Steps(n)[i].row <= n && 1 <= Steps(n)[i].col <= 4 * n {
      StepInside(n, i);
    }
    forall i, j | 0 <= i < j < 4 * n
      ensures Before(Coord(Steps(n)[i].row, Steps(n)[i].col), Coord(Steps(n)[j].row, Steps(n)[j].col))
    {
      StepBefore(i, j);
      assert Coord(Steps(n)[i].row, Steps(n)[i].col) == StepAt(i)
        && Coord(Steps(n)[j].row, Steps(n)[j].col) == StepAt(j);
    }
  }

  /** The single elements of the matrix. */
  function StepElems(n: nat): (es: seq<Element>)
    ensures AllShaped(es) && |es| == 4 * n
    ensures forall i :: 0 <= i < 4 * n ==> es[i] == Single(StepAt(i).row, StepAt(i).col, 1.0)
  {
    seq(4 * n, i requires 0 <= i < 4 * n => Single(StepAt(i).row, StepAt(i).col, 1.0))
  }

  const FOUR: seq<real> := [1.0, 1.0, 1.0, 1.0]

  /** Every row as one substructure, each with a step of its own. */
  function StepRuns(n: nat): (es: seq<Element>)
    ensures AllShaped(es) && |es| == n
  {
    seq(n, i requires 0 <= i < n => Element(i + 1, i + 1, FOUR, Inst(Horizontal, i + 1)))
  }

  function StepTable(n: nat): seq<nat> { seq(n + 1, i requires 0 <= i < n + 1 => 4 * i) }

  lemma {:induction false} LineOfSteps(n: nat, i: nat)
    requires i < n
    ensures var k := i + 1;
            StepElems(n)[4 * i..4 * i + 4]
              == [Single(k, k, 1.0), Single(k, 2 * k, 1.0), Single(k, 3 * k, 1.0), Single(k, 4 * k, 1.0)]
  {
    hide StepElems;
    var line, k := StepElems(n)[4 * i..4 * i + 4], i + 1;
    forall j | 0 <= j < 4 ensures line[j] == Single(k, Times(j + 1, k), 1.0) {
      assert (4 * i + j) / 4 == i && (4 * i + j) % 4 == j;
    }
  }

  lemma {:induction false} StepLine(n: nat, i: nat, c: Config)
    requires i < n && Inst(Horizontal, i + 1) in c.insts && c.minLimit <= 4 <= c.maxLimit
    ensures var line := StepElems(n)[4 * i..4 * i + 4];
            RunLine(Horizontal, line, c) && RunOfLine(Horizontal, line) == StepRuns(n)[i]
  {
    hide StepElems;
    LineOfSteps(n, i);
    var line, k := StepElems(n)[4 * i..4 * i + 4], i + 1;
    assert ColsOf(line) == [k, 2 * k, 3 * k, 4 * k];
    assert ValsOf(line) == FOUR;
  }

  lemma {:induction false} StepLines(n: nat, c: Config)
    requires n >= 1 && (forall k :: 1 <= k <= n ==> Inst(Horizontal, k) in c.insts) && c.minLimit <= 4 <= c.maxLimit
    ensures LinesRun(Horizontal, StepElems(n), StepTable(n), c)
    ensures RunsOf(Horizontal, StepElems(n), StepTable(n), n) == StepRuns(n)
  {
    hide RunLine, RunOfLine, StepRuns;
    StepTableIs(n);
    hide StepElems;
    forall i | 0 <= i < n ensures RunLine(Horizontal, StepElems(n)[StepTable(n)[i]..StepTable(n)[i + 1]], c) {
      StepLine(n, i, c);
    }
    StepRunsOf(n, n, c);
    assert StepRuns(n)[..n] == StepRuns(n);
  }

  lemma {:induction false} StepTableIs(n: nat)
    requires n >= 1
    ensures IsRowptr(StepTable(n), StepElems(n)) && Tight(StepTable(n), StepElems(n))
  {
  }

  lemma {:induction false} StepRunsOf(n: nat, m: nat, c: Config)
    requires n >= 1 && m <= n && (forall k :: 1 <= k <= n ==> Inst(Horizontal, k) in c.insts)
    requires c.minLimit <= 4 <= c.maxLimit
    ensures IsRowptr(StepTable(n), StepElems(n))
    ensures RunsOf(Horizontal, StepElems(n), StepTable(n), m) == StepRuns(n)[..m]
  {
    hide RunLine, RunOfLine, StepElems, StepRuns, IsRowptr;
    StepTableIs(n);
    if m > 0 {
      StepRunsOf(n, m - 1, c);
      StepLine(n, m - 1, c);
      assert StepRuns(n)[..m] == StepRuns(n)[..m - 1] + [StepRuns(n)[m - 1]];
    }
  }

  /** Ids of the runs with the steps i + 1..n. */
  function StepPids(i: nat, n: nat): (ids: set<nat>)
    requires i <= n
    ensures |ids| == n - i && forall id :: id in ids ==> id > PATTERN_ID_OFFSET + i
    decreases n - i
  {
    if i == n then {} else {PATTERN_ID_OFFSET + i + 1} + StepPids(i + 1, n)
  }

  /** Row by row, a partition of such runs needs no other ids. */
  lemma {:induction false} StepRunIds(n: nat, i: nat, lines: seq<seq<Element>>)
    requires i <= n == |lines| && forall k :: 0 <= k < n ==> lines[k] == [StepRuns(n)[k]]
    ensures LinesShaped(lines[i..]) && LinesIds(lines[i..], false, 0) == StepPids(i, n)
    decreases n - i
  {
    if i < n {
      var e := StepRuns(n)[i];
      assert Shaped(e) && ElemPid(e) == PATTERN_ID_OFFSET + (i + 1);
      StepRunIds(n, i + 1, lines);
      assert lines[i..][1..] == lines[i + 1..] && lines[i..][0] == [e];
      assert [e][1..] == [] && ElemsIds([], []) == {};
      assert LineIds([e], false, 0) == {ElemPid(e)};
    }
  }

  /** The matrix as a single partition. */
  lemma {:induction false} StepsLoaded(spm: SparsePartition, n: nat)
    requires n >= 1 && IsPartition(spm, Steps(n), 0, 4 * n, 4 * n)
    ensures Loaded(spm) && spm.elemsSize <= |spm.elems| && spm.Live() == StepElems(n)
    ensures spm.rowStart == 0 && spm.nrNonzeros == 4 * n == spm.elemsSize && spm.nrCols == 4 * n
  {
    hide Steps, StepElems, StepAt;
    assert Steps(n)[0..4 * n] == Steps(n);
    assert Relative(Steps(n), 0) == StepElems(n);
  }

  /** The same with every row encoded. */
  lemma {:induction false} StepsNeeded(spm: SparsePartition, n: nat)
    requires 1 <= n < PATTERN_ID_OFFSET && Compilable(spm) && spm.rowStart == 0 && spm.elemsSize <= |spm.elems|
    requires spm.Live() == StepRuns(n) && IsRowptr(spm.rowptr, spm.Live()) && Tight(spm.rowptr, spm.Live())
    ensures NeededIds(spm, false) == StepPids(0, n)
  {
    hide Compilable, RowOk, StepPids;
    var rp := seq(n + 1, i => i);
    RowptrUnique(rp, spm.rowptr, StepRuns(n));
    var lines := LinesOf(spm);
    StepRunIds(n, 0, lines);
    assert lines[0..] == lines;
  }

  function StepDims(n: nat): (dims: set<nat>)
    ensures forall d :: d in dims <==> 1 <= d <= n
  {
    if n == 0 then {} else StepDims(n - 1) + {n}
  }

  /** Loads the matrix. */
  method LoadSteps(n: nat) returns (spm: SparsePartition)
    requires 1 <= n < PATTERN_ID_OFFSET
    ensures fresh(spm) && Loaded(spm) && spm.elemsSize <= |spm.elems| && spm.Live() == StepElems(n)
    ensures spm.rowStart == 0 && spm.nrCols == 4 * n && spm.elemsSize > 0
  {
    hide Loaded, StepElems, Steps, IsPartition;
    StepsInput(n);
    AllTaken(Steps(n), 1);
    var partitions, taken := BuildPartitions(Steps(n), 4 * n, n, 4 * n, 1);
    spm := partitions[0];
    StepsLoaded(spm, n);
  }

  lemma {:induction false} StepsAllowed(mgr: EncodingManager, n: nat)
    requires n < PATTERN_ID_OFFSET
    ensures mgr.StepOk(Horizontal, StepDims(n))
  {
  }

  lemma {:induction false} StepsAsked(mgr: EncodingManager, n: nat)
    requires mgr.encodedInst == set d | d in StepDims(n) :: Inst(Horizontal, d)
    ensures forall k :: 1 <= k <= n ==> Inst(Horizontal, k) in mgr.Cfg().insts
  {
    forall k | 1 <= k <= n ensures Inst(Horizontal, k) in mgr.encodedInst {
      assert k in StepDims(n);
    }
  }

  /** Encodes its rows with all the steps. */
  method EncodeRows(mgr: EncodingManager, n: nat)
    requires 1 <= n < PATTERN_ID_OFFSET && mgr.encodedInst == {} && mgr.minLimit == 4 && mgr.maxLimit == 255
    requires mgr.Minable() && mgr.spm.ty == Horizontal && mgr.spm.elemsSize > 0 && mgr.spm.Live() == StepElems(n)
    modifies mgr`encodedInst, mgr`xformsIgnore, mgr.spm`elems, mgr.spm`rowptr, mgr.spm`ty, mgr.spm`elemsSize
    ensures mgr.Minable() && mgr.spm.ty == Horizontal && mgr.spm.Live() == StepRuns(n)
  {
    hide StepElems, StepRuns, StepDims, LinesRun, RunsOf, Sort, Moved, AllCells, EncodingManager.Minable, AllShaped,
         EncodingManager.StepOk, StepWritten, WholeRuns;
    SortSorted(mgr.spm.Live(), Horizontal, mgr.spm.D());
    mgr.UsableNow();
    StepsAllowed(mgr, n);
    mgr.EncodeStep(Horizontal, StepDims(n));
    StepsAsked(mgr, n);
    StepLines(n, mgr.Cfg());
    WholeRunsAre(Horizontal, StepElems(n), Horizontal, mgr.spm.Live(), mgr.Cfg(), mgr.spm.D(), StepElems(n),
                 StepTable(n));
  }

  method EncodeSteps(n: nat) returns (spm: SparsePartition, mgr: EncodingManager)
    requires 1 <= n < PATTERN_ID_OFFSET
    ensures mgr.spm == spm && mgr.Minable() && spm.ty == Horizontal && spm.rowStart == 0 && spm.nrCols == 4 * n
    ensures spm.Live() == StepRuns(n)
  {
    hide Types, Loaded, StepElems, StepRuns, AllCells, EncodingManager.Minable;
    spm := LoadSteps(n);
    mgr := new EncodingManager(spm, 4, 255, false, false, false, []);
    LoadedMinable(mgr);
    LoadedFacts(spm);
    EncodeRows(mgr, n);
  }

  /** When every row is mined as a run of its own step, the table of pattern ids has room for
      62 rows and no more. */
  method RowsOfSteps(n: nat) returns (ok: bool)
    requires 1 <= n < PATTERN_ID_OFFSET
    ensures ok <==> n <= MAX_PATTERNS
  {
    hide StepRuns, StepPids, AllCells, Compilable, NeededIds, Tight, IsRowptr, EncodingManager.Minable;
    var spm, mgr := EncodeSteps(n);
    mgr.MinableTable();
    MinableCompilable(mgr);
    StepsNeeded(spm, n);
    var csxmg := new CsxManager(true);
    var m;
    ghost var blocks;
    ok, m, blocks := csxmg.MakeCsx(spm, false);
  }
}
