/** Building one compiled partition: mining, then lowering. */
module CsxBuild {
  import opened Encodings
  import opened Cells
  import opened Elements
  import opened CtlCodec
  import opened PatternIds
  import opened Rewriting
  import opened Sampling
  import opened Units
  import opened RowsInfo
  import opened CsxManager
  import opened SparsePartition
  import opened EncodingManager

  /** How building a partition ends. */
  datatype Outcome =
    | Built(m: Csx)
    | SampleBehindLastRow
    | PatternTableFull

  /** A partition as it is loaded: single elements in row-major order. */
  ghost predicate Loaded(spm: SparsePartition)
    reads spm
  {
    && spm.Valid() && spm.ty == Horizontal && Tight(spm.rowptr, spm.Live())
    && (forall i :: 0 <= i < spm.elemsSize ==> !spm.elems[i].IsPattern())
    && spm.nrNonzeros == spm.elemsSize
    && spm.nrCols <= MAX_INDEX
  }

  lemma {:induction false} CellsOfSingles(es: seq<Element>, t: Order, d: Dims)
    requires AllShaped(es) && forall i :: 0 <= i < |es| ==> !es[i].IsPattern()
    ensures |AllCells(es, t, d)| == |es|
  {
    if es != [] {
      CellsOfSingles(es[1..], t, d);
    }
  }

  lemma {:induction false} SinglesReadable(es: seq<Element>, t: Order, d: Dims)
    requires AllShaped(es) && forall i :: 0 <= i < |es| ==> !es[i].IsPattern()
    ensures AllFine(es) && Readable(es, t, d)
  {
    hide ToHoriz;
  }

  /** A loaded partition is ready for mining. */
  lemma {:induction false} LoadedMinable(mgr: EncodingManager)
    requires Loaded(mgr.spm)
    ensures mgr.Minable()
  {
    hide IsRowptr, Sorted, StartsInBounds, Tight, Readable, AllFine, AllCells, Shaped;
    var live := mgr.spm.Live();
    SinglesReadable(live, Horizontal, mgr.spm.D());
    CellsOfSingles(live, Horizontal, mgr.spm.D());
  }

  lemma {:induction false} CellsAreValues(es: seq<Element>, t: Order, d: Dims)
    requires AllShaped(es)
    ensures |AllCells(es, t, d)| == ValueCount(es)
    decreases |es|
  {
    if es != [] {
      var n := |es| - 1;
      hide AllCells, ElemCells;
      CellsAreValues(es[..n], t, d);
      assert es == es[..n] + [es[n]];
      AllCellsSnoc(es[..n], es[n], t, d);
      ElemCellsCount(es[n], t, d);
    } else {
      assert AllCells(es, t, d) == [];
    }
  }

  lemma {:induction false} ElemCellsCount(e: Element, t: Order, d: Dims)
    requires e.inst.ty.Valid()
    ensures |ElemCells(e, t, d)| == e.Size()
  {
  }

  /** One line of a mined partition can be lowered. */
  lemma {:induction false} LineRow(rp: seq<nat>, es: seq<Element>, i: nat, j: nat)
    requires IsRowptr(rp, es) && i + 1 < |rp| && rp[i] <= j < rp[i + 1]
    ensures j < |es| && es[j].row == i + 1
  {
  }

  lemma {:induction false} FineSize(e: Element)
    requires Fine(e)
    ensures e.Size() <= CTL_SIZE_MAX && e.inst.dim < PATTERN_ID_OFFSET
  {
  }

  /** Neighbours of one line do not overlap. */
  lemma {:induction false} LineApart(es: seq<Element>, d: Dims, j: nat)
    requires Sorted(es) && AllShaped(es) && AllFine(es) && Readable(es, Horizontal, d) && 0 < j < |es|
    ensures es[j - 1].row == es[j].row ==> LastCol(es[j - 1]) <= es[j].col
  {
    hide Readable, Shaped, Fine;
    ReadableIsApart(es, d);
    assert Before(EndAt(es[j - 1], Horizontal), es[j].At());
    assert Shaped(es[j - 1]);
    LastIsEnd(es[j - 1]);
  }

  lemma {:induction false} LineOk(es: seq<Element>, rp: seq<nat>, d: Dims, i: nat)
    requires IsRowptr(rp, es) && i + 1 < |rp|
    requires Sorted(es) && AllShaped(es) && AllFine(es) && StartsInBounds(es, Horizontal, d)
    requires Readable(es, Horizontal, d) && d.cols <= MAX_INDEX
    ensures rp[i] <= rp[i + 1] <= |es|
    ensures RowOk(es[rp[i]..rp[i + 1]], i + 1)
  {
    hide Readable, Shaped, Fine, Sorted, IsRowptr;
    RowptrEnds(rp, es);
    var lo, hi := rp[i], rp[i + 1];
    var line := es[lo..hi];
    forall k | 0 <= k < |line|
      ensures Shaped(line[k]) && line[k].row == i + 1 && 1 <= line[k].col <= MAX_INDEX
      ensures line[k].Size() <= CTL_SIZE_MAX && line[k].inst.dim < PATTERN_ID_OFFSET
    {
      assert line[k] == es[lo + k];
      LineRow(rp, es, i, lo + k);
      FineSize(es[lo + k]);
      assert InBounds(ToHoriz(Horizontal, es[lo + k].At(), d), d);
    }
    forall k | 0 < k < |line| ensures LastCol(line[k - 1]) <= line[k].col {
      LineApart(es, d, lo + k);
      LineRow(rp, es, i, lo + k - 1);
      LineRow(rp, es, i, lo + k);
    }
  }

  lemma {:induction false} LastIsEnd(e: Element)
    ensures EndAt(e, Horizontal) == Coord(e.row, LastCol(e))
  {
  }

  /** A mined partition in row-major order can be compiled. */
  lemma {:induction false} MinableCompilable(mgr: EncodingManager)
    requires mgr.Minable() && mgr.spm.ty == Horizontal && mgr.spm.nrCols <= MAX_INDEX
    ensures Compilable(mgr.spm)
  {
    hide Sorted, StartsInBounds, Readable, AllFine, AllCells, Shaped, RowOk;
    var spm := mgr.spm;
    var live, rp := spm.Live(), spm.rowptr;
    CellsAreValues(live, Horizontal, spm.D());
    LinesInMatrix(live, rp, spm.D());
    forall i | 0 <= i < |rp| - 1 ensures RowOk(spm.Line(i), i + 1) {
      LineOk(live, rp, spm.D(), i);
      assert spm.Line(i) == live[rp[i]..rp[i + 1]];
    }
  }

  lemma {:induction false} LinesInMatrix(es: seq<Element>, rp: seq<nat>, d: Dims)
    requires Tight(rp, es) && StartsInBounds(es, Horizontal, d) && d.rows >= 0 && |rp| >= 1
    ensures |rp| - 1 <= d.rows
  {
  }

  /** What is configured for mining: an explicit sequence of types and dimensions, or the
      types to choose from. */
  datatype Plan =
    | Explicit(seq_: seq<(Encoding, set<nat>)>)
    | Mine(types: seq<Encoding>)

  /** What the configuration guarantees. */
  ghost predicate PlanOk(plan: Plan, mgr: EncodingManager)
    reads mgr
  {
    match plan
    case Explicit(s) => forall k :: 0 <= k < |s| ==> mgr.StepOk(s[k].0, s[k].1)
    case Mine(ts) => forall k :: 0 <= k < |ts| ==> mgr.LongEnough(ts[k])
  }

  // ----- When mining and lowering succeed -----

  /** No window can start behind the last line, whatever the surveys say. */
  ghost predicate NoWindowMissed(plan: Plan, mgr: EncodingManager, cells: seq<Cell>) {
    plan.Mine? && mgr.samplingEnabled ==> AllAnchored(cells, (set t | t in plan.types), mgr.samples)
  }

  /** An instantiation mining may leave in a partition of single elements. */
  ghost predicate MayBuild(i: Instantiation, plan: Plan, surveys: nat -> Encoding -> Report, mgr: EncodingManager) {
    match plan
    case Explicit(s) => exists j :: EncodingManager.AskedFor(j, s) && Picked(i, mgr.CfgOf({j}))
    case Mine(ts) => i.ty in ts && exists n: nat :: mgr.Selectable(i, surveys(n))
  }

  ghost predicate BuildsWithin(insts: set<Instantiation>, plan: Plan, surveys: nat -> Encoding -> Report,
                               mgr: EncodingManager) {
    forall i :: i in insts ==> MayBuild(i, plan, surveys, mgr)
  }

  ghost predicate InRoom(room: set<Instantiation>, plan: Plan, surveys: nat -> Encoding -> Report,
                         mgr: EncodingManager) {
    forall i :: MayBuild(i, plan, surveys, mgr) ==> i in room
  }

  /** The table of pattern ids has room for all of them, and for the four of delta units. */
  ghost predicate RoomFor(plan: Plan, surveys: nat -> Encoding -> Report, mgr: EncodingManager) {
    exists room :: InRoom(room, plan, surveys, mgr) && |room| + 4 <= MAX_PATTERNS
  }

  lemma {:induction false} RoomForAll(insts: set<Instantiation>, plan: Plan, surveys: nat -> Encoding -> Report,
                                      mgr: EncodingManager)
    requires BuildsWithin(insts, plan, surveys, mgr) && RoomFor(plan, surveys, mgr)
    ensures |insts| + 4 <= MAX_PATTERNS
  {
    var room :| InRoom(room, plan, surveys, mgr) && |room| + 4 <= MAX_PATTERNS;
    FewerIn(insts, room);
  }

  /** An id is that of one instantiation only. */
  lemma {:induction false} SubIdOf(es: seq<Element>, i: Instantiation)
    requires AllShaped(es) && forall k :: 0 <= k < |es| ==> es[k].inst.dim < PATTERN_ID_OFFSET
    requires i.ty.Valid() && i.dim < PATTERN_ID_OFFSET
    ensures PatternId(i) in SubIds(es) <==> i in InstsOf(es)
  {
    if es != [] {
      SubIdOf(es[1..], i);
      InstsOfNext(es);
      ElemPidIs(es[0]);
      PatternIdDecodes(i);
      PatternIdDecodes(es[0].inst);
    }
  }

  lemma {:induction false} InstsOfNext(es: seq<Element>)
    requires es != []
    ensures InstsOf(es) == (if es[0].IsPattern() then {es[0].inst} else {}) + InstsOf(es[1..])
  {
    forall k | 0 < k < |es| && es[k].IsPattern() ensures es[k].inst in InstsOf(es[1..]) {
      assert es[k] == es[1..][k - 1];
    }
  }

  /** There are as many ids of substructures as instantiations. */
  lemma {:induction false} SubIdsCount(es: seq<Element>)
    requires AllShaped(es) && forall k :: 0 <= k < |es| ==> es[k].inst.dim < PATTERN_ID_OFFSET
    ensures |SubIds(es)| == |InstsOf(es)|
  {
    hide InstsOf, PatternId, ElemPid;
    if es != [] {
      SubIdsCount(es[1..]);
      InstsOfNext(es);
      if es[0].IsPattern() {
        var i := es[0].inst;
        ElemPidIs(es[0]);
        SubIdOf(es[1..], i);
        CountOneMore(PatternId(i), SubIds(es[1..]));
        CountOneMore(i, InstsOf(es[1..]));
      } else {
        assert SubIds(es) == SubIds(es[1..]) && InstsOf(es) == InstsOf(es[1..]);
      }
    } else {
      NoInsts();
    }
  }

  lemma {:induction false} NoInsts()
    ensures InstsOf([]) == {}
  {
  }

  lemma {:induction false} CountOneMore<T>(a: T, s: set<T>)
    ensures |{a} + s| == if a in s then |s| else |s| + 1
  {
    if a in s {
      assert {a} + s == s;
    }
  }

  /** What the number of instantiations says about the ids a partition needs. */
  lemma {:induction false} InstsDecide(spm: SparsePartition, symmetric: bool)
    requires Compilable(spm)
    ensures spm.elemsSize <= |spm.elems|
    ensures |InstsOf(spm.Live())| + 4 <= MAX_PATTERNS ==> |NeededIds(spm, symmetric)| <= MAX_PATTERNS
    ensures |InstsOf(spm.Live())| > MAX_PATTERNS ==> |NeededIds(spm, symmetric)| > MAX_PATTERNS
  {
    hide SubIds, InstsOf, NeededIds, LinesOf, RowOk;
    NeededIdsBounds(spm, symmetric);
    var lines := LinesOf(spm);
    JoinedLines(spm, 0);
    CompilableDims(spm);
    SubIdsCount(spm.Live());
  }

  lemma {:induction false} CompilableDims(spm: SparsePartition)
    requires Compilable(spm)
    ensures spm.elemsSize <= |spm.elems| && AllShaped(spm.Live())
    ensures forall k :: 0 <= k < |spm.Live()| ==> spm.Live()[k].inst.dim < PATTERN_ID_OFFSET
  {
    hide RowOk;
    forall k | 0 <= k < |spm.Live()| ensures spm.Live()[k].inst.dim < PATTERN_ID_OFFSET {
      var i := LineWith(spm.Live(), spm.rowptr, |spm.rowptr| - 1, k);
      assert RowOk(spm.Line(i), i + 1);
      assert spm.Live()[k] == spm.Line(i)[k - spm.rowptr[i]];
      InRowOk(spm.Line(i), i + 1, k - spm.rowptr[i]);
    }
  }

  lemma {:induction false} InRowOk(es: seq<Element>, row: int, k: nat)
    requires RowOk(es, row) && k < |es|
    ensures es[k].inst.dim < PATTERN_ID_OFFSET
  {
  }

  /** All dimensions the plan may leave are below 256. */
  ghost predicate NarrowPlan(plan: Plan, surveys: nat -> Encoding -> Report, mgr: EncodingManager) {
    forall i :: MayBuild(i, plan, surveys, mgr) ==> i.dim < 256
  }

  predicate NarrowPids(us: seq<Unit>) { forall k :: 0 <= k < |us| ==> PidDim(us[k].pid) < 256 }

  lemma {:induction false} NarrowIds(es: seq<Element>, id: nat)
    requires AllShaped(es) && (forall i :: i in InstsOf(es) ==> i.dim < 256) && id in SubIds(es)
    ensures PidDim(id) < 256
  {
    InstsOfNext(es);
    if es[0].IsPattern() && id == ElemPid(es[0]) {
      assert es[0].inst in InstsOf(es);
      ElemPidDecodes(es[0]);
    } else {
      NarrowIds(es[1..], id);
    }
  }

  /** Units of narrow substructures and delta units have narrow ids. */
  lemma {:induction false} NarrowUnits(spm: SparsePartition, us: seq<Unit>, plan: Plan,
                                       surveys: nat -> Encoding -> Report, mgr: EncodingManager)
    requires Compilable(spm) && spm.elemsSize <= |spm.elems| && BuildsWithin(InstsOf(spm.Live()), plan, surveys, mgr)
    requires forall i :: 0 <= i < |us| ==> us[i].pid in NeededIds(spm, false)
    ensures NarrowPlan(plan, surveys, mgr) ==> NarrowPids(us)
  {
    hide Compilable, NeededIds, SubIds, InstsOf, MayBuild;
    NeededIdsBounds(spm, false);
    forall i | 0 <= i < |us| && NarrowPlan(plan, surveys, mgr) ensures PidDim(us[i].pid) < 256 {
      if us[i].pid in SubIds(spm.Live()) {
        NarrowIds(spm.Live(), us[i].pid);
      }
    }
  }

  /** A loaded partition has no substructures. */
  lemma {:induction false} LoadedPlain(spm: SparsePartition)
    requires Loaded(spm)
    ensures spm.elemsSize <= |spm.elems| && InstsOf(spm.Live()) == {}
  {
  }

  lemma {:induction false} SerialBuilds(es: seq<Element>, s: seq<(Encoding, set<nat>)>,
                                        surveys: nat -> Encoding -> Report, mgr: EncodingManager)
    requires EncodingManager.OnlyFrom(es, {}, mgr.Cfg())
    requires forall i :: i in mgr.encodedInst ==> EncodingManager.AskedFor(i, s)
    ensures BuildsWithin(InstsOf(es), Explicit(s), surveys, mgr)
  {
    hide EncodingManager.AskedFor;
    forall i | i in InstsOf(es) ensures MayBuild(i, Explicit(s), surveys, mgr) {
      assert Picked(i, mgr.Cfg());
      if i in mgr.encodedInst {
        assert Picked(i, mgr.CfgOf({i}));
      } else {
        var j :| j in mgr.encodedInst && j.ty == i.ty;
        assert Picked(i, mgr.CfgOf({j}));
      }
    }
  }

  lemma {:induction false} MiningBuilds(insts: set<Instantiation>, ts: seq<Encoding>,
                                        surveys: nat -> Encoding -> Report, mgr: EncodingManager,
                                        ignored: set<Encoding>)
    requires forall i :: i in insts ==> mgr.MayLeave(i, {}, surveys, ignored)
    requires forall t :: t in Types(NR_TYPES) && t !in ignored ==> t in ts
    ensures BuildsWithin(insts, Mine(ts), surveys, mgr)
  {
    hide EncodingManager.Selectable, Types;
    forall i | i in insts ensures MayBuild(i, Mine(ts), surveys, mgr) {
      assert mgr.MayLeave(i, {}, surveys, ignored);
    }
  }

  /** Windows anchored for the types of the plan are anchored for those mining chooses from. */
  lemma {:induction false} PlanAnchors(ts: seq<Encoding>, mgr: EncodingManager, cells: seq<Cell>,
                                       ignored: set<Encoding>)
    requires NoWindowMissed(Mine(ts), mgr, cells) && mgr.samplingEnabled
    requires forall t :: t in Types(NR_TYPES) && t !in ignored ==> t in ts
    ensures AllAnchored(cells, EncodingManager.MinedTypes({}, ignored), mgr.samples)
  {
    hide Types, AllAnchored;
    FewerTypes(cells, EncodingManager.MinedTypes({}, ignored), (set t | t in ts), mgr.samples);
  }

  /** The mining half of PreprocessThread: it leaves the partition in row-major order, with
      the cells it had.  It succeeds when no window can start behind the last line. */
  method Mining(mgr: EncodingManager, plan: Plan, surveys: nat -> Encoding -> Report) returns (ok: bool)
    requires mgr.Minable() && mgr.spm.ty == Horizontal && mgr.LimitsOk() && PlanOk(plan, mgr)
    requires mgr.encodedInst == {} && mgr.xformsIgnore == Types(NR_TYPES)
    requires forall n: nat :: mgr.SurveyOk(surveys(n))
    modifies mgr, mgr.spm`elems, mgr.spm`rowptr, mgr.spm`ty, mgr.spm`elemsSize
    ensures mgr.Minable() && multiset(mgr.spm.CellsOf()) == multiset(old(mgr.spm.CellsOf()))
    ensures ok ==> mgr.spm.ty == Horizontal
    ensures !ok ==> mgr.samplingEnabled && plan.Mine?
    ensures old(InstsOf(mgr.spm.Live())) == {} && NoWindowMissed(plan, mgr, old(mgr.spm.CellsOf())) ==> ok
    ensures old(InstsOf(mgr.spm.Live())) == {} ==> BuildsWithin(InstsOf(mgr.spm.Live()), plan, surveys, mgr)
  {
    hide AllCells, EncodingManager.Minable, EncodingManager.LongEnough, Types, InstsOf, BuildsWithin, NoWindowMissed,
         AllAnchored, EncodingManager.MinedTypes, EncodingManager.MayLeave, EncodingManager.OnlyFrom,
         EncodingManager.AskedFor, EncodingManager.MissesWindow, Misses;
    match plan {
      case Explicit(s) =>
        ghost var trail := mgr.EncodeSerial(s);
        ok := true;
        if old(InstsOf(mgr.spm.Live())) == {} {
          SerialBuilds(mgr.spm.Live(), s, surveys, mgr);
        }
      case Mine(ts) =>
        for k := 0 to |ts|
          modifies mgr
          invariant forall t :: t in Types(NR_TYPES) && t !in mgr.xformsIgnore ==> mgr.LongEnough(t) && t in ts
        {
          mgr.RemoveIgnore(ts[k]);
        }
        ghost var ignored, cells, plain := mgr.xformsIgnore, mgr.spm.CellsOf(), InstsOf(mgr.spm.Live()) == {};
        var encSeq;
        ghost var rows;
        ok, encSeq, rows := mgr.EncodeAll(surveys);
        if plain {
          MiningBuilds(InstsOf(mgr.spm.Live()), ts, surveys, mgr, ignored);
          if NoWindowMissed(plan, mgr, cells) && mgr.samplingEnabled {
            PlanAnchors(ts, mgr, cells, ignored);
          }
        }
    }
  }

  /** Mines and compiles one partition.  When that succeeds, the units it writes denote the
      cells the partition was loaded with, and the bytes are those of the units.  It succeeds
      exactly when mining does and the ids of what mining leaves fit into the table. */
  method PreprocessThread(spm: SparsePartition, mgr: EncodingManager, plan: Plan, surveys: nat -> Encoding -> Report,
                          full: bool)
    returns (outcome: Outcome, ghost us: seq<Unit>, ghost blocks: seq<seq<Unit>>)
    requires Loaded(spm) && mgr.spm == spm && mgr.LimitsOk() && PlanOk(plan, mgr)
    requires mgr.encodedInst == {} && mgr.xformsIgnore == Types(NR_TYPES)
    requires forall n: nat :: mgr.SurveyOk(surveys(n))
    modifies mgr, spm`elems, spm`rowptr, spm`ty, spm`elemsSize
    ensures outcome.Built? ==>
      var m := outcome.m;
      Encodes(m, us) && m.full == full && m.rowStart == spm.rowStart && m.nrows == spm.nrRows && m.ncols == spm.nrCols
      && multiset(Run(us, ORIGIN, m.values, full)) == multiset(old(spm.CellsOf()))
      && TableOk(m.rowsInfo, blocks, us, full) && |m.rowsInfo| == m.nrows
    ensures outcome.SampleBehindLastRow? ==> mgr.samplingEnabled && plan.Mine?
    ensures !outcome.SampleBehindLastRow? ==>
      Compilable(spm) && (outcome.Built? <==> |NeededIds(spm, false)| <= MAX_PATTERNS)
      && spm.elemsSize <= |spm.elems| && BuildsWithin(InstsOf(spm.Live()), plan, surveys, mgr)
    ensures outcome.Built? ==> forall i :: 0 <= i < |us| ==> us[i].pid in NeededIds(spm, false)
    ensures outcome.Built? && NarrowPlan(plan, surveys, mgr) ==> NarrowPids(us)
    ensures NoWindowMissed(plan, mgr, old(spm.CellsOf())) ==> !outcome.SampleBehindLastRow?
    ensures RoomFor(plan, surveys, mgr) ==> !outcome.PatternTableFull?
  {
    hide Compilable, AllCells, Run, Encodes, EncodingManager.Minable, EncodingManager.SurveyOk, PlanOk, Types,
         AllShaped, TableOk, InstsOf, BuildsWithin, NoWindowMissed, NeededIds, RoomFor;
    LoadedFacts(spm);
    LoadedPlain(spm);
    LoadedMinable(mgr);
    us, blocks := [], [];
    var ok := Mining(mgr, plan, surveys);
    if !ok {
      return SampleBehindLastRow, us, blocks;
    }
    MinableCompilable(mgr);
    InstsDecide(spm, false);
    if RoomFor(plan, surveys, mgr) {
      RoomForAll(InstsOf(spm.Live()), plan, surveys, mgr);
    }
    var csxmg := new CsxManager(full);
    var m;
    ok, m, blocks := csxmg.MakeCsx(spm, false);
    if !ok {
      return PatternTableFull, us, blocks;
    }
    us := csxmg.units;
    NarrowUnits(spm, us, plan, surveys, mgr);
    outcome := Built(m);
  }

  lemma {:induction false} LoadedFacts(spm: SparsePartition)
    requires Loaded(spm)
    ensures spm.ty == Horizontal && spm.nrCols <= MAX_INDEX && spm.elemsSize <= |spm.elems| && AllShaped(spm.Live())
  {
  }
}
