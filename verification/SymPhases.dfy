/** The three parts of a symmetric product, under every interleaving of the threads. */
module SymPhases {
  import opened Cells
  import opened Interleaving
  import opened ReductionMap
  import opened StoreLog
  import opened SymKernels
  import opened ThreadSteps

  /** The share of a thread: its rows rs + 1..rs + nrows, their cells below the diagonal and
      their diagonal. */
  datatype Thread = Thread(rs: nat, nrows: nat, cells: seq<Cell>, dvals: seq<real>)

  predicate ThreadOk(t: Thread, n: nat) {
    Within(t.cells, t.rs, t.rs + t.nrows) && |t.dvals| == t.nrows >= 1 && t.rs + t.nrows <= n
  }

  /** Threads have different rows, and the first thread the first ones. */
  predicate ThreadsOk(ts: seq<Thread>, n: nat) {
    && |ts| >= 1 && ts[0].rs == 0
    && (forall i :: 0 <= i < |ts| ==> ThreadOk(ts[i], n))
    && (forall i, j :: 0 <= i < j < |ts| ==> ts[i].rs + ts[i].nrows <= ts[j].rs)
  }

  /** What the reduction map is made from. */
  function PartOf(t: Thread, n: nat): Part
    requires ThreadOk(t, n)
  {
    Part(t.rs, seq(|t.cells|, k requires 0 <= k < |t.cells| => t.cells[k].col))
  }

  function PartsOf(ts: seq<Thread>, n: nat): (ps: seq<Part>)
    requires ThreadsOk(ts, n)
    ensures |ps| == |ts|
  {
    seq(|ts|, i requires 0 <= i < |ts| => PartOf(ts[i], n))
  }

  // ----- The programs of the threads -----

  predicate MapOk(m: Map) { |m.cpus| == |m.pos| }

  /** VecInitFromMap: the entries of the map get one value. */
  function InitOps(m: Map, val: real): (ops: seq<Op>)
    requires MapOk(m)
    ensures |ops| == |m.cpus|
  {
    seq(|m.cpus|, k requires 0 <= k < |m.cpus| => Set(Addr(m.cpus[k], m.pos[k]), val))
  }

  function ClearOps(m: Map): (ops: seq<Op>)
    requires MapOk(m)
    ensures |ops| == |m.cpus|
  {
    InitOps(m, 0.0)
  }

  /** VecAddFromMap: the entries of the map are added to the vector, which is buffer 0. */
  function GatherOps(m: Map): (ops: seq<Op>)
    requires MapOk(m)
    ensures |ops| == |m.cpus|
  {
    seq(|m.cpus|, k requires 0 <= k < |m.cpus| => Gather(Addr(0, m.pos[k]), Addr(m.cpus[k], m.pos[k])))
  }

  function KernelOps(t: Thread, id: nat, n: nat, beta: real, stores: seq<Store>): seq<Op> {
    (if beta == 1.0 then [] else ScaleOps(t.rs, t.rs + t.nrows, beta)) + StoreOps(id, n, stores)
  }

  /** The cells below the diagonal, their mirror images where the thread stores them, and the
      diagonal. */
  function KernelCells(t: Thread, n: nat): seq<Cell> { AllPairs(t.cells, t.rs, n) + DiagFrom(t.dvals, t.rs + 1) }

  /** What the thread adds to a row of its memory. */
  function KernelDot(t: Thread, n: nat, row: int, x: seq<real>, alpha: real): real {
    if ColsWithin(KernelCells(t, n), |x|) then Dot(KernelCells(t, n), row, x, alpha) else 0.0
  }

  function MemSize(id: nat, n: nat): nat { if id == 0 then n else 2 * n }

  /** The stores of thread `id` go to its own entries, and add up to its products. */
  ghost predicate StoresOf(stores: seq<Store>, id: nat, t: Thread, n: nat, x: seq<real>, alpha: real) {
    && (id == 0 ==> t.rs == 0)
    && (forall k :: 0 <= k < |stores| ==> Owned(stores[k].at, t.rs, t.rs + t.nrows, n))
    && (forall at: nat :: at < MemSize(id, n) ==> Amount(stores, at) == KernelDot(t, n, at + 1, x, alpha))
  }

  // ----- What a thread does on its own -----

  /** A row of the thread after it has scaled and multiplied. */
  lemma {:induction false} KernelRow(m: Memory, t: Thread, id: nat, n: nat, beta: real, stores: seq<Store>, r: nat,
                                     x: seq<real>, alpha: real)
    requires ThreadOk(t, n) && StoresOf(stores, id, t, n, x, alpha) && Has(m, Addr(0, r)) && t.rs <= r < t.rs + t.nrows
    ensures At(Alone(m, KernelOps(t, id, n, beta, stores)), Addr(0, r))
         == Prod(At(m, Addr(0, r)), beta) + KernelDot(t, n, r + 1, x, alpha)
  {
    hide At, Has, Alone, ScaleOps, StoreOps, Amount, KernelDot, Within;
    var scale := if beta == 1.0 then [] else ScaleOps(t.rs, t.rs + t.nrows, beta);
    var a := Addr(0, r);
    AloneConcat(m, scale, StoreOps(id, n, stores));
    AloneHas(m, scale, a);
    ScaledOrNot(m, t.rs, t.rs + t.nrows, beta, a);
    StoresAlone(Alone(m, scale), id, n, stores, r);
    assert r < MemSize(id, n);
  }

  /** An entry of the local buffer after the thread has multiplied. */
  lemma {:induction false} KernelLocal(m: Memory, t: Thread, id: nat, n: nat, beta: real, stores: seq<Store>, c: nat,
                                       x: seq<real>, alpha: real)
    requires ThreadOk(t, n) && StoresOf(stores, id, t, n, x, alpha) && id > 0 && c < n && Has(m, Addr(id, c))
    ensures At(Alone(m, KernelOps(t, id, n, beta, stores)), Addr(id, c))
         == At(m, Addr(id, c)) + KernelDot(t, n, n + c + 1, x, alpha)
  {
    hide At, Has, Alone, ScaleOps, StoreOps, Amount, KernelDot, Within;
    var scale := if beta == 1.0 then [] else ScaleOps(t.rs, t.rs + t.nrows, beta);
    var a := Addr(id, c);
    AloneConcat(m, scale, StoreOps(id, n, stores));
    AloneHas(m, scale, a);
    ScaledOrNot(m, t.rs, t.rs + t.nrows, beta, a);
    StoresAlone(Alone(m, scale), id, n, stores, n + c);
    assert n + c < MemSize(id, n);
  }

  // ----- Who writes what -----

  lemma {:induction false} OccursIn(es: seq<(nat, int)>, e: (nat, int))
    ensures Occurs(es, e) > 0 <==> e in es
  {
    if es != [] {
      OccursIn(es[..|es| - 1], e);
      assert es == es[..|es| - 1] + [es[|es| - 1]];
    }
  }

  /** The entries of a thread's map are the marked ones of its columns. */
  lemma {:induction false} EntriesAre(parts: seq<Part>, lo: nat, hi: nat, e: (nat, int))
    requires lo <= hi
    ensures e in EntriesIn(parts, lo, hi) <==> lo <= e.1 + 1 < hi && Marked(parts, e.0, e.1 + 1)
  {
    hide Marked, EntriesIn, Occurs;
    OnceInRange(parts, lo, hi, e);
    OccursIn(EntriesIn(parts, lo, hi), e);
  }

  lemma {:induction false} MapEntry(m: Map, es: seq<(nat, int)>, k: nat)
    requires MapIs(m, es) && k < |es|
    ensures (m.cpus[k], m.pos[k]) in es && es[k] == (m.cpus[k], m.pos[k])
  {
    assert es[k] in es;
  }

  /** Each thread's map is known. */
  predicate MapsOk(parts: seq<Part>, maps: seq<Map>, ends: seq<nat>, n: nat) {
    |maps| == |parts| >= 1 && Divided(parts, maps, ends) && ends[|parts|] == n && parts[0].start == 0
  }

  lemma {:induction false} MapsMapOk(parts: seq<Part>, maps: seq<Map>, ends: seq<nat>, n: nat)
    requires MapsOk(parts, maps, ends, n)
    ensures forall i :: 0 <= i < |maps| ==> MapOk(maps[i])
  {
    hide EntriesIn;
    forall i | 0 <= i < |maps| ensures MapOk(maps[i]) {
      assert MapIs(maps[i], EntriesIn(parts, ends[i], ends[i + 1]));
    }
  }

  /** The first thread has no local buffer. */
  lemma {:induction false} MarkedLater(parts: seq<Part>, i: nat, col: nat)
    requires |parts| >= 1 && parts[0].start == 0 && Marked(parts, i, col)
    ensures i > 0 && 1 <= col
  {
  }

  lemma {:induction false} ClearWrites(parts: seq<Part>, maps: seq<Map>, ends: seq<nat>, n: nat, w: nat, a: Addr)
    requires MapsOk(parts, maps, ends, n) && w < |maps| && MapOk(maps[w])
    ensures WrittenBy(ClearOps(maps[w]), a) <==> ends[w] <= a.pos + 1 < ends[w + 1] && Marked(parts, a.vec, a.pos + 1)
    ensures TouchedBy(ClearOps(maps[w]), a) ==> WrittenBy(ClearOps(maps[w]), a)
  {
    hide Marked, EntriesIn;
    var ops, es := ClearOps(maps[w]), EntriesIn(parts, ends[w], ends[w + 1]);
    EntriesAre(parts, ends[w], ends[w + 1], (a.vec, a.pos));
    if WrittenBy(ops, a) {
      var q :| 0 <= q < |ops| && ops[q].at == a;
      MapEntry(maps[w], es, q);
    }
    if (a.vec, a.pos) in es {
      var q :| 0 <= q < |es| && es[q] == (a.vec, a.pos);
      assert ops[q].at == a;
    }
  }

  lemma {:induction false} GatherWrites(parts: seq<Part>, maps: seq<Map>, ends: seq<nat>, n: nat, w: nat, a: Addr)
    requires MapsOk(parts, maps, ends, n) && w < |maps| && MapOk(maps[w])
    ensures WrittenBy(GatherOps(maps[w]), a) ==> ends[w] <= a.pos + 1 < ends[w + 1] && a.vec == 0
    ensures TouchedBy(GatherOps(maps[w]), a) ==> ends[w] <= a.pos + 1 < ends[w + 1]
  {
    hide Marked, EntriesIn;
    var ops, es := GatherOps(maps[w]), EntriesIn(parts, ends[w], ends[w + 1]);
    if TouchedBy(ops, a) {
      var q :| 0 <= q < |ops| && Touches(ops[q], a);
      MapEntry(maps[w], es, q);
      EntriesAre(parts, ends[w], ends[w + 1], es[q]);
    }
    WrittenTouched(ops, a);
  }

  lemma {:induction false} OneOwner(parts: seq<Part>, maps: seq<Map>, ends: seq<nat>, i: nat, j: nat, col: nat)
    requires Divided(parts, maps, ends) && i < |maps| && j < |maps|
    requires ends[i] <= col < ends[i + 1] && ends[j] <= col < ends[j + 1]
    ensures i == j
  {
    hide MapIs;
    if i < j {
      EndsGrow(parts, maps, ends, i + 1, j);
    } else if j < i {
      EndsGrow(parts, maps, ends, j + 1, i);
    }
  }

  /** Addresses a thread may use while it multiplies. */
  predicate OwnAddr(t: Thread, id: nat, a: Addr) {
    if a.vec == 0 then t.rs <= a.pos < t.rs + t.nrows else a.vec == id
  }

  lemma {:induction false} KernelTouches(t: Thread, id: nat, n: nat, beta: real, stores: seq<Store>, x: seq<real>,
                                         alpha: real, a: Addr)
    requires ThreadOk(t, n) && StoresOf(stores, id, t, n, x, alpha)
    ensures TouchedBy(KernelOps(t, id, n, beta, stores), a) ==> OwnAddr(t, id, a)
  {
    hide Amount, KernelDot, Within;
    var ops := KernelOps(t, id, n, beta, stores);
    if TouchedBy(ops, a) {
      var q :| 0 <= q < |ops| && Touches(ops[q], a);
      var k := |ops| - |stores|;
      if q >= k {
        assert ops[q] == StoreOp(id, n, stores[q - k]);
        assert Owned(stores[q - k].at, t.rs, t.rs + t.nrows, n);
      } else {
        assert ops[q] == ScaleOps(t.rs, t.rs + t.nrows, beta)[q];
      }
    }
  }

  lemma {:induction false} OwnersApart(ts: seq<Thread>, n: nat, i: nat, j: nat, a: Addr)
    requires ThreadsOk(ts, n) && i < |ts| && j < |ts| && OwnAddr(ts[i], i, a) && OwnAddr(ts[j], j, a)
    ensures i == j
  {
  }

  // ----- What the pairs stand for -----

  /** The mirror images of the cells. */
  function Mirrored(cs: seq<Cell>): (ms: seq<Cell>)
    ensures |ms| == |cs|
  {
    seq(|cs|, k requires 0 <= k < |cs| => Mirror(cs[k], 0))
  }

  /** L + L^T + D for the rows of one thread. */
  function Symmetric(t: Thread): seq<Cell> { t.cells + Mirrored(t.cells) + DiagFrom(t.dvals, t.rs + 1) }

  /** L + L^T + D. */
  function Whole(ts: seq<Thread>): seq<Cell> {
    if ts == [] then [] else Whole(ts[..|ts| - 1]) + Symmetric(ts[|ts| - 1])
  }

  lemma {:induction false} PairsColsWithin(t: Thread, n: nat)
    requires ThreadOk(t, n)
    ensures ColsWithin(AllPairs(t.cells, t.rs, n), n) && ColsWithin(DiagFrom(t.dvals, t.rs + 1), n)
    ensures ColsWithin(KernelCells(t, n), n) && ColsWithin(t.cells, n) && ColsWithin(Mirrored(t.cells), n)
    ensures ColsWithin(Symmetric(t), n)
  {
  }

  lemma {:induction false} WholeCols(ts: seq<Thread>, n: nat)
    requires forall i :: 0 <= i < |ts| ==> ThreadOk(ts[i], n)
    ensures ColsWithin(Whole(ts), n)
  {
    if ts != [] {
      hide ThreadOk, Symmetric;
      WholeCols(ts[..|ts| - 1], n);
      PairsColsWithin(ts[|ts| - 1], n);
      ColsConcat(Whole(ts[..|ts| - 1]), Symmetric(ts[|ts| - 1]), n);
    }
  }

  /** A mirror image is counted in the vector or in the local buffer. */
  lemma {:induction false} PairsDot(cs: seq<Cell>, rs: nat, hi: nat, n: nat, row: nat, x: seq<real>, alpha: real)
    requires Within(cs, rs, hi) && hi <= n == |x| && 1 <= row <= n
    ensures ColsWithin(AllPairs(cs, rs, n), n) && ColsWithin(cs, n) && ColsWithin(Mirrored(cs), n)
    ensures Dot(AllPairs(cs, rs, n), row, x, alpha) + Dot(AllPairs(cs, rs, n), n + row, x, alpha)
         == Dot(cs, row, x, alpha) + Dot(Mirrored(cs), row, x, alpha)
  {
    if cs != [] {
      hide Term;
      var c, ps := cs[0], AllPairs(cs, rs, n);
      assert AllPairs(cs[1..], rs, n) == ps[2..];
      assert Mirrored(cs[1..]) == Mirrored(cs)[1..];
      PairsDot(cs[1..], rs, hi, n, row, x, alpha);
      assert ps[1..][1..] == ps[2..] && ps[1..][0] == MirrorOf(c, rs, n);
      TermMirror(c, rs, n, x, alpha);
    }
  }

  lemma {:induction false} TermMirror(c: Cell, rs: nat, n: nat, x: seq<real>, alpha: real)
    requires 1 <= c.row <= |x|
    ensures Term(MirrorOf(c, rs, n), x, alpha) == Term(Mirror(c, 0), x, alpha)
  {
  }

  /** What a thread adds to a row, in the vector and in its local buffer, is its part of the
      product. */
  lemma {:induction false} ThreadDot(t: Thread, n: nat, row: nat, x: seq<real>, alpha: real)
    requires ThreadOk(t, n) && |x| == n && 1 <= row <= n
    ensures ColsWithin(Symmetric(t), n)
    ensures KernelDot(t, n, row, x, alpha) + KernelDot(t, n, n + row, x, alpha) == Dot(Symmetric(t), row, x, alpha)
  {
    hide Dot, AllPairs, DiagFrom, Mirrored, ColsWithin;
    var pairs, diag := AllPairs(t.cells, t.rs, n), DiagFrom(t.dvals, t.rs + 1);
    PairsColsWithin(t, n);
    PairsDot(t.cells, t.rs, t.rs + t.nrows, n, row, x, alpha);
    DotConcat(pairs, diag, row, x, alpha);
    DotConcat(pairs, diag, n + row, x, alpha);
    DotConcat(t.cells + Mirrored(t.cells), diag, row, x, alpha);
    DotConcat(t.cells, Mirrored(t.cells), row, x, alpha);
    DiagRows(t.dvals, t.rs + 1, n);
    DotOutside(diag, n + row, x, alpha);
  }

  lemma {:induction false} DiagRows(dvs: seq<real>, row: nat, n: nat)
    requires row + |dvs| <= n + 1
    ensures forall i :: 0 <= i < |DiagFrom(dvs, row)| ==> row <= DiagFrom(dvs, row)[i].row < row + |dvs|
  {
  }

  /** A thread adds nothing to rows of other threads. */
  lemma {:induction false} OtherRows(t: Thread, n: nat, r: nat, x: seq<real>, alpha: real)
    requires ThreadOk(t, n) && |x| == n && r < n && !(t.rs <= r < t.rs + t.nrows)
    ensures KernelDot(t, n, r + 1, x, alpha) == 0.0
  {
    var cs := KernelCells(t, n);
    PairsColsWithin(t, n);
    forall i | 0 <= i < |cs| ensures cs[i].row != r + 1 {
      if i < 2 * |t.cells| {
        assert cs[i] == AllPairs(t.cells, t.rs, n)[i];
      } else {
        assert cs[i] == DiagFrom(t.dvals, t.rs + 1)[i - 2 * |t.cells|];
      }
    }
    DotOutside(cs, r + 1, x, alpha);
  }

  lemma {:induction false} FarMarked(ts: seq<Thread>, n: nat, i: nat, c: nat, k: nat)
    requires ThreadsOk(ts, n) && i < |ts| && c < n && k < 2 * |ts[i].cells|
    requires AllPairs(ts[i].cells, ts[i].rs, n)[k].row == n + c + 1
    ensures Marked(PartsOf(ts, n), i, c + 1)
  {
    var t := ts[i];
    assert PartOf(t, n).cols[k / 2] == t.cells[k / 2].col;
  }

  /** A thread adds nothing to unmarked entries of its local buffer. */
  lemma {:induction false} Unmarked(ts: seq<Thread>, n: nat, i: nat, c: nat, x: seq<real>, alpha: real)
    requires ThreadsOk(ts, n) && i < |ts| && |x| == n && c < n && !Marked(PartsOf(ts, n), i, c + 1)
    ensures KernelDot(ts[i], n, n + c + 1, x, alpha) == 0.0
  {
    hide Marked, AllPairs, DiagFrom, PartsOf, Within;
    var t := ts[i];
    var pairs, diag := AllPairs(t.cells, t.rs, n), DiagFrom(t.dvals, t.rs + 1);
    PairsColsWithin(t, n);
    DiagRows(t.dvals, t.rs + 1, n);
    var cs: seq<Cell> := pairs + diag;
    forall k | 0 <= k < |cs| ensures cs[k].row != n + c + 1 {
      if k < 2 * |t.cells| && pairs[k].row == n + c + 1 {
        FarMarked(ts, n, i, c, k);
        assert false;
      }
    }
    DotOutside(cs, n + c + 1, x, alpha);
  }

  // ----- The parts of the job -----

  predicate MemoryOk(m: Memory, nthreads: nat, n: nat) {
    forall i, c :: 0 <= i < nthreads && 0 <= c < n ==> Has(m, Addr(i, c))
  }

  function ClearProgs(maps: seq<Map>): (ps: seq<seq<Op>>)
    requires forall i :: 0 <= i < |maps| ==> MapOk(maps[i])
    ensures |ps| == |maps|
  {
    seq(|maps|, i requires 0 <= i < |maps| => ClearOps(maps[i]))
  }

  function KernelProgs(ts: seq<Thread>, n: nat, beta: real, stores: seq<seq<Store>>): (ps: seq<seq<Op>>)
    requires |stores| == |ts|
    ensures |ps| == |ts|
  {
    seq(|ts|, i requires 0 <= i < |ts| => KernelOps(ts[i], i, n, beta, stores[i]))
  }

  function GatherProgs(maps: seq<Map>): (ps: seq<seq<Op>>)
    requires forall i :: 0 <= i < |maps| ==> MapOk(maps[i])
    ensures |ps| == |maps|
  {
    seq(|maps|, i requires 0 <= i < |maps| => GatherOps(maps[i]))
  }

  lemma {:induction false} ClearApart(parts: seq<Part>, maps: seq<Map>, ends: seq<nat>, n: nat)
    requires MapsOk(parts, maps, ends, n) && forall i :: 0 <= i < |maps| ==> MapOk(maps[i])
    ensures Apart(ClearProgs(maps))
  {
    hide TouchedBy, WrittenBy, Marked, MapsOk, Divided, ClearOps;
    var progs := ClearProgs(maps);
    forall i, j, a | 0 <= i < |progs| && 0 <= j < |progs| && i != j && TouchedBy(progs[i], a)
      ensures !WrittenBy(progs[j], a)
    {
      ClearOwners(parts, maps, ends, n, i, j, a);
    }
  }

  lemma {:induction false} ClearOwners(parts: seq<Part>, maps: seq<Map>, ends: seq<nat>, n: nat, i: nat, j: nat,
                                       a: Addr)
    requires MapsOk(parts, maps, ends, n) && i < |maps| && j < |maps| && i != j && MapOk(maps[i]) && MapOk(maps[j])
    ensures !(TouchedBy(ClearOps(maps[i]), a) && WrittenBy(ClearOps(maps[j]), a))
  {
    hide TouchedBy, WrittenBy, Marked, MapIs, Divided;
    ClearWrites(parts, maps, ends, n, i, a);
    ClearWrites(parts, maps, ends, n, j, a);
    if TouchedBy(ClearOps(maps[i]), a) && WrittenBy(ClearOps(maps[j]), a) {
      OneOwner(parts, maps, ends, i, j, a.pos + 1);
    }
  }

  lemma {:induction false} GatherApart(parts: seq<Part>, maps: seq<Map>, ends: seq<nat>, n: nat)
    requires MapsOk(parts, maps, ends, n) && forall i :: 0 <= i < |maps| ==> MapOk(maps[i])
    ensures Apart(GatherProgs(maps))
  {
    hide TouchedBy, WrittenBy, Marked, MapsOk, Divided, GatherOps;
    var progs := GatherProgs(maps);
    forall i, j, a | 0 <= i < |progs| && 0 <= j < |progs| && i != j && TouchedBy(progs[i], a)
      ensures !WrittenBy(progs[j], a)
    {
      GatherOwners(parts, maps, ends, n, i, j, a);
    }
  }

  lemma {:induction false} GatherOwners(parts: seq<Part>, maps: seq<Map>, ends: seq<nat>, n: nat, i: nat, j: nat,
                                        a: Addr)
    requires MapsOk(parts, maps, ends, n) && i < |maps| && j < |maps| && i != j && MapOk(maps[i]) && MapOk(maps[j])
    ensures !(TouchedBy(GatherOps(maps[i]), a) && WrittenBy(GatherOps(maps[j]), a))
  {
    hide TouchedBy, WrittenBy, Marked, MapIs, Divided;
    GatherWrites(parts, maps, ends, n, i, a);
    GatherWrites(parts, maps, ends, n, j, a);
    if TouchedBy(GatherOps(maps[i]), a) && WrittenBy(GatherOps(maps[j]), a) {
      OneOwner(parts, maps, ends, i, j, a.pos + 1);
    }
  }

  /** All threads multiply in their own place. */
  ghost predicate AllStores(ts: seq<Thread>, n: nat, stores: seq<seq<Store>>, x: seq<real>, alpha: real) {
    |stores| == |ts| && forall i :: 0 <= i < |ts| ==> StoresOf(stores[i], i, ts[i], n, x, alpha)
  }

  lemma {:induction false} KernelApart(ts: seq<Thread>, n: nat, beta: real, stores: seq<seq<Store>>, x: seq<real>,
                                       alpha: real)
    requires ThreadsOk(ts, n) && AllStores(ts, n, stores, x, alpha)
    ensures Apart(KernelProgs(ts, n, beta, stores))
  {
    hide TouchedBy, WrittenBy, StoresOf, KernelOps, OwnAddr;
    var progs := KernelProgs(ts, n, beta, stores);
    forall i, j, a | 0 <= i < |progs| && 0 <= j < |progs| && i != j && TouchedBy(progs[i], a)
      ensures !WrittenBy(progs[j], a)
    {
      KernelTouches(ts[i], i, n, beta, stores[i], x, alpha, a);
      KernelTouches(ts[j], j, n, beta, stores[j], x, alpha, a);
      WrittenTouched(progs[j], a);
      if OwnAddr(ts[j], j, a) {
        OwnersApart(ts, n, i, j, a);
      }
    }
  }

  // ----- Part 1: clearing -----

  lemma {:induction false} Cleared(m: Memory, parts: seq<Part>, maps: seq<Map>, ends: seq<nat>, n: nat, sched: seq<nat>,
                                   a: Addr)
    requires MapsOk(parts, maps, ends, n) && (forall i :: 0 <= i < |maps| ==> MapOk(maps[i]))
    requires Complete(ClearProgs(maps), sched) && Has(m, a) && a.pos < n
    ensures At(Mixed(m, ClearProgs(maps), sched), a)
         == if Marked(parts, a.vec, a.pos + 1) && a.pos + 1 < n then 0.0 else At(m, a)
  {
    hide At, Has, Marked, Mixed, Complete, WrittenBy, TouchedBy, Apart, ClearOps, Alone, MapIs;
    var progs := ClearProgs(maps);
    ClearApart(parts, maps, ends, n);
    if Marked(parts, a.vec, a.pos + 1) && a.pos + 1 < n {
      var w := EachEntryOnce(parts, maps, ends, n, (a.vec, a.pos));
      ClearWrites(parts, maps, ends, n, w, a);
      forall j | 0 <= j < |progs| && j != w ensures !WrittenBy(progs[j], a) {
        ClearOwners(parts, maps, ends, n, w, j, a);
        WrittenTouched(progs[w], a);
      }
      OwnerDecides(m, progs, sched, w, a);
      ClearAlone(m, maps[w], |maps[w].cpus|, a);
      assert ClearOps(maps[w])[..|maps[w].cpus|] == ClearOps(maps[w]);
    } else {
      forall j | 0 <= j < |progs| ensures !WrittenBy(progs[j], a) {
        ClearWrites(parts, maps, ends, n, j, a);
        LastEnd(parts, maps, ends, n, j);
      }
      NobodyWritesAtAll(m, progs, sched, a);
    }
  }

  lemma {:induction false} LastEnd(parts: seq<Part>, maps: seq<Map>, ends: seq<nat>, n: nat, j: nat)
    requires MapsOk(parts, maps, ends, n) && j < |maps|
    ensures ends[j + 1] <= n
  {
    EndsGrow(parts, maps, ends, j + 1, |maps|);
  }

  lemma {:induction false} NobodyWritesAtAll(m: Memory, progs: seq<seq<Op>>, sched: seq<nat>, a: Addr)
    requires Complete(progs, sched) && forall i :: 0 <= i < |progs| ==> !WrittenBy(progs[i], a)
    ensures At(Mixed(m, progs, sched), a) == At(m, a)
  {
    NobodyWrites(m, progs, sched, a);
  }

  lemma {:induction false} ClearAlone(m: Memory, map_: Map, k: nat, a: Addr)
    requires MapOk(map_) && k <= |map_.cpus| && Has(m, a)
    ensures At(Alone(m, ClearOps(map_)[..k]), a) == if WrittenBy(ClearOps(map_)[..k], a) then 0.0 else At(m, a)
    decreases k
  {
    hide At, Has, NewValue, Exec;
    if k > 0 {
      var ops := ClearOps(map_);
      assert ops[..k][..k - 1] == ops[..k - 1];
      ClearAlone(m, map_, k - 1, a);
      AloneHas(m, ops[..k - 1], a);
      AtExec(Alone(m, ops[..k - 1]), ops[k - 1], a);
      SetValue(Alone(m, ops[..k - 1]), ops[k - 1]);
      WrittenLast(ops, k - 1, a);
    }
  }

  lemma {:induction false} SetValue(m: Memory, op: Op)
    requires op.Set?
    ensures NewValue(m, op) == op.value
  {
  }

  lemma {:induction false} WrittenLast(ops: seq<Op>, k: nat, a: Addr)
    requires k < |ops|
    ensures WrittenBy(ops[..k + 1], a) <==> WrittenBy(ops[..k], a) || ops[k].at == a
  {
    if WrittenBy(ops[..k], a) {
      var q :| 0 <= q < k && ops[..k][q].at == a;
      assert ops[..k + 1][q].at == a;
    }
    if ops[k].at == a {
      assert ops[..k + 1][k].at == a;
    }
    if WrittenBy(ops[..k + 1], a) {
      var q :| 0 <= q < k + 1 && ops[..k + 1][q].at == a;
      assert q < k ==> ops[..k][q].at == a;
    }
  }

  // ----- Part 2: scaling and multiplying -----

  predicate OwnRow(t: Thread, r: nat) { t.rs <= r < t.rs + t.nrows }

  predicate RowOwned(ts: seq<Thread>, r: nat) { exists i :: 0 <= i < |ts| && OwnRow(ts[i], r) }

  /** Only the owner of an address writes it. */
  lemma {:induction false} OnlyOwner(ts: seq<Thread>, n: nat, beta: real, stores: seq<seq<Store>>, x: seq<real>,
                                     alpha: real, a: Addr)
    requires ThreadsOk(ts, n) && AllStores(ts, n, stores, x, alpha)
    ensures forall i :: 0 <= i < |ts| && !OwnAddr(ts[i], i, a) ==> !WrittenBy(KernelProgs(ts, n, beta, stores)[i], a)
  {
    hide TouchedBy, WrittenBy, StoresOf, KernelOps, OwnAddr;
    forall i | 0 <= i < |ts| && !OwnAddr(ts[i], i, a) ensures !WrittenBy(KernelProgs(ts, n, beta, stores)[i], a) {
      KernelTouches(ts[i], i, n, beta, stores[i], x, alpha, a);
      WrittenTouched(KernelOps(ts[i], i, n, beta, stores[i]), a);
    }
  }

  lemma {:induction false} MultipliedRow(m: Memory, ts: seq<Thread>, n: nat, beta: real, stores: seq<seq<Store>>,
                                         sched: seq<nat>, x: seq<real>, alpha: real, j: nat, r: nat)
    requires ThreadsOk(ts, n) && AllStores(ts, n, stores, x, alpha) && Complete(KernelProgs(ts, n, beta, stores), sched)
    requires Has(m, Addr(0, r)) && j < |ts| && OwnRow(ts[j], r)
    ensures At(Mixed(m, KernelProgs(ts, n, beta, stores), sched), Addr(0, r))
         == Prod(At(m, Addr(0, r)), beta) + KernelDot(ts[j], n, r + 1, x, alpha)
  {
    hide At, Has, Mixed, Alone, Complete, WrittenBy, Apart, StoresOf, KernelOps, KernelDot, ThreadOk;
    var a := Addr(0, r);
    OnlyOwner(ts, n, beta, stores, x, alpha, a);
    KernelApart(ts, n, beta, stores, x, alpha);
    OwnerDecides(m, KernelProgs(ts, n, beta, stores), sched, j, a);
    KernelRow(m, ts[j], j, n, beta, stores[j], r, x, alpha);
  }

  lemma {:induction false} OtherRow(m: Memory, ts: seq<Thread>, n: nat, beta: real, stores: seq<seq<Store>>,
                                    sched: seq<nat>, x: seq<real>, alpha: real, r: nat)
    requires ThreadsOk(ts, n) && AllStores(ts, n, stores, x, alpha) && Complete(KernelProgs(ts, n, beta, stores), sched)
    requires !RowOwned(ts, r)
    ensures At(Mixed(m, KernelProgs(ts, n, beta, stores), sched), Addr(0, r)) == At(m, Addr(0, r))
  {
    hide At, Mixed, Complete, WrittenBy, StoresOf, KernelOps;
    var a := Addr(0, r);
    OnlyOwner(ts, n, beta, stores, x, alpha, a);
    forall i | 0 <= i < |ts| ensures !OwnAddr(ts[i], i, a) {
      assert !OwnRow(ts[i], r);
    }
    NobodyWritesAtAll(m, KernelProgs(ts, n, beta, stores), sched, a);
  }

  lemma {:induction false} MultipliedLocal(m: Memory, ts: seq<Thread>, n: nat, beta: real, stores: seq<seq<Store>>,
                                           sched: seq<nat>, x: seq<real>, alpha: real, i: nat, c: nat)
    requires ThreadsOk(ts, n) && AllStores(ts, n, stores, x, alpha) && Complete(KernelProgs(ts, n, beta, stores), sched)
    requires 0 < i < |ts| && c < n && Has(m, Addr(i, c))
    ensures At(Mixed(m, KernelProgs(ts, n, beta, stores), sched), Addr(i, c))
         == At(m, Addr(i, c)) + KernelDot(ts[i], n, n + c + 1, x, alpha)
  {
    hide At, Has, Mixed, Alone, Complete, WrittenBy, Apart, StoresOf, KernelOps, KernelDot, ThreadOk;
    var a := Addr(i, c);
    OnlyOwner(ts, n, beta, stores, x, alpha, a);
    KernelApart(ts, n, beta, stores, x, alpha);
    OwnerDecides(m, KernelProgs(ts, n, beta, stores), sched, i, a);
    KernelLocal(m, ts[i], i, n, beta, stores[i], c, x, alpha);
  }

  // ----- Part 3: adding up -----

  /** Sum of the listed entries in column position r. */
  function SumOf(es: seq<(nat, int)>, m: Memory, r: nat): real {
    if es == [] then 0.0
    else SumOf(es[..|es| - 1], m, r) + if es[|es| - 1].1 == r then At(m, Addr(es[|es| - 1].0, r)) else 0.0
  }

  lemma {:induction false} SumConcat(a: seq<(nat, int)>, b: seq<(nat, int)>, m: Memory, r: nat)
    ensures SumOf(a + b, m, r) == SumOf(a, m, r) + SumOf(b, m, r)
    decreases |b|
  {
    if b == [] {
      assert a + b == a;
    } else {
      hide At;
      assert (a + b)[..|a + b| - 1] == a + b[..|b| - 1];
      SumConcat(a, b[..|b| - 1], m, r);
    }
  }

  lemma {:induction false} GatherAlone(m: Memory, map_: Map, es: seq<(nat, int)>, k: nat, r: nat)
    requires MapOk(map_) && MapIs(map_, es) && k <= |es| && Has(m, Addr(0, r))
    requires forall q :: 0 <= q < |es| ==> es[q].0 > 0
    ensures At(Alone(m, GatherOps(map_)[..k]), Addr(0, r)) == At(m, Addr(0, r)) + SumOf(es[..k], m, r)
    decreases k
  {
    if k > 0 {
      hide At, Has, NewValue, Exec, Alone;
      var ops, a := GatherOps(map_), Addr(0, r);
      var before, op := ops[..k - 1], ops[k - 1];
      assert ops[..k][..k - 1] == before && es[..k][..k - 1] == es[..k - 1];
      GatherAlone(m, map_, es, k - 1, r);
      AloneLast(m, ops[..k]);
      AloneHas(m, before, a);
      AtExec(Alone(m, before), op, a);
      GatherValue(Alone(m, before), op);
      assert es[k - 1] == (map_.cpus[k - 1], map_.pos[k - 1]);
      NotGathered(map_, k - 1, op.from);
      AloneSame(m, before, op.from);
    } else {
      assert Alone(m, GatherOps(map_)[..0]) == m;
    }
  }

  lemma {:induction false} AloneLast(m: Memory, ops: seq<Op>)
    requires ops != []
    ensures Alone(m, ops) == Exec(Alone(m, ops[..|ops| - 1]), ops[|ops| - 1])
  {
  }

  lemma {:induction false} GatherValue(m: Memory, op: Op)
    requires op.Gather?
    ensures NewValue(m, op) == At(m, op.at) + At(m, op.from)
  {
  }

  lemma {:induction false} NotGathered(map_: Map, k: nat, a: Addr)
    requires MapOk(map_) && k <= |map_.cpus| && a.vec > 0
    ensures !WrittenBy(GatherOps(map_)[..k], a)
  {
  }

  /** What the local buffers of the first k threads hold for row r + 1. */
  function Locals(ts: seq<Thread>, k: nat, n: nat, r: nat, x: seq<real>, alpha: real): real
    requires k <= |ts|
  {
    if k == 0 then 0.0 else Locals(ts, k - 1, n, r, x, alpha) + KernelDot(ts[k - 1], n, n + r + 1, x, alpha)
  }

  /** Marked entries hold what their thread has added to them. */
  ghost predicate ColumnHeld(m: Memory, ts: seq<Thread>, parts: seq<Part>, n: nat, r: nat, x: seq<real>, alpha: real) {
    forall i :: 0 <= i < |ts| && Marked(parts, i, r + 1) ==>
      At(m, Addr(i, r)) == KernelDot(ts[i], n, n + r + 1, x, alpha)
  }

  lemma {:induction false} HeldAt(m: Memory, ts: seq<Thread>, parts: seq<Part>, n: nat, r: nat, x: seq<real>,
                                  alpha: real, i: nat)
    requires ColumnHeld(m, ts, parts, n, r, x, alpha) && i < |ts| && Marked(parts, i, r + 1)
    ensures At(m, Addr(i, r)) == KernelDot(ts[i], n, n + r + 1, x, alpha)
  {
  }

  /** The marked entries of a column hold it all. */
  lemma {:induction false} EntriesStep(parts: seq<Part>, j: nat, k: nat)
    requires k > 0
    ensures EntriesAt(parts, j, k)
         == if Marked(parts, k - 1, j) then EntriesAt(parts, j, k - 1) + [(k - 1, j - 1)]
            else EntriesAt(parts, j, k - 1)
  {
    hide Marked;
  }

  /** One more thread. */
  lemma {:induction false} ColumnStep(ts: seq<Thread>, n: nat, parts: seq<Part>, m: Memory, k: nat, r: nat,
                                      x: seq<real>, alpha: real)
    requires ThreadsOk(ts, n) && parts == PartsOf(ts, n) && k < |ts| && r < n == |x|
    requires ColumnHeld(m, ts, parts, n, r, x, alpha)
    ensures SumOf(EntriesAt(parts, r + 1, k + 1), m, r)
         == SumOf(EntriesAt(parts, r + 1, k), m, r) + KernelDot(ts[k], n, n + r + 1, x, alpha)
  {
    hide At, Marked, KernelDot, PartsOf, ThreadsOk, SumOf, ColumnHeld, EntriesAt;
    EntriesStep(parts, r + 1, k + 1);
    if Marked(parts, k, r + 1) {
      HeldAt(m, ts, parts, n, r, x, alpha, k);
      SumConcat(EntriesAt(parts, r + 1, k), [(k, r)], m, r);
      OneSum(k, m, r);
    } else {
      Unmarked(ts, n, k, r, x, alpha);
    }
  }

  lemma {:induction false} ColumnSum(ts: seq<Thread>, n: nat, parts: seq<Part>, m: Memory, k: nat, r: nat, x: seq<real>,
                                     alpha: real)
    requires ThreadsOk(ts, n) && parts == PartsOf(ts, n) && k <= |ts| && r < n == |x|
    requires ColumnHeld(m, ts, parts, n, r, x, alpha)
    ensures SumOf(EntriesAt(parts, r + 1, k), m, r) == Locals(ts, k, n, r, x, alpha)
    decreases k
  {
    hide At, Marked, KernelDot, PartsOf, ThreadsOk, ColumnHeld;
    if k > 0 {
      ColumnSum(ts, n, parts, m, k - 1, r, x, alpha);
      ColumnStep(ts, n, parts, m, k - 1, r, x, alpha);
    }
  }

  lemma {:induction false} OneSum(i: nat, m: Memory, r: nat)
    ensures SumOf([(i, r)], m, r) == At(m, Addr(i, r))
  {
    assert [(i, r as int)][..0] == [];
  }

  lemma {:induction false} OtherColumn(parts: seq<Part>, m: Memory, j: nat, k: nat, r: nat)
    requires j != r + 1
    ensures SumOf(EntriesAt(parts, j, k), m, r) == 0.0
    decreases k
  {
    if k > 0 {
      hide At, Marked;
      OtherColumn(parts, m, j, k - 1, r);
      var last := if Marked(parts, k - 1, j) then [(k - 1, j - 1)] else [];
      SumConcat(EntriesAt(parts, j, k - 1), last, m, r);
      assert last != [] ==> last[..0] == [];
    }
  }

  lemma {:induction false} RangeSum(parts: seq<Part>, m: Memory, lo: nat, hi: nat, r: nat)
    requires lo <= hi
    ensures SumOf(EntriesIn(parts, lo, hi), m, r)
      == if lo <= r + 1 < hi then SumOf(EntriesAt(parts, r + 1, |parts|), m, r) else 0.0
    decreases hi
  {
    if lo < hi {
      hide At, EntriesAt;
      RangeSum(parts, m, lo, hi - 1, r);
      SumConcat(EntriesIn(parts, lo, hi - 1), EntriesAt(parts, hi - 1, |parts|), m, r);
      if hi - 1 != r + 1 {
        OtherColumn(parts, m, hi - 1, |parts|, r);
      }
    }
  }

  /** The thread whose map has the column. */
  lemma {:induction false} ColumnOwner(parts: seq<Part>, maps: seq<Map>, ends: seq<nat>, n: nat, col: nat)
    returns (w: nat)
    requires MapsOk(parts, maps, ends, n) && col < n
    ensures w < |maps| && ends[w] <= col < ends[w + 1]
  {
    hide MapIs, EntriesIn;
    w := 0;
    while ends[w + 1] <= col
      invariant w < |maps| && ends[w] <= col
      decreases |maps| - w
    {
      w := w + 1;
    }
  }

  lemma {:induction false} Gathered(m: Memory, ts: seq<Thread>, maps: seq<Map>, ends: seq<nat>, n: nat, sched: seq<nat>,
                                    r: nat, x: seq<real>, alpha: real)
    requires ThreadsOk(ts, n) && |x| == n && MapsOk(PartsOf(ts, n), maps, ends, n)
    requires forall i :: 0 <= i < |maps| ==> MapOk(maps[i])
    requires Complete(GatherProgs(maps), sched) && r < n && Has(m, Addr(0, r))
    requires ColumnHeld(m, ts, PartsOf(ts, n), n, r, x, alpha)
    ensures At(Mixed(m, GatherProgs(maps), sched), Addr(0, r)) == At(m, Addr(0, r)) + Locals(ts, |ts|, n, r, x, alpha)
  {
    hide At, Has, Marked, Mixed, Complete, WrittenBy, TouchedBy, Apart, GatherOps, Alone, MapIs, PartsOf, ThreadsOk,
         KernelDot, SumOf, Divided, EntriesIn, ColumnHeld;
    var parts, progs, a := PartsOf(ts, n), GatherProgs(maps), Addr(0, r);
    GatherApart(parts, maps, ends, n);
    ColumnSum(ts, n, parts, m, |ts|, r, x, alpha);
    if r + 1 < n {
      var w := ColumnOwner(parts, maps, ends, n, r + 1);
      OnlyGatherer(parts, maps, ends, n, w, r);
      OwnerDecides(m, progs, sched, w, a);
      GatheredAlone(m, parts, maps, ends, n, w, r);
    } else {
      NoGatherer(parts, maps, ends, n, r);
      NobodyWritesAtAll(m, progs, sched, a);
      LastColumn(ts, n, |ts|, r, x, alpha);
    }
  }

  lemma {:induction false} OnlyGatherer(parts: seq<Part>, maps: seq<Map>, ends: seq<nat>, n: nat, w: nat, r: nat)
    requires MapsOk(parts, maps, ends, n) && (forall i :: 0 <= i < |maps| ==> MapOk(maps[i]))
    requires w < |maps| && ends[w] <= r + 1 < ends[w + 1]
    ensures forall j :: 0 <= j < |maps| && j != w ==> !WrittenBy(GatherProgs(maps)[j], Addr(0, r))
  {
    hide WrittenBy, TouchedBy, Marked, MapIs, GatherOps, EntriesIn;
    forall j | 0 <= j < |maps| && j != w ensures !WrittenBy(GatherProgs(maps)[j], Addr(0, r)) {
      GatherWrites(parts, maps, ends, n, j, Addr(0, r));
      if ends[j] <= r + 1 < ends[j + 1] {
        OneOwner(parts, maps, ends, w, j, r + 1);
        assert false;
      }
    }
  }

  lemma {:induction false} NoGatherer(parts: seq<Part>, maps: seq<Map>, ends: seq<nat>, n: nat, r: nat)
    requires MapsOk(parts, maps, ends, n) && (forall i :: 0 <= i < |maps| ==> MapOk(maps[i])) && r + 1 == n
    ensures forall j :: 0 <= j < |maps| ==> !WrittenBy(GatherProgs(maps)[j], Addr(0, r))
  {
    hide WrittenBy, TouchedBy, Marked, MapIs, GatherOps, EntriesIn;
    forall j | 0 <= j < |maps| ensures !WrittenBy(GatherProgs(maps)[j], Addr(0, r)) {
      GatherWrites(parts, maps, ends, n, j, Addr(0, r));
      LastEnd(parts, maps, ends, n, j);
    }
  }

  lemma {:induction false} GatheredAlone(m: Memory, parts: seq<Part>, maps: seq<Map>, ends: seq<nat>, n: nat, w: nat,
                                         r: nat)
    requires MapsOk(parts, maps, ends, n) && w < |maps| && MapOk(maps[w]) && ends[w] <= r + 1 < ends[w + 1]
    requires Has(m, Addr(0, r))
    ensures At(Alone(m, GatherOps(maps[w])), Addr(0, r))
         == At(m, Addr(0, r)) + SumOf(EntriesAt(parts, r + 1, |parts|), m, r)
  {
    hide At, Has, Marked, Alone, SumOf, EntriesIn, EntriesAt;
    var es := EntriesIn(parts, ends[w], ends[w + 1]);
    forall q | 0 <= q < |es| ensures es[q].0 > 0 {
      EntriesAre(parts, ends[w], ends[w + 1], es[q]);
      MarkedLater(parts, es[q].0, es[q].1 + 1);
    }
    GatherAlone(m, maps[w], es, |es|, r);
    assert GatherOps(maps[w])[..|es|] == GatherOps(maps[w]) && es[..|es|] == es;
    RangeSum(parts, m, ends[w], ends[w + 1], r);
  }

  lemma {:induction false} LastUnmarked(ts: seq<Thread>, n: nat, i: nat)
    requires ThreadsOk(ts, n)
    ensures !Marked(PartsOf(ts, n), i, n)
  {
    FirstPart(ts, n);
  }

  /** The last column is before nobody's rows. */
  lemma {:induction false} LastColumn(ts: seq<Thread>, n: nat, k: nat, r: nat, x: seq<real>, alpha: real)
    requires ThreadsOk(ts, n) && k <= |ts| && r + 1 == n == |x|
    ensures Locals(ts, k, n, r, x, alpha) == 0.0
    decreases k
  {
    if k > 0 {
      hide KernelDot, ThreadsOk, PartsOf, Marked;
      LastColumn(ts, n, k - 1, r, x, alpha);
      LastUnmarked(ts, n, k - 1);
      Unmarked(ts, n, k - 1, r, x, alpha);
    }
  }

  // ----- The whole product -----

  /** What a row gets in the vector and from the local buffers is its part of the product. */
  lemma {:induction false} WholeDot(ts: seq<Thread>, n: nat, k: nat, r: nat, x: seq<real>, alpha: real, j: nat)
    requires ThreadsOk(ts, n) && k <= |ts| && r < n == |x|
    requires j == |ts| || (j < |ts| && OwnRow(ts[j], r))
    requires j == |ts| ==> !RowOwned(ts, r)
    ensures ColsWithin(Whole(ts[..k]), n)
    ensures Dot(Whole(ts[..k]), r + 1, x, alpha)
         == Locals(ts, k, n, r, x, alpha) + if j < k then KernelDot(ts[j], n, r + 1, x, alpha) else 0.0
    decreases k
  {
    hide KernelDot, ThreadOk, Symmetric, Dot, ColsWithin;
    WholeCols(ts[..k], n);
    if k > 0 {
      var t := ts[k - 1];
      assert ts[..k][..k - 1] == ts[..k - 1];
      WholeDot(ts, n, k - 1, r, x, alpha, j);
      ThreadDot(t, n, r + 1, x, alpha);
      DotConcat(Whole(ts[..k - 1]), Symmetric(t), r + 1, x, alpha);
      assert k - 1 != j ==> !OwnRow(t, r);
      if k - 1 != j {
        OtherRows(t, n, r, x, alpha);
      }
    } else {
      NoCells(r + 1, x, alpha);
    }
  }

  lemma {:induction false} NoCells(row: int, x: seq<real>, alpha: real)
    ensures ColsWithin([], |x|) && Dot([], row, x, alpha) == 0.0
  {
  }

  /** The memory after the three parts, each under its own schedule; the barriers keep the parts
      apart. */
  function AfterAll(m: Memory, ts: seq<Thread>, maps: seq<Map>, n: nat, beta: real, stores: seq<seq<Store>>,
                    s1: seq<nat>, s2: seq<nat>, s3: seq<nat>): Memory
    requires |stores| == |ts| && forall i :: 0 <= i < |maps| ==> MapOk(maps[i])
    requires Complete(ClearProgs(maps), s1) && Complete(KernelProgs(ts, n, beta, stores), s2)
    requires Complete(GatherProgs(maps), s3)
  {
    Mixed(Mixed(Mixed(m, ClearProgs(maps), s1), KernelProgs(ts, n, beta, stores), s2), GatherProgs(maps), s3)
  }

  /** Whatever the interleaving of the threads in each part, every row of the vector ends as
      beta * y + alpha * (L + L^T + D) * x, and rows of no thread are not scaled. */
  lemma {:induction false} SymmetricProduct(m: Memory, ts: seq<Thread>, maps: seq<Map>, ends: seq<nat>, n: nat,
                                            beta: real, stores: seq<seq<Store>>, s1: seq<nat>, s2: seq<nat>,
                                            s3: seq<nat>, x: seq<real>, alpha: real, r: nat)
    requires ThreadsOk(ts, n) && |x| == n && MapsOk(PartsOf(ts, n), maps, ends, n)
    requires forall i :: 0 <= i < |maps| ==> MapOk(maps[i])
    requires AllStores(ts, n, stores, x, alpha) && MemoryOk(m, |ts|, n) && r < n
    requires Complete(ClearProgs(maps), s1) && Complete(KernelProgs(ts, n, beta, stores), s2)
    requires Complete(GatherProgs(maps), s3)
    ensures ColsWithin(Whole(ts), n)
    ensures At(AfterAll(m, ts, maps, n, beta, stores, s1, s2, s3), Addr(0, r))
         == (if RowOwned(ts, r) then Prod(At(m, Addr(0, r)), beta) else At(m, Addr(0, r)))
           + Dot(Whole(ts), r + 1, x, alpha)
  {
    hide At, Has, Marked, Mixed, Complete, ClearProgs, KernelProgs, GatherProgs, PartsOf, ThreadsOk, KernelDot,
         AllStores, OwnRow, Locals, Dot, ColsWithin, Whole, MapOk, MapsOk;
    var parts := PartsOf(ts, n);
    FirstPart(ts, n);
    CompleteFeasible(ClearProgs(maps), s1);
    StoresCount(ts, n, stores, x, alpha);
    CompleteFeasible(KernelProgs(ts, n, beta, stores), s2);
    var m1 := Mixed(m, ClearProgs(maps), s1);
    var m2 := Mixed(m1, KernelProgs(ts, n, beta, stores), s2);
    var y := Addr(0, r);
    assert Has(m, y);
    MixedHas(m, ClearProgs(maps), s1, y);
    MixedHas(m1, KernelProgs(ts, n, beta, stores), s2, y);
    Cleared(m, parts, maps, ends, n, s1, y);
    VectorUnmarked(parts, r + 1);
    forall i | 0 <= i < |ts| && Marked(parts, i, r + 1)
      ensures At(m2, Addr(i, r)) == KernelDot(ts[i], n, n + r + 1, x, alpha)
    {
      assert Has(m, Addr(i, r));
      MarkedLater(parts, i, r + 1);
      MarkedInside(parts, n, i, r + 1);
      Cleared(m, parts, maps, ends, n, s1, Addr(i, r));
      MixedHas(m, ClearProgs(maps), s1, Addr(i, r));
      MultipliedLocal(m1, ts, n, beta, stores, s2, x, alpha, i, r);
    }
    Gathered(m2, ts, maps, ends, n, s3, r, x, alpha);
    assert ts[..|ts|] == ts;
    if RowOwned(ts, r) {
      var j :| 0 <= j < |ts| && OwnRow(ts[j], r);
      MultipliedRow(m1, ts, n, beta, stores, s2, x, alpha, j, r);
      WholeDot(ts, n, |ts|, r, x, alpha, j);
    } else {
      OtherRow(m1, ts, n, beta, stores, s2, x, alpha, r);
      WholeDot(ts, n, |ts|, r, x, alpha, |ts|);
    }
  }

  lemma {:induction false} FirstPart(ts: seq<Thread>, n: nat)
    requires ThreadsOk(ts, n)
    ensures |PartsOf(ts, n)| >= 1 && PartsOf(ts, n)[0].start == 0 && PartsOk(PartsOf(ts, n), n) && n >= 1
  {
  }

  lemma {:induction false} StoresCount(ts: seq<Thread>, n: nat, stores: seq<seq<Store>>, x: seq<real>, alpha: real)
    requires AllStores(ts, n, stores, x, alpha)
    ensures |stores| == |ts|
  {
  }

  lemma {:induction false} CompleteFeasible(progs: seq<seq<Op>>, sched: seq<nat>)
    requires Complete(progs, sched)
    ensures Feasible(progs, sched)
  {
  }

  lemma {:induction false} VectorUnmarked(parts: seq<Part>, col: nat)
    requires |parts| >= 1 && parts[0].start == 0
    ensures !Marked(parts, 0, col)
  {
  }

  lemma {:induction false} MarkedInside(parts: seq<Part>, n: nat, i: nat, col: nat)
    requires PartsOk(parts, n) && Marked(parts, i, col)
    ensures col < n
  {
  }
}
