/** Mining and encoding of a partition: runs of single elements become substructures. */
module EncodingManager {
  import opened Encodings
  import opened Elements
  import opened Cells
  import opened CtlCodec
  import opened RunLength
  import opened RowEncoder
  import opened Rewriting
  import opened Sampling
  import opened Thorough
  import opened SparsePartition

  /** Instantiations encoding may write: the selected ones and, for blocks that are cut at the
      size limit, the widest one of a selected type. */
  predicate Picked(i: Instantiation, c: Config) {
    i in c.insts ||
    (i.ty.IsBlock() && i.ty.Valid() && !c.splitBlocks && i.dim == c.maxLimit / i.ty.Alignment()
     && exists j :: j in c.insts && j.ty == i.ty)
  }

  /** Substructures encoding writes: instantiations that are allowed, and the sizes of linear
      ones within the limits. */
  predicate WithinLimits(es: seq<Element>, c: Config) {
    forall i :: 0 <= i < |es| && es[i].IsPattern() ==>
      Picked(es[i].inst, c) &&
      (!es[i].inst.ty.IsBlock() ==>
         (es[i].Size() >= c.minLimit || es[i].Size() == c.maxLimit) && es[i].Size() <= c.maxLimit)
  }

  lemma {:induction false} LimitsSnoc(encoded: seq<Element>, e0: nat, e: Element, c: Config)
    requires e0 <= |encoded| && WithinLimits(encoded[e0..], c) && WithinLimits([e], c)
    ensures WithinLimits((encoded + [e])[e0..], c)
  {
    assert (encoded + [e])[e0..] == encoded[e0..] + [e];
    assert [e][0] == e;
  }

  /** `encoded` keeps what it held when the row was started and covers `n` entries since. */
  ghost predicate Progress(encoded: seq<Element>, e0: nat, row: int, t: Encoding, xs: seq<int>, vs: seq<real>, n: nat) {
    && e0 <= |encoded| && n <= |xs| == |vs|
    && Covers(encoded[e0..], row, t, xs[..n], vs[..n])
  }

  lemma {:induction false} StretchShift(xs: seq<int>, b: nat, n: nat, start: int, step: int, k: nat)
    requires Stretch(xs, b, n, start, step) && k <= n
    ensures Stretch(xs, b + k, n - k, Walk(start, step, k), step)
    ensures k < n ==> xs[b + k] == Walk(start, step, k)
  {
    forall q | b + k <= q < b + n ensures xs[q] == Walk(Walk(start, step, k), step, q - (b + k)) {
      WalkAdd(start, step, k, q - (b + k));
    }
  }

  lemma {:induction false} WalkAdd(a: int, v: int, i: int, j: int)
    ensures Walk(Walk(a, v, i), v, j) == Walk(a, v, i + j)
  {
  }

  /** Appending the substructure over the next `n` entries. */
  lemma {:induction false} ProgressRun(encoded: seq<Element>, e0: nat, row: int, t: Order, xs: seq<int>, vs: seq<real>,
                                       b: nat, n: nat, e: Element)
    requires Progress(encoded, e0, row, t, xs, vs, b) && b + n <= |xs| && n >= 1
    requires Fresh(e, row, t) && e.vals == vs[b..b + n]
    requires e.inst.ty == t || n == 1
    requires Stretch(xs, b, n, e.col, if e.inst.ty == t then Step(e.inst) else 0)
    ensures Progress(encoded + [e], e0, row, t, xs, vs, b + n)
    ensures (encoded + [e])[..e0] == encoded[..e0]
  {
    CoversRun(encoded[e0..], row, t, xs, vs, b, n, e);
    assert (encoded + [e])[e0..] == encoded[e0..] + [e];
  }

  lemma {:induction false} ProgressPop(encoded: seq<Element>, e0: nat, row: int, t: Order, xs: seq<int>, vs: seq<real>,
                                       n: nat)
    requires Progress(encoded, e0, row, t, xs, vs, n) && n >= 1
    ensures |encoded| > e0
    ensures !encoded[|encoded| - 1].IsPattern() ==>
              Progress(encoded[..|encoded| - 1], e0, row, t, xs, vs, n - 1)
              && encoded[..|encoded| - 1][..e0] == encoded[..e0]
  {
    var es := encoded[e0..];
    CoversCount(es, row, t, xs[..n], vs[..n]);
    if !encoded[|encoded| - 1].IsPattern() {
      CoversPop(es, row, t, xs[..n], vs[..n]);
      assert encoded[..|encoded| - 1][e0..] == es[..|es| - 1];
      assert xs[..n][..n - 1] == xs[..n - 1] && vs[..n][..n - 1] == vs[..n - 1];
    }
  }

  lemma {:induction false} ProgressStart(encoded: seq<Element>, row: int, t: Encoding, xs: seq<int>, vs: seq<real>)
    requires |xs| == |vs|
    ensures Progress(encoded, |encoded|, row, t, xs, vs, 0)
  {
    assert encoded[|encoded|..] == [] && xs[..0] == [] && vs[..0] == [];
    CoversNothing(row, t);
  }

  /** Adds single elements at equal distances. */
  method AddSingles(encoded0: seq<Element>, row: int, start: int, step: int, count: nat, vs: seq<real>, vi0: nat,
                    ghost e0: nat, ghost t: Order, ghost xs: seq<int>, ghost c: Config, ghost g: Goal, ghost done: nat)
    returns (encoded: seq<Element>, vi: nat)
    requires Progress(encoded0, e0, row, t, xs, vs, vi0)
    requires Stretch(xs, vi0, count, start, step)
    requires forall k :: 0 <= k < |xs| ==> xs[k] >= 1
    requires Meets(encoded0[e0..], t, c, g, done) && done + count <= g.n && SinglesAt(g, t, c, done, done + count)
    ensures vi == vi0 + count && Progress(encoded, e0, row, t, xs, vs, vi)
    ensures encoded[..e0] == encoded0[..e0]
    ensures |encoded| == |encoded0| + count && encoded0 <= encoded
    ensures forall k :: |encoded0| <= k < |encoded| ==> !encoded[k].IsPattern()
    ensures Meets(encoded[e0..], t, c, g, done + count)
  {
    hide Progress, Walk, Meets, EntryOk;
    encoded, vi := encoded0, vi0;
    ProgressBounds(encoded, e0, row, t, xs, vs, vi);
    var col := start;
    var i := 0;
    WalkNext(start, step, 0);
    while i < count
      invariant i <= count && vi == vi0 + i && col == Walk(start, step, i)
      invariant Progress(encoded, e0, row, t, xs, vs, vi) && e0 <= |encoded|
      invariant encoded[..e0] == encoded0[..e0]
      invariant |encoded| == |encoded0| + i && encoded0 <= encoded
      invariant forall k :: |encoded0| <= k < |encoded| ==> !encoded[k].IsPattern()
      invariant Meets(encoded[e0..], t, c, g, done + i)
    {
      StretchShift(xs, vi0, count, start, step, i);
      var e := Single(row, col, vs[vi]);
      SingleStretch(xs, vi, col);
      ProgressRun(encoded, e0, row, t, xs, vs, vi, 1, e);
      assert EntryOk(g, t, c, done + i, |Positions(e, t)|);
      MeetsNext(encoded[e0..], e, t, c, g, done + i);
      assert (encoded + [e])[e0..] == encoded[e0..] + [e];
      encoded := encoded + [e];
      WalkNext(start, step, i);
      col := col + step;
      vi := vi + 1;
      i := i + 1;
    }
  }

  lemma {:induction false} PlacesAre(encoded: seq<Element>, e0: nat, row: int, t: Encoding, xs: seq<int>, vs: seq<real>,
                                     n: nat)
    requires Progress(encoded, e0, row, t, xs, vs, n)
    ensures e0 <= |encoded| && |Places(encoded[e0..], t)| == n
  {
    PlacesCount(encoded[e0..], t);
  }

  /** The places before the last element, and where that one ends. */
  lemma {:induction false} LastPlaceOf(encoded: seq<Element>, e0: nat, row: int, t: Order, xs: seq<int>, vs: seq<real>,
                                       n: nat)
    requires Progress(encoded, e0, row, t, xs, vs, n) && n >= 1
    ensures |encoded| > e0
    ensures var pl, k := Places(encoded[e0..], t), |encoded| - 1;
            && |pl| == n
            && (encoded[k].IsPattern() ==> pl[n - 1].off > 0)
            && (!encoded[k].IsPattern() ==> pl == Places(encoded[..k][e0..], t) + [Place(1, 0)])
  {
    var es := encoded[e0..];
    CoversCount(es, row, t, xs[..n], vs[..n]);
    LastPlace(es, row, t, xs[..n], vs[..n]);
    assert encoded[..|encoded| - 1][e0..] == es[..|es| - 1];
  }

  /** The substructure over `n` values has `n` places. */
  lemma {:induction false} PatternPlaces(row: int, col: int, vals: seq<real>, t: Order, dim: nat)
    requires vals != []
    ensures |Positions(MakePattern(row, col, vals, Inst(t, dim)), t)| == |vals|
  {
  }

  lemma {:induction false} SingleStretch(xs: seq<int>, b: nat, col: int)
    requires b < |xs| && xs[b] == col
    ensures Stretch(xs, b, 1, col, 0)
  {
  }

  lemma {:induction false} ProgressBounds(encoded: seq<Element>, e0: nat, row: int, t: Encoding, xs: seq<int>,
                                          vs: seq<real>, n: nat)
    requires Progress(encoded, e0, row, t, xs, vs, n)
    ensures e0 <= |encoded| && n <= |xs| == |vs|
  {
  }

  /** Including the entry a stretch continues from. */
  lemma {:induction false} StretchBack(xs: seq<int>, b: nat, n: nat, start: int, step: int)
    requires b >= 1 && Stretch(xs, b, n, start + step, step) && xs[b - 1] == start
    ensures Stretch(xs, b - 1, n + 1, start, step)
  {
    forall q | b - 1 <= q < b + n ensures xs[q] == Walk(start, step, q - (b - 1)) {
      WalkNext(start, step, 0);
      if q >= b {
        WalkNext(start, step, q - b);
      }
    }
  }

  /** Where the column counter stands after the last entry of a stretch. */
  lemma {:induction false} EndColumn(col: int, start: int, step: int, whole: nat, n: nat, xs: seq<int>, b: nat)
    requires whole >= 1 && n <= whole && Stretch(xs, b, whole, start, step)
    requires col == Walk(start, step, whole - n) - step + step * n
    ensures col == xs[b + whole - 1]
  {
    WalkAdd(start, step, whole - n, n - 1);
    assert Walk(Walk(start, step, whole - n), step, n - 1) == Walk(start, step, whole - n) + (n - 1) * step;
  }

  lemma {:induction false} PopKeepsLimits(encoded: seq<Element>, e0: nat, c: Config)
    requires e0 < |encoded| && WithinLimits(encoded[e0..], c)
    ensures WithinLimits(encoded[..|encoded| - 1][e0..], c)
  {
    var es := encoded[e0..];
    assert encoded[..|encoded| - 1][e0..] == es[..|es| - 1];
  }

  /** Instantiations of the substructures of a list of elements. */
  function InstsOf(es: seq<Element>): set<Instantiation> {
    set i | 0 <= i < |es| && es[i].IsPattern() :: es[i].inst
  }

  /** Substructures are of instantiations known before, or written by a round for type `t`. */
  predicate Uses(es: seq<Element>, known: set<Instantiation>, c: Config, t: Encoding) {
    forall i :: 0 <= i < |es| && es[i].IsPattern() ==>
      es[i].inst in known || (Picked(es[i].inst, c) && es[i].inst.ty == t)
  }

  lemma {:induction false} UsesConcat(a: seq<Element>, b: seq<Element>, known: set<Instantiation>, c: Config,
                                      t: Encoding)
    requires Uses(a, known, c, t) && Uses(b, known, c, t)
    ensures Uses(a + b, known, c, t)
  {
  }

  lemma {:induction false} UsesWider(es: seq<Element>, known: set<Instantiation>, wider: set<Instantiation>, c: Config,
                                     t: Encoding)
    requires Uses(es, known, c, t) && known <= wider
    ensures Uses(es, wider, c, t)
  {
  }

  lemma {:induction false} UsesOld(es: seq<Element>, c: Config, t: Encoding)
    ensures Uses(es, InstsOf(es), c, t)
  {
  }

  lemma {:induction false} SliceInsts(es: seq<Element>, lo: nat, hi: nat)
    requires lo <= hi <= |es|
    ensures InstsOf(es[lo..hi]) <= InstsOf(es)
  {
    forall i | i in InstsOf(es[lo..hi]) ensures i in InstsOf(es) {
      var k :| 0 <= k < hi - lo && es[lo..hi][k].IsPattern() && es[lo..hi][k].inst == i;
      assert es[lo + k].inst == i;
    }
  }

  lemma {:induction false} WrittenUses(es: seq<Element>, row: int, t: Encoding, xs: seq<int>, vs: seq<real>,
                                       known: set<Instantiation>, c: Config)
    requires Covers(es, row, t, xs, vs) && WithinLimits(es, c)
    ensures Uses(es, known, c, t)
  {
    forall i | 0 <= i < |es| && es[i].IsPattern() ensures Picked(es[i].inst, c) && es[i].inst.ty == t {
      assert Fresh(es[i], row, t);
    }
  }

  /** Moving and sorting elements does not change what they are. */
  lemma {:induction false} MovedInsts(es: seq<Element>, from: Order, to: Order, d: Dims)
    ensures InstsOf(Sort(Moved(es, from, to, d))) == InstsOf(es)
  {
    hide Sort, Moved, Xform;
    var a, b := Moved(es, from, to, d), Sort(Moved(es, from, to, d));
    SortSame(a);
    MovedSame(es, from, to, d);
    forall i | i in InstsOf(b) ensures i in InstsOf(es) {
      var k :| 0 <= k < |b| && b[k].IsPattern() && b[k].inst == i;
      assert b[k] in multiset(a);
      var j :| 0 <= j < |a| && a[j] == b[k];
      assert es[j].inst == i;
    }
    forall i | i in InstsOf(es) ensures i in InstsOf(b) {
      var k :| 0 <= k < |es| && es[k].IsPattern() && es[k].inst == i;
      assert a[k] in multiset(b);
      var j :| 0 <= j < |b| && b[j] == a[k];
      assert b[j].inst == i;
    }
  }

  lemma {:induction false} SortSame(es: seq<Element>)
    ensures multiset(Sort(es)) == multiset(es)
  {
  }

  lemma {:induction false} MovedSame(es: seq<Element>, from: Order, to: Order, d: Dims)
    ensures |Moved(es, from, to, d)| == |es|
    ensures forall i :: 0 <= i < |es| ==> Moved(es, from, to, d)[i].inst == es[i].inst
  {
  }

  lemma {:induction false} SinglesKeepLimits(before: seq<Element>, encoded: seq<Element>, e0: nat, c: Config)
    requires e0 <= |before| <= |encoded| && before <= encoded && WithinLimits(before[e0..], c)
    requires forall k :: |before| <= k < |encoded| ==> !encoded[k].IsPattern()
    ensures WithinLimits(encoded[e0..], c)
  {
    forall i | 0 <= i < |encoded[e0..]| && encoded[e0..][i].IsPattern()
      ensures encoded[e0..][i] in before[e0..]
    {
      assert e0 + i < |before|;
      assert encoded[e0 + i] == before[e0..][i];
    }
  }

  /** How a run of consecutive positions that ends a stretch of `total` entries from `start`
      meets the block grid: entries before the grid, whole grid columns, entries after it. */
  datatype Cut = Cut(front: nat, middle: nat, back: nat)

  function CutBlock(start: nat, total: nat, align: nat): Cut
    requires start >= 1 && align >= 1
  {
    var off := (start - 1) % align;
    var front := if off != 0 then align - off else 0;
    var nr := if total > front then total - front else 0;
    var back := nr % align;
    Cut(front, nr - back, back)
  }

  lemma {:induction false} CutBlockFacts(start: nat, total: nat, align: nat)
    requires start >= 1 && align >= 1
    ensures var c := CutBlock(start, total, align);
            c.middle % align == 0 && (start + c.front - 1) % align == 0
            && (c.middle > 0 ==> c.front + c.middle + c.back == total)
  {
    var off := (start - 1) % align;
    var front := if off != 0 then align - off else 0;
    Pad(start - 1, align);
    assert start + front - 1 == start - 1 + front;
    Floor(if total > front then total - front else 0, align);
  }

  lemma {:induction false} Pad(x: nat, a: nat)
    requires a >= 1
    ensures x % a != 0 ==> (x + (a - x % a)) % a == 0
    ensures x % a == 0 ==> (x + 0) % a == 0
  {
    if x % a != 0 {
      assert x + (a - x % a) == a * (x / a) + a == a * (x / a + 1);
      Utility.ModOfMultiple(a, x / a + 1);
    }
  }

  lemma {:induction false} Floor(x: nat, a: nat)
    requires a >= 1
    ensures (x - x % a) % a == 0
  {
    assert x - x % a == a * (x / a);
    Utility.ModOfMultiple(a, x / a);
  }

  lemma {:induction false} MultiplesAdd(x: nat, y: nat, a: nat)
    requires a >= 1 && x % a == 0 && y % a == 0
    ensures (x + y) % a == 0
  {
    assert x + y == a * (x / a) + a * (y / a) == a * (x / a + y / a);
    Utility.ModOfMultiple(a, x / a + y / a);
  }

  /** A block over the next n entries of a stretch of consecutive positions. */
  lemma {:induction false} BlockElement(e: Element, row: int, start: int, vs: seq<real>, b: nat, n: nat, t: Order,
                                        xs: seq<int>)
    requires t.IsBlock() && n >= 1 && n <= CTL_SIZE_MAX && n % t.Alignment() == 0
    requires b + n <= |vs| == |xs| && start >= 1 && (start - 1) % t.Alignment() == 0
    requires e == MakePattern(row, start, vs[b..b + n], Inst(t, n / t.Alignment()))
    requires Stretch(xs, b, n, start, 1)
    ensures Fresh(e, row, t) && e.vals == vs[b..b + n] && e.col == start
    ensures e.inst.ty == t || n == 1
    ensures Stretch(xs, b, n, e.col, if e.inst.ty == t then Step(e.inst) else 0)
  {
    Multiple(n, t.Alignment());
    StretchFirst(xs, b, n, start);
    hide Stretch;
    BlockShape(e, row, start, vs[b..b + n], t);
    if n == 1 {
      OneStretch(xs, b, start);
    }
  }

  lemma {:induction false} Multiple(n: nat, a: nat)
    requires 1 <= a <= 8 && n >= 1 && n % a == 0
    ensures n == a * (n / a) && 1 <= n / a <= n
  {
  }

  lemma {:induction false} StretchFirst(xs: seq<int>, b: nat, n: nat, start: int)
    requires Stretch(xs, b, n, start, 1) && n >= 1
    ensures xs[b] == start
  {
    WalkNext(start, 1, 0);
  }

  lemma {:induction false} OneStretch(xs: seq<int>, b: nat, start: int)
    requires b < |xs| && xs[b] == start
    ensures Stretch(xs, b, 1, start, 0) && Stretch(xs, b, 1, start, 1)
  {
  }

  lemma {:induction false} BlockShape(e: Element, row: int, start: int, vals: seq<real>, t: Order)
    requires t.IsBlock() && 1 <= |vals| <= CTL_SIZE_MAX && |vals| == t.Alignment() * (|vals| / t.Alignment())
    requires 1 <= |vals| / t.Alignment() <= |vals|
    requires start >= 1 && (start - 1) % t.Alignment() == 0
    requires e == MakePattern(row, start, vals, Inst(t, |vals| / t.Alignment()))
    ensures Fresh(e, row, t) && e.vals == vals && e.col == start
    ensures if |vals| == 1 then e.inst == SINGLE else e.inst.ty == t && Step(e.inst) == 1
  {
  }

  lemma {:induction false} PrevPositive(xs: seq<int>, n: nat)
    requires n <= |xs| && forall k :: 0 <= k < |xs| ==> xs[k] >= 1
    ensures Prev(xs, n) >= 0 && (Prev(xs, n) == 0 <==> n == 0)
  {
  }

  // ----- The types mining chooses from -----

  const NR_TYPES: nat := 20

  /** The first `n` types of the enumeration. */
  function Types(n: nat): (ts: set<Encoding>)
    requires n <= NR_TYPES
    ensures forall c :: 1 <= c <= n ==> FromCode(c) in ts
    ensures forall t :: t in ts ==> t.IsOrder()
    ensures |ts| <= n
  {
    if n == 0 then {} else Types(n - 1) + {FromCode(n)}
  }

  lemma {:induction false} CodeOf(c: nat)
    requires 1 <= c <= NR_TYPES
    ensures FromCode(c).Code() == c && FromCode(c).IsOrder()
  {
  }

  /** What the statistics say about one type: how much encoding it is worth, and which of its
      instantiations cover enough of the matrix. */
  datatype Report = Report(score: nat, insts: set<Instantiation>)

  datatype TypeStats = TypeStats(ty: Encoding, score: nat)

  /** Statistics of different types, none of them ignored. */
  predicate Listed(stats: seq<TypeStats>, ignore: set<Encoding>) {
    && (forall i :: 0 <= i < |stats| ==> stats[i].ty in Types(NR_TYPES) && stats[i].ty !in ignore)
    && (forall i, j :: 0 <= i < j < |stats| ==> stats[i].ty.Code() < stats[j].ty.Code())
  }

  /** All instantiations that are picked for these types. */
  function AllPicked(survey: Encoding -> Report, ts: set<Encoding>): set<Instantiation> {
    set t, i | t in ts && i in survey(t).insts :: i
  }

  /** The type a round encodes: of the open ones, the first with the greatest score. */
  ghost predicate BestType(survey: Encoding -> Report, open: set<Encoding>, t: Encoding) {
    t in open && survey(t).score > 0 && forall u :: u in open ==> Outscored(survey, u, t)
  }

  /** Another type scores higher, or as high and comes first. */
  ghost predicate Outscored(survey: Encoding -> Report, u: Encoding, t: Encoding) {
    survey(u).score < survey(t).score || (survey(u).score == survey(t).score && t.Code() <= u.Code())
  }

  /** Types with a score. */
  function Scored(survey: Encoding -> Report, open: set<Encoding>): set<Encoding> {
    set t | t in open && survey(t).score > 0
  }

  /** The types still open after the rounds that encoded `encSeq`: not ignored at the start, not
      encoded, and never without a score. */
  function Open(surveys: nat -> Encoding -> Report, ignored: set<Encoding>, encSeq: seq<Encoding>): set<Encoding>
    decreases |encSeq|
  {
    if encSeq == [] then Types(NR_TYPES) - ignored
    else
      var n := |encSeq| - 1;
      Scored(surveys(n), Open(surveys, ignored, encSeq[..n])) - {encSeq[n]}
  }

  /** Every round encoded the best type that was open. */
  ghost predicate BestRounds(surveys: nat -> Encoding -> Report, ignored: set<Encoding>, encSeq: seq<Encoding>) {
    forall i :: 0 <= i < |encSeq| ==> BestType(surveys(i), Open(surveys, ignored, encSeq[..i]), encSeq[i])
  }

  /** The survey that no further round would change: no open type has a score. */
  ghost predicate NoneScored(survey: Encoding -> Report, open: set<Encoding>) {
    forall u :: u in open ==> survey(u).score == 0
  }

  /** One round: in the order of the type, everything is written that the rule asks for. */
  ghost predicate RoundWritten(before: seq<Element>, after: seq<Element>, t: Order, c: Config, d: Dims) {
    exists mid :: AllWritten(mid, Sort(Moved(before, Horizontal, t, d)), t, c)
      && after == Sort(Moved(mid, t, Horizontal, d))
  }

  /** One step of a given sequence of types. */
  ghost predicate StepWritten(before: seq<Element>, from: Encoding, after: seq<Element>, to: Encoding, t: Encoding,
                              c: Config, d: Dims)
  {
    if t == None then after == before && to == from
    else from.IsOrder() && t.IsOrder() && to == t && AllWritten(after, Sort(Moved(before, from, t, d)), t, c)
  }

  function StepInsts(t: Encoding, dims: set<nat>): set<Instantiation> { set d | d in dims :: Inst(t, d) }

  /** Instantiations the first n steps of a sequence ask for. */
  function Asked(encseq: seq<(Encoding, set<nat>)>, n: nat): set<Instantiation>
    requires n <= |encseq|
  {
    if n == 0 then {} else Asked(encseq, n - 1) + StepInsts(encseq[n - 1].0, encseq[n - 1].1)
  }

  // ----- Lines that are one run each -----

  /** One more substructure is written. */
  predicate OnePattern(es: seq<Element>, before: seq<Element>, row: int, col: int, vals: seq<real>,
                       inst: Instantiation) {
    vals != [] && es == before + [MakePattern(row, col, vals, inst)]
  }

  /** Positions that are multiples of a selected step, as many as a substructure may have. */
  predicate OneRun(t: Encoding, xs: seq<int>, c: Config) {
    && !t.IsBlock() && |xs| >= 2 && c.minLimit <= |xs| <= c.maxLimit
    && xs[0] >= 1 && Inst(t, xs[0]) in c.insts
    && forall k :: 0 <= k < |xs| ==> xs[k] == Walk(0, xs[0], k + 1)
  }

  function ValsOf(line: seq<Element>): seq<real>
    requires AllShaped(line)
  {
    seq(|line|, i requires 0 <= i < |line| => line[i].vals[0])
  }

  /** All elements are single ones of one line, and they are one run. */
  predicate RunLine(t: Encoding, line: seq<Element>, c: Config) {
    && AllShaped(line) && OneRun(t, ColsOf(line), c)
    && forall i :: 0 <= i < |line| ==> !line[i].IsPattern() && line[i].row == line[0].row
  }

  /** The substructure that takes the place of such a line. */
  function RunOfLine(t: Encoding, line: seq<Element>): Element
    requires AllShaped(line) && line != []
  {
    MakePattern(line[0].row, line[0].col, ValsOf(line), Inst(t, if line[0].col >= 0 then line[0].col else 0))
  }

  /** Every line of a table is empty or a single run. */
  predicate LinesRun(t: Encoding, es: seq<Element>, rp: seq<nat>, c: Config) {
    && AllShaped(es) && IsRowptr(rp, es) && Tight(rp, es)
    && forall i :: 0 <= i < |rp| - 1 && rp[i] < rp[i + 1] <= |es| ==> RunLine(t, es[rp[i]..rp[i + 1]], c)
  }

  /** The substructures that take the place of the first `n` lines. */
  function RunsOf(t: Encoding, es: seq<Element>, rp: seq<nat>, n: nat): seq<Element>
    requires AllShaped(es) && n < |rp| && IsRowptr(rp, es)
  {
    if n == 0 then []
    else
      RowptrEnds(rp, es);
      RunsOf(t, es, rp, n - 1) + if rp[n - 1] < rp[n] then [RunOfLine(t, es[rp[n - 1]..rp[n]])] else []
  }

  /** A partition all of whose lines, re-ordered, are empty or single runs holds just these
      runs afterwards. */
  ghost predicate WholeRuns(t: Encoding, before: seq<Element>, from: Encoding, after: seq<Element>, c: Config,
                            d: Dims) {
    t.IsOrder() && from.IsOrder() && var es := Sort(Moved(before, from, t, d));
      forall rp :: LinesRun(t, es, rp, c) ==> after == RunsOf(t, es, rp, |rp| - 1)
  }

  lemma {:induction false} WholeRunsAre(t: Encoding, before: seq<Element>, from: Order, after: seq<Element>,
                                        c: Config, d: Dims, es: seq<Element>, rp: seq<nat>)
    requires WholeRuns(t, before, from, after, c, d) && t.IsOrder() && es == Sort(Moved(before, from, t, d))
    requires LinesRun(t, es, rp, c)
    ensures after == RunsOf(t, es, rp, |rp| - 1)
  {
    hide LinesRun, RunsOf, Sort, Moved;
  }

  lemma {:induction false} NoLineRuns(t: Encoding, es: seq<Element>, rp: seq<nat>)
    requires AllShaped(es) && IsRowptr(rp, es)
    ensures RunsOf(t, es, rp, 0) == []
  {
  }

  lemma {:induction false} RunsNext(t: Encoding, es: seq<Element>, rp: seq<nat>, i: nat, c: Config)
    requires LinesRun(t, es, rp, c) && i + 1 < |rp|
    ensures rp[i] <= rp[i + 1] <= |es|
    ensures rp[i] < rp[i + 1] ==> RunLine(t, es[rp[i]..rp[i + 1]], c)
    ensures RunsOf(t, es, rp, i + 1)
      == RunsOf(t, es, rp, i) + if rp[i] < rp[i + 1] then [RunOfLine(t, es[rp[i]..rp[i + 1]])] else []
  {
    RowptrEnds(rp, es);
  }

  lemma {:induction false} OneRunDiffs(xs: seq<int>, t: Encoding, c: Config)
    requires OneRun(t, xs, c)
    ensures Diffs(xs) == Repeat(xs[0], |xs|)
  {
    forall k | 0 < k < |xs| ensures xs[k] - xs[k - 1] == xs[0] {
      WalkNext(0, xs[0], k);
    }
  }

  lemma {:induction false} AllRepeat(rles: seq<Rle>, v: int, n: nat)
    requires Expand(rles) == Repeat(v, n) && forall i :: 0 <= i < |rles| ==> rles[i].freq >= 1
    ensures forall i :: 0 <= i < |rles| ==> rles[i].val == v
    decreases |rles|
  {
    if rles != [] {
      var last, front := rles[|rles| - 1], Expand(rles[..|rles| - 1]);
      assert Expand(rles) == front + Repeat(last.val, last.freq);
      assert (front + Repeat(last.val, last.freq))[|front|] == last.val;
      assert front == Repeat(v, n)[..|front|] == Repeat(v, |front|);
      AllRepeat(rles[..|rles| - 1], v, |front|);
    }
  }

  lemma {:induction false} RunsDiffer(rles: seq<Rle>)
    requires Maximal(rles) && |rles| >= 2
    ensures rles[1].val != rles[0].val
  {
  }

  /** Equal entries are a single run. */
  lemma {:induction false} OneRle(rles: seq<Rle>, v: int, n: nat)
    requires Expand(rles) == Repeat(v, n) && Maximal(rles) && rles != []
    ensures |rles| == 1 && rles[0].val == v && rles[0].freq == n
  {
    AllRepeat(rles, v, n);
    if |rles| >= 2 {
      RunsDiffer(rles);
    } else {
      assert rles[..0] == [] && Expand(rles[..0]) == [];
      assert Expand(rles) == [] + Repeat(rles[0].val, rles[0].freq);
    }
  }

  class EncodingManager {
    const spm: SparsePartition
    const minLimit: nat
    const maxLimit: nat
    const splitBlocks: bool
    const useNuma: bool
    const samplingEnabled: bool
    const samples: seq<Sample>
    var encodedInst: set<Instantiation>
    var xformsIgnore: set<Encoding>

    /** Every type is ignored until it is asked for. */
    constructor (spm: SparsePartition, minLimit: nat, maxLimit: nat, splitBlocks: bool, useNuma: bool,
                 samplingEnabled: bool, samples: seq<Sample>)
      ensures this.spm == spm && encodedInst == {} && xformsIgnore == Types(NR_TYPES)
      ensures this.minLimit == minLimit && this.maxLimit == maxLimit
      ensures this.splitBlocks == splitBlocks && this.useNuma == useNuma
      ensures this.samplingEnabled == samplingEnabled && this.samples == samples
    {
      this.spm, this.minLimit, this.maxLimit := spm, minLimit, maxLimit;
      this.splitBlocks, this.useNuma := splitBlocks, useNuma;
      this.samplingEnabled, this.samples := samplingEnabled, samples;
      encodedInst, xformsIgnore := {}, Types(NR_TYPES);
    }

    method RemoveIgnore(t: Encoding)
      modifies this`xformsIgnore
      ensures xformsIgnore == old(xformsIgnore) - {t}
    {
      xformsIgnore := xformsIgnore - {t};
    }

    function Cfg(): Config
      reads this
    {
      Config(minLimit, maxLimit, splitBlocks, useNuma, encodedInst)
    }

    /** Cuts a run into substructures of at most maxLimit, down to a rest below minLimit. */
    method CutRun(encoded0: seq<Element>, row: int, start0: int, freq: nat, t: Order, step: nat,
                  vs: seq<real>, vi0: nat, ghost e0: nat, ghost xs: seq<int>, ghost g: Goal)
      returns (encoded: seq<Element>, rest: nat, start: int, vi: nat)
      requires Usable(Cfg()) && Inst(t, step) in encodedInst && !t.IsBlock()
      requires Progress(encoded0, e0, row, t, xs, vs, vi0)
      requires Stretch(xs, vi0, freq, start0, step)
      requires forall k :: 0 <= k < |xs| ==> xs[k] >= 1
      requires WithinLimits(encoded0[e0..], Cfg())
      requires g.byRule && g.n == freq && Meets(encoded0[e0..], t, Cfg(), g, 0)
      ensures rest <= freq && rest < minLimit && vi == vi0 + (freq - rest)
      ensures start == Walk(start0, step, freq - rest)
      ensures Progress(encoded, e0, row, t, xs, vs, vi) && encoded[..e0] == encoded0[..e0]
      ensures WithinLimits(encoded[e0..], Cfg())
      ensures Meets(encoded[e0..], t, Cfg(), g, freq - rest)
      ensures minLimit <= freq <= maxLimit && vi0 + freq <= |vs| ==>
        rest == 0 && OnePattern(encoded, encoded0, row, start0, vs[vi0..vi0 + freq], Inst(t, step))
    {
      hide Progress, Walk, Meets;
      ProgressBounds(encoded0, e0, row, t, xs, vs, vi0);
      encoded, rest, start, vi := encoded0, freq, start0, vi0;
      WalkNext(start0, step, 0);
      while rest >= minLimit
        invariant rest <= freq && vi == vi0 + (freq - rest)
        invariant start == Walk(start0, step, freq - rest)
        invariant Progress(encoded, e0, row, t, xs, vs, vi) && e0 <= |encoded|
        invariant encoded[..e0] == encoded0[..e0]
        invariant WithinLimits(encoded[e0..], Cfg())
        invariant Meets(encoded[e0..], t, Cfg(), g, freq - rest)
        invariant minLimit <= freq <= maxLimit && vi0 + freq <= |vs| ==>
          (rest == freq && encoded == encoded0 && start == start0)
          || (rest == 0 && OnePattern(encoded, encoded0, row, start0, vs[vi0..vi0 + freq], Inst(t, step)))
        decreases rest
      {
        var curr := if maxLimit < rest then maxLimit else rest;
        var e := MakePattern(row, start, vs[vi..vi + curr], Inst(t, step));
        StretchShift(xs, vi0, freq, start0, step, freq - rest);
        RunElement(e, row, start, vs, vi, curr, t, step, xs, rest);
        ProgressRun(encoded, e0, row, t, xs, vs, vi, curr, e);
        PatternPlaces(row, start, vs[vi..vi + curr], t, step);
        MeetsNext(encoded[e0..], e, t, Cfg(), g, freq - rest);
        assert (encoded + [e])[e0..] == encoded[e0..] + [e];
        encoded := encoded + [e];
        WalkAdd(start0, step, freq - rest, curr);
        start := Walk(start, step, curr);
        vi := vi + curr;
        rest := rest - curr;
      }
    }

    /** The substructure over `n` entries of a stretch is one the encoder may write. */
    lemma {:induction false} RunElement(e: Element, row: int, start: int, vs: seq<real>, b: nat, n: nat, t: Order,
                                        step: nat, xs: seq<int>, all: nat)
      requires Usable(Cfg()) && Inst(t, step) in encodedInst && !t.IsBlock()
      requires 1 <= n <= all && n <= maxLimit && b + n <= |vs| == |xs|
      requires e == MakePattern(row, start, vs[b..b + n], Inst(t, step))
      requires Stretch(xs, b, all, start, step)
      requires forall k :: 0 <= k < |xs| ==> xs[k] >= 1
      ensures Fresh(e, row, t) && e.vals == vs[b..b + n] && e.col == start
      ensures e.inst.ty == t || n == 1
      ensures Stretch(xs, b, n, e.col, if e.inst.ty == t then Step(e.inst) else 0)
    {
      assert xs[b] == start by { WalkNext(start, step, 0); }
    }

    /** Where a selected run starts.  Outside NUMA builds the single element before it, which
        it continues, is taken back and joined. */
    method JoinRun(encoded0: seq<Element>, col: int, rle: Rle, vi0: nat,
                   ghost row: int, ghost t: Order, ghost vs: seq<real>, ghost e0: nat, ghost xs: seq<int>)
      returns (encoded: seq<Element>, rleStart: int, rleFreq: nat, vi: nat)
      requires Progress(encoded0, e0, row, t, xs, vs, vi0) && WithinLimits(encoded0[e0..], Cfg())
      requires rle.freq >= 1 && rle.val >= 1 && col == Prev(xs, vi0) + rle.val
      requires Stretch(xs, vi0, rle.freq, col, rle.val)
      requires forall k :: 0 <= k < |xs| ==> xs[k] >= 1
      requires !t.IsBlock()
      ensures Progress(encoded, e0, row, t, xs, vs, vi) && encoded[..e0] == encoded0[..e0]
      ensures e0 <= |encoded| && WithinLimits(encoded[e0..], Cfg())
      ensures col == rle.val ==> encoded == encoded0 && rleStart == col && rleFreq == rle.freq && vi == vi0
      ensures vi + rleFreq == vi0 + rle.freq && rleFreq >= 1 && Stretch(xs, vi, rleFreq, rleStart, rle.val)
      ensures var pl := Places(encoded0[e0..], t);
        && |pl| == vi0 && vi == FirstOf(pl, t, Cfg(), vi0) && Places(encoded[e0..], t) == pl[..vi]
    {
      hide Progress, Walk, Stretch, WithinLimits;
      PlacesAre(encoded0, e0, row, t, xs, vs, vi0);
      ProgressBounds(encoded0, e0, row, t, xs, vs, vi0);
      PrevPositive(xs, vi0);
      encoded, rleStart, rleFreq, vi := encoded0, col, rle.freq, vi0;
      if col != rle.val {
        LastPlaceOf(encoded, e0, row, t, xs, vs, vi);
        ProgressPop(encoded, e0, row, t, xs, vs, vi);
        if !useNuma && !encoded[|encoded| - 1].IsPattern() {
          StretchBack(xs, vi0, rle.freq, col - rle.val, rle.val);
          PopKeepsLimits(encoded, e0, Cfg());
          rleStart := rleStart - rle.val;
          rleFreq := rleFreq + 1;
          encoded := encoded[..|encoded| - 1];
          vi := vi - 1;
        }
      }
    }

    /** The substructures over one run of a linear type: none, if it is not encoded.  Says what is
        left for single elements. */
    method StartRun(rle: Rle, row: int, vs: seq<real>, encoded0: seq<Element>, col0: int, vi0: nat,
                    t: Order, ghost e0: nat, ghost xs: seq<int>)
      returns (encoded: seq<Element>, col: int, vi: nat, rest: nat, ghost g: Goal)
      requires Usable(Cfg()) && !t.IsBlock()
      requires Progress(encoded0, e0, row, t, xs, vs, vi0)
      requires rle.freq >= 1 && rle.val >= 1 && col0 == Prev(xs, vi0)
      requires Stretch(xs, vi0, rle.freq, col0 + rle.val, rle.val)
      requires forall k :: 0 <= k < |xs| ==> xs[k] >= 1
      requires WithinLimits(encoded0[e0..], Cfg())
      requires vi0 < |xs| && LongestRun(Diffs(xs), vi0, rle.freq) && Diffs(xs)[vi0] == rle.val
      ensures vi + rest == vi0 + rle.freq <= |xs| && Progress(encoded, e0, row, t, xs, vs, vi)
      ensures encoded[..e0] == encoded0[..e0] && e0 <= |encoded| && WithinLimits(encoded[e0..], Cfg())
      ensures Stretch(xs, vi, rest, col + rle.val, rle.val) && col + rle.val * rest == Prev(xs, vi + rest)
      ensures GoalFor(g, Places(encoded0[e0..], t), t, Cfg(), xs, vi0, rle.freq) && rest <= g.n
      ensures Meets(encoded[e0..], t, Cfg(), g, g.n - rest) && SinglesAt(g, t, Cfg(), g.n - rest, g.n)
      ensures col0 == 0 && 2 <= rle.freq <= |vs| - vi0 && minLimit <= rle.freq <= maxLimit ==>
        Inst(t, rle.val) in encodedInst ==>
          rest == 0 && OnePattern(encoded, encoded0, row, rle.val, vs[vi0..vi0 + rle.freq], Inst(t, rle.val))
    {
      hide Progress, Walk, Stretch, WithinLimits, Usable, OnePattern, Meets, EntryOk, SinglesAt, Diffs, Places,
           LongestRun, EncodedAt;
      PlacesAre(encoded0, e0, row, t, xs, vs, vi0);
      EncodedStep(t, Cfg(), xs, vi0, rle.freq);
      ghost var pl := Places(encoded0[e0..], t);
      ProgressBounds(encoded0, e0, row, t, xs, vs, vi0);
      encoded, col, vi, rest := encoded0, col0, vi0, rle.freq;
      WalkNext(col0 + rle.val, rle.val, 0);
      if rest != 1 && Inst(t, rle.val) in encodedInst {
        var rleStart;
        encoded, rleStart, rest, vi := JoinRun(encoded, col + rle.val, rle, vi, row, t, vs, e0, xs);
        ghost var b, start0, whole := vi, rleStart, rest;
        StretchStart(xs, vi, rest, rleStart, rle.val);
        g := Goal(pl[..vi], true, rleStart, rest);
        MeetsNothing(encoded[e0..], t, Cfg(), g);
        encoded, rest, rleStart, vi := CutRun(encoded, row, rleStart, rest, t, rle.val, vs, vi, e0, xs, g);
        ShortEntries(g, t, Cfg(), rest);
        col := rleStart - rle.val;
        StretchShift(xs, b, whole, start0, rle.val, whole - rest);
        ProgressBounds(encoded, e0, row, t, xs, vs, vi);
        EndColumn(col + rle.val * rest, start0, rle.val, whole, rest, xs, b);
      } else {
        StretchStart(xs, vi, rest, col0 + rle.val, rle.val);
        g := Goal(pl, false, col0 + rle.val, rest);
        MeetsNothing(encoded[e0..], t, Cfg(), g);
        SingleEntries(g, t, Cfg());
        EndColumn(col + rle.val * rest, col0 + rle.val, rle.val, rest, rest, xs, vi);
      }
    }

    /** One run of a linear type. */
    method EncodeRun(rle: Rle, row: int, vs: seq<real>, encoded0: seq<Element>, col0: int, vi0: nat,
                     t: Order, ghost e0: nat, ghost xs: seq<int>)
      returns (encoded: seq<Element>, col: int, vi: nat, ghost g: Goal)
      requires Usable(Cfg()) && !t.IsBlock()
      requires Progress(encoded0, e0, row, t, xs, vs, vi0)
      requires rle.freq >= 1 && rle.val >= 1 && col0 == Prev(xs, vi0)
      requires Stretch(xs, vi0, rle.freq, col0 + rle.val, rle.val)
      requires forall k :: 0 <= k < |xs| ==> xs[k] >= 1
      requires WithinLimits(encoded0[e0..], Cfg())
      requires vi0 < |xs| && LongestRun(Diffs(xs), vi0, rle.freq) && Diffs(xs)[vi0] == rle.val
      ensures vi == vi0 + rle.freq && Progress(encoded, e0, row, t, xs, vs, vi)
      ensures col == Prev(xs, vi) && encoded[..e0] == encoded0[..e0]
      ensures WithinLimits(encoded[e0..], Cfg())
      ensures GoalFor(g, Places(encoded0[e0..], t), t, Cfg(), xs, vi0, rle.freq)
      ensures Meets(encoded[e0..], t, Cfg(), g, g.n)
      ensures col0 == 0 && 2 <= rle.freq <= |vs| - vi0 && minLimit <= rle.freq <= maxLimit ==>
        Inst(t, rle.val) in encodedInst ==>
          OnePattern(encoded, encoded0, row, rle.val, vs[vi0..vi0 + rle.freq], Inst(t, rle.val))
    {
      hide Progress, Walk, Stretch, WithinLimits, Usable, OnePattern, Meets, EntryOk, SinglesAt, Diffs, Places,
           LongestRun, EncodedAt, GoalFor;
      var rest;
      encoded, col, vi, rest, g := StartRun(rle, row, vs, encoded0, col0, vi0, t, e0, xs);
      ghost var before := encoded;
      encoded, vi := AddSingles(encoded, row, col + rle.val, rle.val, rest, vs, vi, e0, t, xs, Cfg(), g, g.n - rest);
      SinglesKeepLimits(before, encoded, e0, Cfg());
      assert rest == 0 ==> encoded == before;
      col := col + rle.val * rest;
    }

    /** Which runs of a linear type are encoded. */
    lemma {:induction false} EncodedStep(t: Encoding, c: Config, xs: seq<int>, b: nat, f: nat)
      requires LongestRun(Diffs(xs), b, f) && !t.IsBlock() && Diffs(xs)[b] >= 1
      ensures EncodedAt(t, c, Diffs(xs), b) <==> f != 1 && Inst(t, Diffs(xs)[b]) in c.insts
      ensures b + f <= |xs|
    {
      hide Diffs;
    }

    lemma {:induction false} StretchStart(xs: seq<int>, b: nat, n: nat, start: int, step: int)
      requires Stretch(xs, b, n, start, step) && n >= 1
      ensures xs[b] == start
    {
      WalkNext(start, step, 0);
    }

    /** Appends one block. */
    method AddBlock(encoded0: seq<Element>, row: int, start: int, n: nat, t: Order, vs: seq<real>, vi: nat,
                    ghost e0: nat, ghost xs: seq<int>, ghost g: Goal, ghost done: nat)
      returns (encoded: seq<Element>)
      requires t.IsBlock() && n >= 1 && n <= CTL_SIZE_MAX && n % t.Alignment() == 0
      requires Progress(encoded0, e0, row, t, xs, vs, vi)
      requires e0 <= |encoded0| && WithinLimits(encoded0[e0..], Cfg())
      requires Picked(Inst(t, n / t.Alignment()), Cfg())
      requires Stretch(xs, vi, n, start, 1) && start >= 1 && (start - 1) % t.Alignment() == 0
      requires Meets(encoded0[e0..], t, Cfg(), g, done) && done + n <= g.n && EntryOk(g, t, Cfg(), done, n)
      ensures Progress(encoded, e0, row, t, xs, vs, vi + n) && encoded[..e0] == encoded0[..e0]
      ensures |encoded| == |encoded0| + 1
      ensures e0 <= |encoded| && WithinLimits(encoded[e0..], Cfg())
      ensures Meets(encoded[e0..], t, Cfg(), g, done + n)
    {
      hide Walk, Meets, EntryOk;
      var e := MakePattern(row, start, vs[vi..vi + n], Inst(t, n / t.Alignment()));
      BlockElement(e, row, start, vs, vi, n, t, xs);
      ProgressRun(encoded0, e0, row, t, xs, vs, vi, n, e);
      LimitsSnoc(encoded0, e0, e, Cfg());
      PatternPlaces(row, start, vs[vi..vi + n], t, n / t.Alignment());
      MeetsNext(encoded0[e0..], e, t, Cfg(), g, done);
      assert (encoded0 + [e])[e0..] == encoded0[e0..] + [e];
      encoded := encoded0 + [e];
    }

    /** Takes back the single element a run of consecutive positions continues from. */
    method JoinPrevious(encoded0: seq<Element>, row: int, col: int, freq: nat, vi0: nat, t: Order,
                        ghost vs: seq<real>, ghost e0: nat, ghost xs: seq<int>)
      returns (encoded: seq<Element>, start: nat, vi: nat)
      requires Progress(encoded0, e0, row, t, xs, vs, vi0)
      requires e0 <= |encoded0| && WithinLimits(encoded0[e0..], Cfg())
      requires freq >= 1 && col == Prev(xs, vi0) + 1
      requires Stretch(xs, vi0, freq, col, 1)
      requires forall k :: 0 <= k < |xs| ==> xs[k] >= 1
      requires t.IsBlock()
      requires vi0 > 0 ==> |encoded0| > e0 && !encoded0[|encoded0| - 1].IsPattern()
      ensures Progress(encoded, e0, row, t, xs, vs, vi) && encoded[..e0] == encoded0[..e0]
      ensures e0 <= |encoded| && WithinLimits(encoded[e0..], Cfg())
      ensures start >= 1 && start == (if col != 1 then col - 1 else col)
      ensures vi == (if col != 1 then vi0 - 1 else vi0) && vi >= 0
      ensures Stretch(xs, vi, if col != 1 then freq + 1 else freq, start, 1)
      ensures var pl := Places(encoded0[e0..], t);
        |pl| == vi0 && vi == FirstOf(pl, t, Cfg(), vi0) && Places(encoded[e0..], t) == pl[..vi]
    {
      hide Progress, Walk, WithinLimits;
      PlacesAre(encoded0, e0, row, t, xs, vs, vi0);
      PrevPositive(xs, vi0);
      ProgressBounds(encoded0, e0, row, t, xs, vs, vi0);
      encoded, vi := encoded0, vi0;
      if col != 1 {
        start := col - 1;
        LastPlaceOf(encoded, e0, row, t, xs, vs, vi);
        ProgressPop(encoded, e0, row, t, xs, vs, vi);
        StretchBack(xs, vi0, freq, start, 1);
        PopKeepsLimits(encoded, e0, Cfg());
        encoded := encoded[..|encoded| - 1];
        vi := vi - 1;
      } else {
        start := col;
      }
    }

    /** The grid cut of a run: a run that does not start at the line's first position is cut
        together with the entry before it. */
    function CutOf(col: int, freq: nat, align: nat): Cut
      requires col >= 1 && align >= 1
    {
      if col == 1 then CutBlock(1, freq, align) else CutBlock(col - 1, freq + 1, align)
    }

    /** The statistics selected blocks of this many positions. */
    predicate Selected(t: Order, n: nat)
      requires t.IsBlock()
      reads this
    {
      Inst(t, n / t.Alignment()) in encodedInst
    }

    /** One run of a block type, as long blocks of the run's own width. */
    method EncodeBlockRun(rle: Rle, row: int, vs: seq<real>, encoded0: seq<Element>, col0: int, vi0: nat,
                          t: Order, ghost e0: nat, ghost xs: seq<int>)
      returns (encoded: seq<Element>, col: int, vi: nat, ghost g: Goal)
      requires Usable(Cfg()) && t.IsBlock() && maxLimit >= t.Alignment() && !splitBlocks
      requires RunReady(rle, row, vs, encoded0, col0, vi0, t, e0, xs)
      requires e0 <= |encoded0| && WithinLimits(encoded0[e0..], Cfg())
      requires vi0 < |xs| && LongestRun(Diffs(xs), vi0, rle.freq) && Diffs(xs)[vi0] == rle.val
      ensures vi == vi0 + rle.freq && Progress(encoded, e0, row, t, xs, vs, vi)
      ensures e0 <= |encoded| && WithinLimits(encoded[e0..], Cfg())
      ensures col == Prev(xs, vi) && encoded[..e0] == encoded0[..e0]
      ensures GoalFor(g, Places(encoded0[e0..], t), t, Cfg(), xs, vi0, rle.freq)
      ensures Meets(encoded[e0..], t, Cfg(), g, g.n)
      ensures rle.val != 1 ==> |encoded| > e0 && !encoded[|encoded| - 1].IsPattern()
    {
      hide Progress, Walk, Stretch, Usable, CutOf, Prev, Selected, WithinLimits, Meets, EntryOk, SinglesAt, Places,
           Diffs, GoalFor, RunReady, BlockGoal;
      ReadyFacts(rle, row, vs, encoded0, col0, vi0, t, e0, xs);
      ghost var done;
      ReadyPlaces(rle, row, vs, encoded0, col0, vi0, t, e0, xs);
      g, done := GoalOf(rle, Places(encoded0[e0..], t), col0, vi0, t, xs);
      ProgressBounds(encoded0, e0, row, t, xs, vs, vi0);
      var align := t.Alignment();
      encoded, vi, col := encoded0, vi0, col0 + rle.val;
      PrevPositive(xs, vi0);
      var cut := CutOf(col, rle.freq, align);
      if rle.val == 1 && Selected(t, cut.middle) && cut.middle >= 2 * align {
        CutOfFacts(col, rle.freq, align);
        CutGoal(g, col, rle.freq, t);
        var start;
        encoded, start, vi := JoinPrevious(encoded, row, col, rle.freq, vi, t, vs, e0, xs);
        MeetsNothing(encoded[e0..], t, Cfg(), g);
        encoded, vi := WriteCut(encoded, row, start, cut, t, vs, vi, e0, xs, g);
      } else {
        if rle.val == 1 {
          NoCut(g, col, rle.freq, t);
        } else {
          SingleEntries(g, t, Cfg());
        }
        GoalStarts(encoded0[e0..], t, g, done);
        encoded, vi := AddSingles(encoded, row, col, rle.val, rle.freq, vs, vi, e0, t, xs, Cfg(), g, done);
        ProgressBounds(encoded0, e0, row, t, xs, vs, vi0);
        SinglesKeepLimits(encoded0, encoded, e0, Cfg());
      }
      col := col + rle.val * (rle.freq - 1);
      EndOfRun(col0, rle, xs, vi0);
    }

    lemma {:induction false} ReadyFacts(rle: Rle, row: int, vs: seq<real>, encoded: seq<Element>, col: int, vi: nat,
                                        t: Order, e0: nat, xs: seq<int>)
      requires RunReady(rle, row, vs, encoded, col, vi, t, e0, xs)
      ensures Progress(encoded, e0, row, t, xs, vs, vi) && e0 <= |encoded|
      ensures rle.freq >= 1 && rle.val >= 1 && col == Prev(xs, vi)
      ensures Stretch(xs, vi, rle.freq, col + rle.val, rle.val)
      ensures forall k :: 0 <= k < |xs| ==> xs[k] >= 1
      ensures vi > 0 && rle.val == 1 ==> |encoded| > e0 && !encoded[|encoded| - 1].IsPattern()
    {
    }

    /** What is known of the places before a run. */
    lemma {:induction false} ReadyPlaces(rle: Rle, row: int, vs: seq<real>, encoded: seq<Element>, col: int, vi: nat,
                                         t: Order, e0: nat, xs: seq<int>)
      requires RunReady(rle, row, vs, encoded, col, vi, t, e0, xs)
      ensures e0 <= |encoded| && PlacesReady(rle, Places(encoded[e0..], t), col, vi, xs)
    {
      hide Progress, Walk, Stretch, Places;
      ProgressBounds(encoded, e0, row, t, xs, vs, vi);
      PlacesAre(encoded, e0, row, t, xs, vs, vi);
      PrevPositive(xs, vi);
      RunInside(xs, vi, rle.freq, col + rle.val, rle.val);
      StretchStart(xs, vi, rle.freq, col + rle.val, rle.val);
      if vi > 0 && rle.val == 1 {
        LastPlaceOf(encoded, e0, row, t, xs, vs, vi);
      }
    }

    lemma {:induction false} RunInside(xs: seq<int>, b: nat, n: nat, start: int, step: int)
      requires Stretch(xs, b, n, start, step)
      ensures b + n <= |xs|
    {
    }

    /** The places before a run; a single element comes before a run of consecutive positions. */
    predicate PlacesReady(rle: Rle, pl: seq<Place>, col: int, vi: nat, xs: seq<int>) {
      && |pl| == vi && rle.freq >= 1 && vi + rle.freq <= |xs|
      && (col == 0 <==> vi == 0) && (vi > 0 ==> col == xs[vi - 1]) && xs[vi] == col + rle.val
      && (vi > 0 && rle.val == 1 ==> pl == pl[..vi - 1] + [Place(1, 0)])
    }

    /** What is to be written over a run of a block type: a run of consecutive positions goes with
        the single element before it. */
    lemma {:induction false} GoalOf(rle: Rle, pl: seq<Place>, col0: int, vi0: nat, t: Order, xs: seq<int>)
      returns (g: Goal, done: nat)
      requires PlacesReady(rle, pl, col0, vi0, xs) && t.IsBlock()
      requires LongestRun(Diffs(xs), vi0, rle.freq) && Diffs(xs)[vi0] == rle.val
      ensures GoalFor(g, pl, t, Cfg(), xs, vi0, rle.freq) && (g.byRule <==> rle.val == 1)
      ensures done == (if rle.val == 1 && vi0 > 0 then 1 else 0) && g.n == rle.freq + done
      ensures pl == g.front + if done == 1 then [Place(1, 0)] else []
      ensures rle.val == 1 ==> g.start == (if col0 == 0 then 1 else col0) && g.front == pl[..FirstOf(pl, t, Cfg(), vi0)]
    {
      hide Diffs;
      done := if rle.val == 1 && vi0 > 0 then 1 else 0;
      if rle.val == 1 {
        var b := FirstOf(pl, t, Cfg(), vi0);
        g := Goal(pl[..b], true, xs[b], vi0 + rle.freq - b);
      } else {
        g := Goal(pl, false, xs[vi0], rle.freq);
      }
    }

    lemma {:induction false} GoalStarts(es: seq<Element>, t: Order, g: Goal, done: nat)
      requires done <= 1 && done <= g.n && Places(es, t) == g.front + if done == 1 then [Place(1, 0)] else []
      requires SinglesAt(g, t, Cfg(), 0, g.n)
      ensures Meets(es, t, Cfg(), g, done) && SinglesAt(g, t, Cfg(), done, g.n)
    {
      hide Places, EntryOk;
      if done == 1 {
        MeetsOne(es, t, Cfg(), g);
      } else {
        MeetsNothing(es, t, Cfg(), g);
      }
    }

    /** The cut of a run is the one the rule speaks of. */
    lemma {:induction false} CutGoal(g: Goal, col: int, freq: nat, t: Order)
      requires t.IsBlock() && col >= 1 && freq >= 1 && g.byRule
      requires g.start == (if col == 1 then 1 else col - 1) && g.n == (if col == 1 then freq else freq + 1)
      ensures var cut := CutOf(col, freq, t.Alignment());
        && OnGrid(g.start, g.n, t.Alignment()) == cut.middle
        && (cut.middle > 0 ==> BlockGoal(g, t, cut.front, cut.middle, cut.back))
    {
      var a := t.Alignment();
      CutBlockFacts(g.start, g.n, a);
      Columns(if g.n > ToGrid(g.start, a) then g.n - ToGrid(g.start, a) else 0, a);
    }

    /** A run that is not cut leaves single elements. */
    lemma {:induction false} NoCut(g: Goal, col: int, freq: nat, t: Order)
      requires t.IsBlock() && col >= 1 && freq >= 1 && g.byRule
      requires g.start == (if col == 1 then 1 else col - 1) && g.n == (if col == 1 then freq else freq + 1)
      requires var middle := CutOf(col, freq, t.Alignment()).middle;
        middle < 2 * t.Alignment() || (!splitBlocks && !Selected(t, middle))
      ensures SinglesAt(g, t, Cfg(), 0, g.n)
    {
      CutGoal(g, col, freq, t);
      NoBlockEntries(g, t, Cfg());
    }

    lemma {:induction false} EndOfRun(col0: int, rle: Rle, xs: seq<int>, b: nat)
      requires rle.freq >= 1 && Stretch(xs, b, rle.freq, col0 + rle.val, rle.val)
      ensures col0 + rle.val + rle.val * (rle.freq - 1) == Prev(xs, b + rle.freq)
    {
      WalkNext(col0 + rle.val, rle.val, 0);
      EndColumn(col0 + rle.val + rle.val * (rle.freq - 1), col0 + rle.val, rle.val, rle.freq, rle.freq, xs, b);
    }

    lemma {:induction false} CutOfFacts(col: int, freq: nat, align: nat)
      requires col >= 1 && align >= 1 && freq >= 1 && CutOf(col, freq, align).middle >= 2 * align
      ensures var c := CutOf(col, freq, align);
              var start := if col == 1 then 1 else col - 1;
              c.front + c.middle + c.back == (if col == 1 then freq else freq + 1)
              && (start + c.front - 1) % align == 0 && c.middle % align == 0
    {
      hide CutBlock;
      if col == 1 {
        CutBlockFacts(1, freq, align);
      } else {
        CutBlockFacts(col - 1, freq + 1, align);
      }
    }

    /** Singles up to the grid, blocks, singles for what is left. */
    method WriteCut(encoded0: seq<Element>, row: int, start: nat, cut: Cut, t: Order, vs: seq<real>, vi0: nat,
                    ghost e0: nat, ghost xs: seq<int>, ghost g: Goal)
      returns (encoded: seq<Element>, vi: nat)
      requires Usable(Cfg()) && t.IsBlock() && maxLimit >= t.Alignment()
      requires Progress(encoded0, e0, row, t, xs, vs, vi0)
      requires Stretch(xs, vi0, cut.front + cut.middle + cut.back, start, 1)
      requires start >= 1 && (start + cut.front - 1) % t.Alignment() == 0
      requires e0 <= |encoded0| && WithinLimits(encoded0[e0..], Cfg())
      requires !splitBlocks && Selected(t, cut.middle)
      requires cut.middle >= 2 * t.Alignment() && cut.middle % t.Alignment() == 0
      requires forall k :: 0 <= k < |xs| ==> xs[k] >= 1
      requires BlockGoal(g, t, cut.front, cut.middle, cut.back) && Meets(encoded0[e0..], t, Cfg(), g, 0)
      ensures vi == vi0 + cut.front + cut.middle + cut.back
      ensures e0 <= |encoded| && WithinLimits(encoded[e0..], Cfg())
      ensures Progress(encoded, e0, row, t, xs, vs, vi) && encoded[..e0] == encoded0[..e0]
      ensures Meets(encoded[e0..], t, Cfg(), g, g.n)
    {
      hide Progress, Walk, Stretch, WithinLimits, Selected, Picked, Usable, Meets, EntryOk, SinglesAt;
      FrontEntries(g, t, Cfg(), cut.front, cut.middle, cut.back);
      GoalSize(g, t, cut.front, cut.middle, cut.back);
      hide BlockGoal;
      ghost var b, total := vi0, cut.front + cut.middle + cut.back;
      StretchPrefix(xs, b, total, start, 1, cut.front);
      encoded, vi := AddSingles(encoded0, row, start, 1, cut.front, vs, vi0, e0, t, xs, Cfg(), g, 0);
      SinglesKeepLimits(encoded0, encoded, e0, Cfg());
      StretchShift(xs, b, total, start, 1, cut.front);
      WalkOnes(start, cut.front);
      encoded, vi := WriteMiddle(encoded, row, start + cut.front, cut.middle, cut.back, t, vs, vi, e0, xs, g,
                                 cut.front);
    }

    lemma {:induction false} GoalSize(g: Goal, t: Order, front: nat, middle: nat, back: nat)
      requires t.IsBlock() && BlockGoal(g, t, front, middle, back)
      ensures g.n == front + middle + back
    {
    }

    /** The blocks of a cut, and singles for what they leave. */
    method WriteMiddle(encoded0: seq<Element>, row: int, start: nat, middle: nat, back: nat, t: Order, vs: seq<real>,
                       vi0: nat, ghost e0: nat, ghost xs: seq<int>, ghost g: Goal, ghost front: nat)
      returns (encoded: seq<Element>, vi: nat)
      requires Usable(Cfg()) && t.IsBlock() && maxLimit >= t.Alignment()
      requires Progress(encoded0, e0, row, t, xs, vs, vi0)
      requires Stretch(xs, vi0, middle + back, start, 1)
      requires start >= 1 && (start - 1) % t.Alignment() == 0
      requires e0 <= |encoded0| && WithinLimits(encoded0[e0..], Cfg())
      requires !splitBlocks && Selected(t, middle)
      requires middle >= 2 * t.Alignment() && middle % t.Alignment() == 0
      requires forall k :: 0 <= k < |xs| ==> xs[k] >= 1
      requires BlockGoal(g, t, front, middle, back) && Meets(encoded0[e0..], t, Cfg(), g, front)
      ensures vi == vi0 + middle + back
      ensures e0 <= |encoded| && WithinLimits(encoded[e0..], Cfg())
      ensures Progress(encoded, e0, row, t, xs, vs, vi) && encoded[..e0] == encoded0[..e0]
      ensures Meets(encoded[e0..], t, Cfg(), g, g.n)
    {
      hide Progress, Walk, Stretch, WithinLimits, Selected, Picked, Usable, Meets, EntryOk, SinglesAt;
      GoalSize(g, t, front, middle, back);
      var size, nr := BlockPlan(middle, t.Alignment());
      PlanPicked(t, middle, size);
      PlanSize(g, t, front, middle, back, size);
      hide BlockGoal, BlockSize;
      var done := size * nr;
      BlocksDone(g, t, Cfg(), front, middle, back, size, done);
      encoded, vi := AddBlocks(encoded0, row, start, size, nr, middle + back, t, vs, vi0, e0, xs, g,
                                front, middle, back, done);
      StretchShift(xs, vi0, middle + back, start, 1, done);
      WalkOnes(start, done);
      ghost var blocks := encoded;
      encoded, vi := AddSingles(encoded, row, start + done, 1, back + (middle - done), vs, vi, e0, t, xs,
                                 Cfg(), g, front + done);
      SinglesKeepLimits(blocks, encoded, e0, Cfg());
    }

    /** The size of the blocks is that of the rule. */
    lemma {:induction false} PlanSize(g: Goal, t: Order, front: nat, middle: nat, back: nat, size: nat)
      requires t.IsBlock() && BlockGoal(g, t, front, middle, back) && !splitBlocks && Selected(t, middle)
      requires middle >= 2 * t.Alignment()
      requires size == if middle < maxLimit / t.Alignment() * t.Alignment() then middle
                       else maxLimit / t.Alignment() * t.Alignment()
      ensures BlockSize(g, t, Cfg(), front, middle, back, size)
    {
      hide BlockGoal;
    }

    /** What is known when a run of the line is about to be encoded. */
    ghost predicate RunReady(rle: Rle, row: int, vs: seq<real>, encoded: seq<Element>, col: int, vi: nat,
                             t: Order, e0: nat, xs: seq<int>)
    {
      && Progress(encoded, e0, row, t, xs, vs, vi)
      && rle.freq >= 1 && rle.val >= 1 && col == Prev(xs, vi)
      && Stretch(xs, vi, rle.freq, col + rle.val, rle.val)
      && (forall k :: 0 <= k < |xs| ==> xs[k] >= 1)
      && (vi > 0 && rle.val == 1 ==> |encoded| > e0 && !encoded[|encoded| - 1].IsPattern())
    }

    /** One run of a block type, cut into the block widths the statistics selected, widest
        first. */
    method EncodeBlockAltRun(rle: Rle, row: int, vs: seq<real>, encoded0: seq<Element>, col0: int, vi0: nat,
                             t: Order, ghost e0: nat, ghost xs: seq<int>)
      returns (encoded: seq<Element>, col: int, vi: nat, ghost g: Goal)
      requires Usable(Cfg()) && t.IsBlock() && splitBlocks
      requires RunReady(rle, row, vs, encoded0, col0, vi0, t, e0, xs)
      requires e0 <= |encoded0| && WithinLimits(encoded0[e0..], Cfg())
      requires vi0 < |xs| && LongestRun(Diffs(xs), vi0, rle.freq) && Diffs(xs)[vi0] == rle.val
      ensures vi == vi0 + rle.freq && Progress(encoded, e0, row, t, xs, vs, vi)
      ensures e0 <= |encoded| && WithinLimits(encoded[e0..], Cfg())
      ensures col == Prev(xs, vi) && encoded[..e0] == encoded0[..e0]
      ensures GoalFor(g, Places(encoded0[e0..], t), t, Cfg(), xs, vi0, rle.freq)
      ensures Meets(encoded[e0..], t, Cfg(), g, g.n)
      ensures rle.val != 1 ==> |encoded| > e0 && !encoded[|encoded| - 1].IsPattern()
    {
      hide Progress, Walk, Stretch, Usable, CutOf, Prev, WithinLimits, Meets, EntryOk, SinglesAt, Places, Diffs,
           GoalFor, RunReady, BlockGoal;
      ReadyFacts(rle, row, vs, encoded0, col0, vi0, t, e0, xs);
      ghost var done;
      ReadyPlaces(rle, row, vs, encoded0, col0, vi0, t, e0, xs);
      g, done := GoalOf(rle, Places(encoded0[e0..], t), col0, vi0, t, xs);
      ProgressBounds(encoded0, e0, row, t, xs, vs, vi0);
      var align := t.Alignment();
      encoded, vi, col := encoded0, vi0, col0 + rle.val;
      PrevPositive(xs, vi0);
      var cut := CutOf(col, rle.freq, align);
      if rle.val == 1 && cut.middle >= 2 * align {
        CutOfFacts(col, rle.freq, align);
        CutGoal(g, col, rle.freq, t);
        var start;
        encoded, start, vi := JoinPrevious(encoded, row, col, rle.freq, vi, t, vs, e0, xs);
        MeetsNothing(encoded[e0..], t, Cfg(), g);
        encoded, vi := WriteCutAlt(encoded, row, start, cut, t, vs, vi, e0, xs, g);
      } else {
        if rle.val == 1 {
          NoCut(g, col, rle.freq, t);
        } else {
          SingleEntries(g, t, Cfg());
        }
        GoalStarts(encoded0[e0..], t, g, done);
        encoded, vi := AddSingles(encoded, row, col, rle.val, rle.freq, vs, vi, e0, t, xs, Cfg(), g, done);
        ProgressBounds(encoded0, e0, row, t, xs, vs, vi0);
        SinglesKeepLimits(encoded0, encoded, e0, Cfg());
      }
      col := col + rle.val * (rle.freq - 1);
      EndOfRun(col0, rle, xs, vi0);
    }

    /** Singles up to the grid, blocks of the selected widths, singles for what is left. */
    method WriteCutAlt(encoded0: seq<Element>, row: int, start0: nat, cut: Cut, t: Order, vs: seq<real>, vi0: nat,
                       ghost e0: nat, ghost xs: seq<int>, ghost g: Goal)
      returns (encoded: seq<Element>, vi: nat)
      requires Usable(Cfg()) && t.IsBlock() && splitBlocks
      requires Progress(encoded0, e0, row, t, xs, vs, vi0)
      requires Stretch(xs, vi0, cut.front + cut.middle + cut.back, start0, 1)
      requires start0 >= 1 && (start0 + cut.front - 1) % t.Alignment() == 0
      requires e0 <= |encoded0| && WithinLimits(encoded0[e0..], Cfg())
      requires cut.middle % t.Alignment() == 0
      requires forall k :: 0 <= k < |xs| ==> xs[k] >= 1
      requires cut.middle >= 2 * t.Alignment()
      requires BlockGoal(g, t, cut.front, cut.middle, cut.back) && Meets(encoded0[e0..], t, Cfg(), g, 0)
      ensures vi == vi0 + cut.front + cut.middle + cut.back
      ensures e0 <= |encoded| && WithinLimits(encoded[e0..], Cfg())
      ensures Progress(encoded, e0, row, t, xs, vs, vi) && encoded[..e0] == encoded0[..e0]
      ensures Meets(encoded[e0..], t, Cfg(), g, g.n)
    {
      hide Progress, Walk, Stretch, WithinLimits, Meets, EntryOk, SinglesAt;
      FrontEntries(g, t, Cfg(), cut.front, cut.middle, cut.back);
      GoalSize(g, t, cut.front, cut.middle, cut.back);
      hide BlockGoal;
      ghost var total := cut.front + cut.middle + cut.back;
      ProgressBounds(encoded0, e0, row, t, xs, vs, vi0);
      StretchPrefix(xs, vi0, total, start0, 1, cut.front);
      encoded, vi := AddSingles(encoded0, row, start0, 1, cut.front, vs, vi0, e0, t, xs, Cfg(), g, 0);
      SinglesKeepLimits(encoded0, encoded, e0, Cfg());
      StretchShift(xs, vi0, total, start0, 1, cut.front);
      WalkOnes(start0, cut.front);
      var start: nat, nrElem: nat := start0 + cut.front, cut.middle;
      ProgressBounds(encoded, e0, row, t, xs, vs, vi);
      var dims := set i | i in encodedInst && i.ty == t :: i.dim;
      while dims != {}
        invariant forall d :: d in dims ==> Inst(t, d) in encodedInst
        invariant forall d: nat :: Selects(t, Cfg(), d) && d !in dims ==> t.Alignment() * d > nrElem
        invariant Progress(encoded, e0, row, t, xs, vs, vi) && e0 <= |encoded|
        invariant encoded[..e0] == encoded0[..e0]
        invariant WithinLimits(encoded[e0..], Cfg())
        invariant nrElem <= cut.middle && Meets(encoded[e0..], t, Cfg(), g, cut.front + cut.middle - nrElem)
        invariant vi + nrElem + cut.back == vi0 + total
        invariant Stretch(xs, vi, nrElem + cut.back, start, 1)
        invariant start >= 1 && (start - 1) % t.Alignment() == 0
        decreases dims
      {
        var d := Widest(dims);
        dims := dims - {d};
        encoded, start, vi, nrElem := AddWidth(encoded, row, start, d, nrElem, cut.back, t, vs, vi, e0, xs, g, cut);
        ProgressBounds(encoded, e0, row, t, xs, vs, vi);
      }
      ghost var blocks := encoded;
      RestEntries(g, t, Cfg(), cut.front, cut.middle, cut.back, nrElem);
      encoded, vi := AddSingles(encoded, row, start, 1, cut.back + nrElem, vs, vi, e0, t, xs, Cfg(), g,
                                 cut.front + cut.middle - nrElem);
      SinglesKeepLimits(blocks, encoded, e0, Cfg());
    }

    /** Blocks of one width, as many as fit. */
    method AddWidth(encoded0: seq<Element>, row: int, start0: nat, d: nat, nrElem0: nat, ghost back: nat, t: Order,
                    vs: seq<real>, vi0: nat, ghost e0: nat, ghost xs: seq<int>, ghost g: Goal, ghost cut: Cut)
      returns (encoded: seq<Element>, start: nat, vi: nat, nrElem: nat)
      requires Usable(Cfg()) && t.IsBlock() && splitBlocks && Inst(t, d) in encodedInst
      requires Progress(encoded0, e0, row, t, xs, vs, vi0)
      requires e0 <= |encoded0| && WithinLimits(encoded0[e0..], Cfg())
      requires Stretch(xs, vi0, nrElem0 + back, start0, 1)
      requires start0 >= 1 && (start0 - 1) % t.Alignment() == 0
      requires BlockGoal(g, t, cut.front, cut.middle, cut.back) && nrElem0 <= cut.middle
      requires cut.middle >= 2 * t.Alignment()
      requires Meets(encoded0[e0..], t, Cfg(), g, cut.front + cut.middle - nrElem0)
      requires forall d': nat :: Selects(t, Cfg(), d') && d' > d ==> t.Alignment() * d' > nrElem0
      ensures nrElem <= nrElem0 && t.Alignment() * d > nrElem
      ensures vi + nrElem == vi0 + nrElem0 && nrElem / t.Alignment() < d
      ensures e0 <= |encoded| && WithinLimits(encoded[e0..], Cfg())
      ensures Progress(encoded, e0, row, t, xs, vs, vi) && encoded[..e0] == encoded0[..e0]
      ensures Meets(encoded[e0..], t, Cfg(), g, cut.front + cut.middle - nrElem)
      ensures Stretch(xs, vi, nrElem + back, start, 1)
      ensures start >= 1 && (start - 1) % t.Alignment() == 0
    {
      hide Progress, Walk, Stretch, WithinLimits, Meets, EntryOk;
      GoalSize(g, t, cut.front, cut.middle, cut.back);
      hide BlockGoal;
      var align := t.Alignment();
      ProgressBounds(encoded0, e0, row, t, xs, vs, vi0);
      encoded, start, vi, nrElem := encoded0, start0, vi0, nrElem0;
      while nrElem / align >= d
        invariant vi + nrElem == vi0 + nrElem0
        invariant Progress(encoded, e0, row, t, xs, vs, vi) && e0 <= |encoded|
        invariant encoded[..e0] == encoded0[..e0]
        invariant WithinLimits(encoded[e0..], Cfg())
        invariant nrElem <= nrElem0 && Meets(encoded[e0..], t, Cfg(), g, cut.front + cut.middle - nrElem)
        invariant Stretch(xs, vi, nrElem + back, start, 1)
        invariant start >= 1 && (start - 1) % align == 0
        decreases nrElem
      {
        var n := align * d;
        WidthFits(align, d, nrElem);
        Utility.ModOfMultiple(align, d);
        StretchPrefix(xs, vi, nrElem + back, start, 1, n);
        WidestEntry(g, t, Cfg(), cut.front, cut.middle, cut.back, nrElem, d);
        encoded := AddBlock(encoded, row, start, n, t, vs, vi, e0, xs, g, cut.front + cut.middle - nrElem);
        StretchShift(xs, vi, nrElem + back, start, 1, n);
        WalkOnes(start, n);
        MultiplesAdd(start - 1, n, align);
        start := start + n;
        vi := vi + n;
        nrElem := nrElem - n;
      }
      WidthLeft(align, d, nrElem);
    }

    lemma {:induction false} WidthLeft(align: nat, d: nat, nrElem: nat)
      requires align >= 1 && nrElem / align < d
      ensures align * d > nrElem
    {
      var q := nrElem / align;
      assert nrElem == align * q + nrElem % align;
      Utility.AtLeastOne(align, q, d);
    }

    lemma {:induction false} WidthFits(align: nat, d: nat, nrElem: nat)
      requires align >= 1 && d >= 1 && nrElem / align >= d
      ensures 1 <= align * d <= nrElem
    {
      assert nrElem >= align * (nrElem / align);
      if nrElem / align > d {
        Utility.AtLeastOne(align, d, nrElem / align);
      }
      Utility.AtLeastOne(align, 0, d);
    }

    /** The largest member: the set is walked from its end. */
    method Widest(dims: set<nat>) returns (d: nat)
      requires dims != {}
      ensures d in dims && forall x :: x in dims ==> x <= d
    {
      d :| d in dims;
      var todo := dims - {d};
      while todo != {}
        invariant d in dims && todo <= dims
        invariant forall x :: x in dims && x !in todo ==> x <= d
        decreases todo
      {
        var x :| x in todo;
        if x > d {
          d := x;
        }
        todo := todo - {x};
      }
    }

    /** Encodes a stretch of single elements of one line: what is appended covers exactly the
        positions and values of the line, in order, and nothing written before is touched. */
    method DoEncode(row: int, xs: seq<int>, vs: seq<real>, encoded0: seq<Element>) returns (encoded: seq<Element>)
      requires Usable(Cfg()) && spm.ty.IsOrder()
      requires spm.ty.IsBlock() && !splitBlocks ==> maxLimit >= spm.ty.Alignment()
      requires xs != [] && |xs| == |vs| && Increasing(xs) && xs[0] >= 1
      ensures encoded0 <= encoded
      ensures Covers(encoded[|encoded0|..], row, spm.ty, xs, vs)
      ensures WithinLimits(encoded[|encoded0|..], Cfg())
      ensures Written(encoded[|encoded0|..], spm.ty, xs, Cfg())
      ensures OneRun(spm.ty, xs, Cfg()) ==> OnePattern(encoded, encoded0, row, xs[0], vs, Inst(spm.ty, xs[0]))
    {
      hide Usable, Covers, Increasing, Expand, Diffs, Walk, WithinLimits, OneRun, OnePattern, Meets, GoalFor, Places,
           RunWritten, LongestRun, Written;
      var t: Order := spm.ty;
      var data := DeltaEncode(xs);
      var rles := RLEncode(data);
      IncreasingPositive(xs);
      encoded := encoded0;
      ghost var one := OneRun(t, xs, Cfg());
      OneRunFacts(t, xs, vs, Cfg());
      if one {
        OneRunDiffs(xs, t, Cfg());
        OneRle(rles, xs[0], |xs|);
      }
      ghost var e0 := |encoded0|;
      ProgressStart(encoded0, row, t, xs, vs);
      var col, vi, j := 0, 0, 0;
      NoRuns(rles);
      NoPlaces(t);
      assert encoded[e0..] == [];
      NothingWritten(Cfg());
      while j < |rles|
        invariant j <= |rles| && vi == Total(rles[..j]) <= |xs|
        invariant Progress(encoded, e0, row, t, xs, vs, vi) && e0 <= |encoded|
        invariant encoded[..e0] == encoded0[..e0]
        invariant col == Prev(xs, vi)
        invariant RunsWritten(Places(encoded[e0..], t), t, Cfg(), xs, rles, j)
        invariant WithinLimits(encoded[e0..], Cfg())
        invariant t.IsBlock() && j > 0 && rles[j - 1].val != 1 ==> |encoded| > e0 && !encoded[|encoded| - 1].IsPattern()
        invariant j == 0 ==> vi == 0 && col == 0 && encoded == encoded0
        invariant one && j == 1 ==> OnePattern(encoded, encoded0, row, xs[0], vs, Inst(t, xs[0]))
      {
        ghost var n := RunOf(xs, rles, j);
        PositiveSteps(xs, rles, j);
        RunStretch(xs, n, rles[j]);
        RunLongest(xs, rles, j);
        ghost var es := encoded[e0..];
        ghost var g;
        if t.IsBlock() {
          assert j > 0 && rles[j].val == 1 ==> rles[j - 1].val != 1;
          if splitBlocks {
            encoded, col, vi, g := EncodeBlockAltRun(rles[j], row, vs, encoded, col, vi, t, e0, xs);
          } else {
            encoded, col, vi, g := EncodeBlockRun(rles[j], row, vs, encoded, col, vi, t, e0, xs);
          }
        } else {
          encoded, col, vi, g := EncodeRun(rles[j], row, vs, encoded, col, vi, t, e0, xs);
        }
        ProgressBounds(encoded, e0, row, t, xs, vs, vi);
        RunAdded(encoded[e0..], Places(es, t), t, g, xs, rles, j);
        j := j + 1;
      }
      assert rles[..j] == rles;
      ProgressEnd(encoded, encoded0, row, t, xs, vs);
      AllRunsWritten(encoded[e0..], t, xs, rles);
    }

    /** The first n runs have been written by the rule. */
    ghost predicate RunsWritten(pl: seq<Place>, t: Order, c: Config, xs: seq<int>, rles: seq<Rle>, n: nat) {
      && n <= |rles| && |pl| == Total(rles[..n])
      && forall q :: 0 <= q < n ==> RunWritten(pl, t, c, xs, Total(rles[..q]), rles[q].freq)
    }

    /** A run of the encoding is a longest run of equal differences. */
    lemma {:induction false} RunLongest(xs: seq<int>, rles: seq<Rle>, j: nat)
      requires j < |rles| && Expand(rles) == Diffs(xs) && Maximal(rles)
      ensures Total(rles[..j]) < |xs| && LongestRun(Diffs(xs), Total(rles[..j]), rles[j].freq)
      ensures Diffs(xs)[Total(rles[..j])] == rles[j].val
      ensures Total(rles[..j + 1]) == Total(rles[..j]) + rles[j].freq
    {
      hide Diffs;
      RunEntries(rles, j);
      if j > 0 {
        RunEntries(rles, j - 1);
      }
      if j + 1 < |rles| {
        RunEntries(rles, j + 1);
      } else {
        assert rles[..j + 1] == rles;
      }
    }

    lemma {:induction false} RunEntries(rles: seq<Rle>, j: nat)
      requires j < |rles|
      ensures Total(rles[..j + 1]) == Total(rles[..j]) + rles[j].freq <= Total(rles)
      ensures forall k :: Total(rles[..j]) <= k < Total(rles[..j + 1]) ==> Expand(rles)[k] == rles[j].val
    {
      assert rles[..j + 1] == rles[..j] + [rles[j]];
      ExpandSnoc(rles[..j], rles[j]);
      ExpandPrefix(rles, j + 1);
      assert Expand(rles[..j + 1]) <= Expand(rles);
    }

    /** One more run has been written. */
    lemma {:induction false} RunAdded(es: seq<Element>, pl: seq<Place>, t: Order, g: Goal, xs: seq<int>, rles: seq<Rle>,
                                      j: nat)
      requires j < |rles| && RunsWritten(pl, t, Cfg(), xs, rles, j)
      requires Total(rles[..j + 1]) == Total(rles[..j]) + rles[j].freq
      requires GoalFor(g, pl, t, Cfg(), xs, Total(rles[..j]), rles[j].freq) && Meets(es, t, Cfg(), g, g.n)
      ensures RunsWritten(Places(es, t), t, Cfg(), xs, rles, j + 1)
    {
      hide Places, GoalFor, Meets, RunWritten, SameBefore, Expand;
      var b, f := Total(rles[..j]), rles[j].freq;
      GoalWritten(es, pl, t, Cfg(), g, xs, b, f);
      GoalBefore(es, pl, t, Cfg(), g, xs, b, f);
      forall q | 0 <= q < j ensures RunWritten(Places(es, t), t, Cfg(), xs, Total(rles[..q]), rles[q].freq) {
        RunEnds(rles, q, j);
        WrittenBefore(Places(es, t), pl, t, Cfg(), xs, b, Total(rles[..q]), rles[q].freq);
      }
    }

    lemma {:induction false} RunEnds(rles: seq<Rle>, q: nat, j: nat)
      requires q < j <= |rles|
      ensures Total(rles[..q]) + rles[q].freq <= Total(rles[..j])
    {
      RunEntries(rles[..j], q);
      assert rles[..j][..q] == rles[..q] && rles[..j][..q + 1] == rles[..q + 1];
    }

    /** Every longest run is one of the encoding. */
    lemma {:induction false} AllRunsWritten(es: seq<Element>, t: Order, xs: seq<int>, rles: seq<Rle>)
      requires Expand(rles) == Diffs(xs) && Maximal(rles)
      requires RunsWritten(Places(es, t), t, Cfg(), xs, rles, |rles|)
      ensures Written(es, t, xs, Cfg())
    {
      hide Places, RunWritten, Diffs, Expand;
      forall b, f | LongestRun(Diffs(xs), b, f) ensures RunWritten(Places(es, t), t, Cfg(), xs, b, f) {
        var q := RunIndex(xs, rles, b, f);
      }
    }

    lemma {:induction false} RunIndex(xs: seq<int>, rles: seq<Rle>, b: nat, f: nat) returns (q: nat)
      requires Expand(rles) == Diffs(xs) && Maximal(rles) && LongestRun(Diffs(xs), b, f)
      ensures q < |rles| && b == Total(rles[..q]) && f == rles[q].freq
    {
      hide Diffs, Expand;
      q := 0;
      NoRuns(rles);
      assert rles[..|rles|] == rles;
      while Total(rles[..q + 1]) <= b
        invariant q < |rles| && Total(rles[..q]) <= b
        decreases |rles| - q
      {
        q := q + 1;
      }
      RunLongest(xs, rles, q);
    }

    static lemma {:induction false} OneRunFacts(t: Encoding, xs: seq<int>, vs: seq<real>, c: Config)
      requires |xs| == |vs|
      ensures OneRun(t, xs, c) ==>
        !t.IsBlock() && |xs| >= 2 && c.minLimit <= |xs| <= c.maxLimit && xs[0] >= 1 && Inst(t, xs[0]) in c.insts
          && vs[0..|xs|] == vs
    {
    }

    lemma {:induction false} NothingWritten(c: Config)
      ensures WithinLimits([], c)
    {
    }

    lemma {:induction false} NoRuns(rles: seq<Rle>)
      ensures Total(rles[..0]) == 0
    {
    }

    lemma {:induction false} IncreasingPositive(xs: seq<int>)
      requires xs != [] && Increasing(xs) && xs[0] >= 1
      ensures forall k :: 0 <= k < |xs| ==> xs[k] >= 1
    {
    }

    lemma {:induction false} RunStretch(xs: seq<int>, n: nat, rle: Rle)
      requires n + rle.freq <= |xs|
      requires forall k :: n <= k < n + rle.freq ==> xs[k] == Walk(Prev(xs, n), rle.val, k - n + 1)
      ensures Stretch(xs, n, rle.freq, Prev(xs, n) + rle.val, rle.val)
    {
      forall k | n <= k < n + rle.freq ensures xs[k] == Walk(Prev(xs, n) + rle.val, rle.val, k - n) {
        WalkNext(Prev(xs, n), rle.val, k - n);
      }
    }

    lemma {:induction false} ProgressEnd(encoded: seq<Element>, encoded0: seq<Element>, row: int, t: Order,
                                         xs: seq<int>, vs: seq<real>)
      requires Progress(encoded, |encoded0|, row, t, xs, vs, |xs|)
      requires encoded[..|encoded0|] == encoded0[..|encoded0|]
      ensures encoded0 <= encoded && Covers(encoded[|encoded0|..], row, t, xs, vs)
    {
      assert xs[..|xs|] == xs && vs[..|xs|] == vs;
      assert encoded0[..|encoded0|] == encoded0;
    }

    /** Size and number of the blocks a run of `middle` grid entries is cut into. */
    method BlockPlan(middle: nat, align: nat) returns (size: nat, nr: nat)
      requires align >= 1 && middle >= 2 * align && middle % align == 0 && maxLimit >= align
      ensures size >= 1 && size % align == 0 && size <= maxLimit && nr >= 1 && size * nr <= middle
      ensures size == if middle < maxLimit / align * align then middle else maxLimit / align * align
      ensures middle < size * nr + size
    {
      var limit := maxLimit / align * align;
      PlanLimit(align);
      nr := middle / limit;
      size := if middle < limit then middle else limit;
      Quotient(middle, limit);
      if nr == 0 {
        nr := 1;
      } else {
        Utility.AtLeastOne(limit, 0, nr);
      }
    }

    lemma {:induction false} PlanLimit(align: nat)
      requires align >= 1 && maxLimit >= align
      ensures var limit := maxLimit / align * align; align <= limit <= maxLimit && limit % align == 0
    {
      Columns(maxLimit, align);
      Floor(maxLimit, align);
    }

    /** The whole columns in x entries. */
    lemma {:induction false} Columns(x: nat, a: nat)
      requires a >= 1
      ensures x / a * a == x - x % a && (x >= a ==> x - x % a >= a)
    {
      var q := x / a;
      assert x == a * q + x % a;
      if x >= a {
        assert q >= 1;
        Utility.AtLeastOne(a, 0, q);
      }
    }

    lemma {:induction false} Quotient(x: nat, a: nat)
      requires a >= 1
      ensures a * (x / a) <= x < a * (x / a) + a
    {
    }

    /** Equal blocks one behind the other. */
    method AddBlocks(encoded0: seq<Element>, row: int, start: int, size: nat, nr: nat, ghost total: nat, t: Order,
                     vs: seq<real>, vi0: nat, ghost e0: nat, ghost xs: seq<int>, ghost g: Goal, ghost front: nat,
                     ghost middle: nat, ghost back: nat, ghost all: nat)
      returns (encoded: seq<Element>, vi: nat)
      requires t.IsBlock() && size >= 1 && size <= CTL_SIZE_MAX && size % t.Alignment() == 0
      requires Progress(encoded0, e0, row, t, xs, vs, vi0)
      requires e0 <= |encoded0| && WithinLimits(encoded0[e0..], Cfg())
      requires Picked(Inst(t, size / t.Alignment()), Cfg())
      requires all <= total && Stretch(xs, vi0, total, start, 1)
      requires start >= 1 && (start - 1) % t.Alignment() == 0
      requires all == size * nr <= middle && BlockSize(g, t, Cfg(), front, middle, back, size)
      requires g.n == front + middle + back && Meets(encoded0[e0..], t, Cfg(), g, front)
      ensures vi == vi0 + all && Progress(encoded, e0, row, t, xs, vs, vi)
      ensures e0 <= |encoded| && WithinLimits(encoded[e0..], Cfg())
      ensures encoded[..e0] == encoded0[..e0]
      ensures Meets(encoded[e0..], t, Cfg(), g, front + all)
    {
      hide Progress, Walk, WithinLimits, Picked, Stretch, Meets, EntryOk, BlockSize;
      ProgressBounds(encoded0, e0, row, t, xs, vs, vi0);
      encoded, vi := encoded0, vi0;
      var i := 0;
      ghost var at := 0;
      while i < nr
        invariant i <= nr && at == size * i && vi == vi0 + at
        invariant Progress(encoded, e0, row, t, xs, vs, vi) && e0 <= |encoded|
        invariant encoded[..e0] == encoded0[..e0]
        invariant WithinLimits(encoded[e0..], Cfg())
        invariant at % t.Alignment() == 0 && Meets(encoded[e0..], t, Cfg(), g, front + at)
      {
        BlockNext(size, i, nr, total, start, xs, vi0, t);
        BlockFits(size, i, nr, middle);
        BlockEntry(g, t, Cfg(), front, middle, back, size, at);
        encoded := AddBlock(encoded, row, start + size * i, size, t, vs, vi, e0, xs, g, front + at);
        vi := vi + size;
        i := i + 1;
        at := at + size;
      }
    }

    /** The planned blocks are of the selected width or the widest ones. */
    lemma {:induction false} PlanPicked(t: Order, middle: nat, size: nat)
      requires t.IsBlock() && Selected(t, middle) && (splitBlocks ==> size == middle)
      requires size == middle || size == maxLimit / t.Alignment() * t.Alignment()
      requires Usable(Cfg()) && size <= maxLimit
      ensures size <= CTL_SIZE_MAX && Picked(Inst(t, size / t.Alignment()), Cfg())
    {
      var a := t.Alignment();
      if size != middle {
        Utility.ModOfMultiple(a, maxLimit / a);
        assert Inst(t, middle / a) in Cfg().insts;
      }
    }

    /** Where block i stands. */
    lemma {:induction false} BlockNext(size: nat, i: nat, nr: nat, total: nat, start: int, xs: seq<int>, b: nat,
                                       t: Order)
      requires t.IsBlock() && i < nr && size * nr <= total && Stretch(xs, b, total, start, 1)
      requires start >= 1 && (start - 1) % t.Alignment() == 0 && size % t.Alignment() == 0
      requires (size * i) % t.Alignment() == 0
      ensures Stretch(xs, b + size * i, size, start + size * i, 1)
      ensures start + size * i >= 1 && (start + size * i - 1) % t.Alignment() == 0
      ensures size * i + size == size * (i + 1) && (size * (i + 1)) % t.Alignment() == 0
    {
      hide Walk;
      BlockFits(size, i, nr, total);
      StretchShift(xs, b, total, start, 1, size * i);
      WalkOnes(start, size * i);
      StretchPrefix(xs, b + size * i, total - size * i, start + size * i, 1, size);
      MultiplesAdd(start - 1, size * i, t.Alignment());
      MultiplesAdd(size * i, size, t.Alignment());
    }

    lemma {:induction false} BlockFits(size: nat, i: nat, nr: nat, total: nat)
      requires i < nr && size * nr <= total
      ensures size * i + size == size * (i + 1) && size * (i + 1) <= total
    {
      assert size * nr == size * (i + 1) + size * (nr - i - 1);
    }

    lemma {:induction false} WalkOnes(start: int, k: int)
      ensures Walk(start, 1, k) == start + k
    {
    }

    lemma {:induction false} StretchPrefix(xs: seq<int>, b: nat, n: nat, start: int, step: int, k: nat)
      requires Stretch(xs, b, n, start, step) && k <= n
      ensures Stretch(xs, b, k, start, step)
    {
    }

    // ----- Rows and rounds -----

    /** The buffered single elements are encoded behind what the row holds so far. */
    method FlushBuffers(newRow0: seq<Element>, row: int, xs: seq<int>, vs: seq<real>, ghost line: seq<Element>,
                        ghost b: nat, ghost i: nat, ghost known: set<Instantiation>)
      returns (newRow: seq<Element>)
      requires Usable(Cfg()) && spm.ty.IsOrder() && LongEnough(spm.ty)
      requires xs != [] && b <= i <= |line| && Buffers(line[b..i], row, xs, vs)
      requires Sorted(line) && forall k :: 0 <= k < |line| ==> line[k].col >= 1
      requires Rewrites(newRow0, line[..b], spm.ty, spm.D()) && Uses(newRow0, known, Cfg(), spm.ty)
      ensures Rewrites(newRow, line[..i], spm.ty, spm.D()) && Uses(newRow, known, Cfg(), spm.ty)
      ensures newRow0 <= newRow && SinglesWritten(newRow[|newRow0|..], line[b..i], spm.ty, Cfg())
      ensures OneRun(spm.ty, xs, Cfg()) ==> OnePattern(newRow, newRow0, row, xs[0], vs, Inst(spm.ty, xs[0]))
    {
      hide Usable, Sorted, Rewrites, Covers, AllShaped, Uses, WithinLimits, OneRun, OnePattern, Written;
      BufferCols(line[b..i], row, xs, vs);
      SortedSlice(line, b, i);
      SortedSlice(line, 0, i);
      BufferIncreasing(line[b..i], row, xs, vs);
      assert line[b..i][0] == line[b];
      newRow := DoEncode(row, xs, vs, newRow0);
      CoversRewrites(newRow[|newRow0|..], line[b..i], row, spm.ty, xs, vs, spm.D());
      CoversPositions(newRow[|newRow0|..], row, spm.ty, xs, vs);
      assert line[..i] == line[..b] + line[b..i] && line[0..i] == line[..i];
      assert newRow == newRow0 + newRow[|newRow0|..];
      WrittenUses(newRow[|newRow0|..], row, spm.ty, xs, vs, known, Cfg());
      UsesConcat(newRow0, newRow[|newRow0|..], known, Cfg(), spm.ty);
      RewritesConcat(newRow0, line[..b], newRow[|newRow0|..], line[b..i], spm.ty, spm.D());
    }

    lemma {:induction false} BufferCols(singles: seq<Element>, row: int, xs: seq<int>, vs: seq<real>)
      requires Buffers(singles, row, xs, vs)
      ensures ColsOf(singles) == xs
    {
    }

    lemma {:induction false} CoversPositions(es: seq<Element>, row: int, t: Encoding, xs: seq<int>, vs: seq<real>)
      requires Covers(es, row, t, xs, vs)
      ensures AllPositions(es, t) == xs
    {
    }

    /** Blocks are cut into pieces of at most maxLimit, which must hold one line of the block. */
    predicate LongEnough(t: Encoding) {
      t.IsBlock() && !splitBlocks ==> maxLimit >= t.Alignment()
    }

    /** The new row stands for the first b elements of the line. */
    ghost predicate RowEncoded(newRow: seq<Element>, line: seq<Element>, b: nat, known: set<Instantiation>)
      reads this, spm
      requires spm.ty.IsOrder()
    {
      && b <= |line| && Rewrites(newRow, line[..b], spm.ty, spm.D()) && Uses(newRow, known, Cfg(), spm.ty)
      && LineWritten(newRow, line[..b], spm.ty, Cfg())
    }

    lemma {:induction false} NothingEncoded(line: seq<Element>, known: set<Instantiation>)
      requires spm.ty.IsOrder()
      ensures RowEncoded([], line, 0, known)
    {
      RewritesNothing(spm.ty, spm.D());
      NothingUsed(known, Cfg(), spm.ty);
      EmptyWritten(spm.ty, Cfg());
      assert line[..0] == [];
    }

    /** The elements b..i are single ones and are in the buffers; a substructure comes before them. */
    predicate Buffered(line: seq<Element>, b: nat, i: nat, row: int, xs: seq<int>, vs: seq<real>) {
      && b <= i <= |line| && Buffers(line[b..i], row, xs, vs) && (b > 0 ==> line[b - 1].IsPattern())
      && forall k :: b <= k < i ==> !line[k].IsPattern()
    }

    /** The buffered single elements are those behind the last substructure. */
    method FlushTail(newRow0: seq<Element>, row: int, xs: seq<int>, vs: seq<real>, ghost line: seq<Element>,
                     ghost b: nat, ghost i: nat, ghost known: set<Instantiation>)
      returns (newRow: seq<Element>)
      requires Usable(Cfg()) && spm.ty.IsOrder() && LongEnough(spm.ty)
      requires xs != [] && Buffered(line, b, i, row, xs, vs)
      requires Sorted(line) && forall k :: 0 <= k < |line| ==> line[k].col >= 1
      requires RowEncoded(newRow0, line, b, known)
      ensures RowEncoded(newRow, line, i, known)
      ensures OneRun(spm.ty, xs, Cfg()) ==> OnePattern(newRow, newRow0, row, xs[0], vs, Inst(spm.ty, xs[0]))
    {
      hide Usable, Sorted, Rewrites, Uses, OneRun, OnePattern, LineWritten, SinglesWritten;
      newRow := FlushBuffers(newRow0, row, xs, vs, line, b, i, known);
      SomeBuffered(line[b..i], row, xs, vs);
      assert line[..i][..b] == line[..b] && line[..i][b..] == line[b..i];
      assert newRow == newRow0 + newRow[|newRow0|..];
      TailAdded(newRow0, newRow[|newRow0|..], line[..i], b, spm.ty, Cfg());
    }

    lemma {:induction false} SomeBuffered(singles: seq<Element>, row: int, xs: seq<int>, vs: seq<real>)
      requires Buffers(singles, row, xs, vs) && xs != []
      ensures singles != []
    {
    }

    /** A substructure stays as it is. */
    lemma {:induction false} PatternKept(newRow: seq<Element>, line: seq<Element>, i: nat)
      requires spm.ty.IsOrder() && i < |line| && line[i].IsPattern() && Sorted(line) && AllShaped(line)
      requires RowEncoded(newRow, line, i, InstsOf(line))
      ensures RowEncoded(newRow + [line[i]], line, i + 1, InstsOf(line))
    {
      hide Sorted, Rewrites, Shaped, Uses, InstsOf, LineWritten;
      var elem := line[i];
      SortedSlice(line, 0, i + 1);
      assert line[..i + 1] == line[..i] + [elem] && line[0..i + 1] == line[..i + 1];
      PatternStays(newRow, line[..i], elem, spm.ty, Cfg());
      RewritesSame(elem, spm.ty, spm.D());
      RewritesConcat(newRow, line[..i], [elem], [elem], spm.ty, spm.D());
      OneUsed(line, i, Cfg(), spm.ty);
      UsesConcat(newRow, [elem], InstsOf(line), Cfg(), spm.ty);
    }

    /** Encodes one line: single elements are gathered until a substructure is met. */
    method EncodeRow(line: seq<Element>) returns (newRow: seq<Element>)
      requires Usable(Cfg()) && spm.ty.IsOrder() && LongEnough(spm.ty)
      requires Sorted(line) && AllShaped(line)
      requires forall k :: 0 <= k < |line| ==> line[k].col >= 1 && line[k].row == line[0].row
      ensures Rewrites(newRow, line, spm.ty, spm.D()) && Uses(newRow, InstsOf(line), Cfg(), spm.ty)
      ensures LineWritten(newRow, line, spm.ty, Cfg())
      ensures RunLine(spm.ty, line, Cfg()) ==> newRow == [RunOfLine(spm.ty, line)]
    {
      hide Usable, Sorted, Shaped, InstsOf, OneRun, OnePattern, ColsOf, ValsOf, RowEncoded, Buffered;
      newRow := [];
      ghost var known := InstsOf(line);
      NothingEncoded(line, known);
      var rowNo := if line == [] then 0 else line[0].row;
      var xs: seq<int>, vs: seq<real> := [], [];
      var i := 0;
      NoBuffers(line, 0, rowNo);
      while i < |line|
        invariant i <= |line| && |xs| <= i
        invariant (forall k :: 0 <= k < i ==> !line[k].IsPattern()) ==> newRow == [] && |xs| == i
        invariant Buffered(line, i - |xs|, i, rowNo, xs, vs) && RowEncoded(newRow, line, i - |xs|, known)
      {
        var elem := line[i];
        if !elem.IsPattern() {
          BufferOne(line, i - |xs|, i, rowNo, xs, vs);
          xs := xs + [elem.col];
          vs := vs + [elem.vals[0]];
          i := i + 1;
          continue;
        }
        if |xs| != 0 {
          newRow := FlushTail(newRow, rowNo, xs, vs, line, i - |xs|, i, known);
          xs, vs := [], [];
        } else {
          SameBuffers(line, i, rowNo, xs, vs);
        }
        PatternKept(newRow, line, i);
        newRow := newRow + [elem];
        i := i + 1;
        NoBuffers(line, i, rowNo);
      }
      ghost var run := RunLine(spm.ty, line, Cfg());
      if run {
        BufferIs(line, rowNo, xs, vs, spm.ty, Cfg());
      }
      if |xs| != 0 {
        newRow := FlushTail(newRow, rowNo, xs, vs, line, i - |xs|, i, known);
        if run {
          OnlyRun(newRow, line, xs, vs, spm.ty);
        }
      }
      WholeRow(newRow, line, known);
    }

    lemma {:induction false} WholeRow(newRow: seq<Element>, line: seq<Element>, known: set<Instantiation>)
      requires spm.ty.IsOrder() && RowEncoded(newRow, line, |line|, known)
      ensures Rewrites(newRow, line, spm.ty, spm.D()) && Uses(newRow, known, Cfg(), spm.ty)
      ensures LineWritten(newRow, line, spm.ty, Cfg())
    {
      assert line[..|line|] == line;
    }

    lemma {:induction false} NoBuffers(line: seq<Element>, i: nat, row: int)
      requires i <= |line| && (i > 0 ==> line[i - 1].IsPattern())
      ensures Buffered(line, i, i, row, [], [])
    {
    }

    /** Empty buffers: the line is at a substructure or at its beginning. */
    lemma {:induction false} SameBuffers(line: seq<Element>, i: nat, row: int, xs: seq<int>, vs: seq<real>)
      requires |xs| == 0 && Buffered(line, i, i, row, xs, vs)
      ensures xs == [] && vs == []
    {
    }

    /** The buffers at the end of a line of single elements. */
    lemma {:induction false} BufferIs(line: seq<Element>, row: int, xs: seq<int>, vs: seq<real>, t: Encoding, c: Config)
      requires |xs| == |line| && Buffered(line, 0, |line|, row, xs, vs) && RunLine(t, line, c)
      ensures xs == ColsOf(line) && vs == ValsOf(line) && OneRun(t, xs, c) && xs != [] && line != []
      ensures line[0].col == xs[0] >= 1
    {
      assert line[0..|line|] == line;
    }

    static lemma {:induction false} OnlyRun(newRow: seq<Element>, line: seq<Element>, xs: seq<int>, vs: seq<real>,
                                            t: Encoding)
      requires line != [] && AllShaped(line) && xs != [] && xs[0] == line[0].col >= 1 && vs == ValsOf(line)
      requires OnePattern(newRow, [], line[0].row, xs[0], vs, Inst(t, xs[0]))
      ensures newRow == [RunOfLine(t, line)]
    {
    }

    static lemma {:induction false} NothingUsed(known: set<Instantiation>, c: Config, t: Encoding)
      ensures Uses([], known, c, t)
    {
    }

    static lemma {:induction false} OneUsed(line: seq<Element>, i: nat, c: Config, t: Encoding)
      requires i < |line|
      ensures Uses([line[i]], InstsOf(line), c, t)
    {
    }

    lemma {:induction false} BufferOne(line: seq<Element>, b: nat, i: nat, row: int, xs: seq<int>, vs: seq<real>)
      requires i < |line| && Buffered(line, b, i, row, xs, vs)
      requires Shaped(line[i]) && !line[i].IsPattern() && line[i].row == row
      ensures line[i].vals != [] && Buffered(line, b, i + 1, row, xs + [line[i].col], vs + [line[i].vals[0]])
    {
      assert line[b..i + 1] == line[b..i] + [line[i]];
    }

    lemma {:induction false} SortedSlice(es: seq<Element>, a: nat, b: nat)
      requires Sorted(es) && a <= b <= |es|
      ensures Sorted(es[a..b])
    {
    }

    /** Stores the new row, one slot after the other. */
    method PutRow(newRow: seq<Element>, elemIdx: nat)
      requires elemIdx + |newRow| <= |spm.elems|
      modifies spm`elems
      ensures spm.elems == old(spm.elems[..elemIdx]) + newRow + old(spm.elems[elemIdx + |newRow|..])
    {
      var i := 0;
      while i < |newRow|
        invariant i <= |newRow|
        invariant spm.elems == old(spm.elems[..elemIdx]) + newRow[..i] + old(spm.elems[elemIdx + i..])
      {
        spm.elems := spm.elems[i + elemIdx := newRow[i]];
        i := i + 1;
      }
    }

    /** A partition as every round of mining finds and leaves it. */
    ghost predicate Minable()
      reads spm
      ensures Minable() ==> spm.elemsSize <= |spm.elems| && spm.ty.IsOrder() && AllShaped(spm.Live())
    {
      && spm.Valid()
      && Tight(spm.rowptr, spm.Live())
      && AllFine(spm.Live())
      && Readable(spm.Live(), spm.ty, spm.D())
      && spm.nrNonzeros == |spm.CellsOf()|
    }

    /** Cells need elements, and elements have cells. */
    lemma {:induction false} CellsNeedElements()
      requires Minable()
      ensures spm.nrNonzeros == 0 <==> spm.elemsSize == 0
    {
      if spm.elemsSize > 0 {
        assert Shaped(spm.Live()[0]);
        assert |ElemCells(spm.Live()[0], spm.ty, spm.D())| >= 1;
      }
    }

    /** Re-ordering keeps what mining needs. */
    method TransformTo(t: Order)
      requires Minable() && spm.elemsSize > 0
      modifies spm`elems, spm`rowptr, spm`ty
      ensures Minable() && spm.ty == t && spm.elemsSize == old(spm.elemsSize)
      ensures multiset(spm.CellsOf()) == multiset(old(spm.CellsOf()))
      ensures spm.Live() == Sort(Moved(old(spm.Live()), old(spm.ty), t, spm.D()))
      ensures InstsOf(spm.Live()) == old(InstsOf(spm.Live()))
    {
      hide Tight, Readable, AllFine, Sorted, StartsInBounds, IsRowptr, AllShaped, Sort, Moved, InstsOf;
      MovedKeeps(spm.Live(), Sort(Moved(spm.Live(), spm.ty, t, spm.D())), spm.ty, t, spm.D());
      MovedInsts(spm.Live(), spm.ty, t, spm.D());
      ghost var cells := spm.CellsOf();
      spm.Transform(t);
      assert |multiset(cells)| == |cells| && |multiset(spm.CellsOf())| == |spm.CellsOf()|;
    }

    /** Elements of one line, in a partition of any order. */
    lemma {:induction false} LineReady(es: seq<Element>, rp: seq<nat>, t: Order, d: Dims, i: nat)
      requires IsRowptr(rp, es) && i + 1 < |rp|
      requires Sorted(es) && AllShaped(es) && StartsInBounds(es, t, d)
      ensures rp[i] <= rp[i + 1] <= |es|
      ensures var line := es[rp[i]..rp[i + 1]];
              Sorted(line) && AllShaped(line) && Sorted(es[..rp[i + 1]])
              && es[..rp[i + 1]] == es[..rp[i]] + line
              && forall k :: 0 <= k < |line| ==> line[k].col >= 1 && line[k].row == line[0].row
    {
      hide Shaped, StartsInBounds, Sorted;
      StartsPositive(es, t, d);
      SortedSlice(es, rp[i], rp[i + 1]);
      SortedSlice(es, 0, rp[i + 1]);
    }

    lemma {:induction false} StartsPositive(es: seq<Element>, t: Order, d: Dims)
      requires StartsInBounds(es, t, d)
      ensures forall i :: 0 <= i < |es| ==> es[i].row >= 1 && es[i].col >= 1
    {
      hide ToHoriz, FromHoriz;
      forall i | 0 <= i < |es| ensures es[i].row >= 1 && es[i].col >= 1 {
        PositiveCoords(t, ToHoriz(t, es[i].At(), d), d);
        XformInverse(t, es[i].At(), d);
      }
    }

    /** Encodes one type, rewriting the element array in place: rows only get shorter, so no
        slot is overwritten before it has been read. */
    method Encode(t: Encoding)
      requires Minable() && spm.elemsSize > 0
      requires Usable(Cfg()) && t.Valid() && LongEnough(t)
      modifies this`xformsIgnore, spm`elems, spm`rowptr, spm`ty, spm`elemsSize
      ensures Minable() && spm.elemsSize > 0
      ensures multiset(spm.CellsOf()) == multiset(old(spm.CellsOf()))
      ensures Uses(spm.Live(), old(InstsOf(spm.Live())), Cfg(), t)
      ensures t != None ==> WholeRuns(t, old(spm.Live()), old(spm.ty), spm.Live(), Cfg(), spm.D())
      ensures t != None ==>
        AllWritten(spm.Live(), Sort(Moved(old(spm.Live()), old(spm.ty), t, spm.D())), t, Cfg())
      ensures t == None ==>
        xformsIgnore == old(xformsIgnore) && spm.Live() == old(spm.Live()) && spm.ty == old(spm.ty)
      ensures t != None ==> spm.ty == t && xformsIgnore == old(xformsIgnore) + {t}
    {
      hide Usable, Tight, Readable, AllFine, Sorted, StartsInBounds, IsRowptr, AllShaped, AllCells, Rewrites, Uses,
           InstsOf, LinesRun, RunsOf, Sort, Moved, AllWritten;
      if t == None {
        UsesOld(spm.Live(), Cfg(), t);
        return;
      }
      TransformTo(t);
      ghost var before, rp := spm.Live(), spm.rowptr;
      OnlyTable(before, rp, t, Cfg());
      RewriteRows(t, before);
    }

    /** There is only one table of the lines of a partition. */
    lemma {:induction false} OnlyTable(es: seq<Element>, rp: seq<nat>, t: Encoding, c: Config)
      requires IsRowptr(rp, es) && Tight(rp, es)
      ensures forall r :: LinesRun(t, es, r, c) ==> r == rp
    {
      hide IsRowptr, RunLine;
      forall r | LinesRun(t, es, r, c) ensures r == rp {
        RowptrUnique(r, rp, es);
      }
    }

    /** Rewrites the rows of the partition, whose elements are `before`. */
    method RewriteRows(t: Order, ghost before: seq<Element>)
      requires Minable() && spm.ty == t && spm.elemsSize > 0 && before == spm.Live()
      requires Usable(Cfg()) && LongEnough(t)
      modifies this`xformsIgnore, spm`elems, spm`rowptr, spm`elemsSize
      ensures Minable() && spm.elemsSize > 0 && spm.CellsOf() == old(spm.CellsOf())
      ensures Uses(spm.Live(), InstsOf(before), Cfg(), t)
      ensures old(LinesRun(t, before, spm.rowptr, Cfg())) ==>
        spm.Live() == RunsOf(t, before, old(spm.rowptr), old(|spm.rowptr|) - 1)
      ensures AllWritten(spm.Live(), before, t, Cfg())
      ensures xformsIgnore == old(xformsIgnore) + {t}
    {
      hide Usable, Tight, Readable, AllFine, Sorted, StartsInBounds, IsRowptr, AllShaped, AllCells, Rewrites, Uses,
           InstsOf, RunLine, RunOfLine, LinesRun, RunsOf, LineWritten, TableWritten;
      ghost var d := spm.D();
      var elemIdx: nat, i: nat := 0, 0;
      RowptrEnds(spm.rowptr, before);
      RewritesNothing(t, d);
      NothingUsed(InstsOf(before), Cfg(), t);
      NoLineRuns(t, before, spm.rowptr);
      assert before[..0] == [] && spm.elems[..0] == [];
      NoLines(before, spm.rowptr, t);
      ghost var rp := spm.rowptr;
      MinableIsTable();
      while i < |spm.rowptr| - 1
        modifies spm`elems
        invariant i < |spm.rowptr| && elemIdx <= spm.rowptr[i] <= spm.elemsSize
        invariant |spm.elems| == old(|spm.elems|)
        invariant spm.elems[spm.rowptr[i]..spm.elemsSize] == before[spm.rowptr[i]..]
        invariant Uses(spm.elems[..elemIdx], InstsOf(before), Cfg(), t)
        invariant TableWritten(spm.elems[..elemIdx], before, spm.rowptr, i, t, Cfg())
        invariant LinesRun(t, before, spm.rowptr, Cfg()) ==> spm.elems[..elemIdx] == RunsOf(t, before, spm.rowptr, i)
        invariant Rewrites(spm.elems[..elemIdx], before[..spm.rowptr[i]], t, d)
      {
        if LinesRun(t, before, spm.rowptr, Cfg()) {
          RunsNext(t, before, spm.rowptr, i, Cfg());
        }
        ghost var was, front := elemIdx, spm.elems[..elemIdx];
        RowptrEnds(spm.rowptr, before);
        elemIdx := RewriteRow(i, elemIdx, t, before);
        LineAdded(front, spm.elems[was..elemIdx], before, spm.rowptr, i, t, Cfg());
        assert spm.elems[..elemIdx] == front + spm.elems[was..elemIdx];
        i := i + 1;
      }
      assert before[..spm.rowptr[i]] == before;
      spm.elemsSize := elemIdx;
      assert AllWritten(spm.elems[..elemIdx], before, t, Cfg());
      Rewritten(spm.elems[..elemIdx], before, t, d);
      spm.rowptr := SetRowptr(spm.elems[..elemIdx]);
      xformsIgnore := xformsIgnore + {t};
    }

    lemma {:induction false} MinableIsTable()
      requires Minable()
      ensures IsTable(spm.rowptr, spm.Live())
    {
      hide IsRowptr, Tight;
      RowptrEnds(spm.rowptr, spm.Live());
    }

    lemma {:induction false} NoLines(es: seq<Element>, rp: seq<nat>, t: Order)
      requires |rp| >= 1
      ensures TableWritten([], es, rp, 0, t, Cfg())
    {
    }

    /** Rewrites line i + 1 behind the rows that have been rewritten. */
    method RewriteRow(i: nat, elemIdx0: nat, t: Order, ghost before: seq<Element>) returns (elemIdx: nat)
      requires spm.ty == t && i + 1 < |spm.rowptr| && spm.elemsSize == |before| <= |spm.elems|
      requires IsRowptr(spm.rowptr, before) && Sorted(before) && AllShaped(before) && StartsInBounds(before, t, spm.D())
      requires Usable(Cfg()) && LongEnough(t)
      requires elemIdx0 <= spm.rowptr[i] <= spm.elemsSize
      requires spm.elems[spm.rowptr[i]..spm.elemsSize] == before[spm.rowptr[i]..]
      requires Rewrites(spm.elems[..elemIdx0], before[..spm.rowptr[i]], t, spm.D())
      requires Uses(spm.elems[..elemIdx0], InstsOf(before), Cfg(), t)
      modifies spm`elems
      ensures |spm.elems| == old(|spm.elems|)
      ensures elemIdx <= spm.rowptr[i + 1] <= spm.elemsSize
      ensures spm.elems[spm.rowptr[i + 1]..spm.elemsSize] == before[spm.rowptr[i + 1]..]
      ensures Rewrites(spm.elems[..elemIdx], before[..spm.rowptr[i + 1]], t, spm.D())
      ensures Uses(spm.elems[..elemIdx], InstsOf(before), Cfg(), t)
      ensures elemIdx0 <= elemIdx && spm.elems[..elemIdx0] == old(spm.elems[..elemIdx0])
      ensures LineWritten(spm.elems[elemIdx0..elemIdx], before[spm.rowptr[i]..spm.rowptr[i + 1]], t, Cfg())
      ensures spm.rowptr[i] == spm.rowptr[i + 1] ==>
        elemIdx == elemIdx0 && spm.elems[..elemIdx] == old(spm.elems[..elemIdx0])
      ensures var line := before[spm.rowptr[i]..spm.rowptr[i + 1]];
        RunLine(t, line, Cfg()) ==> spm.elems[..elemIdx] == old(spm.elems[..elemIdx0]) + [RunOfLine(t, line)]
    {
      hide Usable, Sorted, StartsInBounds, IsRowptr, AllShaped, AllCells, Rewrites, Uses, InstsOf, RunLine, RunOfLine,
           LineWritten;
      ghost var lo, hi, n, was := spm.rowptr[i], spm.rowptr[i + 1], spm.elemsSize, spm.elems;
      LineReady(before, spm.rowptr, t, spm.D(), i);
      var line := spm.Line(i);
      SliceOf(was, before, lo, hi, n);
      var newRow := EncodeRow(line);
      RewritesShorter(newRow, line, t, spm.D());
      SliceInsts(before, lo, hi);
      UsesWider(newRow, InstsOf(line), InstsOf(before), Cfg(), t);
      UsesConcat(was[..elemIdx0], newRow, InstsOf(before), Cfg(), t);
      PutRow(newRow, elemIdx0);
      elemIdx := elemIdx0 + |newRow|;
      RewritesConcat(was[..elemIdx0], before[..lo], newRow, line, t, spm.D());
      RowReplaced(was, newRow, elemIdx0, spm.elems, hi, n);
    }

    static lemma {:induction false} SliceOf(was: seq<Element>, before: seq<Element>, lo: nat, hi: nat, n: nat)
      requires lo <= hi <= n == |before| && n <= |was| && was[lo..n] == before[lo..]
      ensures was[lo..hi] == before[lo..hi] && was[hi..n] == before[hi..]
    {
      assert was[lo..n][..hi - lo] == was[lo..hi] && before[lo..][..hi - lo] == before[lo..hi];
      assert was[lo..n][hi - lo..] == was[hi..n] && before[lo..][hi - lo..] == before[hi..];
    }

    static lemma {:induction false} RowReplaced(was: seq<Element>, newRow: seq<Element>, at: nat, now: seq<Element>,
                                                hi: nat, n: nat)
      requires at + |newRow| <= hi <= n <= |was| && now == was[..at] + newRow + was[at + |newRow|..]
      ensures |now| == |was| && now[..at + |newRow|] == was[..at] + newRow && now[hi..n] == was[hi..n]
      ensures now[at..at + |newRow|] == newRow && now[..at] == was[..at]
    {
    }

    lemma {:induction false} RewritesShorter(new_: seq<Element>, old_: seq<Element>, t: Order, d: Dims)
      requires Rewrites(new_, old_, t, d)
      ensures |new_| <= |old_| && AllShaped(new_)
    {
    }

    /** What the rewritten array of elements is like. */
    lemma {:induction false} Rewritten(es: seq<Element>, before: seq<Element>, t: Order, d: Dims)
      requires Rewrites(es, before, t, d) && before != []
      requires Sorted(before) && StartsInBounds(before, t, d) && AllFine(before) && Readable(before, t, d)
      ensures es != [] && AllShaped(es) && Sorted(es) && AllFine(es) && RowsFromOne(es)
      ensures StartsInBounds(es, t, d) && Readable(es, t, d)
      ensures AllShaped(before) && AllCells(es, t, d) == AllCells(before, t, d)
    {
      hide Readable, AllFine, Sorted, Shaped, Derived, Apart, RowsFromOne, StartsInBounds, ElemCells;
      RewritesReadable(es, before, t, d);
      RewritesFine(es, before, t, d);
      RewritesInBounds(es, before, t, d);
      RowsPositive(es, t, d);
      NotEmpty(es, before, t, d);
    }

    lemma {:induction false} RowsPositive(es: seq<Element>, t: Order, d: Dims)
      requires Sorted(es) && StartsInBounds(es, t, d)
      ensures RowsFromOne(es)
    {
      StartsPositive(es, t, d);
    }

    lemma {:induction false} NotEmpty(es: seq<Element>, before: seq<Element>, t: Order, d: Dims)
      requires AllShaped(es) && AllShaped(before) && before != [] && AllCells(es, t, d) == AllCells(before, t, d)
      ensures es != []
    {
      assert |ElemCells(before[0], t, d)| >= 1;
    }

    // ----- Statistics and the choice of a type -----

    /** Instantiations that are picked belong to their type and fit the encoder. */
    ghost predicate SurveyOk(survey: Encoding -> Report) {
      forall t :: forall i :: i in survey(t).insts ==> i.ty == t && InstOk(i, splitBlocks)
    }

    predicate LimitsOk() {
      minLimit >= 1 && 1 <= maxLimit <= CTL_SIZE_MAX
    }

    /** Takes a window through every type that is not ignored and back.  The window ends as
        it began. */
    method SurveyWindow(w: SparsePartition)
      requires w.Valid() && w.ty == Horizontal
      modifies w`elems, w`rowptr, w`ty
      ensures w.Valid() && w.ty == Horizontal && w.Live() == old(w.Live()) && w.elemsSize == old(w.elemsSize)
      ensures |w.elems| == old(|w.elems|)
    {
      hide Sorted, StartsInBounds, IsRowptr, AllShaped, Sort, Moved, Distinct, Tight;
      ghost var start, d := w.Live(), w.D();
      SortedDistinct(start);
      SortSorted(start, Horizontal, d);
      var c := 1;
      while c <= NR_TYPES
        invariant 1 <= c <= NR_TYPES + 1
        invariant w.Valid() && w.elemsSize == old(w.elemsSize) && |w.elems| == old(|w.elems|)
        invariant w.Live() == Sort(Moved(start, Horizontal, w.ty, d))
      {
        var t := FromCode(c);
        CodeOf(c);
        if t !in xformsIgnore {
          TransformPath(start, Horizontal, w.ty, t, d);
          w.Transform(t);
        }
        c := c + 1;
      }
      TransformPath(start, Horizontal, w.ty, Horizontal, d);
      w.Transform(Horizontal);
    }

    /** Number of lines in a window that does not start behind the last one. */
    ghost function WindowLength(s: Sample): nat
      reads spm
      requires s.start < |spm.rowptr|
    {
      if s.start + s.size > |spm.rowptr| - 1 then |spm.rowptr| - s.start - 1 else s.size
    }

    /** Surveys one window of the partition.  Fails when it starts behind the last line. */
    method SampleWindow(s: Sample) returns (ok: bool, empty: bool)
      requires Minable() && spm.ty == Horizontal
      modifies spm`elems
      ensures spm.elems == old(spm.elems)
      ensures ok <==> s.start <= LastLine(spm.Live())
      ensures ok ==> (empty <==> !HasLine(spm.Live(), s))
    {
      hide Minable, HasLine, LastLine;
      TableLength();
      if s.start >= |spm.rowptr| {
        return false, false;
      }
      ok := true;
      MinableTable();
      WindowHasLine(spm.Live(), spm.rowptr, s, WindowLength(s));
      empty := VisitWindow(s);
    }

    /** One pointer for every line up to the last one. */
    lemma {:induction false} TableLength()
      requires Minable()
      ensures |spm.rowptr| == LastLine(spm.Live()) + 1
    {
    }

    lemma {:induction false} MinableTable()
      requires Minable()
      ensures IsRowptr(spm.rowptr, spm.Live()) && Tight(spm.rowptr, spm.Live()) && Sorted(spm.Live())
    {
    }

    /** Takes the window out, surveys it and puts it back. */
    method VisitWindow(s: Sample) returns (empty: bool)
      requires Minable() && spm.ty == Horizontal && s.start < |spm.rowptr|
      modifies spm`elems
      ensures spm.elems == old(spm.elems)
      ensures empty <==> spm.rowptr[s.start] == spm.rowptr[s.start + WindowLength(s)]
    {
      hide Sorted, StartsInBounds, IsRowptr, AllShaped, Readable, AllFine, Tight, ShiftRows;
      ghost var was, rp, n := spm.elems, spm.rowptr, WindowLength(s);
      WindowFacts(spm.Live(), rp, spm.D(), s.start, n);
      ghost var lo, hi := rp[s.start], rp[s.start + n];
      assert spm.Live()[lo..hi] == was[lo..hi];
      var w := spm.GetWindow(s.start, s.size);
      empty := w.nrNonzeros == 0;
      if !empty {
        assert w.elems[..w.elemsSize] == w.elems;
        SurveyWindow(w);
        assert w.elems[..w.elemsSize] == w.elems;
        spm.PutWindow(w);
        assert was == was[..lo] + was[lo..hi] + was[hi..];
      }
    }

    /** What the survey says about the types `ts`. */
    static ghost predicate Collected(survey: Encoding -> Report, ts: set<Encoding>, insts: set<Instantiation>,
                                     stats: seq<TypeStats>) {
      && (forall i :: i in insts ==> exists t :: t in ts && i in survey(t).insts)
      && (forall t :: t in ts ==> survey(t).insts <= insts && TypeStats(t, survey(t).score) in stats)
      && (forall k :: 0 <= k < |stats| ==> stats[k].score == survey(stats[k].ty).score)
    }

    static lemma {:induction false} CollectedNext(survey: Encoding -> Report, ts: set<Encoding>,
                                                  insts: set<Instantiation>, stats: seq<TypeStats>, t: Encoding)
      requires Collected(survey, ts, insts, stats)
      ensures Collected(survey, ts + {t}, insts + survey(t).insts, stats + [TypeStats(t, survey(t).score)])
    {
    }

    static lemma {:induction false} NextType(c: nat, ignore: set<Encoding>)
      requires 1 <= c <= NR_TYPES
      ensures Types(c) - ignore == if FromCode(c) in ignore then Types(c - 1) - ignore
                                   else Types(c - 1) - ignore + {FromCode(c)}
      ensures Types(0) - ignore == {}
    {
    }

    /** The statistics of the first `c` types. */
    static ghost predicate Gathered(survey: Encoding -> Report, ignore: set<Encoding>, c: nat, cfg: Config,
                                    stats: seq<TypeStats>) {
      && c <= NR_TYPES && Usable(cfg) && Listed(stats, ignore)
      && (forall i :: 0 <= i < |stats| ==> stats[i].ty.Code() <= c)
      && Collected(survey, Types(c) - ignore, cfg.insts, stats)
    }

    static lemma {:induction false} GatheredNext(survey: Encoding -> Report, ignore: set<Encoding>, c: nat, cfg: Config,
                                                 stats: seq<TypeStats>)
      requires 1 <= c <= NR_TYPES && Gathered(survey, ignore, c - 1, cfg, stats)
      requires forall i :: i in survey(FromCode(c)).insts ==> InstOk(i, cfg.splitBlocks)
      ensures var t := FromCode(c);
              if t in ignore then Gathered(survey, ignore, c, cfg, stats)
              else
                Gathered(survey, ignore, c, cfg.(insts := cfg.insts + survey(t).insts),
                         stats + [TypeStats(t, survey(t).score)])
    {
      hide FromCode, InstOk, Collected, Types;
      var t := FromCode(c);
      CodeOf(c);
      NextType(c, ignore);
      if t !in ignore {
        CollectedNext(survey, Types(c - 1) - ignore, cfg.insts, stats, t);
      }
    }

    static lemma {:induction false} GatheredAll(survey: Encoding -> Report, ignore: set<Encoding>, cfg: Config,
                                                stats: seq<TypeStats>)
      requires Gathered(survey, ignore, NR_TYPES, cfg, stats)
      ensures Usable(cfg) && Listed(stats, ignore) && Collected(survey, Types(NR_TYPES) - ignore, cfg.insts, stats)
    {
    }

    lemma {:induction false} NothingGathered(survey: Encoding -> Report)
      requires LimitsOk() && encodedInst == {}
      ensures Gathered(survey, xformsIgnore, 0, Cfg(), [])
    {
      NextType(1, xformsIgnore);
      NothingCollected(survey);
    }

    static lemma {:induction false} NothingCollected(survey: Encoding -> Report)
      ensures Collected(survey, {}, {}, [])
    {
    }

    /** The elements in row-major order stay the same in every order of the partition. */
    lemma {:induction false} RowOrderOf(before: seq<Element>, from: Order, to: Order)
      requires Minable() && Sorted(before) && spm.ty == to && spm.Live() == Sort(Moved(before, from, to, spm.D()))
      ensures RowOrder() == Sort(Moved(before, from, Horizontal, spm.D()))
    {
      hide Sort, Moved, Sorted, Distinct;
      SortedDistinct(before);
      TransformPath(before, from, to, Horizontal, spm.D());
    }

    /** Any order can be reached from the row-major one. */
    lemma {:induction false} FromRowOrder(t: Order)
      requires Minable()
      ensures Sort(Moved(spm.Live(), spm.ty, t, spm.D())) == Sort(Moved(RowOrder(), Horizontal, t, spm.D()))
    {
      hide Sort, Moved, Distinct, Tight, IsRowptr, AllFine, Readable;
      SortedDistinct(spm.Live());
      TransformPath(spm.Live(), spm.ty, Horizontal, t, spm.D());
    }

    /** Statistics of the whole partition are taken in the order of the type. */
    method ReorderFor(t: Order, reorder: bool)
      requires Minable() && spm.elemsSize > 0
      modifies spm`elems, spm`rowptr, spm`ty
      ensures Minable() && spm.elemsSize > 0
      ensures multiset(spm.CellsOf()) == multiset(old(spm.CellsOf()))
      ensures InstsOf(spm.Live()) == old(InstsOf(spm.Live())) && RowOrder() == old(RowOrder())
      ensures reorder ==> spm.ty == t
      ensures !reorder ==> spm.elems == old(spm.elems) && spm.rowptr == old(spm.rowptr) && spm.ty == old(spm.ty)
    {
      hide Minable, AllCells, InstsOf, Sort, Moved, RowOrder;
      if reorder {
        ghost var before, from := spm.Live(), spm.ty;
        ghost var rows := RowOrder();
        RowOrderIs();
        TransformTo(t);
        RowOrderOf(before, from, t);
      }
    }

    /** Adds what the survey says about the types that are not ignored. */
    method Collect(survey: Encoding -> Report, reorder: bool) returns (stats: seq<TypeStats>)
      requires SurveyOk(survey) && LimitsOk() && encodedInst == {}
      requires Minable() && spm.elemsSize > 0
      modifies this`encodedInst, spm`elems, spm`rowptr, spm`ty
      ensures Usable(Cfg()) && Listed(stats, xformsIgnore)
      ensures Minable() && spm.elemsSize > 0
      ensures multiset(spm.CellsOf()) == multiset(old(spm.CellsOf()))
      ensures !reorder ==> spm.elems == old(spm.elems) && spm.rowptr == old(spm.rowptr) && spm.ty == old(spm.ty)
      ensures Collected(survey, Types(NR_TYPES) - xformsIgnore, encodedInst, stats)
      ensures InstsOf(spm.Live()) == old(InstsOf(spm.Live())) && RowOrder() == old(RowOrder())
    {
      hide Minable, AllCells, FromCode, InstsOf, Gathered, RowOrder;
      stats := [];
      NothingGathered(survey);
      var c := 1;
      while c <= NR_TYPES
        invariant 1 <= c <= NR_TYPES + 1
        invariant Gathered(survey, xformsIgnore, c - 1, Cfg(), stats)
        invariant Minable() && spm.elemsSize > 0
        invariant multiset(spm.CellsOf()) == multiset(old(spm.CellsOf()))
        invariant !reorder ==> spm.elems == old(spm.elems) && spm.rowptr == old(spm.rowptr) && spm.ty == old(spm.ty)
        invariant InstsOf(spm.Live()) == old(InstsOf(spm.Live())) && RowOrder() == old(RowOrder())
      {
        var t := FromCode(c);
        CodeOf(c);
        GatheredNext(survey, xformsIgnore, c, Cfg(), stats);
        if t !in xformsIgnore {
          ReorderFor(t, reorder);
          var report := survey(t);
          stats := stats + [TypeStats(t, report.score)];
          encodedInst := encodedInst + report.insts;
        }
        c := c + 1;
      }
      GatheredAll(survey, xformsIgnore, Cfg(), stats);
    }

    /** The elements in row-major order. */
    ghost function RowOrder(): seq<Element>
      reads spm
      requires spm.elemsSize <= |spm.elems| && spm.ty.IsOrder()
    {
      Sort(Moved(spm.Live(), spm.ty, Horizontal, spm.D()))
    }

    lemma {:induction false} RowOrderIs()
      requires Minable()
      ensures Sorted(spm.Live()) && RowOrder() == Sort(Moved(spm.Live(), spm.ty, Horizontal, spm.D()))
    {
    }

    /** There are more lines than windows to sample. */
    ghost predicate IsSampled()
      reads spm
    {
      samplingEnabled && |spm.rowptr| - 1 > |samples|
    }

    /** The windows are sampled, and one of them starts behind the last line. */
    ghost predicate MissesWindow()
      reads spm
      requires spm.elemsSize <= |spm.elems| && spm.ty.IsOrder()
    {
      IsSampled() && Misses(RowOrder(), samples)
    }

    static lemma {:induction false} NothingMissed(es: seq<Element>)
      ensures !Misses(es, [])
    {
    }

    /** Visits the windows one after the other, until one is empty or not to be sampled. */
    method SampleWindows() returns (ok: bool)
      requires Minable() && spm.ty == Horizontal
      modifies spm`elems
      ensures spm.elems == old(spm.elems)
      ensures !ok <==> Misses(spm.Live(), samples)
    {
      hide Minable, Misses, HasLine, LastLine;
      ghost var es := spm.Live();
      ok := true;
      assert samples[0..] == samples;
      var i := 0;
      while i < |samples|
        invariant i <= |samples|
        invariant spm.elems == old(spm.elems)
        invariant Misses(es, samples) <==> Misses(es, samples[i..])
      {
        MissesNext(es, samples, i);
        if samples[i].size <= 1 {
          break;
        }
        var empty;
        ok, empty := SampleWindow(samples[i]);
        if !ok {
          return;
        }
        if empty {
          break;
        }
        i := i + 1;
      }
      assert i == |samples| ==> samples[i..] == [];
      NothingMissed(es);
    }

    /** Statistics of every type that is not ignored, from the whole partition or from
        windows of it.  Fails when a sampled window starts behind the last line. */
    method GenAllStats(survey: Encoding -> Report) returns (ok: bool, stats: seq<TypeStats>)
      requires SurveyOk(survey) && LimitsOk()
      requires Minable() && spm.elemsSize > 0
      modifies this`encodedInst, spm`elems, spm`rowptr, spm`ty
      ensures Minable() && spm.elemsSize > 0
      ensures multiset(spm.CellsOf()) == multiset(old(spm.CellsOf()))
      ensures !ok <==> old(MissesWindow())
      ensures old(IsSampled()) ==> spm.ty == Horizontal && spm.Live() == old(RowOrder())
      ensures !ok ==> samplingEnabled && spm.ty == Horizontal && Misses(spm.Live(), samples)
      ensures ok ==> Usable(Cfg()) && Listed(stats, xformsIgnore)
      ensures ok ==> Collected(survey, Types(NR_TYPES) - xformsIgnore, encodedInst, stats)
      ensures InstsOf(spm.Live()) == old(InstsOf(spm.Live())) && RowOrder() == old(RowOrder())
    {
      hide Usable, Listed, AllCells, Minable, Sort, Moved, InstsOf, Misses, HasLine, LastLine, Collected, Types;
      encodedInst := {};
      stats := [];
      if samplingEnabled && |spm.rowptr| - 1 > |samples| {
        ghost var before, from := spm.Live(), spm.ty;
        RowOrderIs();
        TransformTo(Horizontal);
        RowOrderOf(before, from, Horizontal);
        ok := SampleWindows();
        if !ok {
          return;
        }
        stats := Collect(survey, false);
      } else {
        stats := Collect(survey, true);
      }
      ok := true;
    }

    /** The best type of all with a positive score, `None` if there is none; types without
        a score are ignored from now on. */
    method ChooseType(stats: seq<TypeStats>) returns (ret: Encoding)
      requires Listed(stats, xformsIgnore)
      modifies this`xformsIgnore
      ensures old(xformsIgnore) <= xformsIgnore
      ensures forall i :: 0 <= i < |stats| ==> (stats[i].ty in xformsIgnore <==> stats[i].score == 0)
      ensures forall u :: u in xformsIgnore && u !in old(xformsIgnore) ==>
        exists i :: 0 <= i < |stats| && stats[i].ty == u && stats[i].score == 0
      ensures ret == None <==> forall i :: 0 <= i < |stats| ==> stats[i].score == 0
      ensures ret != None ==> ret in Types(NR_TYPES) && ret !in xformsIgnore
      ensures ret != None ==> exists k :: 0 <= k < |stats| && BestAt(stats, |stats|, k) && stats[k].ty == ret
    {
      hide Types;
      ret := None;
      var maxScore, si := 0, 0;
      ghost var best := 0;
      while si < |stats|
        invariant si <= |stats| && old(xformsIgnore) <= xformsIgnore
        invariant forall i :: 0 <= i < si ==> (stats[i].ty in xformsIgnore <==> stats[i].score == 0)
        invariant forall u :: u in xformsIgnore && u !in old(xformsIgnore) ==>
          exists i :: 0 <= i < si && stats[i].ty == u && stats[i].score == 0
        invariant forall i :: si <= i < |stats| ==> stats[i].ty !in xformsIgnore
        invariant if ret == None then maxScore == 0 && (forall i :: 0 <= i < si ==> stats[i].score == 0)
                  else best < si && stats[best] == TypeStats(ret, maxScore) && maxScore > 0 && BestAt(stats, si, best)
      {
        var score := stats[si].score;
        if score == 0 {
          xformsIgnore := xformsIgnore + {stats[si].ty};
        } else if score > maxScore {
          maxScore := score;
          ret := stats[si].ty;
          best := si;
        }
        si := si + 1;
      }
      assert ret != None ==> BestAt(stats, |stats|, best);
    }

    /** The first of the best scores. */
    static predicate BestAt(stats: seq<TypeStats>, n: nat, k: nat)
      requires n <= |stats|
    {
      k < n && forall i :: 0 <= i < n ==>
        if i < k then stats[i].score < stats[k].score else stats[i].score <= stats[k].score
    }

    /** The configuration with other instantiations. */
    function CfgOf(insts: set<Instantiation>): Config { Config(minLimit, maxLimit, splitBlocks, useNuma, insts) }

    /** An instantiation a round may write, going by what its survey says. */
    ghost predicate Selectable(i: Instantiation, survey: Encoding -> Report) {
      exists t: Encoding :: Picked(i, CfgOf(survey(t).insts))
    }

    /** An instantiation mining may leave: one that was there before, or one of a type that was
        not ignored, which some survey selects. */
    ghost predicate MayLeave(i: Instantiation, known: set<Instantiation>, surveys: nat -> Encoding -> Report,
                             ignored: set<Encoding>) {
      i in known || (i.ty in Types(NR_TYPES) && i.ty !in ignored && exists n: nat :: Selectable(i, surveys(n)))
    }

    lemma {:induction false} PickedFrom(i: Instantiation, survey: Encoding -> Report, ts: set<Encoding>,
                                        insts: set<Instantiation>, stats: seq<TypeStats>)
      requires Collected(survey, ts, insts, stats) && Picked(i, CfgOf(insts))
      ensures Selectable(i, survey)
    {
      if i in insts {
        var t :| t in ts && i in survey(t).insts;
        assert Picked(i, CfgOf(survey(t).insts));
      } else {
        var j :| j in insts && j.ty == i.ty;
        var t :| t in ts && j in survey(t).insts;
        assert Picked(i, CfgOf(survey(t).insts));
      }
    }

    /** One round: the best type of all is encoded. */
    method Round(survey: Encoding -> Report) returns (ok: bool, t: Encoding)
      requires SurveyOk(survey) && LimitsOk()
      requires Minable() && spm.elemsSize > 0
      requires forall u :: u in Types(NR_TYPES) && u !in xformsIgnore ==> LongEnough(u)
      modifies this`encodedInst, this`xformsIgnore, spm`elems, spm`rowptr, spm`ty, spm`elemsSize
      ensures Minable() && spm.elemsSize > 0
      ensures multiset(spm.CellsOf()) == multiset(old(spm.CellsOf()))
      ensures !ok <==> old(MissesWindow())
      ensures !ok ==> t == None && samplingEnabled && spm.ty == Horizontal && Misses(spm.Live(), samples)
      ensures old(xformsIgnore) <= xformsIgnore
      ensures ok ==> Types(NR_TYPES) - xformsIgnore == Scored(survey, Types(NR_TYPES) - old(xformsIgnore)) - {t}
      ensures t != None ==> BestType(survey, Types(NR_TYPES) - old(xformsIgnore), t)
      ensures ok ==> encodedInst == AllPicked(survey, Types(NR_TYPES) - old(xformsIgnore))
      ensures ok && t == None ==> NoneScored(survey, Types(NR_TYPES) - old(xformsIgnore))
      ensures if t == None then RowOrder() == old(RowOrder())
              else RoundAt(old(RowOrder()), RowOrder(), t, survey, Types(NR_TYPES) - old(xformsIgnore), spm.D())
      ensures t != None ==> t in Types(NR_TYPES) && t !in old(xformsIgnore) && t in xformsIgnore
      ensures t != None ==> spm.ty == t && survey(t).insts <= encodedInst
      ensures t != None && old(IsSampled()) ==>
        WholeRuns(t, old(RowOrder()), Horizontal, spm.Live(), Cfg(), spm.D())
      ensures forall i :: i in InstsOf(spm.Live()) ==>
        i in old(InstsOf(spm.Live())) || (i.ty == t && Selectable(i, survey))
    {
      hide Usable, AllCells, Minable, LongEnough, Types, InstsOf, Collected, Picked, Selectable, Misses, MissesWindow,
           Scored, AllPicked, ScoresOf, Uses, WholeRuns, Sort, Moved, RowOrder, IsSampled, AllWritten, RoundWritten,
           BestType, NoneScored;
      t := None;
      var stats;
      ok, stats := GenAllStats(survey);
      ghost var insts, was := InstsOf(spm.Live()), xformsIgnore;
      ghost var ts := Types(NR_TYPES) - was;
      if ok {
        t := ChooseType(stats);
        SelectedInsts(survey, ts, encodedInst, stats);
        ScoresCollected(survey, ts, encodedInst, stats);
        ChosenByScore(survey, ts, stats, t);
        StillOpen(survey, was, xformsIgnore, encodedInst, stats);
        WholePicked(survey, ts, encodedInst, stats);
        if t != None {
          ghost var rows := RowOrder();
          FromRowOrder(t);
          Encode(t);
          RowOrderIs();
          RoundIs(rows, spm.Live(), t, Cfg(), spm.D());
          RoundUses(spm.Live(), insts, t, survey, ts, stats);
        }
      }
    }

    static lemma {:induction false} RoundIs(before: seq<Element>, mid: seq<Element>, t: Order, c: Config, d: Dims)
      requires AllWritten(mid, Sort(Moved(before, Horizontal, t, d)), t, c)
      ensures RoundWritten(before, Sort(Moved(mid, t, Horizontal, d)), t, c, d)
    {
      hide AllWritten;
    }

    /** Types without a score are not open any more, the others are. */
    lemma {:induction false} StillOpen(survey: Encoding -> Report, was: set<Encoding>, now: set<Encoding>,
                                       insts: set<Instantiation>, stats: seq<TypeStats>)
      requires was <= now && Collected(survey, Types(NR_TYPES) - was, insts, stats)
      requires forall i :: 0 <= i < |stats| ==> (stats[i].ty in now <==> stats[i].score == 0)
      requires forall u :: u in now && u !in was ==>
        exists i :: 0 <= i < |stats| && stats[i].ty == u && stats[i].score == 0
      ensures Types(NR_TYPES) - now == Scored(survey, Types(NR_TYPES) - was)
    {
      hide Types;
      forall u | u in Types(NR_TYPES) && u !in was ensures u in now <==> survey(u).score == 0 {
        assert TypeStats(u, survey(u).score) in stats;
      }
    }

    lemma {:induction false} WholePicked(survey: Encoding -> Report, ts: set<Encoding>, insts: set<Instantiation>,
                                         stats: seq<TypeStats>)
      requires Collected(survey, ts, insts, stats)
      ensures insts == AllPicked(survey, ts)
    {
    }

    lemma {:induction false} SelectedInsts(survey: Encoding -> Report, ts: set<Encoding>, insts: set<Instantiation>,
                                           stats: seq<TypeStats>)
      requires Collected(survey, ts, insts, stats)
      ensures forall t :: t in ts ==> survey(t).insts <= insts
    {
    }

    /** The scores of the types of a set. */
    static ghost predicate ScoresOf(survey: Encoding -> Report, ts: set<Encoding>, stats: seq<TypeStats>) {
      && (forall k :: 0 <= k < |stats| ==> stats[k].ty in ts && stats[k].score == survey(stats[k].ty).score)
      && (forall t :: t in ts ==> exists k :: 0 <= k < |stats| && stats[k].ty == t)
    }

    static lemma {:induction false} ScoresCollected(survey: Encoding -> Report, ts: set<Encoding>,
                                                    insts: set<Instantiation>, stats: seq<TypeStats>)
      requires Collected(survey, ts, insts, stats) && forall i :: 0 <= i < |stats| ==> stats[i].ty in ts
      ensures ScoresOf(survey, ts, stats)
    {
      forall t | t in ts ensures exists k :: 0 <= k < |stats| && stats[k].ty == t {
        assert TypeStats(t, survey(t).score) in stats;
      }
    }

    static lemma {:induction false} ChosenByScore(survey: Encoding -> Report, ts: set<Encoding>, stats: seq<TypeStats>,
                                                  t: Encoding)
      requires ScoresOf(survey, ts, stats)
      requires forall i, j :: 0 <= i < j < |stats| ==> stats[i].ty.Code() < stats[j].ty.Code()
      requires t == None <==> forall i :: 0 <= i < |stats| ==> stats[i].score == 0
      requires t != None ==> exists k :: 0 <= k < |stats| && BestAt(stats, |stats|, k) && stats[k].ty == t
      ensures if t == None then NoneScored(survey, ts) else BestType(survey, ts, t)
    {
      if t != None {
        var k :| 0 <= k < |stats| && BestAt(stats, |stats|, k) && stats[k].ty == t;
        forall u | u in ts ensures Outscored(survey, u, t) {
          var q :| 0 <= q < |stats| && stats[q].ty == u;
          assert q < k ==> stats[q].score < stats[k].score;
          assert k < q ==> t.Code() < u.Code();
        }
      }
    }

    lemma {:induction false} RoundUses(es: seq<Element>, known: set<Instantiation>, t: Encoding,
                                       survey: Encoding -> Report, ts: set<Encoding>, stats: seq<TypeStats>)
      requires Uses(es, known, Cfg(), t) && Collected(survey, ts, encodedInst, stats)
      ensures forall i :: i in InstsOf(es) ==> i in known || (i.ty == t && Selectable(i, survey))
    {
      hide Picked, Collected;
      forall i | i in InstsOf(es) && i !in known ensures i.ty == t && Selectable(i, survey) {
        PickedFrom(i, survey, ts, encodedInst, stats);
      }
    }

    /** Mines until no type is worth encoding: every round encodes one type that has not been
        encoded before, and no round changes the cells of the partition.  It fails when a round
        samples a window behind the last line; anchored windows are never missed. */
    method EncodeAll(surveys: nat -> Encoding -> Report)
      returns (ok: bool, encSeq: seq<Encoding>, ghost rows: seq<seq<Element>>)
      requires forall n: nat :: SurveyOk(surveys(n))
      requires Minable() && LimitsOk()
      requires forall t :: t in Types(NR_TYPES) && t !in xformsIgnore ==> LongEnough(t)
      modifies this`encodedInst, this`xformsIgnore, spm`elems, spm`rowptr, spm`ty, spm`elemsSize
      ensures Minable()
      ensures multiset(spm.CellsOf()) == multiset(old(spm.CellsOf()))
      ensures ok && (spm.nrNonzeros != 0 || old(spm.ty) == Horizontal) ==> spm.ty == Horizontal
      ensures !ok ==> samplingEnabled && spm.ty == Horizontal && Misses(spm.Live(), samples)
      ensures old(spm.nrNonzeros != 0 && MissesWindow()) ==> !ok
      ensures AllAnchored(old(spm.CellsOf()), MinedTypes(old(InstsOf(spm.Live())), old(xformsIgnore)), samples) ==> ok
      ensures forall i :: i in InstsOf(spm.Live()) ==> MayLeave(i, old(InstsOf(spm.Live())), surveys, old(xformsIgnore))
      ensures BestRounds(surveys, old(xformsIgnore), encSeq)
      ensures ok && spm.nrNonzeros != 0 ==> NoneScored(surveys(|encSeq|), Open(surveys, old(xformsIgnore), encSeq))
      ensures ok && spm.nrNonzeros != 0 ==>
        forall t :: t in Types(NR_TYPES) && t !in old(xformsIgnore) && t !in encSeq ==>
        LosesScore(surveys, t, |encSeq|)
      ensures spm.nrNonzeros != 0 ==>
        RoundsWritten(rows, surveys, old(xformsIgnore), encSeq, spm.D()) && rows[0] == old(RowOrder())
          && RowOrder() == rows[|encSeq|]
      ensures ok && spm.nrNonzeros != 0 ==> spm.Live() == rows[|encSeq|]
      ensures |encSeq| <= NR_TYPES
      ensures forall i :: 0 <= i < |encSeq| ==> encSeq[i] in Types(NR_TYPES) && encSeq[i] !in old(xformsIgnore)
      ensures forall i, j :: 0 <= i < j < |encSeq| ==> encSeq[i] != encSeq[j]
    {
      hide Usable, Listed, AllCells, Minable, LongEnough, Types, InstsOf, Selectable, MayLeave, Misses, MissesWindow,
           AllAnchored, MinedTypes, RowOrder, BestType, RoundWritten, Scored, AllPicked, RoundsWritten, BestRounds,
           Open, NoneScored, Sort, Moved, LosesScore;
      encSeq, rows := [], [];
      NoRounds(surveys, xformsIgnore);
      ok := true;
      CellsNeedElements();
      NothingLeft(InstsOf(spm.Live()), surveys, xformsIgnore);
      if spm.nrNonzeros == 0 {
        return;
      }
      ghost var known, ignored, cells := InstsOf(spm.Live()), xformsIgnore, spm.CellsOf();
      rows := [RowOrder()];
      while true
        invariant Minable() && spm.elemsSize > 0
        invariant multiset(spm.CellsOf()) == multiset(cells)
        invariant ignored <= xformsIgnore
        invariant forall t :: t in Types(NR_TYPES) && t !in xformsIgnore ==> LongEnough(t)
        invariant forall i :: i in InstsOf(spm.Live()) ==> MayLeave(i, known, surveys, ignored)
        invariant forall i :: 0 <= i < |encSeq| ==>
          encSeq[i] in Types(NR_TYPES) && encSeq[i] !in ignored && encSeq[i] in xformsIgnore
        invariant forall i, j :: 0 <= i < j < |encSeq| ==> encSeq[i] != encSeq[j]
        invariant BestRounds(surveys, ignored, encSeq)
        invariant Types(NR_TYPES) - xformsIgnore == Open(surveys, ignored, encSeq)
        invariant RoundsWritten(rows, surveys, ignored, encSeq, spm.D()) && |rows| == |encSeq| + 1
        invariant rows[0] == old(RowOrder()) && RowOrder() == rows[|encSeq|]
        invariant old(MissesWindow()) ==> encSeq == [] && MissesWindow()
        decreases Types(NR_TYPES) - xformsIgnore
      {
        var round := |encSeq|;
        ghost var insts := InstsOf(spm.Live());
        var t;
        ok, t := Round(surveys(round));
        ShapedInsts(spm.Live());
        RoundLeaves(InstsOf(spm.Live()), insts, known, t, surveys, round, ignored);
        if t == None {
          break;
        }
        BestAdded(surveys, ignored, encSeq, t);
        RoundAdded(rows, RowOrder(), surveys, ignored, encSeq, t, spm.D());
        encSeq, rows := encSeq + [t], rows + [RowOrder()];
      }
      AtMostTypes(encSeq);
      if ok {
        NoneLeft(surveys, ignored, encSeq);
        ReorderFor(Horizontal, true);
        InRowOrder();
      } else {
        MissedNotAnchored(cells, known, surveys, ignored);
      }
    }

    /** The rounds of mining, by the elements in row-major order before and after each: everything
        that the rule asks for is written for the instantiations picked for the open types. */
    ghost predicate RoundsWritten(rows: seq<seq<Element>>, surveys: nat -> Encoding -> Report, ignored: set<Encoding>,
                                  encSeq: seq<Encoding>, d: Dims)
    {
      |rows| == |encSeq| + 1 && forall k :: 0 <= k < |encSeq| ==>
        RoundAt(rows[k], rows[k + 1], encSeq[k], surveys(k), Open(surveys, ignored, encSeq[..k]), d)
    }

    ghost predicate RoundAt(before: seq<Element>, after: seq<Element>, t: Encoding, survey: Encoding -> Report,
                            open: set<Encoding>, d: Dims)
    {
      t.IsOrder() && RoundWritten(before, after, t, CfgOf(AllPicked(survey, open)), d)
    }

    /** In some survey up to the n-th the type has no score. */
    ghost predicate LosesScore(surveys: nat -> Encoding -> Report, t: Encoding, n: nat) {
      exists k: nat :: k <= n && surveys(k)(t).score == 0
    }

    lemma {:induction false} NoRounds(surveys: nat -> Encoding -> Report, ignored: set<Encoding>)
      ensures BestRounds(surveys, ignored, []) && Open(surveys, ignored, []) == Types(NR_TYPES) - ignored
      ensures forall rows, d :: |rows| == 1 ==> RoundsWritten(rows, surveys, ignored, [], d)
    {
    }

    static lemma {:induction false} BestAdded(surveys: nat -> Encoding -> Report, ignored: set<Encoding>,
                                              encSeq: seq<Encoding>, t: Encoding)
      requires BestRounds(surveys, ignored, encSeq)
      requires BestType(surveys(|encSeq|), Open(surveys, ignored, encSeq), t)
      ensures BestRounds(surveys, ignored, encSeq + [t])
      ensures Open(surveys, ignored, encSeq + [t])
           == Scored(surveys(|encSeq|), Open(surveys, ignored, encSeq)) - {t}
    {
      hide BestType, Scored, Types;
      PrefixesKept(encSeq, t);
    }

    lemma {:induction false} RoundAdded(rows: seq<seq<Element>>, after: seq<Element>,
                                        surveys: nat -> Encoding -> Report, ignored: set<Encoding>,
                                        encSeq: seq<Encoding>, t: Encoding, d: Dims)
      requires RoundsWritten(rows, surveys, ignored, encSeq, d)
      requires RoundAt(rows[|encSeq|], after, t, surveys(|encSeq|), Open(surveys, ignored, encSeq), d)
      ensures RoundsWritten(rows + [after], surveys, ignored, encSeq + [t], d)
    {
      hide RoundAt, Open;
      PrefixesKept(encSeq, t);
    }

    static lemma {:induction false} PrefixesKept(encSeq: seq<Encoding>, t: Encoding)
      ensures forall k :: 0 <= k <= |encSeq| ==> (encSeq + [t])[..k] == encSeq[..k]
      ensures (encSeq + [t])[..|encSeq|] == encSeq
    {
    }

    /** At the end every type has lost its score, unless it has been encoded. */
    lemma {:induction false} NoneLeft(surveys: nat -> Encoding -> Report, ignored: set<Encoding>, encSeq: seq<Encoding>)
      requires NoneScored(surveys(|encSeq|), Open(surveys, ignored, encSeq))
      ensures forall t :: t in Types(NR_TYPES) && t !in ignored && t !in encSeq ==> LosesScore(surveys, t, |encSeq|)
    {
      hide Types, Open;
      forall t | t in Types(NR_TYPES) && t !in ignored && t !in encSeq ensures LosesScore(surveys, t, |encSeq|) {
        OpenOrLost(surveys, ignored, encSeq, t);
      }
    }

    lemma {:induction false} OpenOrLost(surveys: nat -> Encoding -> Report, ignored: set<Encoding>,
                                        encSeq: seq<Encoding>, t: Encoding)
      requires t in Types(NR_TYPES) && t !in ignored && t !in encSeq
      ensures t in Open(surveys, ignored, encSeq) || LosesScore(surveys, t, |encSeq|)
      decreases |encSeq|
    {
      hide Types;
      if encSeq != [] {
        var n := |encSeq| - 1;
        assert t !in encSeq[..n];
        OpenOrLost(surveys, ignored, encSeq[..n], t);
        if t in Open(surveys, ignored, encSeq[..n]) && surveys(n)(t).score == 0 {
          assert LosesScore(surveys, t, |encSeq|);
        }
      }
    }

    lemma {:induction false} InRowOrder()
      requires Minable() && spm.ty == Horizontal
      ensures spm.Live() == RowOrder()
    {
      hide Sort, Moved, Tight, IsRowptr, AllFine, Readable;
      SortSorted(spm.Live(), Horizontal, spm.D());
    }

    /** Types of the substructures mining may leave. */
    static function MinedTypes(known: set<Instantiation>, ignored: set<Encoding>): set<Encoding> {
      (set i | i in known :: i.ty) + (Types(NR_TYPES) - ignored)
    }

    lemma {:induction false} ShapedInsts(es: seq<Element>)
      requires AllShaped(es)
      ensures forall i :: i in InstsOf(es) ==> i.ty != None
    {
    }

    lemma {:induction false} NothingLeft(known: set<Instantiation>, surveys: nat -> Encoding -> Report,
                                         ignored: set<Encoding>)
      ensures forall i :: i in known ==> MayLeave(i, known, surveys, ignored)
    {
    }

    lemma {:induction false} RoundLeaves(now: set<Instantiation>, before: set<Instantiation>, known: set<Instantiation>,
                                         t: Encoding, surveys: nat -> Encoding -> Report, round: nat,
                                         ignored: set<Encoding>)
      requires forall i :: i in before ==> MayLeave(i, known, surveys, ignored)
      requires forall i :: i in now ==> i in before || (i.ty == t && Selectable(i, surveys(round)))
      requires t != None ==> t in Types(NR_TYPES) && t !in ignored
      requires forall i :: i in now ==> i.ty != None
      ensures forall i :: i in now ==> MayLeave(i, known, surveys, ignored)
    {
      hide Selectable, Types;
    }

    lemma {:induction false} MissedNotAnchored(cells: seq<Cell>, known: set<Instantiation>,
                                               surveys: nat -> Encoding -> Report, ignored: set<Encoding>)
      requires Minable() && spm.ty == Horizontal && multiset(spm.CellsOf()) == multiset(cells)
      requires Misses(spm.Live(), samples)
      requires forall i :: i in InstsOf(spm.Live()) ==> MayLeave(i, known, surveys, ignored)
      ensures !AllAnchored(cells, MinedTypes(known, ignored), samples)
    {
      hide AllCells, Readable, Types;
      if AllAnchored(cells, MinedTypes(known, ignored), samples) {
        var es := spm.Live();
        forall t | t in TypesOf(es) ensures t in MinedTypes(known, ignored) {
          var k :| 0 <= k < |es| && es[k].IsPattern() && es[k].inst.ty == t;
          assert es[k].inst in InstsOf(es);
        }
        AnchoredNotMissed(es, spm.D(), cells, MinedTypes(known, ignored), samples);
      }
    }

    lemma {:induction false} AtMostTypes(ts: seq<Encoding>)
      requires forall i :: 0 <= i < |ts| ==> ts[i] in Types(NR_TYPES)
      requires forall i, j :: 0 <= i < j < |ts| ==> ts[i] != ts[j]
      ensures |ts| <= NR_TYPES
    {
      DistinctInSet(ts, Types(NR_TYPES));
    }

    lemma {:induction false} DistinctInSet(ts: seq<Encoding>, all: set<Encoding>)
      requires forall i :: 0 <= i < |ts| ==> ts[i] in all
      requires forall i, j :: 0 <= i < j < |ts| ==> ts[i] != ts[j]
      ensures |ts| <= |all|
    {
      if ts != [] {
        DistinctInSet(ts[1..], all - {ts[0]});
      }
    }

    /** A type and dimensions the encoder can work with. */
    predicate StepOk(t: Encoding, dims: set<nat>) {
      t.Valid() && LongEnough(t) && forall d :: d in dims ==> InstOk(Inst(t, d), splitBlocks)
    }

    /** Instantiations asked for by a sequence of types and dimensions. */
    static ghost predicate AskedFor(i: Instantiation, encseq: seq<(Encoding, set<nat>)>) {
      exists k :: 0 <= k < |encseq| && i.ty == encseq[k].0 && i.dim in encseq[k].1
    }

    /** Substructures are of instantiations known before or allowed by the configuration. */
    static ghost predicate OnlyFrom(es: seq<Element>, known: set<Instantiation>, c: Config) {
      forall i :: i in InstsOf(es) ==> i in known || Picked(i, c)
    }

    /** Encoding a given sequence of types, by the elements and their order before and after each
        step: every step writes, of the instantiations asked for so far, all that the rule asks
        for, and the result is put in row-major order. */
    ghost predicate SerialWritten(trail: seq<(seq<Element>, Encoding)>, after: seq<Element>,
                                  encseq: seq<(Encoding, set<nat>)>, insts: set<Instantiation>, d: Dims)
    {
      && StepsWritten(trail, encseq, |encseq|, insts, d)
      && trail[|encseq|].1.IsOrder() && after == Sort(Moved(trail[|encseq|].0, trail[|encseq|].1, Horizontal, d))
    }

    ghost predicate StepsWritten(trail: seq<(seq<Element>, Encoding)>, encseq: seq<(Encoding, set<nat>)>, n: nat,
                                 insts: set<Instantiation>, d: Dims)
    {
      n <= |encseq| && |trail| == n + 1 && forall k :: 0 <= k < n ==>
        StepWritten(trail[k].0, trail[k].1, trail[k + 1].0, trail[k + 1].1, encseq[k].0,
                    CfgOf(insts + Asked(encseq, k + 1)), d)
    }

    lemma {:induction false} NoSteps(trail: seq<(seq<Element>, Encoding)>, encseq: seq<(Encoding, set<nat>)>,
                                     insts: set<Instantiation>, d: Dims)
      requires |trail| == 1
      ensures StepsWritten(trail, encseq, 0, insts, d) && insts + Asked(encseq, 0) == insts
    {
    }

    lemma {:induction false} StepAdded(trail: seq<(seq<Element>, Encoding)>, after: seq<Element>, to: Encoding,
                                       encseq: seq<(Encoding, set<nat>)>, n: nat, insts: set<Instantiation>, d: Dims)
      requires n < |encseq| && StepsWritten(trail, encseq, n, insts, d)
      requires StepWritten(trail[n].0, trail[n].1, after, to, encseq[n].0, CfgOf(insts + Asked(encseq, n + 1)), d)
      ensures StepsWritten(trail + [(after, to)], encseq, n + 1, insts, d)
    {
      hide StepWritten, Asked;
    }

    static lemma {:induction false} AskedNext(encseq: seq<(Encoding, set<nat>)>, k: nat, insts: set<Instantiation>)
      requires k < |encseq|
      ensures insts + Asked(encseq, k) + StepInsts(encseq[k].0, encseq[k].1) == insts + Asked(encseq, k + 1)
    {
    }

    static lemma {:induction false} AllAsked(encseq: seq<(Encoding, set<nat>)>, k: nat)
      requires k <= |encseq|
      ensures forall i :: i in Asked(encseq, k) ==> AskedFor(i, encseq)
    {
      if k > 0 {
        AllAsked(encseq, k - 1);
      }
    }

    /** Encodes a given sequence of types with given instantiations. */
    method EncodeSerial(encseq: seq<(Encoding, set<nat>)>) returns (ghost trail: seq<(seq<Element>, Encoding)>)
      requires Minable() && LimitsOk()
      requires forall i :: i in encodedInst ==> InstOk(i, splitBlocks)
      requires forall k :: 0 <= k < |encseq| ==> StepOk(encseq[k].0, encseq[k].1)
      modifies this`encodedInst, this`xformsIgnore, spm`elems, spm`rowptr, spm`ty, spm`elemsSize
      ensures Minable()
      ensures multiset(spm.CellsOf()) == multiset(old(spm.CellsOf()))
      ensures spm.nrNonzeros != 0 || old(spm.ty) == Horizontal ==> spm.ty == Horizontal
      ensures OnlyFrom(spm.Live(), old(InstsOf(spm.Live())), Cfg())
      ensures forall i :: i in encodedInst ==> i in old(encodedInst) || AskedFor(i, encseq)
      ensures spm.nrNonzeros != 0 ==>
        && SerialWritten(trail, spm.Live(), encseq, old(encodedInst), spm.D())
        && trail[0] == (old(spm.Live()), old(spm.ty))
    {
      hide AllCells, Minable, LongEnough, Usable, OnlyFrom, InstsOf, AskedFor, StepOk, StepWritten, StepsWritten, Asked,
           StepInsts, WholeRuns, Types, Sort, Moved;
      trail := [(spm.Live(), spm.ty)];
      CellsNeedElements();
      OnlyKnown(spm.Live(), Cfg());
      if spm.nrNonzeros == 0 {
        return;
      }
      ghost var known, insts := InstsOf(spm.Live()), encodedInst;
      xformsIgnore := Types(NR_TYPES);
      UsableNow();
      NoSteps(trail, encseq, insts, spm.D());
      var k := 0;
      while k < |encseq|
        invariant k <= |encseq| && Usable(Cfg())
        invariant Minable() && spm.elemsSize > 0
        invariant multiset(spm.CellsOf()) == multiset(old(spm.CellsOf()))
        invariant OnlyFrom(spm.Live(), known, Cfg())
        invariant encodedInst == insts + Asked(encseq, k) && StepsWritten(trail, encseq, k, insts, spm.D())
        invariant |trail| == k + 1 && trail[k] == (spm.Live(), spm.ty)
        invariant trail[0] == (old(spm.Live()), old(spm.ty))
      {
        ghost var now, c := spm.Live(), Cfg();
        EncodeStep(encseq[k].0, encseq[k].1);
        StepLeaves(spm.Live(), now, known, c, Cfg(), encseq[k].0);
        AskedNext(encseq, k, insts);
        StepAdded(trail, spm.Live(), spm.ty, encseq, k, insts, spm.D());
        trail := trail + [(spm.Live(), spm.ty)];
        k := k + 1;
      }
      AllAsked(encseq, k);
      TransformTo(Horizontal);
      SameInsts(spm.Live(), known, Cfg());
    }

    /** One type with the given dimensions. */
    method EncodeStep(t: Encoding, dims: set<nat>)
      requires Minable() && spm.elemsSize > 0 && Usable(Cfg()) && StepOk(t, dims)
      modifies this`encodedInst, this`xformsIgnore, spm`elems, spm`rowptr, spm`ty, spm`elemsSize
      ensures Minable() && spm.elemsSize > 0 && Usable(Cfg())
      ensures multiset(spm.CellsOf()) == multiset(old(spm.CellsOf()))
      ensures encodedInst == old(encodedInst) + StepInsts(t, dims)
      ensures Uses(spm.Live(), old(InstsOf(spm.Live())), Cfg(), t)
      ensures t != None ==>
        spm.ty == t && WholeRuns(t, old(spm.Live()), old(spm.ty), spm.Live(), Cfg(), spm.D())
      ensures StepWritten(old(spm.Live()), old(spm.ty), spm.Live(), spm.ty, t, Cfg(), spm.D())
    {
      hide AllCells, Minable, InstsOf, Uses, WholeRuns, Sort, Moved, AllWritten;
      RemoveIgnore(t);
      encodedInst := encodedInst + StepInsts(t, dims);
      Encode(t);
      xformsIgnore := xformsIgnore + {t};
    }

    lemma {:induction false} UsableNow()
      requires LimitsOk() && forall i :: i in encodedInst ==> InstOk(i, splitBlocks)
      ensures Usable(Cfg())
    {
    }

    static lemma {:induction false} OnlyKnown(es: seq<Element>, c: Config)
      ensures OnlyFrom(es, InstsOf(es), c)
    {
    }

    static lemma {:induction false} SameInsts(es: seq<Element>, known: set<Instantiation>, c: Config)
      ensures forall before :: OnlyFrom(before, known, c) && InstsOf(before) == InstsOf(es) ==> OnlyFrom(es, known, c)
    {
    }

    static lemma {:induction false} StepLeaves(es: seq<Element>, before: seq<Element>, known: set<Instantiation>,
                                               c0: Config, c: Config, t: Encoding)
      requires OnlyFrom(before, known, c0) && Uses(es, InstsOf(before), c, t)
      requires c0.insts <= c.insts && c == c0.(insts := c.insts)
      ensures OnlyFrom(es, known, c)
    {
      forall i | i in InstsOf(es) && i !in known ensures Picked(i, c) {
        if i in InstsOf(before) {
          assert Picked(i, c0);
        }
      }
    }
  }
}
