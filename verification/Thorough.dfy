/** What encoding a line must write: which of its positions single elements may hold, and how
    long the substructures over the others are. */
module Thorough {
  import opened Encodings
  import opened Elements
  import opened RunLength
  import opened RowEncoder
  import opened SparsePartition

  /** A position of a line as the elements over it see it: the size of its element, and which
      position of that element it is. */
  datatype Place = Place(size: nat, off: nat)

  function PlacesOf(n: nat): (ps: seq<Place>)
    ensures |ps| == n
  {
    seq(n, k requires 0 <= k < n => Place(n, k))
  }

  /** The places of a line, in order. */
  function Places(es: seq<Element>, t: Encoding): seq<Place> {
    if es == [] then [] else Places(es[..|es| - 1], t) + PlacesOf(|Positions(es[|es| - 1], t)|)
  }

  lemma {:induction false} PlacesCount(es: seq<Element>, t: Encoding)
    ensures |Places(es, t)| == |AllPositions(es, t)|
  {
    if es != [] {
      PlacesCount(es[..|es| - 1], t);
    }
  }

  lemma {:induction false} NoPlaces(t: Encoding)
    ensures Places([], t) == []
  {
  }

  lemma {:induction false} PlacesSnoc(es: seq<Element>, e: Element, t: Encoding)
    ensures Places(es + [e], t) == Places(es, t) + PlacesOf(|Positions(e, t)|)
  {
    assert (es + [e])[..|es|] == es;
  }

  // ----- The rule -----

  /** Entries before the first position that starts a column of the block grid. */
  function ToGrid(start: int, align: nat): nat
    requires align >= 1
  {
    var off := (start - 1) % align;
    if off == 0 then 0 else align - off
  }

  /** How many of `n` consecutive entries from position `start` fill whole columns of the grid. */
  function OnGrid(start: int, n: nat, align: nat): nat
    requires align >= 1
  {
    if n > ToGrid(start, align) then (n - ToGrid(start, align)) / align * align else 0
  }

  /** Blocks of this many columns have been selected. */
  predicate Selects(t: Encoding, c: Config, d: nat) { Inst(t, d) in c.insts }

  /** The widest selected block that fits into `left` entries, a single element if none does. */
  ghost predicate WidestFit(t: Encoding, c: Config, left: nat, size: nat)
    requires t.IsBlock() && t.Valid()
  {
    var a := t.Alignment();
    if exists d: nat :: Selects(t, c, d) && a * d <= left then
      exists d: nat :: Selects(t, c, d) && size == a * d <= left
        && forall d': nat :: Selects(t, c, d') && a * d' <= left ==> d' <= d
    else size == 1
  }

  /** The size of the element that starts at entry `o` of `n` entries in equal steps, the first of
      which is at `start`. Of a linear type: as long as the limit allows, and single elements when
      fewer than the minimum are left. Of a block type: single elements off the grid and when fewer
      than two columns are on it; blocks of the widest selected widths, if blocks are split; else
      blocks of the whole width, or of the greatest size if it is greater, when the whole width has
      been selected. */
  ghost predicate SizeOk(t: Encoding, c: Config, start: int, n: nat, o: nat, size: nat)
    requires t.Valid() && o < n
  {
    if !t.IsBlock() then
      size == if n - o < c.minLimit then 1 else if n - o < c.maxLimit then n - o else c.maxLimit
    else
      var a := t.Alignment();
      var front, grid := ToGrid(start, a), OnGrid(start, n, a);
      if o < front || o >= front + grid || grid < 2 * a then size == 1
      else if c.splitBlocks then WidestFit(t, c, front + grid - o, size)
      else if !Selects(t, c, grid / a) then size == 1
      else
        var most := c.maxLimit / a * a;
        var block := if grid < most then grid else most;
        size == if front + grid - o >= block then block else 1
  }

  // ----- The runs of a line -----

  /** Entries b..b + f are a longest run of equal differences. */
  predicate LongestRun(ds: seq<int>, b: nat, f: nat) {
    && f >= 1 && b + f <= |ds| && (forall i :: b <= i < b + f ==> ds[i] == ds[b])
    && (b > 0 ==> ds[b - 1] != ds[b]) && (b + f < |ds| ==> ds[b + f] != ds[b])
  }

  /** A run that begins here is encoded: of a selected step and more than one entry, or of
      consecutive positions. */
  predicate EncodedAt(t: Encoding, c: Config, ds: seq<int>, b: nat) {
    b < |ds| &&
    if t.IsBlock() then ds[b] == 1
    else b + 1 < |ds| && ds[b + 1] == ds[b] && ds[b] >= 0 && Inst(t, ds[b]) in c.insts
  }

  /** Whether the run goes with the entry before it: always for blocks, for linear types unless a
      substructure ends there or in NUMA builds. */
  predicate Joined(pl: seq<Place>, t: Encoding, c: Config, b: nat)
    requires b <= |pl|
  {
    b >= 1 && pl[b - 1].off == 0 && (t.IsBlock() || !c.useNuma)
  }

  /** Where the run and what it is joined with begins. */
  function FirstOf(pl: seq<Place>, t: Encoding, c: Config, b: nat): (g: nat)
    requires b <= |pl|
    ensures g <= b
  {
    if Joined(pl, t, c, b) then b - 1 else b
  }

  /** The run has been written by the rule; only its last entry may have been joined to the next. */
  ghost predicate RunWritten(pl: seq<Place>, t: Encoding, c: Config, xs: seq<int>, b: nat, f: nat)
    requires t.Valid()
  {
    && f >= 1 && b + f <= |pl| && b + f <= |xs|
    && var ds := Diffs(xs);
       if EncodedAt(t, c, ds, b) then
         var g := FirstOf(pl, t, c, b);
         && pl[g].off == 0
         && forall i :: g <= i < b + f && pl[i].off == 0 && (i == b + f - 1 ==> !EncodedAt(t, c, ds, b + f)) ==>
              SizeOk(t, c, xs[g], b + f - g, i - g, pl[i].size)
       else
         && (forall i :: b <= i < b + f ==> pl[i].off == 0)
         && forall i :: b <= i < b + f && (i == b + f - 1 ==> !EncodedAt(t, c, ds, b + f)) ==> pl[i].size == 1
  }

  /** Every run of the line has been written by the rule. */
  ghost predicate Written(es: seq<Element>, t: Encoding, xs: seq<int>, c: Config)
    requires t.Valid()
  {
    forall b, f :: LongestRun(Diffs(xs), b, f) ==> RunWritten(Places(es, t), t, c, xs, b, f)
  }

  // ----- Writing by the rule -----

  /** What is to be written behind the places `front`: `n` entries by the rule, or single elements. */
  datatype Goal = Goal(front: seq<Place>, byRule: bool, start: int, n: nat)

  ghost predicate EntryOk(g: Goal, t: Encoding, c: Config, o: nat, size: nat)
    requires t.Valid()
  {
    o < g.n && if g.byRule then SizeOk(t, c, g.start, g.n, o, size) else size == 1
  }

  /** Single elements may stand over these entries. */
  ghost predicate SinglesAt(g: Goal, t: Encoding, c: Config, lo: nat, hi: nat)
    requires t.Valid()
  {
    hi <= g.n && forall o :: lo <= o < hi ==> EntryOk(g, t, c, o, 1)
  }

  /** The first `done` entries have been written. */
  ghost predicate Meets(es: seq<Element>, t: Encoding, c: Config, g: Goal, done: nat)
    requires t.Valid()
  {
    var pl, m := Places(es, t), |g.front|;
    && |pl| == m + done && done <= g.n && g.front <= pl
    && (done > 0 ==> pl[m].off == 0)
    && (!g.byRule ==> forall i :: m <= i < m + done ==> pl[i].off == 0)
    && forall i :: m <= i < m + done && pl[i].off == 0 ==> EntryOk(g, t, c, i - m, pl[i].size)
  }

  lemma {:induction false} MeetsNothing(es: seq<Element>, t: Encoding, c: Config, g: Goal)
    requires t.Valid() && Places(es, t) == g.front
    ensures Meets(es, t, c, g, 0)
  {
  }

  /** A goal that includes the single element before it. */
  lemma {:induction false} MeetsOne(es: seq<Element>, t: Encoding, c: Config, g: Goal)
    requires t.Valid() && Places(es, t) == g.front + [Place(1, 0)] && SinglesAt(g, t, c, 0, g.n) && g.n >= 1
    ensures Meets(es, t, c, g, 1)
  {
    hide Places, SizeOk;
  }

  /** One more element. */
  lemma {:induction false} MeetsNext(es: seq<Element>, e: Element, t: Encoding, c: Config, g: Goal, done: nat)
    requires t.Valid() && Meets(es, t, c, g, done)
    requires var n := |Positions(e, t)|; n >= 1 && done + n <= g.n && EntryOk(g, t, c, done, n)
    ensures Meets(es + [e], t, c, g, done + |Positions(e, t)|)
  {
    hide EntryOk, Positions;
    PlacesSnoc(es, e, t);
    var n := |Positions(e, t)|;
    if !g.byRule {
      SingleEntry(g, t, c, done, n);
    }
  }

  lemma {:induction false} SingleEntry(g: Goal, t: Encoding, c: Config, o: nat, size: nat)
    requires t.Valid() && EntryOk(g, t, c, o, size) && !g.byRule
    ensures size == 1
  {
  }

  /** What is to be written over a run of `f` entries from entry b, behind the places `pl`. */
  predicate GoalFor(g: Goal, pl: seq<Place>, t: Encoding, c: Config, xs: seq<int>, b: nat, f: nat) {
    && |pl| == b && f >= 1 && b + f <= |xs|
    && g == if EncodedAt(t, c, Diffs(xs), b) then
              var s := FirstOf(pl, t, c, b);
              Goal(pl[..s], true, xs[s], b + f - s)
            else Goal(pl, false, xs[b], f)
  }

  /** When the goal has been met, the run has been written by the rule. */
  lemma {:induction false} GoalWritten(es: seq<Element>, pl: seq<Place>, t: Encoding, c: Config, g: Goal, xs: seq<int>,
                                       b: nat, f: nat)
    requires t.Valid() && GoalFor(g, pl, t, c, xs, b, f) && Meets(es, t, c, g, g.n)
    ensures RunWritten(Places(es, t), t, c, xs, b, f) && |Places(es, t)| == b + f
  {
    hide SizeOk, Places, EncodedAt;
    var now := Places(es, t);
    if EncodedAt(t, c, Diffs(xs), b) {
      assert FirstOf(now, t, c, b) == FirstOf(pl, t, c, b);
    }
  }

  /** The first b places begin elements where they did, and are the same but for the last one. */
  predicate SameBefore(now: seq<Place>, pl: seq<Place>, b: nat, last: bool) {
    && b <= |now| && b <= |pl|
    && (forall i :: 0 <= i < b ==> (now[i].off == 0 <==> pl[i].off == 0))
    && (forall i :: 0 <= i < b && (i == b - 1 ==> last) ==> now[i] == pl[i])
  }

  lemma {:induction false} GoalBefore(es: seq<Element>, pl: seq<Place>, t: Encoding, c: Config, g: Goal, xs: seq<int>,
                                      b: nat, f: nat)
    requires t.Valid() && GoalFor(g, pl, t, c, xs, b, f) && Meets(es, t, c, g, g.n)
    ensures SameBefore(Places(es, t), pl, b, !EncodedAt(t, c, Diffs(xs), b))
  {
    hide SizeOk, Places, EncodedAt, EntryOk;
    var now := Places(es, t);
    if EncodedAt(t, c, Diffs(xs), b) {
      var s := FirstOf(pl, t, c, b);
      assert now[..s] == pl[..s];
      forall i | 0 <= i < b ensures (now[i].off == 0 <==> pl[i].off == 0) && (i < b - 1 ==> now[i] == pl[i]) {
        if i < s {
          assert now[..s][i] == pl[..s][i];
        }
      }
    }
  }

  /** The runs before it stay as they are. */
  lemma {:induction false} WrittenBefore(now: seq<Place>, pl: seq<Place>, t: Encoding, c: Config, xs: seq<int>, b: nat,
                                         b': nat, f': nat)
    requires t.Valid() && SameBefore(now, pl, b, !EncodedAt(t, c, Diffs(xs), b))
    requires RunWritten(pl, t, c, xs, b', f') && b' + f' <= b
    ensures RunWritten(now, t, c, xs, b', f')
  {
    hide SizeOk, EncodedAt;
    assert FirstOf(now, t, c, b') == FirstOf(pl, t, c, b');
  }

  // ----- What the rule says of the parts of a run -----

  /** A run of consecutive positions: `front` entries before the grid, `middle` in whole columns of
      it, `back` behind them. */
  ghost predicate BlockGoal(g: Goal, t: Encoding, front: nat, middle: nat, back: nat)
    requires t.IsBlock() && t.Valid()
  {
    && g.byRule && g.n == front + middle + back
    && ToGrid(g.start, t.Alignment()) == front && OnGrid(g.start, g.n, t.Alignment()) == middle
  }

  /** Before the grid there are single elements. */
  lemma {:induction false} FrontEntries(g: Goal, t: Encoding, c: Config, front: nat, middle: nat, back: nat)
    requires t.IsBlock() && t.Valid() && BlockGoal(g, t, front, middle, back)
    ensures SinglesAt(g, t, c, 0, front)
  {
  }

  /** Without two whole columns, or a selected width, there are no blocks. */
  lemma {:induction false} NoBlockEntries(g: Goal, t: Encoding, c: Config)
    requires t.IsBlock() && t.Valid() && g.byRule
    requires var a := t.Alignment();
             var middle := OnGrid(g.start, g.n, a);
             middle < 2 * a || (!c.splitBlocks && !Selects(t, c, middle / a))
    ensures SinglesAt(g, t, c, 0, g.n)
  {
  }

  /** The whole width has been selected, and this is the size of its blocks. */
  ghost predicate BlockSize(g: Goal, t: Encoding, c: Config, front: nat, middle: nat, back: nat, size: nat)
    requires t.IsBlock() && t.Valid()
  {
    var a := t.Alignment();
    && BlockGoal(g, t, front, middle, back) && !c.splitBlocks && middle >= 2 * a && Selects(t, c, middle / a)
    && size == if middle < c.maxLimit / a * a then middle else c.maxLimit / a * a
  }

  /** As long as it fits, a block of that size stands on the grid. */
  lemma {:induction false} BlockEntry(g: Goal, t: Encoding, c: Config, front: nat, middle: nat, back: nat, size: nat,
                                      done: nat)
    requires t.IsBlock() && t.Valid() && BlockSize(g, t, c, front, middle, back, size)
    requires size >= 1 && done + size <= middle
    ensures EntryOk(g, t, c, front + done, size)
  {
  }

  /** Behind them there are single elements. */
  lemma {:induction false} BlocksDone(g: Goal, t: Encoding, c: Config, front: nat, middle: nat, back: nat, size: nat,
                                      done: nat)
    requires t.IsBlock() && t.Valid() && BlockSize(g, t, c, front, middle, back, size)
    requires done <= middle < done + size
    ensures SinglesAt(g, t, c, front + done, g.n)
  {
  }

  /** A block of the widest width that fits. */
  lemma {:induction false} WidestEntry(g: Goal, t: Encoding, c: Config, front: nat, middle: nat, back: nat, left: nat,
                                       d: nat)
    requires t.IsBlock() && t.Valid() && BlockGoal(g, t, front, middle, back) && c.splitBlocks
    requires middle >= 2 * t.Alignment() && 0 < left <= middle && Selects(t, c, d) && t.Alignment() * d <= left
    requires forall d': nat :: Selects(t, c, d') && t.Alignment() * d' <= left ==> d' <= d
    ensures EntryOk(g, t, c, front + middle - left, t.Alignment() * d)
  {
  }

  /** When no selected width fits, single elements are left. */
  lemma {:induction false} RestEntries(g: Goal, t: Encoding, c: Config, front: nat, middle: nat, back: nat, left: nat)
    requires t.IsBlock() && t.Valid() && BlockGoal(g, t, front, middle, back) && c.splitBlocks && left <= middle
    requires forall d: nat :: Selects(t, c, d) ==> t.Alignment() * d > left
    ensures SinglesAt(g, t, c, front + middle - left, g.n)
  {
  }

  /** What is left of a run of a linear type, short of the minimum. */
  lemma {:induction false} ShortEntries(g: Goal, t: Encoding, c: Config, rest: nat)
    requires !t.IsBlock() && t.Valid() && g.byRule && rest <= g.n && rest < c.minLimit
    ensures SinglesAt(g, t, c, g.n - rest, g.n)
  {
  }

  lemma {:induction false} SingleEntries(g: Goal, t: Encoding, c: Config)
    requires t.Valid() && !g.byRule
    ensures SinglesAt(g, t, c, 0, g.n)
  {
  }

  /** The last place of a line, by its last element. */
  lemma {:induction false} LastPlace(es: seq<Element>, row: int, t: Order, xs: seq<int>, vs: seq<real>)
    requires es != [] && Covers(es, row, t, xs, vs)
    ensures var pl, n := Places(es, t), |es| - 1;
            && |pl| == |xs| >= 1
            && (es[n].IsPattern() ==> pl[|pl| - 1].off > 0)
            && (!es[n].IsPattern() ==> pl == Places(es[..n], t) + [Place(1, 0)])
  {
    PlacesCount(es, t);
    assert Fresh(es[|es| - 1], row, t);
  }

  // ----- Lines and partitions -----

  function ColsOf(line: seq<Element>): seq<int> { seq(|line|, i requires 0 <= i < |line| => line[i].col) }

  /** Where the single elements at the end of a line begin. */
  function TailStart(line: seq<Element>): (b: nat)
    ensures b <= |line|
  {
    if line == [] || line[|line| - 1].IsPattern() then |line| else TailStart(line[..|line| - 1])
  }

  /** What takes the place of single elements has been written by the rule. */
  ghost predicate SinglesWritten(es: seq<Element>, singles: seq<Element>, t: Encoding, c: Config)
    requires t.Valid()
  {
    AllPositions(es, t) == ColsOf(singles) && Written(es, t, ColsOf(singles), c)
  }

  /** Substructures of the line stay, and every stretch of single elements between them has been
      written by the rule. */
  ghost predicate LineWritten(es: seq<Element>, line: seq<Element>, t: Encoding, c: Config)
    requires t.Valid()
    decreases |line|
  {
    if line == [] then es == []
    else if line[|line| - 1].IsPattern() then
      es != [] && es[|es| - 1] == line[|line| - 1] && LineWritten(es[..|es| - 1], line[..|line| - 1], t, c)
    else
      TailShorter(line);
      exists m :: 0 <= m <= |es| && TailWritten(es, line, m, t, c)
        && LineWritten(es[..m], line[..TailStart(line)], t, c)
  }

  ghost predicate TailWritten(es: seq<Element>, line: seq<Element>, m: nat, t: Encoding, c: Config)
    requires t.Valid()
  {
    m <= |es| && SinglesWritten(es[m..], line[TailStart(line)..], t, c)
  }

  lemma {:induction false} TailShorter(line: seq<Element>)
    ensures line != [] && !line[|line| - 1].IsPattern() ==> TailStart(line) < |line|
  {
  }

  lemma {:induction false} TailIs(line: seq<Element>, b: nat)
    requires b <= |line| && (b > 0 ==> line[b - 1].IsPattern()) && forall k :: b <= k < |line| ==> !line[k].IsPattern()
    ensures TailStart(line) == b
    decreases |line|
  {
    if b < |line| {
      TailIs(line[..|line| - 1], b);
    }
  }

  lemma {:induction false} EmptyWritten(t: Encoding, c: Config)
    requires t.Valid()
    ensures LineWritten([], [], t, c)
  {
  }

  lemma {:induction false} PatternStays(es: seq<Element>, line: seq<Element>, e: Element, t: Encoding, c: Config)
    requires t.Valid() && LineWritten(es, line, t, c) && e.IsPattern()
    ensures LineWritten(es + [e], line + [e], t, c)
  {
    assert (es + [e])[..|es|] == es && (line + [e])[..|line|] == line;
  }

  /** The single elements behind a substructure have been written. */
  lemma {:induction false} TailAdded(es: seq<Element>, more: seq<Element>, line: seq<Element>, b: nat, t: Encoding,
                                     c: Config)
    requires t.Valid() && b < |line| && (b > 0 ==> line[b - 1].IsPattern())
    requires forall k :: b <= k < |line| ==> !line[k].IsPattern()
    requires LineWritten(es, line[..b], t, c) && SinglesWritten(more, line[b..], t, c)
    ensures LineWritten(es + more, line, t, c)
  {
    hide SinglesWritten;
    TailIs(line, b);
    assert (es + more)[..|es|] == es && (es + more)[|es|..] == more;
    assert TailWritten(es + more, line, |es|, t, c);
  }

  /** The first n lines of a table have been written, one after the other. */
  ghost predicate TableWritten(es: seq<Element>, old_: seq<Element>, rp: seq<nat>, n: nat, t: Encoding, c: Config)
    requires t.Valid()
    decreases n
  {
    n < |rp| &&
    if n == 0 then es == []
    else exists m :: 0 <= m <= |es| && OneLine(es, old_, rp, n, m, t, c) && TableWritten(es[..m], old_, rp, n - 1, t, c)
  }

  ghost predicate OneLine(es: seq<Element>, old_: seq<Element>, rp: seq<nat>, n: nat, m: nat, t: Encoding, c: Config)
    requires t.Valid()
  {
    && m <= |es| && 1 <= n < |rp| && rp[n - 1] <= rp[n] <= |old_|
    && LineWritten(es[m..], old_[rp[n - 1]..rp[n]], t, c)
  }

  lemma {:induction false} LineAdded(es: seq<Element>, more: seq<Element>, old_: seq<Element>, rp: seq<nat>, n: nat,
                                     t: Encoding, c: Config)
    requires t.Valid() && n + 1 < |rp| && rp[n] <= rp[n + 1] <= |old_| && TableWritten(es, old_, rp, n, t, c)
    requires LineWritten(more, old_[rp[n]..rp[n + 1]], t, c)
    ensures TableWritten(es + more, old_, rp, n + 1, t, c)
  {
    hide LineWritten;
    assert (es + more)[..|es|] == es && (es + more)[|es|..] == more;
    assert OneLine(es + more, old_, rp, n + 1, |es|, t, c);
  }

  /** All lines have been written: no run the rule asks for is left out, and no other is written. */
  ghost predicate AllWritten(es: seq<Element>, old_: seq<Element>, t: Encoding, c: Config)
    requires t.Valid()
  {
    exists rp :: IsTable(rp, old_) && TableWritten(es, old_, rp, |rp| - 1, t, c)
  }

  /** The table of the lines of a list of elements. */
  ghost predicate IsTable(rp: seq<nat>, es: seq<Element>) { |rp| >= 1 && IsRowptr(rp, es) && Tight(rp, es) }
}
