/** What a line written by the rule looks like, run by run. */
module LineShape {
  import opened Encodings
  import opened Elements
  import opened RunLength
  import opened RowEncoder
  import opened Thorough

  /** An element over `size` entries stands at entry i. */
  predicate StandsAt(pl: seq<Place>, i: nat, size: nat) {
    && size >= 1 && i + size <= |pl| && (forall j :: i <= j < i + size ==> pl[j] == Place(size, j - i))
    && (i + size < |pl| ==> pl[i + size].off == 0)
  }

  /** Every entry belongs to an element that stands somewhere. */
  predicate Chained(pl: seq<Place>) {
    forall i :: 0 <= i < |pl| ==>
      pl[i].off <= i && pl[i].off < pl[i].size && StandsAt(pl, i - pl[i].off, pl[i].size)
  }

  lemma {:induction false} PlacesChained(es: seq<Element>, t: Encoding)
    ensures Chained(Places(es, t))
  {
    if es != [] {
      var old_, n := Places(es[..|es| - 1], t), |Positions(es[|es| - 1], t)|;
      PlacesChained(es[..|es| - 1], t);
      var pl := Places(es, t);
      assert pl == old_ + PlacesOf(n);
      forall i | 0 <= i < |pl| ensures pl[i].off <= i && pl[i].off < pl[i].size
        && StandsAt(pl, i - pl[i].off, pl[i].size)
      {
        if i < |old_| {
          ChainedAt(old_, i);
        } else {
          assert pl[i] == Place(n, i - |old_|);
        }
      }
    }
  }

  /** The elements of a line stand one behind the other, each over as many entries as it covers. */
  lemma {:induction false} ElementStands(es: seq<Element>, t: Encoding, k: nat)
    requires k < |es| && |Positions(es[k], t)| >= 1
    ensures StandsAt(Places(es, t), |AllPositions(es[..k], t)|, |Positions(es[k], t)|)
  {
    var last, n := |es| - 1, |Positions(es[k], t)|;
    var old_ := es[..last];
    PlacesCount(es[..k], t);
    PlacesCount(old_, t);
    PlacesChained(es, t);
    if k < last {
      assert old_[..k] == es[..k];
      ElementStands(old_, t, k);
      var at := |AllPositions(es[..k], t)|;
      assert Places(es, t)[at] == Places(old_, t)[at] == Place(n, 0);
    } else {
      assert Places(es, t)[|Places(old_, t)|] == Place(n, 0);
    }
  }

  /** Entry i, if it starts an element, is written by the rule. */
  lemma {:induction false} ByRule(es: seq<Element>, t: Encoding, xs: seq<int>, c: Config, b: nat, f: nat, i: nat)
    requires t.Valid() && Written(es, t, xs, c) && LongestRun(Diffs(xs), b, f) && EncodedAt(t, c, Diffs(xs), b)
    ensures var pl := Places(es, t);
            && b + f <= |pl| && b + f <= |xs|
            && var g := FirstOf(pl, t, c, b);
               && pl[g].off == 0
               && (g <= i < b + f - 1 && pl[i].off == 0 ==> SizeOk(t, c, xs[g], b + f - g, i - g, pl[i].size))
               && (t.IsBlock() && i == b + f - 1 && pl[i].off == 0 ==>
                     SizeOk(t, c, xs[g], b + f - g, i - g, pl[i].size))
  {
    hide SizeOk, Places, FirstOf;
    assert RunWritten(Places(es, t), t, c, xs, b, f);
  }

  /** Of a run of a linear type of which entry i is a single element, fewer entries are left than
      the minimum, or it is the last entry. */
  lemma {:induction false} FewSingles(es: seq<Element>, t: Encoding, xs: seq<int>, c: Config, b: nat, f: nat, i: nat)
    requires t.Valid() && !t.IsBlock() && Written(es, t, xs, c) && c.maxLimit >= 2
    requires LongestRun(Diffs(xs), b, f) && EncodedAt(t, c, Diffs(xs), b) && b <= i < b + f
    ensures b + f <= |Places(es, t)|
    ensures StandsAt(Places(es, t), i, 1) ==> b + f - i < c.minLimit || i == b + f - 1
  {
    hide Places;
    ByRule(es, t, xs, c, b, f, i);
  }

  lemma {:induction false} ChainedAt(pl: seq<Place>, i: nat)
    requires Chained(pl) && i < |pl|
    ensures pl[i].off <= i && pl[i].off < pl[i].size && StandsAt(pl, i - pl[i].off, pl[i].size)
  {
    hide StandsAt;
  }

  /** Where the entry of a run belongs to an element that stands on an earlier entry, that is an
      entry of the run. */
  lemma {:induction false} StandsInRun(pl: seq<Place>, g: nat, i: nat)
    requires Chained(pl) && g <= i < |pl| && pl[g].off == 0
    ensures g <= i - pl[i].off && StandsAt(pl, i - pl[i].off, pl[i].size) && pl[i - pl[i].off].off == 0
  {
    hide Chained;
    ChainedAt(pl, i);
    var s := i - pl[i].off;
    var j := if s < g then g else s;
    assert pl[j] == Place(pl[i].size, j - s);
  }

  /** A run of consecutive positions in a line written by the rule: entries g..end, of which
      `front` stand before the block grid and `grid` on it. */
  ghost predicate BlockRun(es: seq<Element>, t: Encoding, xs: seq<int>, c: Config, b: nat, f: nat, g: nat, front: nat,
                           grid: nat)
    requires t.Valid()
  {
    && t.IsBlock() && Written(es, t, xs, c) && LongestRun(Diffs(xs), b, f) && Diffs(xs)[b] == 1
    && b + f <= |Places(es, t)| && b + f <= |xs| && g == FirstOf(Places(es, t), t, c, b)
    && front == ToGrid(xs[g], t.Alignment()) && grid == OnGrid(xs[g], b + f - g, t.Alignment())
  }

  /** Entry i of such a run. */
  lemma {:induction false} BlockEntry(es: seq<Element>, t: Encoding, xs: seq<int>, c: Config, b: nat, f: nat, g: nat,
                                      front: nat, grid: nat, i: nat)
    requires t.Valid() && BlockRun(es, t, xs, c, b, f, g, front, grid) && g <= i < b + f
    ensures var pl := Places(es, t);
            && t.IsBlock() && b + f <= |pl| && pl[i].off <= i - g && StandsAt(pl, i - pl[i].off, pl[i].size)
            && pl[i].off < pl[i].size
            && SizedAt(t, c, b + f - g, front, grid, i - pl[i].off - g, pl[i].size)
  {
    hide Places, Written, SizeOk, Chained, Diffs;
    var pl := Places(es, t);
    PlacesChained(es, t);
    ByRule(es, t, xs, c, b, f, i);
    StandsInRun(pl, g, i);
    ByRule(es, t, xs, c, b, f, i - pl[i].off);
  }

  /** The rule for entry `o` of a run of consecutive positions. */
  ghost predicate SizedAt(t: Encoding, c: Config, n: nat, front: nat, grid: nat, o: nat, size: nat)
    requires t.Valid() && t.IsBlock()
  {
    var a := t.Alignment();
    exists start :: front == ToGrid(start, a) && grid == OnGrid(start, n, a) && o < n && SizeOk(t, c, start, n, o, size)
  }

  lemma {:induction false} BesideGrid(start: int, n: nat, align: nat)
    requires align >= 1
    ensures var front, grid := ToGrid(start, align), OnGrid(start, n, align);
            front < align && (n > front ==> front + grid <= n < front + grid + align)
  {
    var m := n - ToGrid(start, align);
    assert m == m / align * align + m % align;
  }

  /** Fewer entries than a block is high are left on either side of the grid. */
  lemma {:induction false} InRun(es: seq<Element>, t: Encoding, xs: seq<int>, c: Config, b: nat, f: nat, g: nat,
                                 front: nat, grid: nat)
    requires t.Valid() && BlockRun(es, t, xs, c, b, f, g, front, grid) && grid > 0
    ensures t.IsBlock() && front < t.Alignment() && g + front + grid <= b + f < g + front + grid + t.Alignment()
  {
    hide Places, Written, LongestRun, Diffs;
    BesideGrid(xs[g], b + f - g, t.Alignment());
  }

  lemma {:induction false} SizedOff(t: Encoding, c: Config, n: nat, front: nat, grid: nat, o: nat, size: nat)
    requires t.Valid() && t.IsBlock() && SizedAt(t, c, n, front, grid, o, size)
    ensures if o < front || o >= front + grid then size == 1 else o + size <= front + grid
  {
    hide ToGrid, OnGrid;
  }

  /** Blocks stand on the grid only. */
  lemma {:induction false} OffGrid(es: seq<Element>, t: Encoding, xs: seq<int>, c: Config, b: nat, f: nat, g: nat,
                                   front: nat, grid: nat, i: nat)
    requires t.Valid() && BlockRun(es, t, xs, c, b, f, g, front, grid)
    requires g <= i < b + f && (i < g + front || i >= g + front + grid)
    ensures StandsAt(Places(es, t), i, 1)
  {
    hide BlockRun, SizedAt, Places;
    BlockEntry(es, t, xs, c, b, f, g, front, grid, i);
    SizedOff(t, c, b + f - g, front, grid, i - Places(es, t)[i].off - g, Places(es, t)[i].size);
  }

  /** Where no block stands although blocks are split, no selected width fits into what is left. */
  lemma {:induction false} NothingFits(es: seq<Element>, t: Encoding, xs: seq<int>, c: Config, b: nat, f: nat, g: nat,
                                       front: nat, grid: nat, i: nat, d: nat)
    requires t.Valid() && BlockRun(es, t, xs, c, b, f, g, front, grid) && c.splitBlocks && grid >= 2 * t.Alignment()
    requires g + front <= i < g + front + grid && i < b + f && StandsAt(Places(es, t), i, 1)
    requires Selects(t, c, d) && t.Alignment() * d >= 2
    ensures t.Alignment() * d > g + front + grid - i
  {
    hide BlockRun, SizedAt, Places, Selects;
    BlockEntry(es, t, xs, c, b, f, g, front, grid, i);
    SizedSplit(t, c, b + f - g, front, grid, i - g, 1, d);
  }

  lemma {:induction false} SizedSplit(t: Encoding, c: Config, n: nat, front: nat, grid: nat, o: nat, size: nat, d: nat)
    requires t.Valid() && t.IsBlock() && SizedAt(t, c, n, front, grid, o, size) && c.splitBlocks
    requires grid >= 2 * t.Alignment() && front <= o < front + grid
    requires Selects(t, c, d) && t.Alignment() * d >= 2 && size == 1
    ensures t.Alignment() * d > front + grid - o
  {
    hide ToGrid, OnGrid, Selects;
    var a, left := t.Alignment(), front + grid - o;
    assert WidestFit(t, c, left, 1);
    if a * d <= left {
      var e: nat :| Selects(t, c, e) && 1 == a * e <= left
        && forall d': nat :: Selects(t, c, d') && a * d' <= left ==> d' <= e;
      ProductGrows(a, d, e);
    }
  }

  lemma {:induction false} ProductGrows(a: nat, d: nat, e: nat)
    ensures d <= e ==> a * d <= a * e
  {
  }

  /** The width of the blocks, if blocks are not split, and how many of them stand on the grid. */
  ghost predicate BlocksOf(t: Encoding, c: Config, grid: nat, size: nat, count: nat)
    requires t.Valid() && t.IsBlock()
  {
    var a := t.Alignment();
    var most := c.maxLimit / a * a;
    && grid >= 2 * a && Selects(t, c, grid / a) && !c.splitBlocks
    && size == (if grid < most then grid else most) && size >= 1 && BlocksFit(grid, size, count)
  }

  /** Where block k begins, the first one at `first`. */
  function BlockAt(first: nat, size: nat, k: nat): nat { first + k * size }

  predicate BlocksFit(grid: nat, size: nat, count: nat) { count * size <= grid < count * size + size }

  lemma {:induction false} SizedWhole(t: Encoding, c: Config, n: nat, front: nat, grid: nat, o: nat, size: nat,
                                      block: nat, count: nat)
    requires t.Valid() && t.IsBlock() && SizedAt(t, c, n, front, grid, o, size) && BlocksOf(t, c, grid, block, count)
    requires front <= o < front + grid
    ensures size == if front + grid - o >= block then block else 1
  {
    hide ToGrid, OnGrid, Selects, BlocksFit;
  }

  lemma {:induction false} BlockRoom(grid: nat, size: nat, count: nat, first: nat, k: nat)
    requires BlocksFit(grid, size, count) && k < count
    ensures first <= BlockAt(first, size, k) && BlockAt(first, size, k) + size <= first + grid
    ensures if k == 0 then BlockAt(first, size, k) == first
            else BlockAt(first, size, k) == BlockAt(first, size, k - 1) + size
  {
    ProductGrows(size, k + 1, count);
  }

  /** The blocks of a run of consecutive positions stand side by side from the first column of
      the grid. */
  lemma {:induction false} BlockStands(es: seq<Element>, t: Encoding, xs: seq<int>, c: Config, b: nat, f: nat, g: nat,
                                       front: nat, grid: nat, size: nat, count: nat, k: nat)
    requires t.Valid() && BlockRun(es, t, xs, c, b, f, g, front, grid)
    requires t.IsBlock() && BlocksOf(t, c, grid, size, count) && k < count
    ensures StandsAt(Places(es, t), BlockAt(g + front, size, k), size)
  {
    hide BlockRun, SizedAt, Places, BlocksFit, BlockAt;
    var at := BlockAt(g + front, size, k);
    BlockRoom(grid, size, count, g + front, k);
    InRun(es, t, xs, c, b, f, g, front, grid);
    BlockEntry(es, t, xs, c, b, f, g, front, grid, at);
    if k > 0 {
      BlockStands(es, t, xs, c, b, f, g, front, grid, size, count, k - 1);
    } else if front > 0 {
      OffGrid(es, t, xs, c, b, f, g, front, grid, g + front - 1);
    }
    SizedWhole(t, c, b + f - g, front, grid, at - g, Places(es, t)[at].size, size, count);
  }

  lemma {:induction false} SomeBlock(grid: nat, size: nat, count: nat, first: nat)
    requires BlocksFit(grid, size, count) && grid >= size
    ensures count > 0 && BlockAt(first, size, count) == BlockAt(first, size, count - 1) + size
    ensures first <= BlockAt(first, size, count) && first + grid < BlockAt(first, size, count) + size
  {
  }

  /** Behind the blocks there are single elements, short of one more block. */
  lemma {:induction false} AfterBlocks(es: seq<Element>, t: Encoding, xs: seq<int>, c: Config, b: nat, f: nat, g: nat,
                                       front: nat, grid: nat, size: nat, count: nat, i: nat)
    requires t.Valid() && BlockRun(es, t, xs, c, b, f, g, front, grid)
    requires t.IsBlock() && BlocksOf(t, c, grid, size, count) && BlockAt(g + front, size, count) <= i < b + f
    ensures StandsAt(Places(es, t), i, 1)
    ensures b + f < BlockAt(g + front, size, count) + size + t.Alignment()
  {
    hide BlockRun, SizedAt, Places, Chained, BlocksFit, BlockAt;
    SomeBlock(grid, size, count, g + front);
    BlockEntry(es, t, xs, c, b, f, g, front, grid, i);
    InRun(es, t, xs, c, b, f, g, front, grid);
    if i < g + front + grid {
      var pl, at := Places(es, t), BlockAt(g + front, size, count);
      BlockStands(es, t, xs, c, b, f, g, front, grid, size, count, count - 1);
      PlacesChained(es, t);
      StandsInRun(pl, at, i);
      SizedWhole(t, c, b + f - g, front, grid, i - pl[i].off - g, pl[i].size, size, count);
    } else {
      OffGrid(es, t, xs, c, b, f, g, front, grid, i);
    }
  }
}
