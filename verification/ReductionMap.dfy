/** Which thread adds up which entries of the local buffers. */
module ReductionMap {

  /** What matters of a partition: where its rows start, and the columns of its elements below
      the diagonal, in the order they are stored. */
  datatype Part = Part(start: nat, cols: seq<nat>)

  /** Entries of the local buffers, by thread and position. */
  datatype Map = Map(cpus: seq<nat>, pos: seq<nat>)

  /** The partition writes column `col` of its local buffer: columns before its own rows. */
  predicate Marked(parts: seq<Part>, i: nat, col: nat) {
    i < |parts| && 1 <= col < parts[i].start + 1 && col in parts[i].cols
  }

  /** Columns lie in the matrix, and partitions start inside it, unless they have no elements. */
  predicate PartsOk(parts: seq<Part>, n: nat) {
    forall i :: 0 <= i < |parts| ==>
      (parts[i].start < n || parts[i].cols == []) && forall k :: 0 <= k < |parts[i].cols| ==> parts[i].cols[k] >= 1
  }

  /** Marked entries of column `j`, for the first `k` threads. */
  function EntriesAt(parts: seq<Part>, j: nat, k: nat): (es: seq<(nat, int)>)
    ensures |es| <= k
  {
    if k == 0 then []
    else EntriesAt(parts, j, k - 1) + if Marked(parts, k - 1, j) then [(k - 1, j - 1)] else []
  }

  /** Marked entries of the columns lo..hi, column by column. */
  function EntriesIn(parts: seq<Part>, lo: nat, hi: nat): seq<(nat, int)>
    requires lo <= hi
    decreases hi
  {
    if lo == hi then [] else EntriesIn(parts, lo, hi - 1) + EntriesAt(parts, hi - 1, |parts|)
  }

  lemma {:induction false} EntriesConcat(parts: seq<Part>, lo: nat, mid: nat, hi: nat)
    requires lo <= mid <= hi
    ensures EntriesIn(parts, lo, hi) == EntriesIn(parts, lo, mid) + EntriesIn(parts, mid, hi)
    decreases hi
  {
    if mid < hi {
      EntriesConcat(parts, lo, mid, hi - 1);
    }
  }

  // ----- Each marked entry once -----

  /** How often `e` occurs. */
  function Occurs(es: seq<(nat, int)>, e: (nat, int)): nat {
    if es == [] then 0 else Occurs(es[..|es| - 1], e) + if es[|es| - 1] == e then 1 else 0
  }

  lemma {:induction false} OccursConcat(a: seq<(nat, int)>, b: seq<(nat, int)>, e: (nat, int))
    ensures Occurs(a + b, e) == Occurs(a, e) + Occurs(b, e)
    decreases |b|
  {
    if b == [] {
      assert a + b == a;
    } else {
      assert (a + b)[..|a + b| - 1] == a + b[..|b| - 1];
      OccursConcat(a, b[..|b| - 1], e);
    }
  }

  lemma {:induction false} OccursOnce(x: (nat, int), e: (nat, int))
    ensures Occurs([x], e) == if x == e then 1 else 0
  {
    assert [x][..0] == [];
  }

  lemma {:induction false} OnceInColumn(parts: seq<Part>, j: nat, k: nat, e: (nat, int))
    ensures Occurs(EntriesAt(parts, j, k), e) == if e.1 == j - 1 && e.0 < k && Marked(parts, e.0, j) then 1 else 0
  {
    if k > 0 {
      hide Marked, Occurs;
      OnceInColumn(parts, j, k - 1, e);
      OccursConcat(EntriesAt(parts, j, k - 1), if Marked(parts, k - 1, j) then [(k - 1, j - 1)] else [], e);
      OccursOnce((k - 1, j - 1), e);
      OccursNothing(e);
    } else {
      OccursNothing(e);
    }
  }

  lemma {:induction false} OccursNothing(e: (nat, int))
    ensures Occurs([], e) == 0
  {
  }

  lemma {:induction false} MarkedBound(parts: seq<Part>, i: nat, j: nat)
    ensures Marked(parts, i, j) ==> i < |parts|
  {
  }

  /** A range of columns has each of its marked entries once and no other. */
  lemma {:induction false} OnceInRange(parts: seq<Part>, lo: nat, hi: nat, e: (nat, int))
    requires lo <= hi
    ensures Occurs(EntriesIn(parts, lo, hi), e) == if lo <= e.1 + 1 < hi && Marked(parts, e.0, e.1 + 1) then 1 else 0
    decreases hi
  {
    hide Marked, EntriesAt, Occurs;
    if lo < hi {
      OnceInRange(parts, lo, hi - 1, e);
      OnceInColumn(parts, hi - 1, |parts|, e);
      MarkedBound(parts, e.0, hi - 1);
      OccursConcat(EntriesIn(parts, lo, hi - 1), EntriesAt(parts, hi - 1, |parts|), e);
    } else {
      OccursNothing(e);
    }
  }

  // ----- The map -----

  predicate MapIs(m: Map, es: seq<(nat, int)>) {
    |m.cpus| == |m.pos| == |es| && forall t :: 0 <= t < |es| ==> (m.cpus[t], m.pos[t]) == es[t]
  }

  /** Thread i gets the columns ends[i]..ends[i + 1]. */
  predicate Divided(parts: seq<Part>, maps: seq<Map>, ends: seq<nat>) {
    && |ends| == |maps| + 1 && ends[0] == 0
    && (forall i :: 0 <= i < |maps| ==>
          ends[i] <= ends[i + 1] && MapIs(maps[i], EntriesIn(parts, ends[i], ends[i + 1])))
  }

  /** What one of `threads` threads takes of `left` entries: an equal share, rounded down, and
      less than one column more, that is, at most one entry of every partition but one. */
  predicate EqualShare(taken: nat, left: nat, threads: nat, parts: nat)
    requires threads >= 1
  {
    taken >= left / threads && (left >= threads ==> taken < left / threads + parts)
  }

  /** Every thread but the last gets an equal share of what the threads before it have left. */
  predicate Balanced(parts: seq<Part>, maps: seq<Map>, ends: seq<nat>, n: nat) {
    && |ends| == |maps| + 1 && |maps| <= |parts|
    && (forall i :: 0 <= i < |ends| ==> ends[i] <= n)
    && forall i :: 0 <= i < |maps| && i < |parts| - 1 ==>
         EqualShare(|maps[i].cpus|, |EntriesIn(parts, ends[i], n)|, |parts| - i, |parts|)
  }

  /** Marks the columns each partition writes to its local buffer, and counts them. */
  method FillInitialMap(parts: seq<Part>, n: nat) returns (initialMap: array2<bool>, count: array<nat>)
    requires PartsOk(parts, n)
    ensures fresh(initialMap) && fresh(count) && initialMap.Length0 == |parts| && initialMap.Length1 == n
    ensures count.Length == n
    ensures forall i, c :: 0 <= i < |parts| && 0 <= c < n ==> initialMap[i, c] == Marked(parts, i, c)
    ensures forall c :: 0 <= c < n ==> count[c] == |EntriesAt(parts, c, |parts|)|
  {
    initialMap := new bool[|parts|, n]((i, c) => false);
    count := new nat[n](_ => 0);
    var i := 0;
    while i < |parts|
      invariant i <= |parts|
      invariant forall k, c :: 0 <= k < |parts| && 0 <= c < n ==> initialMap[k, c] == (k < i && Marked(parts, k, c))
      invariant forall c :: 0 <= c < n ==> count[c] == |EntriesAt(parts, c, i)|
    {
      MarkColumns(parts, n, i, initialMap, count);
      i := i + 1;
    }
  }

  method MarkColumns(parts: seq<Part>, n: nat, i: nat, initialMap: array2<bool>, count: array<nat>)
    requires PartsOk(parts, n) && i < |parts|
    requires initialMap.Length0 == |parts| && initialMap.Length1 == n && count.Length == n
    requires forall k, c :: 0 <= k < |parts| && 0 <= c < n ==> initialMap[k, c] == (k < i && Marked(parts, k, c))
    requires forall c :: 0 <= c < n ==> count[c] == |EntriesAt(parts, c, i)|
    modifies initialMap, count
    ensures forall k, c :: 0 <= k < |parts| && 0 <= c < n ==> initialMap[k, c] == (k < i + 1 && Marked(parts, k, c))
    ensures forall c :: 0 <= c < n ==> count[c] == |EntriesAt(parts, c, i + 1)|
  {
    var start, cols := parts[i].start, parts[i].cols;
    var k := 0;
    while k < |cols|
      invariant k <= |cols|
      invariant forall r, c :: 0 <= r < |parts| && 0 <= c < n ==>
        initialMap[r, c] == if r < i then Marked(parts, r, c) else r == i && 1 <= c < start + 1 && c in cols[..k]
      invariant forall c :: 0 <= c < n ==> count[c] == |EntriesAt(parts, c, i)| + if initialMap[i, c] then 1 else 0
    {
      var col := cols[k];
      assert cols[..k + 1] == cols[..k] + [col];
      if col < start + 1 && !initialMap[i, col] {
        initialMap[i, col] := true;
        count[col] := count[col] + 1;
      }
      k := k + 1;
    }
    assert cols[..k] == cols;
    assert forall c :: 0 <= c < n ==> initialMap[i, c] == Marked(parts, i, c);
  }

  // ----- Dividing the columns -----

  /** The arrays start with these entries. */
  predicate Filled(cpus: array<nat>, elemsPos: array<nat>, es: seq<(nat, int)>)
    reads cpus, elemsPos
  {
    |es| <= cpus.Length == elemsPos.Length && forall t :: 0 <= t < |es| ==> (cpus[t], elemsPos[t]) == es[t]
  }

  /** Writes the marked entries of the columns start..end. */
  method FillMap(parts: seq<Part>, initialMap: array2<bool>, n: nat, start: nat, end: nat, length: nat) returns (m: Map)
    requires start <= end <= n && length == |EntriesIn(parts, start, end)|
    requires initialMap.Length0 == |parts| && initialMap.Length1 == n
    requires forall i, c :: 0 <= i < |parts| && 0 <= c < n ==> initialMap[i, c] == Marked(parts, i, c)
    ensures MapIs(m, EntriesIn(parts, start, end))
  {
    hide EntriesIn, Filled, Marked;
    var cpus := new nat[length];
    var elemsPos := new nat[length];
    var tempCount := 0;
    NoColumns(parts, start, cpus, elemsPos);
    var j := start;
    while j < end
      modifies cpus, elemsPos
      invariant start <= j <= end && tempCount == |EntriesIn(parts, start, j)|
      invariant Filled(cpus, elemsPos, EntriesIn(parts, start, j))
    {
      EntriesConcat(parts, start, j + 1, end);
      tempCount := FillColumn(parts, initialMap, n, start, j, cpus, elemsPos, tempCount);
      j := j + 1;
    }
    m := Map(cpus[..], elemsPos[..]);
    FilledIs(cpus, elemsPos, EntriesIn(parts, start, end));
  }

  lemma {:induction false} NoColumns(parts: seq<Part>, start: nat, cpus: array<nat>, elemsPos: array<nat>)
    requires cpus.Length == elemsPos.Length
    ensures EntriesIn(parts, start, start) == [] && Filled(cpus, elemsPos, EntriesIn(parts, start, start))
  {
  }

  lemma {:induction false} FilledIs(cpus: array<nat>, elemsPos: array<nat>, es: seq<(nat, int)>)
    requires Filled(cpus, elemsPos, es) && cpus.Length == |es|
    ensures MapIs(Map(cpus[..], elemsPos[..]), es)
  {
  }

  method FillColumn(parts: seq<Part>, initialMap: array2<bool>, n: nat, ghost start: nat, j: nat,
                    cpus: array<nat>, elemsPos: array<nat>, count0: nat) returns (tempCount: nat)
    requires start <= j < n && cpus != elemsPos && cpus.Length == elemsPos.Length
    requires initialMap.Length0 == |parts| && initialMap.Length1 == n
    requires forall i, c :: 0 <= i < |parts| && 0 <= c < n ==> initialMap[i, c] == Marked(parts, i, c)
    requires count0 == |EntriesIn(parts, start, j)| && |EntriesIn(parts, start, j + 1)| <= cpus.Length
    requires Filled(cpus, elemsPos, EntriesIn(parts, start, j))
    modifies cpus, elemsPos
    ensures tempCount == |EntriesIn(parts, start, j + 1)|
    ensures Filled(cpus, elemsPos, EntriesIn(parts, start, j + 1))
  {
    hide Marked, EntriesIn;
    tempCount := count0;
    ghost var before := EntriesIn(parts, start, j);
    ColumnLast(parts, start, j);
    assert before + EntriesAt(parts, j, 0) == before;
    var k := 0;
    while k < |parts|
      invariant k <= |parts|
      invariant tempCount == count0 + |EntriesAt(parts, j, k)|
      invariant Filled(cpus, elemsPos, before + EntriesAt(parts, j, k))
    {
      EntriesGrow(parts, j, k + 1, |parts|);
      MarkedPositive(parts, k, j);
      if initialMap[k, j] {
        cpus[tempCount] := k;
        elemsPos[tempCount] := j - 1;
        tempCount := tempCount + 1;
      }
      k := k + 1;
    }
  }

  lemma {:induction false} ColumnLast(parts: seq<Part>, start: nat, j: nat)
    requires start <= j
    ensures EntriesIn(parts, start, j + 1) == EntriesIn(parts, start, j) + EntriesAt(parts, j, |parts|)
  {
  }

  lemma {:induction false} MarkedPositive(parts: seq<Part>, k: nat, j: nat)
    ensures Marked(parts, k, j) ==> j >= 1
  {
  }

  lemma {:induction false} EntriesGrow(parts: seq<Part>, j: nat, k: nat, k': nat)
    requires k <= k'
    ensures |EntriesAt(parts, j, k)| <= |EntriesAt(parts, j, k')|
    decreases k'
  {
    if k < k' {
      EntriesGrow(parts, j, k, k' - 1);
    }
  }

  /** Takes columns until they hold `limit` entries; there are enough of them. */
  method TakeColumns(parts: seq<Part>, count: array<nat>, n: nat, start: nat, limit: nat)
    returns (end: nat, tempCount: nat)
    requires start <= n == count.Length && limit <= |EntriesIn(parts, start, n)|
    requires forall c :: 0 <= c < n ==> count[c] == |EntriesAt(parts, c, |parts|)|
    ensures start <= end <= n && tempCount == |EntriesIn(parts, start, end)| >= limit
    ensures limit > 0 ==> tempCount < limit + |parts|
  {
    end, tempCount := start, 0;
    while tempCount < limit
      invariant start <= end <= n && tempCount == |EntriesIn(parts, start, end)|
      invariant limit > 0 ==> tempCount < limit + |parts|
      decreases n - end
    {
      ColumnLast(parts, start, end);
      tempCount := tempCount + count[end];
      end := end + 1;
    }
  }

  method SumCounts(parts: seq<Part>, count: array<nat>, n: nat) returns (totalCount: nat)
    requires n == count.Length && forall c :: 0 <= c < n ==> count[c] == |EntriesAt(parts, c, |parts|)|
    ensures totalCount == |EntriesIn(parts, 0, n)|
  {
    totalCount := 0;
    for i := 0 to n
      invariant totalCount == |EntriesIn(parts, 0, i)|
    {
      ColumnLast(parts, 0, i);
      totalCount := totalCount + count[i];
    }
  }

  /** Divides the marked entries between the threads, by whole columns. */
  method MakeMap(parts: seq<Part>, n: nat) returns (maps: seq<Map>, ghost ends: seq<nat>)
    requires |parts| >= 1 && PartsOk(parts, n)
    ensures |maps| == |parts| && Divided(parts, maps, ends) && ends[|parts|] == n
    ensures Balanced(parts, maps, ends, n)
  {
    hide PartsOk, Marked, EntriesIn, EntriesAt, MapIs;
    var initialMap, count := FillInitialMap(parts, n);
    var totalCount := SumCounts(parts, count, n);
    maps, ends := [], [0];
    var end := 0;
    var i := 0;
    while i < |parts| - 1
      modifies {}
      invariant i <= |parts| - 1 && |maps| == i && end <= n
      invariant Divided(parts, maps, ends) && ends[i] == end && totalCount == |EntriesIn(parts, end, n)|
      invariant Balanced(parts, maps, ends, n)
    {
      var start := end;
      var limit := totalCount / (|parts| - i);
      Share(totalCount, |parts| - i);
      var tempCount;
      end, tempCount := TakeColumns(parts, count, n, start, limit);
      EntriesConcat(parts, start, end, n);
      totalCount := totalCount - tempCount;
      var map_ := FillMap(parts, initialMap, n, start, end, tempCount);
      MapLength(map_, EntriesIn(parts, start, end));
      OneMore(parts, maps, ends, map_, end, n);
      maps, ends := maps + [map_], ends + [end];
      i := i + 1;
    }
    var map_ := FillMap(parts, initialMap, n, end, n, totalCount);
    LastOne(parts, maps, ends, map_, n);
    maps, ends := maps + [map_], ends + [n];
  }

  lemma {:induction false} Share(total: nat, k: nat)
    requires k >= 1
    ensures total / k <= total && (total >= k ==> total / k > 0)
  {
  }

  lemma {:induction false} MapLength(m: Map, es: seq<(nat, int)>)
    requires MapIs(m, es)
    ensures |m.cpus| == |es|
  {
  }

  lemma {:induction false} DividedMore(parts: seq<Part>, maps: seq<Map>, ends: seq<nat>, m: Map, end: nat)
    requires Divided(parts, maps, ends) && ends[|maps|] <= end && MapIs(m, EntriesIn(parts, ends[|maps|], end))
    ensures Divided(parts, maps + [m], ends + [end])
  {
    hide MapIs, EntriesIn;
    var maps', ends' := maps + [m], ends + [end];
    forall i | 0 <= i < |maps'|
      ensures ends'[i] <= ends'[i + 1] && MapIs(maps'[i], EntriesIn(parts, ends'[i], ends'[i + 1]))
    {
      if i < |maps| {
        assert maps'[i] == maps[i] && ends'[i] == ends[i] && ends'[i + 1] == ends[i + 1];
      }
    }
  }

  lemma {:induction false} BalancedMore(parts: seq<Part>, maps: seq<Map>, ends: seq<nat>, m: Map, end: nat, n: nat)
    requires Balanced(parts, maps, ends, n) && |maps| < |parts| && end <= n
    requires |maps| < |parts| - 1 ==>
      EqualShare(|m.cpus|, |EntriesIn(parts, ends[|maps|], n)|, |parts| - |maps|, |parts|)
    ensures Balanced(parts, maps + [m], ends + [end], n)
  {
    hide EqualShare, EntriesIn;
    var maps', ends' := maps + [m], ends + [end];
    forall i | 0 <= i < |maps'| && i < |parts| - 1
      ensures EqualShare(|maps'[i].cpus|, |EntriesIn(parts, ends'[i], n)|, |parts| - i, |parts|)
    {
      if i < |maps| {
        assert maps'[i] == maps[i];
      }
    }
  }

  /** One more thread has its columns. */
  lemma {:induction false} OneMore(parts: seq<Part>, maps: seq<Map>, ends: seq<nat>, m: Map, end: nat, n: nat)
    requires Divided(parts, maps, ends) && Balanced(parts, maps, ends, n) && |maps| < |parts| - 1
    requires ends[|maps|] <= end <= n && MapIs(m, EntriesIn(parts, ends[|maps|], end))
    requires EqualShare(|m.cpus|, |EntriesIn(parts, ends[|maps|], n)|, |parts| - |maps|, |parts|)
    ensures Divided(parts, maps + [m], ends + [end]) && Balanced(parts, maps + [m], ends + [end], n)
  {
    hide Divided, Balanced, EqualShare, MapIs, EntriesIn;
    DividedMore(parts, maps, ends, m, end);
    BalancedMore(parts, maps, ends, m, end, n);
  }

  lemma {:induction false} LastOne(parts: seq<Part>, maps: seq<Map>, ends: seq<nat>, m: Map, n: nat)
    requires Divided(parts, maps, ends) && Balanced(parts, maps, ends, n) && |maps| == |parts| - 1
    requires ends[|maps|] <= n && MapIs(m, EntriesIn(parts, ends[|maps|], n))
    ensures Divided(parts, maps + [m], ends + [n]) && Balanced(parts, maps + [m], ends + [n], n)
  {
    hide Divided, Balanced, EqualShare, MapIs, EntriesIn;
    DividedMore(parts, maps, ends, m, n);
    BalancedMore(parts, maps, ends, m, n, n);
  }

  // ----- What the division gives -----

  /** Every position a thread has belongs to one of its columns, and the entries of that column
      are in its map, each once; so different threads have different positions. */
  lemma {:induction false} EachEntryOnce(parts: seq<Part>, maps: seq<Map>, ends: seq<nat>, n: nat, e: (nat, int))
    returns (owner: nat)
    requires |maps| == |parts| >= 1 && Divided(parts, maps, ends) && ends[|parts|] == n
    requires 0 <= e.1 && e.1 + 1 < n && Marked(parts, e.0, e.1 + 1)
    ensures owner < |maps| && ends[owner] <= e.1 + 1 < ends[owner + 1]
    ensures forall i :: 0 <= i < |maps| ==>
      Occurs(EntriesIn(parts, ends[i], ends[i + 1]), e) == if i == owner then 1 else 0
  {
    hide Marked, EntriesIn, MapIs;
    owner := 0;
    while ends[owner + 1] <= e.1 + 1
      invariant owner < |maps| && ends[owner] <= e.1 + 1
      decreases |maps| - owner
    {
      owner := owner + 1;
    }
    forall i | 0 <= i < |maps|
      ensures Occurs(EntriesIn(parts, ends[i], ends[i + 1]), e) == if i == owner then 1 else 0
    {
      OnceInRange(parts, ends[i], ends[i + 1], e);
      if i < owner {
        EndsGrow(parts, maps, ends, i + 1, owner);
      } else if i > owner {
        EndsGrow(parts, maps, ends, owner + 1, i);
      }
    }
  }

  lemma {:induction false} EndsGrow(parts: seq<Part>, maps: seq<Map>, ends: seq<nat>, i: nat, j: nat)
    requires Divided(parts, maps, ends) && i <= j < |ends|
    ensures ends[i] <= ends[j]
    decreases j - i
  {
    if i < j {
      EndsGrow(parts, maps, ends, i, j - 1);
    }
  }
}
