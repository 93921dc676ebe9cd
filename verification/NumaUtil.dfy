/** Fitting a requested interleaving of memory to whole pages. */
module NumaUtil {
  import Utility

  function Sum(s: seq<nat>): nat {
    if s == [] then 0 else Sum(s[..|s| - 1]) + s[|s| - 1]
  }

  lemma {:induction false} SumSnoc(s: seq<nat>, n: nat)
    requires n < |s|
    ensures Sum(s[..n + 1]) == Sum(s[..n]) + s[n]
  {
    assert s[..n + 1][..n] == s[..n];
  }

  /** Bytes that the parts bound to `node` ask for. */
  function BytesOn(parts: seq<nat>, nodes: seq<nat>, node: nat): nat
    requires |parts| == |nodes|
  {
    if parts == [] then 0
    else
      var n := |parts| - 1;
      BytesOn(parts[..n], nodes[..n], node) + if nodes[n] == node then parts[n] else 0
  }

  /** The first of the nodes with the highest score. */
  predicate IsBest(scores: seq<nat>, best: nat) {
    && best < |scores|
    && forall j :: 0 <= j < |scores| ==> if j < best then scores[j] < scores[best] else scores[j] <= scores[best]
  }

  method GetBestNode(nodeScores: array<nat>) returns (ret: nat)
    requires nodeScores.Length >= 1
    ensures IsBest(nodeScores[..], ret)
  {
    ret := 0;
    var maxScore := nodeScores[0];
    for j := 1 to nodeScores.Length
      invariant ret < j && maxScore == nodeScores[ret]
      invariant forall k :: 0 <= k < j ==> if k < ret then nodeScores[k] < maxScore else nodeScores[k] <= maxScore
    {
      if nodeScores[j] > maxScore {
        maxScore := nodeScores[j];
        ret := j;
      }
    }
  }

  // ----- Merging small parts -----

  /** Where group `g` of parts ends. */
  function End(cuts: seq<nat>, g: nat, n: nat): nat
    requires g < |cuts|
  {
    if g + 1 < |cuts| then cuts[g + 1] else n
  }

  /** Starts of groups of neighbouring parts. */
  predicate Cuts(cuts: seq<nat>, n: nat) {
    && cuts != [] && cuts[0] == 0
    && (forall g :: 0 <= g < |cuts| ==> cuts[g] < n)
    && (forall g, h :: 0 <= g < h < |cuts| ==> cuts[g] < cuts[h])
  }

  ghost predicate Scores(parts: seq<nat>, nodes: seq<nat>, scores: seq<nat>)
    requires |parts| == |nodes|
  {
    forall j :: 0 <= j < |scores| ==> scores[j] == BytesOn(parts, nodes, j)
  }

  /** `best` is the node on which the parts ask for most bytes. */
  ghost predicate BestFor(parts: seq<nat>, nodes: seq<nat>, nrNodes: nat, best: nat)
    requires |parts| == |nodes|
  {
    exists scores: seq<nat> :: |scores| == nrNodes && Scores(parts, nodes, scores) && IsBest(scores, best)
  }

  /** Group `g` has been merged into its first part: it holds the bytes of all of them, at
      least a page if another group follows, and no more parts than needed for that. */
  predicate GroupMerged(was: seq<nat>, now: seq<nat>, lo: nat, hi: nat, page: nat, last: bool)
    requires lo < hi <= |was| == |now|
  {
    && now[lo] == Sum(was[lo..hi])
    && (forall i :: lo < i < hi ==> now[i] == 0)
    && (!last ==> now[lo] >= page)
    && (hi - 1 > lo ==> Sum(was[lo..hi - 1]) < page)
  }

  ghost predicate Merged(was: seq<nat>, wasOn: seq<nat>, now: seq<nat>, nowOn: seq<nat>, cuts: seq<nat>, page: nat,
                         nrNodes: nat) {
    && |was| == |wasOn| == |now| == |nowOn| && Cuts(cuts, |was|)
    && (forall g :: 0 <= g < |cuts| ==>
          && GroupMerged(was, now, cuts[g], End(cuts, g, |was|), page, g == |cuts| - 1)
          && BestFor(was[cuts[g]..End(cuts, g, |was|)], wasOn[cuts[g]..End(cuts, g, |was|)], nrNodes, nowOn[cuts[g]]))
  }

  /** The groups before the one that is being formed from part `base` on; `i` parts are read. */
  ghost predicate Merging(was: seq<nat>, wasOn: seq<nat>, now: seq<nat>, nowOn: seq<nat>, cuts: seq<nat>,
                          base: nat, i: nat, page: nat, nrNodes: nat)
  {
    && |was| == |wasOn| == |now| == |nowOn| && base < i <= |was| && Cuts(cuts, i) && cuts[|cuts| - 1] == base
    && now[i..] == was[i..] && nowOn[base..] == wasOn[base..]
    && GroupMerged(was, now, base, i, page, true)
    && (forall g :: 0 <= g < |cuts| - 1 ==>
          && GroupMerged(was, now, cuts[g], cuts[g + 1], page, false)
          && BestFor(was[cuts[g]..cuts[g + 1]], wasOn[cuts[g]..cuts[g + 1]], nrNodes, nowOn[cuts[g]]))
  }

  lemma {:induction false} SumOne(was: seq<nat>, i: nat)
    requires i < |was|
    ensures Sum(was[i..i + 1]) == was[i]
  {
    assert was[i..i + 1] == [was[i]];
    assert Sum([was[i]]) == Sum([]) + was[i];
  }

  lemma {:induction false} SumMore(was: seq<nat>, lo: nat, i: nat)
    requires lo <= i < |was|
    ensures Sum(was[lo..i + 1]) == Sum(was[lo..i]) + was[i]
  {
    var s := was[lo..i + 1];
    assert s[..|s| - 1] == was[lo..i];
  }

  lemma {:induction false} BytesMore(was: seq<nat>, on: seq<nat>, lo: nat, i: nat, node: nat)
    requires lo <= i < |was| == |on|
    ensures BytesOn(was[lo..i + 1], on[lo..i + 1], node)
         == BytesOn(was[lo..i], on[lo..i], node) + if on[i] == node then was[i] else 0
  {
    var s, t := was[lo..i + 1], on[lo..i + 1];
    assert s[..|s| - 1] == was[lo..i] && t[..|t| - 1] == on[lo..i];
  }

  /** One more part joins the group. */
  lemma {:induction false} MergeOne(was: seq<nat>, wasOn: seq<nat>, now: seq<nat>, now': seq<nat>, nowOn: seq<nat>,
                                    cuts: seq<nat>, base: nat, i: nat, page: nat, nrNodes: nat)
    requires Merging(was, wasOn, now, nowOn, cuts, base, i, page, nrNodes) && i < |was| && now[base] < page
    requires now' == now[base := now[base] + was[i]][i := 0]
    ensures Merging(was, wasOn, now', nowOn, cuts, base, i + 1, page, nrNodes)
  {
    SumMore(was, base, i);
    assert Sum(was[base..i]) == now[base];
    assert now'[i + 1..] == now[i..][1..] == was[i + 1..];
    forall g | 0 <= g < |cuts| - 1 ensures GroupMerged(was, now', cuts[g], cuts[g + 1], page, false) {
      assert cuts[g] < cuts[g + 1] <= base;
      assert GroupMerged(was, now, cuts[g], cuts[g + 1], page, false);
    }
  }

  /** The group is complete; the next one starts at part `i`. */
  lemma {:induction false} NewGroup(was: seq<nat>, wasOn: seq<nat>, now: seq<nat>, nowOn: seq<nat>, nowOn': seq<nat>,
                                    cuts: seq<nat>, base: nat, i: nat, page: nat, nrNodes: nat, best: nat)
    requires Merging(was, wasOn, now, nowOn, cuts, base, i, page, nrNodes) && i < |was| && now[base] >= page
    requires BestFor(was[base..i], wasOn[base..i], nrNodes, best) && nowOn' == nowOn[base := best]
    ensures Merging(was, wasOn, now, nowOn', cuts + [i], i, i + 1, page, nrNodes)
  {
    SumOne(was, i);
    var cuts' := cuts + [i];
    assert now[i] == now[i..][0] == was[i..][0];
    assert now[i + 1..] == now[i..][1..] == was[i + 1..];
    assert nowOn'[i..] == nowOn[base..][i - base..] == wasOn[i..];
    forall g | 0 <= g < |cuts'| - 1
      ensures GroupMerged(was, now, cuts'[g], cuts'[g + 1], page, false)
      ensures BestFor(was[cuts'[g]..cuts'[g + 1]], wasOn[cuts'[g]..cuts'[g + 1]], nrNodes, nowOn'[cuts'[g]])
    {
      if g < |cuts| - 1 {
        assert cuts'[g] == cuts[g] && cuts'[g + 1] == cuts[g + 1] && cuts[g] < base;
      } else {
        assert cuts'[g] == base && cuts'[g + 1] == i;
      }
    }
  }

  lemma {:induction false} MergeDone(was: seq<nat>, wasOn: seq<nat>, now: seq<nat>, nowOn: seq<nat>, cuts: seq<nat>,
                                     base: nat, page: nat, nrNodes: nat, best: nat)
    requires Merging(was, wasOn, now, nowOn, cuts, base, |was|, page, nrNodes)
    requires BestFor(was[base..], wasOn[base..], nrNodes, best)
    ensures Merged(was, wasOn, now, nowOn[base := best], cuts, page, nrNodes)
  {
    var n := |was|;
    assert was[base..n] == was[base..] && wasOn[base..n] == wasOn[base..];
    forall g | 0 <= g < |cuts|
      ensures GroupMerged(was, now, cuts[g], End(cuts, g, n), page, g == |cuts| - 1)
      ensures BestFor(was[cuts[g]..End(cuts, g, n)], wasOn[cuts[g]..End(cuts, g, n)], nrNodes,
                      nowOn[base := best][cuts[g]])
    {
      if g < |cuts| - 1 {
        assert cuts[g] < base;
      }
    }
  }

  /** Merges parts from left to right until each holds a page, and gives each merged part the
      node on which its members ask for most. */
  method MergeSmallParts(parts: array<nat>, nodes: array<nat>, nrNodes: nat, pagesize: nat)
    returns (ghost cuts: seq<nat>)
    requires parts != nodes && parts.Length == nodes.Length >= 1 && pagesize >= 1
    requires forall i :: 0 <= i < nodes.Length ==> nodes[i] < nrNodes
    modifies parts, nodes
    ensures Merged(old(parts[..]), old(nodes[..]), parts[..], nodes[..], cuts, pagesize, nrNodes)
  {
    hide Merging, Merged, BestFor, GroupMerged;
    ghost var was, wasOn := parts[..], nodes[..];
    var nodeScores := new nat[nrNodes](_ => 0);
    var basePart := 0;
    nodeScores[nodes[0]] := parts[0];
    cuts := [0];
    MergeStart(was, wasOn, pagesize, nrNodes);
    FirstScores(was, wasOn, nodeScores[..]);
    var i := 1;
    while i < parts.Length
      invariant 1 <= i <= parts.Length && basePart < i
      invariant Merging(was, wasOn, parts[..], nodes[..], cuts, basePart, i, pagesize, nrNodes)
      invariant nodeScores.Length == nrNodes && Scores(was[basePart..i], wasOn[basePart..i], nodeScores[..])
    {
      MergingFacts(was, wasOn, parts[..], nodes[..], cuts, basePart, i, pagesize, nrNodes);
      var partScore := parts[i];
      ghost var now, nowOn := parts[..], nodes[..];
      if parts[basePart] < pagesize {
        parts[basePart] := parts[basePart] + parts[i];
        parts[i] := 0;
        assert parts[..] == now[basePart := now[basePart] + was[i]][i := 0];
        MergeOne(was, wasOn, now, parts[..], nowOn, cuts, basePart, i, pagesize, nrNodes);
      } else {
        var best := GetBestNode(nodeScores);
        nodes[basePart] := best;
        assert nodes[..] == nowOn[basePart := best];
        FoundBest(was[basePart..i], wasOn[basePart..i], nodeScores[..], best);
        ClearScores(nodeScores);
        NewGroup(was, wasOn, now, nowOn, nodes[..], cuts, basePart, i, pagesize, nrNodes, best);
        cuts := cuts + [i];
        basePart := i;
        NoScores(was, wasOn, i, nodeScores[..]);
      }
      MoreScores(was, wasOn, basePart, i, nodeScores[..], partScore);
      nodeScores[nodes[i]] := nodeScores[nodes[i]] + partScore;
      i := i + 1;
    }
    var best := GetBestNode(nodeScores);
    ghost var nowOn := nodes[..];
    assert was[basePart..i] == was[basePart..] && wasOn[basePart..i] == wasOn[basePart..];
    FoundBest(was[basePart..], wasOn[basePart..], nodeScores[..], best);
    MergeDone(was, wasOn, parts[..], nowOn, cuts, basePart, pagesize, nrNodes, best);
    nodes[basePart] := best;
    assert nodes[..] == nowOn[basePart := best];
  }

  method ClearScores(nodeScores: array<nat>)
    modifies nodeScores
    ensures forall j :: 0 <= j < nodeScores.Length ==> nodeScores[j] == 0
  {
    for j := 0 to nodeScores.Length
      invariant forall k :: 0 <= k < j ==> nodeScores[k] == 0
    {
      nodeScores[j] := 0;
    }
  }

  lemma {:induction false} MergeStart(was: seq<nat>, wasOn: seq<nat>, page: nat, nrNodes: nat)
    requires |was| == |wasOn| >= 1
    ensures Merging(was, wasOn, was, wasOn, [0], 0, 1, page, nrNodes)
  {
    SumOne(was, 0);
  }

  lemma {:induction false} MergingFacts(was: seq<nat>, wasOn: seq<nat>, now: seq<nat>, nowOn: seq<nat>, cuts: seq<nat>,
                                        base: nat, i: nat, page: nat, nrNodes: nat)
    requires Merging(was, wasOn, now, nowOn, cuts, base, i, page, nrNodes) && i < |was|
    ensures |now| == |nowOn| == |was| == |wasOn| && now[i] == was[i] && nowOn[i] == wasOn[i]
  {
    assert now[i] == now[i..][0] == was[i..][0];
    assert nowOn[i] == nowOn[base..][i - base] == wasOn[base..][i - base];
  }

  lemma {:induction false} FirstScores(was: seq<nat>, on: seq<nat>, scores: seq<nat>)
    requires |was| == |on| >= 1 && on[0] < |scores| && scores[on[0]] == was[0]
    requires forall j :: 0 <= j < |scores| && j != on[0] ==> scores[j] == 0
    ensures Scores(was[0..1], on[0..1], scores)
  {
    forall j | 0 <= j < |scores| ensures scores[j] == BytesOn(was[0..1], on[0..1], j) {
      BytesMore(was, on, 0, 0, j);
    }
  }

  lemma {:induction false} NoScores(was: seq<nat>, on: seq<nat>, i: nat, scores: seq<nat>)
    requires i < |was| == |on| && forall j :: 0 <= j < |scores| ==> scores[j] == 0
    ensures Scores(was[i..i], on[i..i], scores)
  {
  }

  lemma {:induction false} MoreScores(was: seq<nat>, on: seq<nat>, lo: nat, i: nat, scores: seq<nat>, score: nat)
    requires lo <= i < |was| == |on| && on[i] < |scores| && Scores(was[lo..i], on[lo..i], scores) && score == was[i]
    ensures Scores(was[lo..i + 1], on[lo..i + 1], scores[on[i] := scores[on[i]] + score])
  {
    var more := scores[on[i] := scores[on[i]] + score];
    forall j | 0 <= j < |scores| ensures more[j] == BytesOn(was[lo..i + 1], on[lo..i + 1], j) {
      BytesMore(was, on, lo, i, j);
    }
  }

  lemma {:induction false} FoundBest(parts: seq<nat>, nodes: seq<nat>, scores: seq<nat>, best: nat)
    requires |parts| == |nodes| && Scores(parts, nodes, scores) && IsBest(scores, best)
    ensures BestFor(parts, nodes, |scores|, best)
  {
  }

  // ----- Fixing the boundaries -----

  /** The next part that holds anything, |s| if there is none. */
  function NextPart(s: seq<nat>, i: nat): (r: nat)
    requires i <= |s|
    ensures i <= r <= |s| && (forall k :: i <= k < r ==> s[k] == 0) && (r < |s| ==> s[r] != 0)
    decreases |s| - i
  {
    if i == |s| || s[i] != 0 then i else NextPart(s, i + 1)
  }

  /** Every part but the last one that holds anything holds a page. */
  predicate PagesButLast(s: seq<nat>, page: nat) {
    forall i, j :: 0 <= i < j < |s| && s[i] != 0 && s[j] != 0 ==> s[i] >= page
  }

  /** How far the start of part `i` moves. */
  function Drift(was: seq<nat>, now: seq<nat>, i: nat): int
    requires i <= |was| == |now|
  {
    Sum(now[..i]) - Sum(was[..i])
  }

  /** A part of `size` bytes whose start moves by `drift` goes to the nearer page boundary, unless
      that would leave it less than a page: it starts less than a page earlier, and half a page or
      more only if starting later would leave less than a page of it; or it starts half a page
      (rounded up) later at most, and at least a page is left. */
  predicate Moved(size: nat, drift: int, page: nat) {
    && 0 - page < drift <= page - page / 2
    && (drift <= 0 - page / 2 ==> size - drift < 2 * page)
    && (drift > 0 ==> size - drift >= page)
  }

  /** The first part that holds anything stays where it starts, the others move. */
  predicate StartOk(was: seq<nat>, i: nat, drift: int, page: nat)
    requires i < |was|
  {
    if NextPart(was, 0) < i then Moved(was[i], drift, page) else drift == 0
  }

  /** Parts are whole pages, empty exactly where they were, and start at the nearer page boundary
      where there is room; altogether there is more memory, by one page at most. */
  predicate Adjusted(was: seq<nat>, now: seq<nat>, page: nat)
    requires page >= 1
  {
    && |now| == |was|
    && (forall i :: 0 <= i < |was| ==> now[i] % page == 0 && (now[i] == 0 <==> was[i] == 0))
    && (forall i :: 0 <= i < |was| && was[i] != 0 ==> StartOk(was, i, Drift(was, now, i), page))
    && (if NextPart(was, 0) < |was| then 0 < Sum(now) - Sum(was) <= page else Sum(now) == Sum(was) == 0)
  }

  /** Parts before `i` are fixed, and `adjust` bytes are to be moved to the next part. */
  predicate Adjusting(was: seq<nat>, now: seq<nat>, i: nat, adjust: int, page: nat)
    requires page >= 1
  {
    && i <= |was| == |now| && now[i..] == was[i..]
    && (forall k :: 0 <= k < i ==> now[k] % page == 0 && (now[k] == 0 <==> was[k] == 0))
    && (forall k :: 0 <= k < i && was[k] != 0 ==> StartOk(was, k, Drift(was, now, k), page))
    && adjust == -Drift(was, now, i)
    && var next := NextPart(was, i);
       if next < |was| then StartOk(was, next, -adjust, page)
       else if NextPart(was, 0) < |was| then 0 - page <= adjust < 0 else adjust == 0 == Sum(was[..i])
  }

  lemma {:induction false} NextOfFirst(s: seq<nat>, i: nat)
    requires i < |s| && s[i] != 0
    ensures NextPart(s, 0) < |s| && NextPart(s, i) == i
  {
    if NextPart(s, 0) == |s| {
      assert false;
    }
  }

  lemma {:induction false} AdjustSkip(was: seq<nat>, now: seq<nat>, i: nat, adjust: int, page: nat)
    requires page >= 1 && Adjusting(was, now, i, adjust, page) && i < |was| && now[i] == 0
    ensures Adjusting(was, now, i + 1, adjust, page)
  {
    hide Sum;
    assert now[i] == now[i..][0] == was[i..][0];
    assert now[i + 1..] == now[i..][1..] == was[i + 1..];
    SumSnoc(was, i);
    SumSnoc(now, i);
  }

  lemma {:induction false} AdjustOne(was: seq<nat>, now: seq<nat>, now': seq<nat>, i: nat, adjust: int, adjust': int,
                                     page: nat)
    requires page >= 1 && Adjusting(was, now, i, adjust, page) && i < |was| && was[i] != 0
    requires |now'| == |now| && now' == now[i := now'[i]]
    requires 0 < now'[i] == was[i] + adjust - adjust' && now'[i] % page == 0
    requires var next := NextPart(was, i + 1);
             if next < |was| then Moved(was[next], -adjust', page)
             else 0 - page <= adjust' < 0
    ensures Adjusting(was, now', i + 1, adjust', page)
  {
    hide Sum;
    assert now'[i + 1..] == now[i..][1..] == was[i + 1..];
    NextOfFirst(was, i);
    SumSnoc(was, i);
    SumSnoc(now', i);
    assert forall k :: 0 <= k <= i ==> now'[..k] == now[..k];
  }

  lemma {:induction false} AdjustDone(was: seq<nat>, now: seq<nat>, adjust: int, page: nat)
    requires page >= 1 && Adjusting(was, now, |was|, adjust, page)
    ensures Adjusted(was, now, page)
  {
    assert was[..|was|] == was && now[..|was|] == now;
  }

  lemma {:induction false} Rounded(p: nat, page: nat)
    requires page >= 1
    ensures (p - p % page) % page == 0 && (p + (page - p % page)) % page == 0
    ensures p >= page ==> p - p % page > 0
  {
    var q := p / page;
    assert p - p % page == page * q;
    assert p + (page - p % page) == page * (q + 1);
    Utility.ModOfMultiple(page, q);
    Utility.ModOfMultiple(page, q + 1);
    if p >= page {
      assert p % page < page;
    }
  }

  /** One part that holds something: its boundary with the next one moves to a page boundary. */
  method AdjustPart(parts: array<nat>, i: nat, sizeAdjust0: int, pagesize: nat, ghost was: seq<nat>)
    returns (sizeAdjust: int)
    requires pagesize >= 1 && PagesButLast(was, pagesize)
    requires i < parts.Length == |was| && Adjusting(was, parts[..], i, sizeAdjust0, pagesize) && parts[i] != 0
    modifies parts
    ensures Adjusting(was, parts[..], i + 1, sizeAdjust, pagesize)
  {
    hide Adjusting, PagesButLast;
    ghost var now := parts[..];
    PartFacts(was, now, i, sizeAdjust0, pagesize);
    parts[i] := parts[i] + sizeAdjust0;
    var rem := parts[i] % pagesize;
    Rounded(parts[i], pagesize);
    var nextPart := i + 1;
    while nextPart != parts.Length && parts[nextPart] == 0
      invariant i < nextPart <= parts.Length
      invariant NextPart(was, i + 1) == NextPart(was, nextPart)
    {
      assert parts[nextPart] == was[nextPart];
      nextPart := nextPart + 1;
    }
    assert nextPart < parts.Length ==> parts[nextPart] == was[nextPart];
    if nextPart != parts.Length && (rem < pagesize / 2 || parts[nextPart] + rem < 2 * pagesize) {
      PageToSpare(was, i, nextPart, pagesize);
      parts[i] := parts[i] - rem;
      sizeAdjust := rem;
    } else {
      parts[i] := parts[i] + (pagesize - rem);
      sizeAdjust := rem - pagesize;
    }
    assert parts[..] == now[i := parts[i]];
    AdjustOne(was, now, parts[..], i, sizeAdjust0, sizeAdjust, pagesize);
  }

  lemma {:induction false} PartFacts(was: seq<nat>, now: seq<nat>, i: nat, adjust: int, page: nat)
    requires page >= 1 && Adjusting(was, now, i, adjust, page) && i < |was| && now[i] != 0
    ensures forall k :: i <= k < |was| ==> now[k] == was[k]
    ensures was[i] + adjust > 0 && (adjust < 0 ==> was[i] + adjust >= page)
  {
    assert forall k :: i <= k < |was| ==> now[k] == now[i..][k - i] == was[i..][k - i];
    NextOfFirst(was, i);
  }

  lemma {:induction false} PageToSpare(was: seq<nat>, i: nat, next: nat, page: nat)
    requires PagesButLast(was, page) && i < next < |was| && was[i] != 0 && was[next] != 0
    ensures was[i] >= page
  {
  }

  method AdjustBoundaries(parts: array<nat>, pagesize: nat)
    requires pagesize >= 1 && PagesButLast(parts[..], pagesize)
    modifies parts
    ensures Adjusted(old(parts[..]), parts[..], pagesize)
  {
    hide Adjusting, Adjusted, PagesButLast;
    ghost var was := parts[..];
    var sizeAdjust := 0;
    AdjustStart(was, pagesize);
    var i := 0;
    while i < parts.Length
      invariant i <= parts.Length && Adjusting(was, parts[..], i, sizeAdjust, pagesize)
    {
      if parts[i] != 0 {
        sizeAdjust := AdjustPart(parts, i, sizeAdjust, pagesize, was);
      } else {
        AdjustSkip(was, parts[..], i, sizeAdjust, pagesize);
      }
      i := i + 1;
    }
    AdjustDone(was, parts[..], sizeAdjust, pagesize);
  }

  lemma {:induction false} AdjustStart(was: seq<nat>, page: nat)
    requires page >= 1
    ensures Adjusting(was, was, 0, 0, page)
  {
    assert was[..0] == [];
  }

  /** Where a boundary goes, by the page it is in: to the end of the page exactly when at least half
      of it is behind the start of the page and the part that starts there keeps a page. */
  lemma {:induction false} NearerPage(was: seq<nat>, now: seq<nat>, page: nat, j: nat)
    requires page >= 1 && Adjusted(was, now, page) && NextPart(was, 0) < j < |was| && was[j] != 0
    ensures var rem := Sum(was[..j]) % page;
            Drift(was, now, j) == if rem >= page / 2 && was[j] + rem >= 2 * page then page - rem else 0 - rem
  {
    hide Sum;
    SumOfPages(now[..j], page);
    PageParts(Sum(was[..j]), Sum(now[..j]), page);
    assert StartOk(was, j, Drift(was, now, j), page);
  }

  /** A multiple of the page less than a page before a place, or at most a page behind it. */
  lemma {:induction false} PageParts(pos: nat, start: nat, page: nat)
    requires page >= 1 && start % page == 0 && 0 - page < start - pos <= page
    ensures start - pos == -(pos % page) || start - pos == page - pos % page
  {
    var q, r := start / page, pos / page;
    assert start == page * q && pos == page * r + pos % page;
    assert q > r + 1 ==> page * q >= page * (r + 2);
    assert q < r ==> page * q <= page * (r - 1);
    assert q == r || q == r + 1;
  }

  /** There is only one way to fix the boundaries. */
  lemma {:induction false} AdjustedOnce(was: seq<nat>, now: seq<nat>, now': seq<nat>, page: nat)
    requires page >= 1 && Adjusted(was, now, page) && Adjusted(was, now', page)
    ensures now == now'
  {
    hide Sum;
    forall i | 0 <= i < |was| ensures now[i] == now'[i] {
      SameStart(was, now, now', page, i);
      SameStart(was, now, now', page, i + 1);
      SumSnoc(now, i);
      SumSnoc(now', i);
    }
  }

  lemma {:induction false} SameStart(was: seq<nat>, now: seq<nat>, now': seq<nat>, page: nat, i: nat)
    requires page >= 1 && Adjusted(was, now, page) && Adjusted(was, now', page) && i <= |was|
    ensures Sum(now[..i]) == Sum(now'[..i])
    decreases |was| - i
  {
    hide Sum, Adjusted, StartOk;
    AdjustedFacts(was, now, page, i);
    AdjustedFacts(was, now', page, i);
    if i == |was| {
      assert now[..i] == now && now'[..i] == now';
      SumOfPages(now, page);
      SumOfPages(now', page);
      if NextPart(was, 0) < |was| {
        PageParts(Sum(was), Sum(now), page);
        PageParts(Sum(was), Sum(now'), page);
      }
    } else if was[i] == 0 {
      SameStart(was, now, now', page, i + 1);
      SumSnoc(now, i);
      SumSnoc(now', i);
    } else if NextPart(was, 0) < i {
      NearerPage(was, now, page, i);
      NearerPage(was, now', page, i);
    }
  }

  lemma {:induction false} AdjustedFacts(was: seq<nat>, now: seq<nat>, page: nat, i: nat)
    requires page >= 1 && Adjusted(was, now, page) && i <= |was|
    ensures |now| == |was| && (forall k :: 0 <= k < |was| ==> now[k] % page == 0 && (now[k] == 0 <==> was[k] == 0))
    ensures i < |was| && was[i] != 0 && NextPart(was, 0) >= i ==> Drift(was, now, i) == 0
    ensures if NextPart(was, 0) < |was| then 0 < Sum(now) - Sum(was) <= page else Sum(now) == Sum(was)
  {
    hide Sum;
    if i < |was| && was[i] != 0 && NextPart(was, 0) >= i {
      assert StartOk(was, i, Drift(was, now, i), page);
    }
  }

  // ----- Both phases -----

  /** What merging leaves is what fixing the boundaries needs. */
  lemma {:induction false} MergedPages(was: seq<nat>, wasOn: seq<nat>, now: seq<nat>, nowOn: seq<nat>, cuts: seq<nat>,
                                       page: nat, nrNodes: nat)
    requires Merged(was, wasOn, now, nowOn, cuts, page, nrNodes)
    ensures PagesButLast(now, page)
  {
    hide BestFor;
    forall i, j | 0 <= i < j < |now| && now[i] != 0 && now[j] != 0 ensures now[i] >= page {
      var g := GroupOf(cuts, |was|, i);
      GroupHead(was, now, cuts[g], End(cuts, g, |was|), page, g == |cuts| - 1, i);
      GroupHead(was, now, cuts[g], End(cuts, g, |was|), page, g == |cuts| - 1, j);
    }
  }

  lemma {:induction false} GroupHead(was: seq<nat>, now: seq<nat>, lo: nat, hi: nat, page: nat, last: bool, i: nat)
    requires lo < hi <= |was| == |now| && GroupMerged(was, now, lo, hi, page, last)
    ensures lo <= i < hi && now[i] != 0 ==> i == lo && (last || now[i] >= page)
  {
  }

  lemma {:induction false} GroupOf(cuts: seq<nat>, n: nat, i: nat) returns (g: nat)
    requires Cuts(cuts, n) && i < n
    ensures g < |cuts| && cuts[g] <= i < End(cuts, g, n)
  {
    g := 0;
    while g + 1 < |cuts| && cuts[g + 1] <= i
      invariant g < |cuts| && cuts[g] <= i
    {
      g := g + 1;
    }
  }

  lemma {:induction false} SumConcat(a: seq<nat>, b: seq<nat>)
    ensures Sum(a + b) == Sum(a) + Sum(b)
    decreases |b|
  {
    if b == [] {
      assert a + b == a;
    } else {
      var n := |b| - 1;
      assert (a + b)[..|a| + n] == a + b[..n];
      SumConcat(a, b[..n]);
    }
  }

  lemma {:induction false} SumZeros(s: seq<nat>)
    requires forall i :: 0 <= i < |s| ==> s[i] == 0
    ensures Sum(s) == 0
  {
    if s != [] {
      SumZeros(s[..|s| - 1]);
    }
  }

  /** Merging moves bytes between parts but keeps the total, up to every group boundary. */
  lemma {:induction false} MergedTotal(was: seq<nat>, wasOn: seq<nat>, now: seq<nat>, nowOn: seq<nat>, cuts: seq<nat>,
                                       page: nat, nrNodes: nat, g: nat)
    requires Merged(was, wasOn, now, nowOn, cuts, page, nrNodes) && g < |cuts|
    ensures Sum(now[..End(cuts, g, |was|)]) == Sum(was[..End(cuts, g, |was|)])
  {
    hide BestFor, Sum;
    var lo, hi := cuts[g], End(cuts, g, |was|);
    if g > 0 {
      MergedTotal(was, wasOn, now, nowOn, cuts, page, nrNodes, g - 1);
    } else {
      assert now[..0] == [] == was[..0];
    }
    assert GroupMerged(was, now, lo, hi, page, g == |cuts| - 1);
    GroupTotal(was, now, lo, hi, page, g == |cuts| - 1);
  }

  lemma {:induction false} GroupTotal(was: seq<nat>, now: seq<nat>, lo: nat, hi: nat, page: nat, last: bool)
    requires lo < hi <= |was| == |now| && GroupMerged(was, now, lo, hi, page, last)
    requires Sum(now[..lo]) == Sum(was[..lo])
    ensures Sum(now[..hi]) == Sum(was[..hi])
  {
    assert now[..hi] == now[..lo] + ([now[lo]] + now[lo + 1..hi]) && was[..hi] == was[..lo] + was[lo..hi];
    SumConcat(now[..lo], [now[lo]] + now[lo + 1..hi]);
    SumConcat(was[..lo], was[lo..hi]);
    SumConcat([now[lo]], now[lo + 1..hi]);
    SumZeros(now[lo + 1..hi]);
    assert Sum([now[lo]]) == Sum([]) + now[lo];
  }

  /** Fits the parts to whole pages: groups of parts that are too small are merged and bound to
      their most demanding node, and then the boundaries are moved to page boundaries. */
  method FixInterleaving(parts: array<nat>, nodes: array<nat>, nrNodes: nat, pagesize: nat)
    returns (ghost cuts: seq<nat>, ghost mid: seq<nat>)
    requires parts != nodes && parts.Length == nodes.Length >= 1 && pagesize >= 1
    requires forall i :: 0 <= i < nodes.Length ==> nodes[i] < nrNodes
    modifies parts, nodes
    ensures Merged(old(parts[..]), old(nodes[..]), mid, nodes[..], cuts, pagesize, nrNodes)
    ensures Adjusted(mid, parts[..], pagesize)
    ensures Sum(mid) == Sum(old(parts[..]))
    ensures Sum(old(parts[..])) > 0 ==> 0 < Sum(parts[..]) - Sum(old(parts[..])) <= pagesize
    ensures Sum(old(parts[..])) > 0 ==>
      (Sum(parts[..]) == Sum(old(parts[..])) + pagesize <==> Sum(old(parts[..])) % pagesize == 0)
  {
    hide Merged, PagesButLast;
    cuts := MergeSmallParts(parts, nodes, nrNodes, pagesize);
    mid := parts[..];
    MergedPages(old(parts[..]), old(nodes[..]), mid, nodes[..], cuts, pagesize, nrNodes);
    SameTotal(old(parts[..]), old(nodes[..]), mid, nodes[..], cuts, pagesize, nrNodes);
    AdjustBoundaries(parts, pagesize);
    if NextPart(mid, 0) == |mid| {
      SumZeros(mid);
    } else if Sum(mid) > 0 {
      WholePageMore(mid, parts[..], pagesize);
    }
  }

  lemma {:induction false} SameTotal(was: seq<nat>, wasOn: seq<nat>, now: seq<nat>, nowOn: seq<nat>, cuts: seq<nat>,
                                     page: nat, nrNodes: nat)
    requires Merged(was, wasOn, now, nowOn, cuts, page, nrNodes)
    ensures Sum(now) == Sum(was)
  {
    MergedTotal(was, wasOn, now, nowOn, cuts, page, nrNodes, |cuts| - 1);
    assert now[..|was|] == now && was[..|was|] == was;
  }

  /** Multiples of a page add up to one. */
  lemma {:induction false} SumOfPages(s: seq<nat>, page: nat)
    requires page >= 1 && forall i :: 0 <= i < |s| ==> s[i] % page == 0
    ensures Sum(s) % page == 0
  {
    if s != [] {
      SumOfPages(s[..|s| - 1], page);
      Utility.MultipleSum(Sum(s[..|s| - 1]), 1, s[|s| - 1], page);
    }
  }

  /** The memory grows by a whole page exactly when its total was whole pages to begin with. */
  lemma {:induction false} WholePageMore(was: seq<nat>, now: seq<nat>, page: nat)
    requires page >= 1 && Adjusted(was, now, page) && Sum(was) > 0
    ensures Sum(now) % page == 0
    ensures Sum(now) - Sum(was) == page <==> Sum(was) % page == 0
  {
    SumOfPages(now, page);
    SomePart(was);
    hide Sum, Adjusted;
    MultiplesApart(Sum(was), Sum(now), page);
  }

  lemma {:induction false} MultiplesApart(a: nat, b: nat, page: nat)
    requires page >= 1 && b % page == 0 && a < b <= a + page
    ensures b == a + page <==> a % page == 0
  {
    if a % page == 0 {
      Multiples(a, b, page);
    } else if b == a + page {
      var q := b / page;
      assert a == page * q - page == page * (q - 1);
      Utility.DivUnique(a, page, q - 1, 0);
    }
  }

  lemma {:induction false} SomePart(s: seq<nat>)
    requires Sum(s) > 0
    ensures NextPart(s, 0) < |s|
  {
    if NextPart(s, 0) == |s| {
      SumZeros(s);
    }
  }

  /** A single part that already is whole pages still grows, by a whole page. */
  lemma {:induction false} WholePagesGrow(was: seq<nat>, now: seq<nat>, page: nat)
    requires page >= 1 && |was| == 1 && was[0] != 0 && was[0] % page == 0 && Adjusted(was, now, page)
    ensures now[0] == was[0] + page
  {
    NextOfFirst(was, 0);
    assert was[..0] == [] && now[..0] == [];
    assert Sum(was) == Sum([]) + was[0] && Sum(now) == Sum([]) + now[0];
    Multiples(was[0], now[0], page);
  }

  lemma {:induction false} Multiples(a: nat, b: nat, page: nat)
    requires page >= 1 && a % page == 0 && b % page == 0 && a < b <= a + page
    ensures b == a + page
  {
    var p, q := a / page, b / page;
    assert a == page * p && b == page * q;
    if q > p {
      Utility.AtLeastOne(page, p, q);
    } else if q < p {
      Utility.AtLeastOne(page, q, p);
    }
  }
}
