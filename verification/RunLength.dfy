/** Delta and run-length encoding of one row of column indices. */
module RunLength {

  datatype Rle = Rle(freq: nat, val: int)

  predicate Increasing(xs: seq<int>) {
    forall i, j :: 0 <= i < j < |xs| ==> xs[i] < xs[j]
  }

  /** First differences; the first entry is kept. */
  function Diffs(xs: seq<int>): (ds: seq<int>)
    ensures |ds| == |xs|
  {
    seq(|xs|, i requires 0 <= i < |xs| => if i == 0 then xs[0] else xs[i] - xs[i - 1])
  }

  /** In-place differences, from the back. */
  method DeltaEncode(xs: seq<int>) returns (data: seq<int>)
    requires xs != []
    ensures data == Diffs(xs)
  {
    data := xs;
    var i := |data| - 1;
    while i > 0
      invariant 0 <= i < |data| == |xs|
      invariant data == xs[..i + 1] + Diffs(xs)[i + 1..]
    {
      data := data[i := data[i] - data[i - 1]];
      i := i - 1;
    }
  }

  function Repeat(v: int, n: nat): (r: seq<int>)
    ensures |r| == n
  { seq(n, _ => v) }

  function Expand(rles: seq<Rle>): seq<int> {
    if rles == [] then [] else Expand(rles[..|rles| - 1]) + Repeat(rles[|rles| - 1].val, rles[|rles| - 1].freq)
  }

  lemma {:induction false} ExpandSnoc(rles: seq<Rle>, r: Rle)
    ensures Expand(rles + [r]) == Expand(rles) + Repeat(r.val, r.freq)
  {
    assert (rles + [r])[..|rles|] == rles;
  }

  /** Runs are not empty and neighbouring runs differ. */
  predicate Maximal(rles: seq<Rle>) {
    && (forall i :: 0 <= i < |rles| ==> rles[i].freq >= 1)
    && (forall i :: 0 < i < |rles| ==> rles[i].val != rles[i - 1].val)
  }

  method RLEncode(input: seq<int>) returns (output: seq<Rle>)
    requires input != []
    ensures Expand(output) == input && Maximal(output) && output != []
  {
    output := [];
    var rle := Rle(1, input[0]);
    var in_ := 1;
    while in_ < |input|
      invariant 1 <= in_ <= |input| && rle.freq >= 1
      invariant Expand(output) + Repeat(rle.val, rle.freq) == input[..in_]
      invariant Maximal(output) && (output != [] ==> output[|output| - 1].val != rle.val)
    {
      var curr := input[in_];
      if rle.val != curr {
        ExpandSnoc(output, rle);
        output := output + [rle];
        rle := Rle(1, curr);
      } else {
        rle := rle.(freq := rle.freq + 1);
      }
      in_ := in_ + 1;
    }
    ExpandSnoc(output, rle);
    output := output + [rle];
    assert input[..in_] == input;
  }

  function Total(rles: seq<Rle>): nat {
    |Expand(rles)|
  }

  /** `i` steps of size `v` from `a`. */
  function Walk(a: int, v: int, i: int): int { a + i * v }

  lemma {:induction false} WalkNext(a: int, v: int, i: int)
    ensures Walk(a, v, i + 1) == Walk(a, v, i) + v
    ensures Walk(a, v, 0) == a
    ensures Walk(a + v, v, i) == Walk(a, v, i + 1)
  {
  }

  /** The entry before entry n, 0 in front of the row. */
  function Prev(xs: seq<int>, n: nat): int
    requires n <= |xs|
  {
    if n == 0 then 0 else xs[n - 1]
  }

  /** Run `j` of an encoding of differences covers entries n..n + freq of the row, which
      continue from the entry before it in equal steps. */
  lemma {:induction false} RunOf(xs: seq<int>, rles: seq<Rle>, j: nat) returns (n: nat)
    requires j < |rles| && Expand(rles) == Diffs(xs)
    ensures n == Total(rles[..j]) && Total(rles[..j + 1]) == n + rles[j].freq <= |xs|
    ensures forall k :: n <= k < n + rles[j].freq ==> xs[k] == Walk(Prev(xs, n), rles[j].val, k - n + 1)
  {
    hide Walk;
    n := Total(rles[..j]);
    assert rles[..j + 1] == rles[..j] + [rles[j]];
    ExpandSnoc(rles[..j], rles[j]);
    ExpandPrefix(rles, j + 1);
    var v, prev := rles[j].val, Prev(xs, n);
    assert forall k :: n <= k < n + rles[j].freq ==> Diffs(xs)[k] == Expand(rles[..j + 1])[k] == v;
    var m := n;
    while m < n + rles[j].freq
      invariant n <= m <= n + rles[j].freq
      invariant forall k :: n <= k < m ==> xs[k] == Walk(prev, v, k - n + 1)
    {
      WalkNext(prev, v, m - n);
      assert Diffs(xs)[m] == v;
      m := m + 1;
    }
  }

  lemma {:induction false} ExpandPrefix(rles: seq<Rle>, n: nat)
    requires n <= |rles|
    ensures Expand(rles[..n]) <= Expand(rles)
    decreases |rles|
  {
    if n == |rles| {
      assert rles[..n] == rles;
    } else {
      assert rles[..|rles| - 1][..n] == rles[..n];
      ExpandPrefix(rles[..|rles| - 1], n);
    }
  }

  /** Steps of an increasing row that starts at 1 or later are positive. */
  lemma {:induction false} PositiveSteps(xs: seq<int>, rles: seq<Rle>, j: nat)
    requires xs != [] && xs[0] >= 1 && Increasing(xs)
    requires j < |rles| && Expand(rles) == Diffs(xs) && Maximal(rles)
    ensures rles[j].val >= 1
  {
    var n := RunOf(xs, rles, j);
    assert xs[n] == Walk(Prev(xs, n), rles[j].val, 1);
    if n > 0 {
      assert xs[n - 1] < xs[n];
    }
  }
}
