/** Integer helpers of the chunked re-sort. */
module Utility {

  function GcdOf(a: nat, b: nat): nat
    decreases b
  {
    if b == 0 then a else GcdOf(b, a % b)
  }

  lemma {:induction false} GcdDivides(a: nat, b: nat)
    requires a > 0
    ensures GcdOf(a, b) > 0 && a % GcdOf(a, b) == 0 && b % GcdOf(a, b) == 0
    decreases b
  {
    if b != 0 {
      var g, q, r := GcdOf(a, b), a / b, a % b;
      assert g == GcdOf(b, r);
      GcdDivides(b, r);
      MultipleSum(b, q, r, g);
      assert a == b * q + r;
    } else {
      ModOfMultiple(a, 1);
    }
  }

  lemma {:induction false} MultipleSum(b: nat, q: nat, r: nat, g: nat)
    requires g > 0 && b % g == 0 && r % g == 0
    ensures (b * q + r) % g == 0
  {
    var m, n := b / g, r / g;
    assert b * q + r == g * (m * q + n) by {
      assert b == g * m && r == g * n;
      assert g * m * q == g * (m * q);
    }
    ModOfMultiple(g, m * q + n);
  }

  lemma {:induction false} ModOfMultiple(g: nat, n: nat)
    requires g > 0
    ensures g * n % g == 0 && g * n / g == n
  {
    DivUnique(g * n, g, n, 0);
  }

  predicate Divides(d: nat, a: nat) { d > 0 && a % d == 0 }

  /** The greatest common divisor is a combination of the two numbers. */
  lemma {:induction false} Combination(a: nat, b: nat) returns (u: int, v: int)
    ensures GcdOf(a, b) == a * u + b * v
    decreases b
  {
    if b == 0 {
      u, v := 1, 0;
    } else {
      var q, r := a / b, a % b;
      var x, y := Combination(b, r);
      u, v := y, x - q * y;
      assert a == b * q + r;
      assert b * (q * y) == b * q * y;
    }
  }

  /** So every common divisor divides it. */
  lemma {:induction false} GcdGreatest(a: nat, b: nat, d: nat)
    requires Divides(d, a) && Divides(d, b)
    ensures Divides(d, GcdOf(a, b)) && (GcdOf(a, b) > 0 ==> d <= GcdOf(a, b))
  {
    hide GcdOf;
    var u, v := Combination(a, b);
    CombinationDivides(GcdOf(a, b), d, a / d, b / d, u, v);
  }

  lemma {:induction false} CombinationDivides(g: nat, d: nat, m: nat, n: nat, u: int, v: int)
    requires d > 0 && g == d * m * u + d * n * v
    ensures g % d == 0 && (g > 0 ==> d <= g)
  {
    var w := m * u + n * v;
    assert g == d * w by {
      assert d * m * u == d * (m * u) && d * n * v == d * (n * v);
    }
    DivUnique(g, d, w, 0);
    if w > 0 {
      AtLeastOne(d, 0, w);
    }
  }

  method Gcd(a0: nat, b0: nat) returns (a: nat)
    ensures a == GcdOf(a0, b0)
  {
    a := a0;
    var b: nat := b0;
    while b != 0
      invariant GcdOf(a, b) == GcdOf(a0, b0)
      decreases b
    {
      var t: nat := b;
      b := a % b;
      a := t;
    }
  }

  /** Least common multiple: every common multiple is a multiple of it. */
  method Lcm(a: nat, b: nat) returns (l: nat)
    requires a > 0 && b > 0
    ensures l > 0 && l % a == 0 && l % b == 0
    ensures l * GcdOf(a, b) == a * b
    ensures forall m: nat :: Divides(a, m) && Divides(b, m) ==> Divides(l, m)
  {
    var g := Gcd(a, b);
    GcdDivides(a, b);
    l := a * b / g;
    LcmFacts(a, b, g, a / g, b / g);
    forall m: nat | Divides(a, m) && Divides(b, m) ensures Divides(l, m) {
      LcmLeast(a, b, l, m);
    }
  }

  lemma {:induction false} LcmLeast(a: nat, b: nat, l: nat, m: nat)
    requires Divides(a, m) && Divides(b, m) && l > 0 && l * GcdOf(a, b) == a * b
    ensures Divides(l, m)
  {
    var g := GcdOf(a, b);
    GcdDivides(a, b);
    var u, v := Combination(a, b);
    var x, y := m / a, m / b;
    assert m == a * x && m == b * y;
    var w := y * u + x * v;
    assert m * g == l * g * w by {
      assert m * g == m * (a * u) + m * (b * v);
      Regrouped(m, a, b, x, y, u, v);
    }
    Cancel(m, l * w, g);
    DivUnique(m, l, w, 0);
  }

  lemma {:induction false} Regrouped(m: int, a: int, b: int, x: int, y: int, u: int, v: int)
    requires m == a * x && m == b * y
    ensures m * (a * u) + m * (b * v) == a * b * (y * u + x * v)
  {
    assert m * (a * u) == b * y * (a * u) == a * b * (y * u);
    assert m * (b * v) == a * x * (b * v) == a * b * (x * v);
  }

  lemma {:induction false} Cancel(m: int, k: int, g: nat)
    requires g > 0 && m * g == k * g
    ensures m == k
  {
    if m < k {
      AtLeastOne(g, m, k);
    } else if k < m {
      AtLeastOne(g, k, m);
    }
  }

  lemma {:induction false} LcmFacts(a: nat, b: nat, g: nat, m: nat, n: nat)
    requires a > 0 && b > 0 && g > 0 && a == g * m && b == g * n
    ensures var l := a * b / g; l > 0 && l % a == 0 && l % b == 0 && l * g == a * b
  {
    Regroup(g, m, b);
    Regroup(g, n, a);
    ModOfMultiple(g, b * m);
    ModOfMultiple(g, a * n);
    ModOfMultiple(a, n);
    ModOfMultiple(b, m);
    AtLeastOne(a, 0, n);
  }

  lemma {:induction false} Regroup(g: nat, m: nat, b: nat)
    ensures g * m * b == g * (b * m)
  {
  }

  lemma {:induction false} ExactDiv(l: nat, a: nat)
    requires a > 0 && l > 0 && l % a == 0
    ensures l / a >= 1 && a * (l / a) == l
  {
  }

  /** Grouping lines by k after grouping them by a is grouping them by a * k. */
  lemma {:induction false} DivDiv(x: nat, a: nat, k: nat)
    requires a > 0 && k > 0
    ensures a * k > 0 && x / a / k == x / (a * k)
  {
    var q, r := x / a, x % a;
    var p, s := q / k, q % k;
    assert x == a * (k * p + s) + r;
    assert x == a * k * p + (a * s + r);
    assert a * s + r < a * k by {
      assert s + 1 <= k;
      assert a * (s + 1) <= a * k;
    }
    DivUnique(x, a * k, p, a * s + r);
  }

  lemma {:induction false} DivDivSame(x: nat, a: nat, k: nat, b: nat, m: nat)
    requires a > 0 && k > 0 && b > 0 && m > 0 && a * k == b * m
    ensures x / a / k == x / b / m
  {
    DivDiv(x, a, k);
    DivDiv(x, b, m);
  }

  lemma {:induction false} DivUnique(x: int, d: nat, q: int, r: nat)
    requires d > 0 && x == d * q + r && r < d
    ensures x / d == q && x % d == r
  {
    var p, s := x / d, x % d;
    assert d * p + s == d * q + r;
    if p < q {
      AtLeastOne(d, p, q);
    } else if p > q {
      AtLeastOne(d, q, p);
    }
  }

  /** Counting on from a multiple. */
  lemma {:induction false} CountOn(x: int, k: nat, b: nat)
    requires b > 0 && x % b == 0
    ensures (x + k) / b == x / b + k / b && (x + k) % b == k % b
  {
    var q, p, r := x / b, k / b, k % b;
    assert x + k == b * q + b * p + r;
    assert b * q + b * p == b * (q + p);
    DivUnique(x + k, b, q + p, r);
  }

  lemma {:induction false} AtLeastOne(d: nat, p: int, q: int)
    requires p < q
    ensures d * q >= d * p + d
  {
    var n: nat := q - p - 1;
    assert d * q == d * p + d + d * n;
  }
}
