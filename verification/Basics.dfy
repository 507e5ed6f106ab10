/** Small definitions shared by the component models. */
module Basics {

  datatype Option<+T> = None | Some(value: T)

  type Positive = n: int | n >= 1 witness 1

  /** A configured length of time in milliseconds: a window, an interval. */
  type Millis = Positive

  function Min(a: int, b: int): int {
    if a < b then a else b
  }

  function Max(a: int, b: int): int {
    if a < b then b else a
  }

  function Lookup<K, V>(m: map<K, V>, k: K): Option<V> {
    if k in m then Some(m[k]) else None
  }

  /** Date.now() never runs backwards in the model. */
  ghost predicate NonDecreasing(times: seq<int>) {
    forall i, j :: 0 <= i < j < |times| ==> times[i] <= times[j]
  }

  // ---------- integer arithmetic, one product at a time ----------

  lemma MulNonNegative(k: int, d: int)
    requires k >= 0 && d >= 0
    ensures k * d >= 0
  {
  }

  lemma Distribute(a: int, b: int, d: int)
    ensures (a + b) * d == a * d + b * d
  {
  }

  lemma MulAtLeast(k: int, d: int)
    requires k >= 1 && d >= 0
    ensures k * d >= d
  {
    MulNonNegative(k - 1, d);
    Distribute(k - 1, 1, d);
  }

  lemma DivMod(n: int, d: int)
    requires d >= 1
    ensures n == n / d * d + n % d && 0 <= n % d < d
  {
  }

  lemma DivModUnique(n: int, d: int, q: int, r: int)
    requires d >= 1 && 0 <= r < d && n == q * d + r
    ensures n / d == q && n % d == r
  {
    var q', r' := n / d, n % d;
    DivMod(n, d);
    if q > q' {
      MulAtLeast(q - q', d);
      Distribute(q - q', q', d);
    } else if q < q' {
      MulAtLeast(q' - q, d);
      Distribute(q' - q, q, d);
    }
  }

  /** One step of counting up: quotient and remainder of n against those of n - 1. */
  lemma DivModStep(n: nat, d: nat)
    requires d >= 1 && n >= 1
    ensures n % d == 0 ==> n / d == (n - 1) / d + 1 && (n - 1) % d == d - 1
    ensures n % d != 0 ==> n / d == (n - 1) / d && n % d == (n - 1) % d + 1
  {
    var q, r := (n - 1) / d, (n - 1) % d;
    DivMod(n - 1, d);
    if r == d - 1 {
      Distribute(q, 1, d);
      DivModUnique(n, d, q + 1, 0);
    } else {
      DivModUnique(n, d, q, r + 1);
    }
  }

  lemma DivMonotone(a: int, b: int, d: int)
    requires d >= 1 && a <= b
    ensures a / d <= b / d
  {
    var p, q := a / d, b / d;
    DivMod(a, d);
    DivMod(b, d);
    if p > q {
      MulAtLeast(p - q, d);
      Distribute(p - q, q, d);
    }
  }
}
