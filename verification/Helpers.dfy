/** What several of the modules share. */
module Helpers {

  datatype Option<+T> = None | Some(value: T)

  function Max(a: int, b: int): int {
    if a < b then b else a
  }

  function Min(a: int, b: int): int {
    if a < b then a else b
  }

  lemma MulMonotone(a: int, b: int, n: int)
    requires a <= b && 0 <= n
    ensures a * n <= b * n
  {
  }

  lemma DivModUnique(x: nat, n: nat, a: nat, b: nat)
    requires 0 < n && x == a * n + b && b < n
    ensures x / n == a && x % n == b
  {
    var q := x / n;
    if q < a {
      MulMonotone(q + 1, a, n);
    } else if a < q {
      MulMonotone(a + 1, q, n);
    }
  }
}
