/** Result types shared by every module. */
module Common {

  datatype Option<+T> = None | Some(value: T)

  datatype Result<+T, +E> = Ok(value: T) | Err(error: E)

  function Max(a: int, b: int): int { if a < b then b else a }

  function Min(a: int, b: int): int { if a < b then a else b }

  lemma OnlyZeroMultiple(a: int, d: nat)
    requires 0 - d < a * d < d
    ensures a == 0
  {
  }

  /** Division undoes multiplication by the divisor plus a remainder. */
  lemma DivideSplit(q: int, d: nat, r: nat)
    requires r < d
    ensures (q * d + r) / d == q
  {
    var x := q * d + r;
    var k := x / d;
    assert x == k * d + x % d;
    assert (q - k) * d == x % d - r;
    OnlyZeroMultiple(q - k, d);
  }
}
