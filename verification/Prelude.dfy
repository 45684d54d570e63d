/** Values that several models share. */
module Prelude {

  datatype Option<+T> = None | Some(value: T)

  datatype Result<+T, +E> = Ok(value: T) | Err(error: E)

  /** `2^n`, the growth factor of the retry delay. */
  function Pow2(n: nat): (p: nat)
    ensures p >= 1
  {
    if n == 0 then 1 else 2 * Pow2(n - 1)
  }

  lemma {:induction false} CountNext(p: nat -> bool, n: nat)
    ensures |set i: nat | i < n + 1 && p(i)| == |set i: nat | i < n && p(i)| + if p(n) then 1 else 0
  {
    var front := set i: nat | i < n && p(i);
    assert (set i: nat | i < n + 1 && p(i)) == front + if p(n) then {n} else {};
  }

  lemma {:induction false} PowersMultiply(m: nat, n: nat)
    ensures Pow2(0) == 1 && Pow2(1) == 2 && Pow2(m + n) == Pow2(m) * Pow2(n)
  {
    if m > 0 {
      PowersMultiply(m - 1, n);
    }
  }
}
