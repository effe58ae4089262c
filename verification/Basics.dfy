/** Shared wrappers and small facts about counting, multiples and wrap-around. */
module Basics {

  datatype Option<+T> = None | Some(value: T)

  datatype Result<+T> = Ok(value: T) | Err

  lemma {:induction false} SubsetSize<T>(a: set<T>, b: set<T>)
    requires a <= b
    ensures |a| <= |b|
  {
    if a != {} {
      var x :| x in a;
      SubsetSize(a - {x}, b - {x});
    }
  }

  lemma SmallMultiple(k: int, w: int)
    requires w > 0 && -w < k * w < w
    ensures k == 0
  {
    assert k >= 1 ==> k * w >= w;
    assert k <= -1 ==> k * w <= -w;
  }

  /** Reducing a value below 2n modulo n. */
  lemma WrapOnce(x: nat, n: nat)
    requires x < 2 * n
    ensures x % n == if x < n then x else x - n
  {
    var r := if x < n then x else x - n;
    var q := if x < n then 0 else 1;
    assert x == q * n + r && x == x / n * n + x % n;
    assert (x / n - q) * n == r - x % n;
    SmallMultiple(x / n - q, n);
  }
}
