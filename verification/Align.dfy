/** Multiples and remainders. */
module Align {

  function Min(a: int, b: int): int
  {
    if a < b then a else b
  }

  lemma AlignUp(x: nat, a: nat)
    requires a > 0
    ensures (x + a - x % a) % a == 0
  {
    assert x + a - x % a == a * (x / a + 1);
    MultipleOf(a, x / a + 1);
  }

  lemma AlignDown(x: nat, a: nat)
    requires a > 0
    ensures x >= x % a && (x - x % a) % a == 0
  {
    assert x - x % a == a * (x / a);
    MultipleOf(a, x / a);
  }

  lemma MultipleOf(a: nat, k: nat)
    requires a > 0
    ensures (a * k) % a == 0
  {
    var x := a * k;
    var d := k - x / a;
    assert x == a * (x / a) + x % a;
    assert x % a == a * d by { assert a * d == a * k - a * (x / a); }
    AtLeastOnce(a, d);
  }

  lemma AtLeastOnce(a: int, d: int)
    requires a > 0
    ensures d >= 1 ==> a * d >= a
    ensures d <= -1 ==> a * d <= -a
  {}

  /** The next multiple. */
  lemma NextMultiple(x: nat, a: nat)
    requires a > 0 && x % a == 0
    ensures (x + a) % a == 0
  {
    AlignUp(x, a);
  }

  /** Two multiples that are less than `a` apart are the same. */
  lemma CloseMultiples(a: nat, x: nat, y: nat)
    requires a > 0 && x % a == 0 && y % a == 0 && x <= y < x + a
    ensures x == y
  {
    var d := y / a - x / a;
    assert y - x == a * d by { assert y == a * (y / a) && x == a * (x / a); }
    AtLeastOnce(a, d);
  }

  lemma SumOfMultiples(x: nat, y: nat, a: nat)
    requires a > 0 && x % a == 0 && y % a == 0
    ensures (x + y) % a == 0
  {
    assert x + y == a * (x / a + y / a);
    MultipleOf(a, x / a + y / a);
  }
}
