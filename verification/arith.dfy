/** The few facts about products and quotients the other components need. */
module Arith {

  lemma MulMono(a: nat, b: nat, c: nat)
    requires a <= b
    ensures a * c <= b * c
  {
  }

  lemma Distribute(a: nat, b: nat, c: nat)
    ensures a * (b + c) == a * b + a * c
  {
  }

  /** The quotient is the largest number of whole divisors. */
  lemma Quotient(a: nat, b: nat)
    requires b > 0
    ensures a / b * b <= a < (a / b + 1) * b
    ensures a / b <= a
  {
    var q := a / b;
    assert a == q * b + a % b;
    Distribute(b, q, 1);
    MulMono(1, b, q);
  }

  /** Any number of whole divisors is at most the quotient. */
  lemma QuotientIsLargest(a: nat, b: nat, k: nat)
    requires b > 0 && k * b <= a
    ensures k <= a / b
  {
    Quotient(a, b);
    if a / b < k {
      MulMono(a / b + 1, k, b);
      assert false;
    }
  }
}
