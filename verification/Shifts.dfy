/** Shifts as repeated doubling and halving. */
module Shifts {
  function Double(x: nat, k: nat): nat { if k == 0 then x else 2 * Double(x, k - 1) }

  function Halve(x: nat, k: nat): (h: nat)
    ensures h <= x
  {
    if k == 0 then x else Halve(x / 2, k - 1)
  }

  lemma {:induction false} DoubleIsMul(x: nat, k: nat)
    ensures Double(x, k) == x * Double(1, k) && Double(1, k) >= 1
  {
    if k > 0 { DoubleIsMul(x, k - 1); }
  }

  lemma {:induction false} DoubleMono(x: nat, y: nat, k: nat)
    requires x <= y
    ensures Double(x, k) <= Double(y, k)
  {
    if k > 0 { DoubleMono(x, y, k - 1); }
  }

  lemma {:induction false} DoubleShift(x: nat, k: nat)
    ensures Double(2 * x, k) == 2 * Double(x, k)
  {
    if k > 0 { DoubleShift(x, k - 1); }
  }

  /** Halving drops less than one doubled unit. */
  lemma {:induction false} HalveBracket(x: nat, k: nat)
    ensures Double(Halve(x, k), k) <= x < Double(Halve(x, k) + 1, k)
  {
    if k > 0 { HalveBracket(x / 2, k - 1); }
  }
}
