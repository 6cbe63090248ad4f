// Sign facts about products of reals that the solver needs spelled out.
module RealArith {

  lemma MulNonneg(x: real, y: real)
    requires 0.0 <= x && 0.0 <= y
    ensures 0.0 <= x * y
  {
  }

  lemma MulPositive(x: real, y: real)
    requires 0.0 < y
    ensures 0.0 < x ==> 0.0 < x * y
  {
  }
}
