/** The weighted square w * e^2 of a residual e, and its sign. The products
    are named by functions so that the sign facts, once proved, are used as
    facts about those terms. */
module RealSigns {
  function Mul(a: real, b: real): real
  {
    a * b
  }

  /** w * e^2. */
  function WeightedSquare(w: real, e: real): real
  {
    Mul(w, Mul(e, e))
  }

  lemma RealMulPositive(a: real, b: real)
    requires a > 0.0 && b > 0.0
    ensures Mul(a, b) > 0.0
  {
  }

  lemma RealMulNonNegative(a: real, b: real)
    requires a >= 0.0 && b >= 0.0
    ensures Mul(a, b) >= 0.0
  {
  }

  lemma SquarePositive(e: real)
    requires e != 0.0
    ensures Mul(e, e) > 0.0
  {
    if e > 0.0 {
      RealMulPositive(e, e);
    } else {
      RealMulPositive(-e, -e);
      assert Mul(-e, -e) == Mul(e, e);
    }
  }

  /** With a non-negative weight the weighted square is non-negative; it is
      zero when the weight or the residual is, and positive for a positive
      weight and a non-zero residual. */
  lemma WeightedSquareSign(w: real, e: real)
    ensures w >= 0.0 ==> WeightedSquare(w, e) >= 0.0
    ensures w == 0.0 || e == 0.0 ==> WeightedSquare(w, e) == 0.0
    ensures w > 0.0 && e != 0.0 ==> WeightedSquare(w, e) > 0.0
  {
    if e != 0.0 {
      SquarePositive(e);
      if w > 0.0 {
        RealMulPositive(w, Mul(e, e));
      } else if w == 0.0 {
        assert Mul(w, Mul(e, e)) == 0.0;
      } else {
      }
    } else {
      assert Mul(e, e) == 0.0;
      assert Mul(w, Mul(e, e)) == 0.0;
    }
    if w >= 0.0 && e != 0.0 {
      RealMulNonNegative(w, Mul(e, e));
    }
  }
}
