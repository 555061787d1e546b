/** Facts about real arithmetic shared by the loss and schedule models. */
module RealArith {

  lemma MulNonneg(x: real, y: real)
    requires x >= 0.0 && y >= 0.0
    ensures x * y >= 0.0 && x * -y <= 0.0
  {
  }

  /** A weight in [0, 1] blends two values into one between them. */
  lemma ConvexBetween(t: real, a: real, b: real, r: real)
    requires 0.0 <= t <= 1.0 && r == t * a + (1.0 - t) * b
    ensures a <= b ==> a <= r && r <= b
    ensures b <= a ==> b <= r && r <= a
  {
    assert r - a == (1.0 - t) * (b - a);
    assert r - b == t * (a - b);
    if a <= b {
      MulNonneg(1.0 - t, b - a);
      MulNonneg(t, b - a);
    } else {
      MulNonneg(1.0 - t, a - b);
      MulNonneg(t, a - b);
    }
  }

  /** Scaling by a factor in [0, 1] keeps a nonnegative value between 0 and itself. */
  lemma ScaleBetween(a: real, h: real)
    ensures 0.0 <= a && 0.0 <= h <= 1.0 ==> 0.0 <= a * h <= a
  {
    if 0.0 <= a && 0.0 <= h <= 1.0 {
      assert a * h <= a * 1.0;
    }
  }
}
