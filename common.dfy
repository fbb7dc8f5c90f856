/** Small helpers shared by the whole model. */
module Common {

  datatype Option<T> = None | Some(value: T)

  /** C division of a signed integer by a positive one: the quotient is
      truncated toward zero (Dafny's own `/` is Euclidean). */
  function CDiv(a: int, b: int): (q: int)
    requires b > 0
    ensures a >= 0 ==> q == a / b
    ensures a < 0 ==> q == -((-a) / b)
  {
    if a >= 0 then a / b else -((-a) / b)
  }

  /** Truncating division is monotone in the dividend. */
  lemma CDivMonotone(a: int, a': int, b: int)
    requires b > 0 && a <= a'
    ensures CDiv(a, b) <= CDiv(a', b)
  {
    if a >= 0 {
      DivMonotone(a, a', b);
    } else if a' >= 0 {
      DivNonNegative(-a, b);
      DivNonNegative(a', b);
    } else {
      DivMonotone(-a', -a, b);
    }
  }

  lemma DivMonotone(a: nat, a': nat, b: int)
    requires b > 0 && a <= a'
    ensures a / b <= a' / b
  {
    var q, q' := a / b, a' / b;
    assert q * b <= a;
    assert a' < q' * b + b;
    assert (q' + 1) * b == q' * b + b;
    MulLe(q' + 1, q, b);
  }

  lemma DivNonNegative(a: nat, b: int)
    requires b > 0
    ensures a / b >= 0
  {
    DivMonotone(0, a, b);
  }

  /** A non-negative dividend of at least `g` times the divisor has a
      quotient of at least `g`. */
  lemma DivAtLeast(a: int, m: int, g: int)
    requires m > 0 && a >= 0 && g * m <= a
    ensures a / m >= g
  {
    var q := a / m;
    assert a < q * m + m;
    assert (q + 1) * m == q * m + m;
    MulLe(q + 1, g, m);
  }

  /** Dividing a multiple of `m` by `m` gives the factor back. */
  lemma MulDivCancel(g: int, m: int)
    requires m > 0 && g >= 0
    ensures (g * m) / m == g
  {
    MulLe(0, g, m);
    DivAtLeast(g * m, m, g);
    var q := (g * m) / m;
    assert q * m <= g * m;
    assert (g + 1) * m == g * m + m;
    MulLe(g + 1, q, m);
  }

  /** Multiplying by a non-negative factor keeps the order. */
  lemma MulLe(x: int, y: int, b: int)
    requires b >= 0
    ensures x <= y ==> x * b <= y * b
  {
    if x <= y {
      assert y * b - x * b == (y - x) * b;
    }
  }

  function Min(a: int, b: int): int { if a <= b then a else b }
}
