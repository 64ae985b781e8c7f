/** Angles, and wrapping them into one turn. */
module Angles {

  /** The double nearest to pi. */
  const M_PI: real := 3.141592653589793115997963468544185161590576171875

  function Magnitude(a: real): real {
    if a < 0.0 then -a else a
  }

  /** The angle that the two loops of the source arrive at. */
  ghost function Wrapped(a: real): (w: real)
    ensures -M_PI <= w <= M_PI
    decreases (Magnitude(a) / M_PI).Floor
  {
    if a > M_PI then Wrapped(a - 2.0 * M_PI)
    else if a < -M_PI then Wrapped(a + 2.0 * M_PI)
    else a
  }

  ghost function Turned(a: real, k: int): real {
    a + k as real * (2.0 * M_PI)
  }

  /** Wrapping adds whole turns, and nothing to an angle in range. */
  lemma {:induction false} WrappedIsSameAngle(a: real) returns (k: int)
    ensures Wrapped(a) == Turned(a, k)
    ensures -M_PI <= a <= M_PI ==> k == 0
    decreases (Magnitude(a) / M_PI).Floor
  {
    if a > M_PI {
      var j := WrappedIsSameAngle(a - 2.0 * M_PI);
      k := j - 1;
    } else if a < -M_PI {
      var j := WrappedIsSameAngle(a + 2.0 * M_PI);
      k := j + 1;
    } else {
      k := 0;
    }
  }

  /** Angles that differ by whole turns wrap to the same angle, except that -pi and pi stand
      for one another. */
  lemma WrappedIsCanonical(a: real, k: int)
    ensures var u, v := Wrapped(a), Wrapped(Turned(a, k));
            u == v || (u == -v && (u == M_PI || v == M_PI))
  {
    var i := WrappedIsSameAngle(a);
    var j := WrappedIsSameAngle(Turned(a, k));
    var m := k + j - i;
    assert Wrapped(Turned(a, k)) == Turned(Wrapped(a), m);
    assert -1 <= m <= 1;
  }

  method NormalizeAngle(angle: real) returns (a: real)
    ensures a == Wrapped(angle)
  {
    a := angle;
    while a > M_PI
      invariant Wrapped(a) == Wrapped(angle)
      decreases (Magnitude(a) / M_PI).Floor
    {
      a := a - 2.0 * M_PI;
    }
    while a < -M_PI
      invariant Wrapped(a) == Wrapped(angle) && a <= M_PI
      decreases (Magnitude(a) / M_PI).Floor
    {
      a := a + 2.0 * M_PI;
    }
  }
}
