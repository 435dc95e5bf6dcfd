/** JavaScript number semantics that differ from Dafny's Euclidean `%`. */
module JsNum {

  /** Rounding toward zero (`Math.trunc`). */
  function Trunc(r: real): (n: int)
    ensures r >= 0.0 ==> n as real <= r < n as real + 1.0
    ensures r < 0.0 ==> n as real - 1.0 < r <= n as real
  {
    if r >= 0.0 then r.Floor else -((-r).Floor)
  }

  /** JavaScript `a % 1`: the remainder keeps the sign of the dividend. */
  function RemOne(a: real): (r: real)
    ensures a >= 0.0 ==> 0.0 <= r < 1.0
    ensures a < 0.0 ==> -1.0 < r <= 0.0
    ensures (a - r).Floor as real == a - r
  {
    a - Trunc(a) as real
  }

  /** JavaScript `a % m` on integral numbers, for a positive modulus. */
  function IntRem(a: int, m: int): (r: int)
    requires m > 0
    ensures a >= 0 ==> 0 <= r < m
    ensures a < 0 ==> -m < r <= 0
    ensures a >= 0 ==> r == a % m
    ensures a < 0 ==> r == -((-a) % m)
  {
    if a >= 0 then a % m else -((-a) % m)
  }

  /**
   * `((t % 1) + 1) % 1`, the wrap used by the path sampler: it is the
   * fractional part `t - floor(t)` whatever the sign of `t`.
   */
  function Wrap01(t: real): (u: real)
    ensures 0.0 <= u < 1.0
  {
    RemOne(RemOne(t) + 1.0)
  }

  lemma Wrap01IsFraction(t: real)
    ensures Wrap01(t) == t - t.Floor as real
  {
    var a := RemOne(t);
    if t >= 0.0 {
      assert a == t - t.Floor as real;
      assert RemOne(a + 1.0) == a;
    } else {
      var n := Trunc(t);
      if a == 0.0 {
        assert t == n as real;
        assert t.Floor == n;
      } else {
        assert t.Floor == n - 1;
        assert RemOne(a + 1.0) == a + 1.0;
      }
    }
  }

  /** Sampling at `t` and at `t + 1` uses the same curve parameter. */
  lemma Wrap01Periodic(t: real)
    ensures Wrap01(t + 1.0) == Wrap01(t)
  {
    Wrap01IsFraction(t);
    Wrap01IsFraction(t + 1.0);
    assert (t + 1.0).Floor == t.Floor + 1;
  }

  /** On the unit interval the wrap is the identity. */
  lemma Wrap01OnUnit(t: real)
    requires 0.0 <= t < 1.0
    ensures Wrap01(t) == t
  {
    Wrap01IsFraction(t);
  }

  /** Wrapping after a JavaScript `% 1` gives the fractional part of the original value. */
  lemma Wrap01AfterRemOne(a: real)
    ensures Wrap01(RemOne(a)) == a - a.Floor as real
  {
    var n := Trunc(a);
    Wrap01IsFraction(RemOne(a));
    assert RemOne(a) == a - n as real;
    assert (a - n as real).Floor == a.Floor - n;
  }
}
