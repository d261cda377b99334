/** The two JavaScript number operations the components rely on, on integers:
    the remainder operator `%` (truncating, so it takes the sign of the dividend,
    unlike Dafny's Euclidean `%`) and `Math.abs`. */
module JsNumber {

  /** `a % b` as JavaScript evaluates it for integers and a positive divisor:
      the remainder that differs from `a` by a multiple of `b`, lies strictly
      between `-b` and `b`, and has the sign of `a`. */
  function Rem(a: int, b: int): (r: int)
    requires b > 0
    ensures -b < r < b
    ensures a >= 0 ==> r >= 0
    ensures a <= 0 ==> r <= 0
    ensures (a - r) % b == 0
  {
    if a >= 0 then
      ModUnique(a - a % b, b, a / b, 0);
      a % b
    else
      var m := (-a) % b;
      ModUnique(a + m, b, -((-a) / b), 0);
      -m
  }

  /** `Math.abs(x)`. */
  function Abs(x: int): (r: int)
    ensures r >= 0
    ensures r == x || r == -x
  {
    if x < 0 then -x else x
  }

  lemma {:induction false} MulAtLeast(d: int, b: int)
    requires d >= 1 && b > 0
    ensures d * b >= b
    decreases d
  {
    assert d * b == (d - 1) * b + b;
    if d > 1 { MulAtLeast(d - 1, b); }
  }

  /** Euclidean division is determined by the quotient-remainder equation. */
  lemma {:induction false} ModUnique(a: int, b: int, q: int, r: int)
    requires b > 0 && a == q * b + r && 0 <= r < b
    ensures a % b == r && a / b == q
  {
    var q', r' := a / b, a % b;
    assert a == q' * b + r';
    var d := q - q';
    assert d * b == q * b - q' * b;
    assert d * b == r' - r;
    if d >= 1 { MulAtLeast(d, b); }
    else if d <= -1 { MulAtLeast(-d, b); }
  }

  /** Two integers that differ by a multiple of `b` have the same Euclidean remainder. */
  lemma {:induction false} CongruentMod(x: int, y: int, b: int)
    requires b > 0
    requires (x - y) % b == 0
    ensures x % b == y % b
  {
    var k := (x - y) / b;
    assert x - y == k * b;
    var q := y / b;
    assert y == q * b + y % b;
    assert x == (q + k) * b + y % b;
    ModUnique(x, b, q + k, y % b);
  }

  /** The idiom `((a % b) + b) % b`, evaluated with JavaScript's `%`, is the
      Euclidean (never negative) remainder of `a`. */
  lemma {:induction false} NormalizedRem(a: int, b: int)
    requires b > 0
    ensures Rem(Rem(a, b) + b, b) == a % b
  {
    var r := Rem(a, b);
    var s := r + b;
    assert s >= 0;
    assert Rem(s, b) == s % b by {
      ModUnique(s, b, s / b, s % b);
    }
    assert (s - a) % b == 0 by {
      var k := (a - r) / b;
      assert a - r == k * b;
      ModUnique(s - a, b, 1 - k, 0);
    }
    CongruentMod(s, a, b);
  }

  /** A number in `[0, b)` is its own remainder, and `b` leaves none. */
  lemma {:induction false} ModSmall(a: int, b: int)
    requires b > 0
    ensures 0 <= a < b ==> a % b == a
    ensures a == b ==> a % b == 0
  {
    if 0 <= a < b {
      ModUnique(a, b, 0, a);
    } else if a == b {
      ModUnique(a, b, 1, 0);
    }
  }

  /** Adding one commutes with taking the remainder. */
  lemma {:induction false} ModSucc(a: int, b: int)
    requires b > 0
    ensures (a % b + 1) % b == (a + 1) % b
  {
    var q := a / b;
    assert a == q * b + a % b;
    ModUnique((a + 1) - (a % b + 1), b, q, 0);
    CongruentMod(a + 1, a % b + 1, b);
  }
}
