/** Java integer semantics the tree code relies on: 32-bit `int` with
    wrap-around, and `/` and `%` that truncate toward zero. */
module Java {

  const INT_MIN: int := -0x8000_0000
  const INT_MAX: int := 0x7FFF_FFFF

  /** Java's `int`. */
  newtype int32 = x: int | -0x8000_0000 <= x < 0x8000_0000

  /** `x++` on a Java `int`: the successor, except that `Integer.MAX_VALUE`
      wraps around to `Integer.MIN_VALUE`. */
  function Inc(x: int32): (r: int32)
    ensures x as int < INT_MAX ==> r as int == x as int + 1
    ensures x as int == INT_MAX ==> r as int == INT_MIN
  {
    if x == 0x7FFF_FFFF then -0x8000_0000 else x + 1
  }

  function Abs(x: int): (r: nat)
    ensures r == x || r == -x
  {
    if x < 0 then -x else x
  }

  /** Java's `a / b` for a positive divisor (see DivRem). */
  function Div(a: int, b: int): int
    requires b > 0
  {
    if a >= 0 then a / b else -((-a) / b)
  }

  /** Java's `a % b` for a positive divisor (see DivRem). */
  function Rem(a: int, b: int): int
    requires b > 0
  {
    if a >= 0 then a % b else -((-a) % b)
  }

  /** Euclidean division of a non-negative dividend. */
  lemma NonNegDivision(n: int, b: int)
    requires n >= 0 && b > 0
    ensures n == (n / b) * b + n % b && 0 <= n % b < b
    ensures n / b >= 0 && 0 <= (n / b) * b <= n
  {
  }

  /** Java's `/` truncates toward zero and `%` takes the sign of the dividend;
      together they split the dividend exactly. */
  lemma DivRem(a: int, b: int)
    requires b > 0
    ensures Abs(Div(a, b) * b) <= Abs(a) < Abs(Div(a, b) * b) + b
    ensures (a >= 0 ==> Div(a, b) >= 0) && (a <= 0 ==> Div(a, b) <= 0)
    ensures a == Div(a, b) * b + Rem(a, b)
    ensures -b < Rem(a, b) < b
    ensures (a >= 0 ==> Rem(a, b) >= 0) && (a <= 0 ==> Rem(a, b) <= 0)
  {
    var n := Abs(a);
    NonNegDivision(n, b);
    var q, r := n / b, n % b;
    var qb := q * b;
    if a >= 0 {
      assert Div(a, b) == q && Rem(a, b) == r;
    } else {
      assert Div(a, b) == -q && Rem(a, b) == -r;
      assert Div(a, b) * b == -qb;
    }
  }
}
