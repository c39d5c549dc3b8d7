/**
 * Numerical vocabulary shared by the model: element-wise arithmetic on
 * `seq<real>` (numpy arrays), dense matrix-vector products on `seq<seq<real>>`,
 * Python's truncating `int()` and the laws the square root and power
 * functions are assumed to obey.
 */
module Numerics {

  // ---------------------------------------------------------------------
  // Elementary functions are parameters of the model; these are their laws.
  // ---------------------------------------------------------------------

  /** `sqrt` is a square root on the non-negative reals. */
  ghost predicate IsSqrt(sqrt: real -> real) {
    forall x: real :: 0.0 <= x ==> 0.0 <= sqrt(x) && sqrt(x) * sqrt(x) == x
  }

  /** `pow(x, y)` is non-negative for a non-negative base. */
  ghost predicate IsNonNegativePow(pow: (real, real) -> real) {
    forall x: real, y: real :: 0.0 <= x ==> 0.0 <= pow(x, y)
  }

  /**
   * `pow` is a real power on the non-negative reals: non-negative, one to
   * any power is one, and zero to a positive power is zero.
   */
  ghost predicate IsPow(pow: (real, real) -> real) {
    IsNonNegativePow(pow) &&
    (forall y: real :: pow(1.0, y) == 1.0) &&
    (forall y: real :: 0.0 < y ==> pow(0.0, y) == 0.0)
  }

  /** A non-negative number whose square is `a * a` (with `a` non-negative) is `a`. */
  lemma RootOfSquare(q: real, a: real)
    requires 0.0 <= q && 0.0 <= a && q * q == a * a
    ensures q == a
  {
    assert (q - a) * (q + a) == 0.0;
    if q + a == 0.0 {
      assert q == 0.0 && a == 0.0;
    } else {
      assert q - a == ((q - a) * (q + a)) / (q + a);
    }
  }

  lemma MulMonotone(x: real, y: real, c: real)
    requires x <= y && 0.0 <= c
    ensures x * c <= y * c && c * x <= c * y
  {
  }

  lemma MulStrict(x: real, y: real, c: real)
    requires x < y && 0.0 < c
    ensures x * c < y * c && c * x < c * y
  {
  }

  lemma ProductNonZero(a: real, b: real)
    requires a != 0.0 && b != 0.0
    ensures a * b != 0.0
  {
  }

  lemma QuotientNonZero(a: real, b: real)
    requires a != 0.0 && b != 0.0
    ensures a / b != 0.0
  {
  }

  lemma QuotientPositive(a: real, b: real)
    requires 0.0 < a && 0.0 < b
    ensures 0.0 < a / b
  {
  }

  /** Dividing a product by `b` divides its first factor. */
  lemma MulDiv(a: real, x: real, b: real)
    requires b != 0.0
    ensures a * x / b == (a / b) * x
  {
    var k := a / b;
    assert k * b == a;
    assert (k * x) * b == a * x;
  }

  /** A quotient of a number by itself, or by its negation. */
  lemma QuotientOfSelf(d: real)
    requires d != 0.0
    ensures d / d == 1.0 && (-d) / d == -1.0
  {
  }

  /** Division distributes over a difference. */
  lemma QuotientOfDifference(a: real, b: real, d: real)
    requires d != 0.0
    ensures (a - b) / d == a / d - b / d
  {
    assert (a / d) * d == a && (b / d) * d == b;
    assert (a / d - b / d) * d == a - b;
  }

  /** The quotient `n / d` is the only `x` with `x * d == n`. */
  lemma QuotientUnique(n: real, d: real, x: real)
    requires d != 0.0 && n == x * d
    ensures n / d == x
  {
    assert (n / d) * d == n;
    ProductZero(d, n / d - x);
  }

  /** Squaring is monotone on the non-negative reals, so it can be undone. */
  lemma SquareMonotone(x: real, y: real)
    requires 0.0 <= x && 0.0 <= y && x * x <= y * y
    ensures x <= y
  {
    if x + y != 0.0 {
      assert y * y - x * x == (y - x) * (y + x);
      assert y - x == (y * y - x * x) / (y + x);
    }
  }

  lemma SqrtOfSquare(sqrt: real -> real, a: real)
    requires IsSqrt(sqrt) && 0.0 <= a
    ensures sqrt(a * a) == a
  {
    RootOfSquare(sqrt(a * a), a);
  }

  lemma FourProductPositive(a: real, c: real)
    requires 0.0 < a && 0.0 < c
    ensures 0.0 < 4.0 * a * c
  {
    MulStrict(0.0, c, 4.0 * a);
  }

  /** `4a * k <= 0` when a > 0 and k <= 0. */
  lemma AddedProduct(a: real, k: real)
    requires 0.0 < a && k <= 0.0
    ensures 4.0 * a * k <= 0.0
  {
    MulMonotone(k, 0.0, 4.0 * a);
  }

  lemma HalfInverse(a: real)
    requires a != 0.0
    ensures (2.0 * a) * (1.0 / (2.0 * a)) == 1.0
  {
  }

  /** If phi = (-b - q) / 2a with q^2 = b^2 - 4ac then a*phi^2 + b*phi + c = 0. */
  lemma RootSolvesQuadratic(a: real, b: real, c: real, q: real, phi: real)
    requires a != 0.0 && q * q == b * b - 4.0 * a * c && phi == (1.0 / (2.0 * a)) * (-b - q)
    ensures a * (phi * phi) + b * phi + c == 0.0
  {
    var u := -b - q;
    assert 2.0 * a * phi == u;
    var f := a * (phi * phi) + b * phi + c;
    assert 4.0 * a * f == (2.0 * a * phi) * (2.0 * a * phi) + 2.0 * b * (2.0 * a * phi) + 4.0 * a * c;
    assert u * u + 2.0 * b * u == q * q - b * b;
    assert 4.0 * a * f == 0.0;
    ProductZero(4.0 * a, f);
  }

  /** A number that leaves a non-zero factor unchanged is one. */
  lemma UnitFactor(r: real, d: real)
    requires d != 0.0 && r * d == d
    ensures r == 1.0
  {
    assert d * (r - 1.0) == 0.0;
    ProductZero(d, r - 1.0);
  }

  /** A non-zero factor cancels. */
  lemma CancelNonZero(a: real, b: real, d: real)
    requires d != 0.0 && a * d == b * d
    ensures a == b
  {
    assert d * (a - b) == 0.0;
    ProductZero(d, a - b);
  }

  lemma ProductZero(k: real, f: real)
    requires k != 0.0 && k * f == 0.0
    ensures f == 0.0
  {
    if f != 0.0 {
      ProductNonZero(k, f);
    }
  }

  // ---------------------------------------------------------------------
  // Python's int(): truncation toward zero.
  // ---------------------------------------------------------------------

  /** Python's `int(x)` on a float: rounds toward zero. */
  function Trunc(x: real): (n: int)
    ensures 0.0 <= x ==> n as real <= x < n as real + 1.0
    ensures x < 0.0 ==> n as real - 1.0 < x <= n as real
  {
    if 0.0 <= x then x.Floor else -((-x).Floor)
  }

  // ---------------------------------------------------------------------
  // numpy arrays as sequences of reals
  // ---------------------------------------------------------------------

  function Min(a: real, b: real): real { if a <= b then a else b }
  function Max(a: real, b: real): real { if a <= b then b else a }

  /** `np.full(n, v)` (and `np.zeros(n)` / `np.ones(n)`). */
  function Fill(n: nat, v: real): (r: seq<real>)
    ensures |r| == n && forall i :: 0 <= i < n ==> r[i] == v
  {
    seq(n, _ => v)
  }

  function Zeros(n: nat): (r: seq<real>)
    ensures |r| == n && forall i :: 0 <= i < n ==> r[i] == 0.0
  {
    Fill(n, 0.0)
  }

  function Add(a: seq<real>, b: seq<real>): (r: seq<real>)
    requires |a| == |b|
    ensures |r| == |a| && forall i :: 0 <= i < |r| ==> r[i] == a[i] + b[i]
  {
    seq(|a|, i requires 0 <= i < |a| => a[i] + b[i])
  }

  function Sub(a: seq<real>, b: seq<real>): (r: seq<real>)
    requires |a| == |b|
    ensures |r| == |a| && forall i :: 0 <= i < |r| ==> r[i] == a[i] - b[i]
  {
    seq(|a|, i requires 0 <= i < |a| => a[i] - b[i])
  }

  function Mul(a: seq<real>, b: seq<real>): (r: seq<real>)
    requires |a| == |b|
    ensures |r| == |a| && forall i :: 0 <= i < |r| ==> r[i] == a[i] * b[i]
  {
    seq(|a|, i requires 0 <= i < |a| => a[i] * b[i])
  }

  function Scale(c: real, a: seq<real>): (r: seq<real>)
    ensures |r| == |a| && forall i :: 0 <= i < |r| ==> r[i] == c * a[i]
  {
    seq(|a|, i requires 0 <= i < |a| => c * a[i])
  }

  function Neg(a: seq<real>): (r: seq<real>)
    ensures |r| == |a| && forall i :: 0 <= i < |r| ==> r[i] == -a[i]
  {
    seq(|a|, i requires 0 <= i < |a| => -a[i])
  }

  function Shift(a: seq<real>, c: real): (r: seq<real>)
    ensures |r| == |a| && forall i :: 0 <= i < |r| ==> r[i] == a[i] + c
  {
    seq(|a|, i requires 0 <= i < |a| => a[i] + c)
  }

  /** The interior of a ghost-grid array: `a[1:-1]`. */
  function Interior(a: seq<real>): (r: seq<real>)
    requires 2 <= |a|
    ensures |r| == |a| - 2 && forall i :: 0 <= i < |r| ==> r[i] == a[i + 1]
  {
    a[1..|a| - 1]
  }

  // ---------------------------------------------------------------------
  // Dense matrices and `np.matmul` / `@`
  // ---------------------------------------------------------------------

  /** Every row of `m` has `cols` entries. */
  predicate IsMatrix(m: seq<seq<real>>, rows: nat, cols: nat) {
    |m| == rows && forall i :: 0 <= i < rows ==> |m[i]| == cols
  }

  /** Sum of `row[k] * x[k]`, accumulated from the front. */
  function Dot(row: seq<real>, x: seq<real>): real
    requires |row| == |x|
  {
    if |row| == 0 then 0.0 else row[0] * x[0] + Dot(row[1..], x[1..])
  }

  /** Matrix-vector product `m @ x`. */
  function MatVec(m: seq<seq<real>>, x: seq<real>): (r: seq<real>)
    requires forall i :: 0 <= i < |m| ==> |m[i]| == |x|
    ensures |r| == |m| && forall i :: 0 <= i < |m| ==> r[i] == Dot(m[i], x)
  {
    seq(|m|, i requires 0 <= i < |m| => Dot(m[i], x))
  }

  /** A row whose only non-zero entries are `a` at column `j` and `b` at column `k`. */
  predicate TwoPointRow(row: seq<real>, j: nat, a: real, k: nat, b: real) {
    j < k < |row| && row[j] == a && row[k] == b &&
    forall c :: 0 <= c < |row| && c != j && c != k ==> row[c] == 0.0
  }

  /** The product of a two-point row with `x` picks out the two weighted entries. */
  lemma {:induction false} DotTwoPoint(row: seq<real>, x: seq<real>, j: nat, a: real, k: nat, b: real)
    requires |row| == |x| && TwoPointRow(row, j, a, k, b)
    ensures Dot(row, x) == a * x[j] + b * x[k]
  {
    if j == 0 {
      DotOnePoint(row[1..], x[1..], k - 1, b);
    } else {
      DotTwoPoint(row[1..], x[1..], j - 1, a, k - 1, b);
    }
  }

  /** The product of a row with a single non-zero entry `b` at column `k`. */
  lemma {:induction false} DotOnePoint(row: seq<real>, x: seq<real>, k: nat, b: real)
    requires |row| == |x| && k < |row| && row[k] == b
    requires forall c :: 0 <= c < |row| && c != k ==> row[c] == 0.0
    ensures Dot(row, x) == b * x[k]
  {
    if k == 0 {
      DotZero(row[1..], x[1..]);
    } else {
      DotOnePoint(row[1..], x[1..], k - 1, b);
    }
  }

  /** Any row applied to the zero vector gives zero. */
  lemma {:induction false} DotZeroVector(row: seq<real>, x: seq<real>)
    requires |row| == |x|
    requires forall c :: 0 <= c < |x| ==> x[c] == 0.0
    ensures Dot(row, x) == 0.0
  {
    if |row| > 0 {
      DotZeroVector(row[1..], x[1..]);
    }
  }

  /** A matrix maps the zero vector to the zero vector. */
  lemma MatVecZero(m: seq<seq<real>>, n: nat)
    requires forall i :: 0 <= i < |m| ==> |m[i]| == n
    ensures MatVec(m, Zeros(n)) == Zeros(|m|)
  {
    forall i | 0 <= i < |m| ensures Dot(m[i], Zeros(n)) == 0.0 {
      DotZeroVector(m[i], Zeros(n));
    }
  }

  /** A zero row contributes nothing. */
  lemma {:induction false} DotZero(row: seq<real>, x: seq<real>)
    requires |row| == |x|
    requires forall c :: 0 <= c < |row| ==> row[c] == 0.0
    ensures Dot(row, x) == 0.0
  {
    if |row| > 0 {
      DotZero(row[1..], x[1..]);
    }
  }
}
