/**
 * DotNetExtensions/MathExtensions.cs: the random-number wrappers and AbsMod; also LINQ's
 * `Average`, which the genome distance and the GA use.
 *
 * Every random draw is a parameter: a `real` in [0, 1), the value `Random.NextDouble()`
 * would have returned. `Random.Next(from, to)` scales such a draw to the integer range.
 */
module MathExtensions {
  import opened Wrappers

  /** A value `Random.NextDouble()` can return. */
  predicate IsDraw(u: real) { 0.0 <= u < 1.0 }

  predicate AllDraws(us: seq<real>) { forall k :: 0 <= k < |us| ==> IsDraw(us[k]) }

  /** `RandomInteger(from, to)`: `Random.Next(from, to)`, which throws when `from > to`,
      returns `from` when the range is empty and otherwise a value in [from, to). */
  function RandomInteger(from: int, to: int, u: real): (r: Result<int>)
    requires IsDraw(u)
    ensures r.Failure? <==> from > to
    ensures r.Success? && from == to ==> r.value == from
    ensures r.Success? && from < to ==> from <= r.value < to
  {
    if from > to then Failure("ArgumentOutOfRangeException")
    else
      var width := (to - from) as real;
      assert u * width <= width;
      assert from < to ==> u * width < width;
      Success(from + (u * width).Floor)
  }

  /** `RandomInteger(max)` is `RandomInteger(0, max)`. */
  function RandomIntegerBelow(max: int, u: real): (r: Result<int>)
    requires IsDraw(u)
    ensures r.Failure? <==> max < 0
    ensures r.Success? && max > 0 ==> 0 <= r.value < max
    ensures r.Success? && max == 0 ==> r.value == 0
  {
    RandomInteger(0, max, u)
  }

  /** C#'s `/` on `int`: the quotient truncates toward zero (Dafny's own `/` is Euclidean). */
  function CSharpQuot(n: int, b: int): int
    requires b != 0
  {
    if n >= 0 then n / b else -((-n) / b)
  }

  /** C#'s `%` on `int`: the remainder that goes with the truncating quotient, so it takes
      the sign of the dividend (Dafny's own `%` is never negative). */
  function CSharpRem(n: int, b: int): (r: int)
    requires b != 0
    ensures n == b * CSharpQuot(n, b) + r
    ensures n >= 0 ==> 0 <= r < Abs(b)
    ensures n < 0 ==> 0 < r + Abs(b) && r <= 0
  {
    if n >= 0 then n % b else -((-n) % b)
  }

  function Abs(x: int): nat { if x < 0 then -x else x }

  /** `AbsMod(n, b)`: the remainder of `n` by `b` moved into [0, b) when `b` is positive;
      a zero divisor throws `DivideByZeroException`. The range of `int` is not modelled. */
  function AbsMod(n: int, b: int): (r: Result<int>)
    ensures r.Failure? <==> b == 0
    ensures r.Success? && b > 0 ==> 0 <= r.value < b
  {
    if b == 0 then Failure("DivideByZeroException")
    else
      var m := CSharpRem(n, b);
      if m < 0 then Success(m + b) else Success(m)
  }

  /** For a positive divisor AbsMod is the Euclidean remainder: it differs from `n` by a
      multiple of `b` and lies in [0, b). */
  lemma {:induction false} AbsModIsEuclidean(n: int, b: int)
    requires b > 0
    ensures AbsMod(n, b) == Success(n % b)
  {
    var q := CSharpQuot(n, b);
    var m := CSharpRem(n, b);
    if m < 0 {
      assert n == b * (q - 1) + (m + b) by {
        MulPred(b, q);
      }
      EuclideanUnique(n, b, q - 1, m + b);
    } else {
      EuclideanUnique(n, b, q, m);
    }
  }

  lemma MulPred(b: int, q: int)
    ensures b * (q - 1) == b * q - b
  {
  }

  /** The quotient and remainder of a division with 0 <= r < b are unique. */
  lemma {:induction false} EuclideanUnique(n: int, b: int, q: int, r: int)
    requires b > 0 && 0 <= r < b && n == b * q + r
    ensures n % b == r && n / b == q
  {
    var q', r' := n / b, n % b;
    assert n == b * q' + r';
    if q > q' {
      MulAtLeast(b, q - q');
      MulSub(b, q, q');
      assert false;
    } else if q < q' {
      MulAtLeast(b, q' - q);
      MulSub(b, q', q);
      assert false;
    }
  }

  lemma MulSub(b: int, x: int, y: int)
    ensures b * (x - y) == b * x - b * y
  {
  }

  lemma {:induction false} MulAtLeast(b: int, k: int)
    requires b > 0 && k >= 1
    ensures b * k >= b
  {
    if k > 1 {
      MulAtLeast(b, k - 1);
      MulPred(b, k);
    }
  }

  /** Applying AbsMod to its own result changes nothing. */
  lemma {:induction false} AbsModIdempotent(n: int, b: int)
    requires b > 0
    ensures AbsMod(AbsMod(n, b).value, b) == AbsMod(n, b)
  {
    AbsModIsEuclidean(n, b);
    var r := n % b;
    AbsModIsEuclidean(r, b);
    EuclideanUnique(r, b, 0, r);
  }

  // ---------------------------------------------------------------- rounding and casts

  /** `Math.Ceiling`: the least integer not below `x`. */
  function Ceil(x: real): (r: int)
    ensures x <= r as real < x + 1.0
  {
    -((-x).Floor)
  }

  const IntMin := -0x8000_0000
  const IntMax := 0x7fff_ffff

  /** C#'s unchecked `(int)` cast of a whole-valued `double`, as the x86-64 conversion does it:
      a value outside the range of `int` becomes `int.MinValue`. */
  function ToInt32(v: int): (r: int)
    ensures IntMin <= r <= IntMax
    ensures IntMin <= v <= IntMax ==> r == v
    ensures v < IntMin || IntMax < v ==> r == IntMin
  {
    if IntMin <= v <= IntMax then v else IntMin
  }

  // ---------------------------------------------------------------- Enumerable.Average

  /** The sum of a sequence, last element added last. */
  function Sum(s: seq<real>): real {
    if s == [] then 0.0 else Sum(s[..|s| - 1]) + s[|s| - 1]
  }

  /** `Enumerable.Average`: throws on an empty sequence. */
  function Mean(s: seq<real>): (r: Result<real>)
    ensures r.Failure? <==> s == []
    ensures r.Failure? ==> r.error == "InvalidOperationException"
    ensures r.Success? ==> r.value * (|s| as real) == Sum(s)
  {
    if s == [] then Failure("InvalidOperationException") else Success(Sum(s) / (|s| as real))
  }

  lemma {:induction false} SumWithin(s: seq<real>, low: real, high: real)
    requires forall k :: 0 <= k < |s| ==> low <= s[k] <= high
    ensures (|s| as real) * low <= Sum(s) <= (|s| as real) * high
  {
    if s != [] {
      SumWithin(s[..|s| - 1], low, high);
    }
  }
}
