/** C++ integer semantics that differ from Dafny's.  Dafny's `/` and `%` are
    Euclidean; C++ `/` truncates toward zero and `%` takes the sign of the
    dividend.  A C++ conversion from `double` to `int` truncates as well. */
module CppArith {

  function Abs(x: int): (r: int)
    ensures r >= 0
    ensures r == x || r == -x
  {
    if x < 0 then -x else x
  }

  /** C++ `a / b` for a positive divisor. */
  function CDiv(a: int, b: int): (q: int)
    requires b > 0
    ensures a >= 0 ==> q * b <= a < q * b + b
    ensures a < 0 ==> q * b - b < a <= q * b
  {
    if a >= 0 then a / b else -((-a) / b)
  }

  /** C++ `a % b` for a positive divisor. */
  function CMod(a: int, b: int): (m: int)
    requires b > 0
    ensures CDiv(a, b) * b + m == a
    ensures a >= 0 ==> 0 <= m < b
    ensures a < 0 ==> -b < m <= 0
  {
    a - CDiv(a, b) * b
  }

  /** C++ `(int) x` for a double `x` (the result is assumed representable). */
  function TruncToInt(x: real): (r: int)
    ensures x >= 0.0 ==> r as real <= x < r as real + 1.0
    ensures x < 0.0 ==> r as real - 1.0 < x <= r as real
  {
    if x >= 0.0 then x.Floor else -((-x).Floor)
  }

  /** Truncation and Euclidean division disagree on a negative dividend:
      this is why decoded Amber indices go through `CDiv`. */
  lemma TruncationDiffersFromEuclid()
    ensures CDiv(-1, 3) == 0 && -1 / 3 == -1
    ensures CDiv(-4, 3) == -1 && -4 / 3 == -2
    ensures CMod(-1, 2) == -1 && -1 % 2 == 1
  {
  }

  /** Amber stores atom positions as three times the atom index; a multiple
      of three is decoded exactly, whatever its sign. */
  lemma CDivOfTriple(k: int)
    ensures CDiv(3 * k, 3) == k
    ensures CDiv(-3 * k, 3) == -k
  {
  }
}
