/**
  * Number-by-number comparison of a baseline series A against a candidate
  * series B: the absolute and relative error of every aligned pair.
  * Floating point is modelled by exact reals; the relative error can be
  * positive infinity.
  */
module ErrorCalc {

  /** A relative error: a finite value, or positive infinity. */
  datatype Extended = Finite(value: real) | PosInf

  /** The near-zero threshold `eps` of `_errores` (10^-15), as an exact real. */
  const Eps: real := 0.000000000000001

  function Abs(x: real): (r: real)
    ensures r >= 0.0 && (r == x || r == -x)
  {
    if x < 0.0 then -x else x
  }

  /** The absolute and relative error of one pair. */
  datatype ErrorPair = ErrorPair(absErr: real, relErr: Extended)

  /** `_errores(a, b)`: the error of candidate `b` against baseline `a`. The relative
      error divides by `|a|` when `a` is clear of zero; otherwise it is 0 when the
      two values agree within `Eps` and infinite when they do not. */
  function Errors(a: real, b: real): (e: ErrorPair)
    ensures e.absErr == Abs(a - b)
    ensures e.absErr == 0.0 <==> a == b
    ensures e.relErr == PosInf <==> Abs(a) <= Eps && e.absErr > Eps
    ensures e.relErr.Finite? ==> e.relErr.value >= 0.0
    ensures Abs(a) <= Eps && e.absErr <= Eps ==> e.relErr == Finite(0.0)
  {
    var absErr := Abs(a - b);
    var den := Abs(a);
    if den > Eps then ErrorPair(absErr, Finite(absErr / den))
    else ErrorPair(absErr, if absErr <= Eps then Finite(0.0) else PosInf)
  }

  /** For a baseline clear of zero the relative error is the absolute error in units
      of `|a|`. */
  lemma RelErrorIsRatio(a: real, b: real)
    requires Abs(a) > Eps
    ensures Errors(a, b).relErr.Finite?
    ensures Errors(a, b).relErr.value * Abs(a) == Errors(a, b).absErr
  {
  }

  /** A value compared with itself has no error of either kind. */
  lemma ErrorsOfEqual(a: real)
    ensures Errors(a, a) == ErrorPair(0.0, Finite(0.0))
  {
  }

  /** The relative error is zero exactly when the values are equal, or when the
      baseline is near zero and the candidate within `Eps` of it. */
  lemma RelErrorZero(a: real, b: real)
    ensures Errors(a, b).relErr == Finite(0.0) <==> a == b || (Abs(a) <= Eps && Abs(a - b) <= Eps)
  {
    var e := Errors(a, b);
    if Abs(a) > Eps && e.relErr == Finite(0.0) {
      RelErrorIsRatio(a, b);
      assert e.absErr == 0.0 * Abs(a);
    }
  }

  /** Worked case: a baseline and a candidate both within `Eps` of zero, but more than
      `Eps` apart, have an infinite relative error. */
  lemma RelErrorNearZeroApart()
    ensures Errors(Eps, -Eps).relErr == PosInf
  {
    assert Abs(Eps - -Eps) == 2.0 * Eps;
  }

  /** One row of `comparar_tuplas_planas`: position, baseline value, candidate value
      and the two errors. */
  datatype Comparison = Comparison(idx: nat, original: real, candidate: real, absErr: real, relErr: Extended)

  /** The row for position `i` holding baseline `a` and candidate `b`. */
  function Row(i: nat, a: real, b: real): (c: Comparison)
    ensures c.idx == i && c.original == a && c.candidate == b
    ensures ErrorPair(c.absErr, c.relErr) == Errors(a, b)
  {
    var e := Errors(a, b);
    Comparison(i, a, b, e.absErr, e.relErr)
  }

  function Min(x: nat, y: nat): nat {
    if x <= y then x else y
  }

  /** `comparar_tuplas_planas`: compare the series position by position, up to the
      length of the shorter one; values past that length, in either series, are
      ignored. */
  method CompareFlat(tA: seq<real>, tB: seq<real>) returns (out: seq<Comparison>)
    ensures |out| == Min(|tA|, |tB|)
    ensures forall i :: 0 <= i < |out| ==> out[i] == Row(i, tA[i], tB[i])
  {
    var n := Min(|tA|, |tB|);
    out := [];
    for i := 0 to n
      invariant |out| == i
      invariant forall j :: 0 <= j < i ==> out[j] == Row(j, tA[j], tB[j])
    {
      var a := tA[i];
      var b := tB[i];
      var e := Errors(a, b);
      out := out + [Comparison(i, a, b, e.absErr, e.relErr)];
    }
  }
}
