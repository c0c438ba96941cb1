/**
 * Tolerance comparisons between BGK requests and between BGK results.
 *
 * The service's `icfComparator` looks at the signed relative deviation
 * `(lhs - rhs) / rhs` of every field whose reference value is non-zero.
 * The client library's `operator==` looks at `fabs(lhs - rhs) / rhs`,
 * dividing by the right-hand field whatever its sign or value; division
 * by a zero field follows IEEE 754 (`x / 0` is infinite for `x != 0` and
 * `0 / 0` is NaN, which compares false).
 */
module Comparators {
  import opened GlueTypes

  /** The service's per-field failure test. */
  predicate Exceeds(l: real, r: real, eps: real)
  {
    r != 0.0 && (l - r) / r > eps
  }

  /** `icfComparator`: temperature first, then species 0..3 (density, then charge). */
  function IcfComparator(lhs: BGKInputs, rhs: BGKInputs, eps: real): bool
  {
    var retVal := !Exceeds(lhs.temperature, rhs.temperature, eps);
    ScanSpecies(lhs, rhs, eps, 0, retVal)
  }

  /** The species loop, returning `false` at the first failing field. */
  function ScanSpecies(lhs: BGKInputs, rhs: BGKInputs, eps: real, i: nat, retVal: bool): bool
    requires i <= 4
    decreases 4 - i
  {
    if i == 4 then retVal
    else if Exceeds(lhs.density[i], rhs.density[i], eps) then false
    else if Exceeds(lhs.charges[i], rhs.charges[i], eps) then false
    else ScanSpecies(lhs, rhs, eps, i + 1, retVal)
  }

  /** Reference: no field of `lhs` deviates upward from a non-zero field of `rhs` by more than `eps`. */
  predicate WithinTolerance(lhs: BGKInputs, rhs: BGKInputs, eps: real)
  {
    forall j :: 0 <= j < 9 ==> !Exceeds(InputFields(lhs)[j], InputFields(rhs)[j], eps)
  }

  lemma {:induction false} ScanSpeciesSpec(lhs: BGKInputs, rhs: BGKInputs, eps: real, i: nat, retVal: bool)
    requires i <= 4
    ensures ScanSpecies(lhs, rhs, eps, i, retVal) <==>
      retVal && forall k :: i <= k < 4 ==>
        !Exceeds(lhs.density[k], rhs.density[k], eps) && !Exceeds(lhs.charges[k], rhs.charges[k], eps)
    decreases 4 - i
  {
    if i < 4 {
      ScanSpeciesSpec(lhs, rhs, eps, i + 1, retVal);
    }
  }

  /** The per-species form of `WithinTolerance`. */
  predicate SpeciesWithinTolerance(lhs: BGKInputs, rhs: BGKInputs, eps: real)
  {
    !Exceeds(lhs.temperature, rhs.temperature, eps) &&
    forall k :: 0 <= k < 4 ==>
      !Exceeds(lhs.density[k], rhs.density[k], eps) && !Exceeds(lhs.charges[k], rhs.charges[k], eps)
  }

  lemma WithinToleranceSpecies(lhs: BGKInputs, rhs: BGKInputs, eps: real)
    requires WithinTolerance(lhs, rhs, eps)
    ensures SpeciesWithinTolerance(lhs, rhs, eps)
  {
    var fl, fr := InputFields(lhs), InputFields(rhs);
    assert !Exceeds(fl[0], fr[0], eps);
    forall k | 0 <= k < 4
      ensures !Exceeds(lhs.density[k], rhs.density[k], eps) && !Exceeds(lhs.charges[k], rhs.charges[k], eps)
    {
      assert !Exceeds(fl[1 + k], fr[1 + k], eps);
      assert !Exceeds(fl[5 + k], fr[5 + k], eps);
    }
  }

  lemma SpeciesWithinToleranceFields(lhs: BGKInputs, rhs: BGKInputs, eps: real)
    requires SpeciesWithinTolerance(lhs, rhs, eps)
    ensures WithinTolerance(lhs, rhs, eps)
  {
    var fl, fr := InputFields(lhs), InputFields(rhs);
    forall j | 0 <= j < 9 ensures !Exceeds(fl[j], fr[j], eps) {
      if 1 <= j < 5 {
        assert fl[j] == lhs.density[j - 1] && fr[j] == rhs.density[j - 1];
      } else if 5 <= j {
        assert fl[j] == lhs.charges[j - 5] && fr[j] == rhs.charges[j - 5];
      }
    }
  }

  lemma WithinToleranceBySpecies(lhs: BGKInputs, rhs: BGKInputs, eps: real)
    ensures WithinTolerance(lhs, rhs, eps) <==> SpeciesWithinTolerance(lhs, rhs, eps)
  {
    if WithinTolerance(lhs, rhs, eps) {
      WithinToleranceSpecies(lhs, rhs, eps);
    }
    if SpeciesWithinTolerance(lhs, rhs, eps) {
      SpeciesWithinToleranceFields(lhs, rhs, eps);
    }
  }

  /** `icfComparator` accepts exactly the pairs within tolerance, whatever the loop's early exits. */
  lemma IcfComparatorSpec(lhs: BGKInputs, rhs: BGKInputs, eps: real)
    ensures IcfComparator(lhs, rhs, eps) <==> WithinTolerance(lhs, rhs, eps)
  {
    ScanSpeciesSpec(lhs, rhs, eps, 0, !Exceeds(lhs.temperature, rhs.temperature, eps));
    WithinToleranceBySpecies(lhs, rhs, eps);
  }

  /** With a non-negative tolerance every request matches itself. */
  lemma IcfComparatorReflexive(x: BGKInputs, eps: real)
    requires eps >= 0.0
    ensures IcfComparator(x, x, eps)
  {
    IcfComparatorSpec(x, x, eps);
  }

  /** A field whose reference value is zero is never consulted. */
  lemma IcfComparatorIgnoresZeroFields(lhs: BGKInputs, other: BGKInputs, rhs: BGKInputs, eps: real)
    requires forall j :: 0 <= j < 9 && InputFields(rhs)[j] != 0.0 ==> InputFields(lhs)[j] == InputFields(other)[j]
    ensures IcfComparator(lhs, rhs, eps) == IcfComparator(other, rhs, eps)
  {
    IcfComparatorSpec(lhs, rhs, eps);
    IcfComparatorSpec(other, rhs, eps);
  }

  /** Only upward deviation is bounded: a request below a positive reference always matches it. */
  lemma IcfComparatorOneSided(lhs: BGKInputs, rhs: BGKInputs, eps: real)
    requires eps >= 0.0
    requires forall j :: 0 <= j < 9 ==> 0.0 <= InputFields(lhs)[j] <= InputFields(rhs)[j]
    ensures IcfComparator(lhs, rhs, eps)
  {
    IcfComparatorSpec(lhs, rhs, eps);
    forall j | 0 <= j < 9 ensures !Exceeds(InputFields(lhs)[j], InputFields(rhs)[j], eps) {
      var l, r := InputFields(lhs)[j], InputFields(rhs)[j];
      if r != 0.0 {
        assert (l - r) / r <= 0.0;
      }
    }
  }

  function Uniform(v: real): BGKInputs
  {
    BGKInputs(v, [v, v, v, v], [v, v, v, v])
  }

  /** The comparison is not symmetric: half the reference matches, the reference does not match its half. */
  lemma IcfComparatorAsymmetric()
    ensures IcfComparator(Uniform(1.0), Uniform(2.0), 0.0001)
    ensures !IcfComparator(Uniform(2.0), Uniform(1.0), 0.0001)
  {
    IcfComparatorSpec(Uniform(1.0), Uniform(2.0), 0.0001);
    IcfComparatorSpec(Uniform(2.0), Uniform(1.0), 0.0001);
    assert Exceeds(InputFields(Uniform(2.0))[0], InputFields(Uniform(1.0))[0], 0.0001);
  }

  // ---------------------------------------------------------------- client library

  /** Tolerance the library's equality operators use for every field. */
  const LibraryEpsilon: real := 0.0001

  function Abs(x: real): real { if x < 0.0 then -x else x }

  /**
   * `fabs(l - r) / r > eps` in IEEE arithmetic. For `r == 0` the quotient
   * is infinite when `l != 0` and NaN when `l == 0`.
   */
  predicate CExceeds(l: real, r: real, eps: real)
  {
    if r == 0.0 then l != 0.0 else Abs(l - r) / r > eps
  }

  /** `areEqual` after folding fields `i..` of two field vectors. */
  function FoldEqual(l: seq<real>, r: seq<real>, i: nat, areEqual: bool): bool
    requires |l| == |r| && i <= |l|
    decreases |l| - i
  {
    if i == |l| then areEqual
    else FoldEqual(l, r, i + 1, if CExceeds(l[i], r[i], LibraryEpsilon) then false else areEqual)
  }

  lemma {:induction false} FoldEqualSpec(l: seq<real>, r: seq<real>, i: nat, areEqual: bool)
    requires |l| == |r| && i <= |l|
    ensures FoldEqual(l, r, i, areEqual) <==> areEqual && forall k :: i <= k < |l| ==> !CExceeds(l[k], r[k], LibraryEpsilon)
    decreases |l| - i
  {
    if i < |l| {
      FoldEqualSpec(l, r, i + 1, if CExceeds(l[i], r[i], LibraryEpsilon) then false else areEqual);
    }
  }

  /** `operator==` on `bgk_request_s`. */
  function RequestsEqual(lhs: BGKInputs, rhs: BGKInputs): bool
  {
    FoldEqual(InputFields(lhs), InputFields(rhs), 0, true)
  }

  /** `operator==` on `bgk_result_s`: the provenance field takes no part. */
  function ResultsEqual(lhs: BGKResult, rhs: BGKResult): bool
  {
    FoldEqual(OutputFields(lhs.outputs), OutputFields(rhs.outputs), 0, true)
  }

  /** Request equality holds exactly when no field fails the test. */
  lemma RequestsEqualSpec(lhs: BGKInputs, rhs: BGKInputs)
    ensures RequestsEqual(lhs, rhs) <==>
      forall k :: 0 <= k < 9 ==> !CExceeds(InputFields(lhs)[k], InputFields(rhs)[k], LibraryEpsilon)
  {
    FoldEqualSpec(InputFields(lhs), InputFields(rhs), 0, true);
  }

  /** Result equality holds exactly when no field fails the test, whatever the provenances. */
  lemma ResultsEqualSpec(lhs: BGKResult, rhs: BGKResult)
    ensures ResultsEqual(lhs, rhs) <==>
      forall k :: 0 <= k < 12 ==> !CExceeds(OutputFields(lhs.outputs)[k], OutputFields(rhs.outputs)[k], LibraryEpsilon)
    ensures ResultsEqual(lhs, rhs) == ResultsEqual(lhs.(provenance := 0), rhs)
  {
    FoldEqualSpec(OutputFields(lhs.outputs), OutputFields(rhs.outputs), 0, true);
  }

  /** Every request equals itself, zero fields included (`0 / 0` is NaN, which is not greater). */
  lemma RequestsEqualReflexive(x: BGKInputs)
    ensures RequestsEqual(x, x)
  {
    RequestsEqualSpec(x, x);
  }

  /** Every result equals itself. */
  lemma ResultsEqualReflexive(x: BGKResult)
    ensures ResultsEqual(x, x)
  {
    ResultsEqualSpec(x, x);
  }

  /** A zero reference field only accepts an exact zero. */
  lemma RequestsEqualZeroField(lhs: BGKInputs, rhs: BGKInputs, k: nat)
    requires k < 9 && InputFields(rhs)[k] == 0.0 && InputFields(lhs)[k] != 0.0
    ensures !RequestsEqual(lhs, rhs)
  {
    RequestsEqualSpec(lhs, rhs);
  }

  /**
   * Request equality is not symmetric: a negative right-hand field makes
   * the quotient negative, so anything equals a request with negative fields.
   */
  lemma RequestsEqualAsymmetric()
    ensures RequestsEqual(Uniform(5.0), Uniform(-1.0))
    ensures !RequestsEqual(Uniform(-1.0), Uniform(5.0))
  {
    RequestsEqualSpec(Uniform(5.0), Uniform(-1.0));
    RequestsEqualSpec(Uniform(-1.0), Uniform(5.0));
    assert CExceeds(InputFields(Uniform(-1.0))[0], InputFields(Uniform(5.0))[0], LibraryEpsilon);
  }
}
