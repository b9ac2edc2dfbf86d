/** Steps 4 and 5 of the validation rule over Java `double` amounts, where a
    value may be NaN. The checks as written compare with `<` and `>`, which
    are false whenever an operand is NaN, so a NaN output passes both; the
    corrected checks compare with `>=` and `<=` and reject it. On finite
    values the two agree with each other and with the real-valued conditions
    (4) and (5) used everywhere else in the model. */
module DoubleAmounts {
  import opened Ledger
  import opened Validity

  /** A Java `double` as far as steps 4 and 5 can tell: a finite value or
      NaN. Infinities and rounding are not modelled. */
  datatype Double = Finite(v: real) | NaN

  /** Java's `+`: NaN as soon as one operand is NaN. */
  function Add(a: Double, b: Double): Double {
    if a.NaN? || b.NaN? then NaN else Finite(a.v + b.v)
  }

  /** Java's `<` and `<=`: false whenever an operand is NaN. */
  predicate Less(a: Double, b: Double) {
    a.Finite? && b.Finite? && a.v < b.v
  }

  predicate LessEq(a: Double, b: Double) {
    a.Finite? && b.Finite? && a.v <= b.v
  }

  /** The running total `outputVal` after adding `values` in order. */
  function Sum(values: seq<Double>): Double {
    if values == [] then Finite(0.0)
    else Add(Sum(values[..|values| - 1]), values[|values| - 1])
  }

  /** Steps 4 and 5 as written: reject when a value is `< 0.0`, then reject
      when the total is `>` the input value. */
  predicate OutputChecksAsWritten(values: seq<Double>, inputVal: Double) {
    && (forall i :: 0 <= i < |values| ==> !Less(values[i], Finite(0.0)))
    && !Less(inputVal, Sum(values))
  }

  /** Steps 4 and 5 as the rule states them: every value is a number at
      least zero, and the total is a number at most the input value. */
  predicate OutputChecksCorrected(values: seq<Double>, inputVal: Double) {
    && (forall i :: 0 <= i < |values| ==> LessEq(Finite(0.0), values[i]))
    && LessEq(Sum(values), inputVal)
  }

  /** A single NaN output against inputs worth 10 passes the checks as
      written, and the corrected checks reject it. */
  lemma NaNOutputAccepted()
    ensures OutputChecksAsWritten([NaN], Finite(10.0))
    ensures !OutputChecksCorrected([NaN], Finite(10.0))
  {
    assert [NaN][..0] == [];
    assert Sum([NaN]) == NaN;
  }

  /** The outputs' values as finite doubles. */
  function Lift(outputs: seq<Output>): (r: seq<Double>)
    ensures |r| == |outputs|
    ensures forall i :: 0 <= i < |r| ==> r[i] == Finite(outputs[i].value)
  {
    seq(|outputs|, i requires 0 <= i < |outputs| => Finite(outputs[i].value))
  }

  lemma {:induction false} SumLift(outputs: seq<Output>)
    ensures Sum(Lift(outputs)) == Finite(OutputSum(outputs))
    decreases |outputs|
  {
    if outputs != [] {
      var init := outputs[..|outputs| - 1];
      SumLift(init);
      assert Lift(outputs)[..|outputs| - 1] == Lift(init);
    }
  }

  /** On finite amounts the corrected checks are exactly conditions (4) and
      (5) of the real-valued rule, and the checks as written agree with them:
      the correction changes nothing but the verdict on NaN. */
  lemma FiniteAgreement(outputs: seq<Output>, inputVal: real)
    ensures OutputChecksCorrected(Lift(outputs), Finite(inputVal))
        <==> OutputsNonNegative(outputs) && OutputSum(outputs) <= inputVal
    ensures OutputChecksAsWritten(Lift(outputs), Finite(inputVal))
        <==> OutputChecksCorrected(Lift(outputs), Finite(inputVal))
  {
    SumLift(outputs);
  }
}
