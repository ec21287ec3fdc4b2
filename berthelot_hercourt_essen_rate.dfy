/** The Berthelot-Hercourt-Essen rate law k(T) = Cf * (T/Tref)^eta * exp(D*T),
    with dk/dT = k(T) * (D + eta/T), and its replaceable coefficients. */
module BerthelotHercourtEssenRates {
  import opened Kinetics

  /** The transcendental functions the formula uses, with the derivatives the
      chain rule needs: dpow(x, e) stands for d(x^e)/dx and dexp(y) for
      d(exp y)/dy. They are parameters of the model, not computed by it. */
  datatype RealMath = RealMath(
    pow: (real, real) -> real,
    dpow: (real, real) -> real,
    exp: real -> real,
    dexp: real -> real)

  /** The calculus facts the closed-form derivative relies on:
      x * d(x^e)/dx = e * x^e for x > 0, and exp is its own derivative. */
  ghost predicate Lawful(m: RealMath)
  {
    && (forall x, e :: x > 0.0 ==> x * m.dpow(x, e) == e * m.pow(x, e))
    && (forall y :: m.dexp(y) == m.exp(y))
  }

  class BerthelotHercourtEssenRate {
    var Cf: real
    var eta: real
    var D: real
    var Tref: real

    /** Built from (Cf, eta, D), the reference temperature is 1. */
    constructor (Cf: real, eta: real, D: real, Tref: real := 1.0)
      ensures this.Cf == Cf && this.eta == eta && this.D == D && this.Tref == Tref
    {
      this.Cf := Cf;
      this.eta := eta;
      this.D := D;
      this.Tref := Tref;
    }

    /** The coefficients in the order a bulk reset takes them. */
    function Coefficients(): seq<real>
      reads this
    {
      [Cf, eta, D, Tref]
    }

    method SetCf(Cf: real)
      modifies this
      ensures this.Cf == Cf && eta == old(eta) && D == old(D) && Tref == old(Tref)
    {
      this.Cf := Cf;
    }

    method SetEta(eta: real)
      modifies this
      ensures Cf == old(Cf) && this.eta == eta && D == old(D) && Tref == old(Tref)
    {
      this.eta := eta;
    }

    method SetD(D: real)
      modifies this
      ensures Cf == old(Cf) && eta == old(eta) && this.D == D && Tref == old(Tref)
    {
      this.D := D;
    }

    method SetTref(Tref: real)
      modifies this
      ensures Cf == old(Cf) && eta == old(eta) && D == old(D) && this.Tref == Tref
    {
      this.Tref := Tref;
    }

    /** Replaces Cf, eta and D from the first three values, and Tref from the
        fourth when there is one; with three values Tref keeps its value. */
    method ResetCoefs(coefficients: seq<real>)
      requires |coefficients| == 3 || |coefficients| == 4
      modifies this
      ensures |coefficients| == 4 ==> Coefficients() == coefficients
      ensures |coefficients| == 3 ==> Coefficients() == coefficients + [old(Tref)]
    {
      if |coefficients| == 4 {
        SetTref(coefficients[3]);
      }
      SetCf(coefficients[0]);
      SetEta(coefficients[1]);
      SetD(coefficients[2]);
    }

    /** The rate coefficient at temperature T. */
    function Rate(m: RealMath, T: real): real
      reads this
      requires Tref != 0.0
    {
      Cf * m.pow(T / Tref, eta) * m.exp(D * T)
    }

    /** The closed-form temperature derivative of the rate coefficient. */
    function Derivative(m: RealMath, T: real): real
      reads this
      requires Tref != 0.0 && T != 0.0
    {
      Rate(m, T) * (D + eta / T)
    }

    /** The derivative of Cf * (T/Tref)^eta * exp(D*T) by the product and
        chain rules, term by term. */
    function ChainRuleDerivative(m: RealMath, T: real): real
      reads this
      requires Tref != 0.0
    {
      Cf * (m.dpow(T / Tref, eta) / Tref) * m.exp(D * T)
      + Cf * m.pow(T / Tref, eta) * (m.dexp(D * T) * D)
    }

    /** Rate and derivative in one pass, at an evaluation context: the shared
        factor Cf * (T/Tref)^eta * exp(D*T) is built once. */
    method RateAndDerivative(m: RealMath, conditions: KineticsConditions) returns (rate: real, drate: real)
      requires Tref != 0.0 && conditions.T != 0.0
      ensures rate == Rate(m, conditions.T)
      ensures drate == Derivative(m, conditions.T)
      ensures Lawful(m) && conditions.T > 0.0 && Tref > 0.0 ==> drate == ChainRuleDerivative(m, conditions.T)
    {
      rate := Rate(m, conditions.T);
      drate := rate * (D + eta / conditions.T);
      if Lawful(m) && conditions.T > 0.0 && Tref > 0.0 {
        DerivativeIsChainRule(this, m, conditions.T);
      }
    }
  }

  /** For T > 0, rate * (D + eta/T) is the true temperature derivative of the
      rate law, given the calculus facts about pow and exp. */
  lemma DerivativeIsChainRule(r: BerthelotHercourtEssenRate, m: RealMath, T: real)
    requires Lawful(m)
    requires T > 0.0 && r.Tref > 0.0
    ensures r.Derivative(m, T) == r.ChainRuleDerivative(m, T)
  {
    // With x = T/Tref, x * dpow(x, eta) == eta * pow(x, eta) turns the first
    // chain-rule term into rate * eta/T; exp' = exp turns the second into rate * D.
  }

  /** The coefficient history the unit test drives: construction from three
      values, one setter per field, then bulk resets with three and four values. */
  method UnitTestScenario() returns (rate: BerthelotHercourtEssenRate)
    ensures rate.Coefficients() == [0.000000000021, -0.35, -2.1, 300.0]
  {
    rate := new BerthelotHercourtEssenRate(1.4, 1.2, -5.0);
    assert rate.Coefficients() == [1.4, 1.2, -5.0, 1.0];

    rate.SetCf(0.0000001);
    rate.SetEta(0.6);
    rate.SetD(0.001);
    rate.SetTref(298.0);
    assert rate.Coefficients() == [0.0000001, 0.6, 0.001, 298.0];

    rate.ResetCoefs([0.00000021, 0.35, 0.0081]);
    assert rate.Coefficients() == [0.00000021, 0.35, 0.0081, 298.0];

    rate.ResetCoefs([0.000000000021, -0.35, -2.1, 300.0]);
    assert rate.Coefficients() == [0.000000000021, -0.35, -2.1, 300.0];
  }
}
