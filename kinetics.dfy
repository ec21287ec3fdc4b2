/** Vocabulary shared by the rate laws and the reactions that compose them. */
module Kinetics {

  /** The state one evaluation call is made at. The library also caches 1/T and
      ln T here; no formula of this model needs them, so only T is kept. */
  datatype KineticsConditions = KineticsConditions(T: real)

  /** The rate-law variants a reaction can be declared with. */
  datatype KineticsModel =
    | HercourtEssen
    | Berthelot
    | Arrhenius
    | BerthelotHercourtEssen
    | Kooij
    | Photochem

  /** How a reaction combines its rate laws into one apparent rate. */
  datatype ReactionType = Elementary | Duplicate | ThreeBody | Falloff

  /** A rate law as a reaction sees it: which variant it is, and its value and
      temperature derivative at an evaluation context. The formulas themselves
      are left opaque. */
  datatype RateLaw = RateLaw(
    model: KineticsModel,
    rate: KineticsConditions -> real,
    derivative: KineticsConditions -> real)

  /** The combined evaluate-and-derivative call of a rate law, returning the
      pair that the separate calls give. */
  function RateAndDerivative(law: RateLaw, conditions: KineticsConditions): (real, real)
  {
    (law.rate(conditions), law.derivative(conditions))
  }
}
