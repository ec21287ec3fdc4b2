# Antioch kinetics core in Dafny

This project models three parts of the Antioch kinetics library:

- **Duplicate reactions** (`DuplicateReactions`, file `duplicate_reaction.dfy`).
  A `DuplicateReaction` owns an ordered, non-empty list of rate-law branches.
  Its apparent forward rate coefficient is the sum of the branch rates.
  Its temperature derivative is the sum of the branch derivatives.
  Its concentration derivatives are all zero.
  The two entry points are methods with loops that accumulate branch by branch, starting from branch 0.
  They are proved against `ForwardRateCoefficient` and `ForwardRateDerivative`, which sum the branch values (`Total`).
  Lemmas then show what that sum means: adding a branch adds its rate, one branch is that branch, two branches add, groups of branches add, removing a branch removes its rate, and in exact arithmetic any reordering of the branches (the same multiset of branches) gives the same rate and derivative.
- **NumberArray utilities** (`NumberArrays`, file `number_arrays.dfy`).
  `Max` folds `std::max` over a non-empty array.
  It is proved equal to `MaxOf`, which is proved to be an upper bound and a member.
  `IfElse` is the element-wise select over a condition array.
  It returns a new array of the same size.
- **Berthelot–Hercourt–Essen coefficients** (`BerthelotHercourtEssenRates`, file `berthelot_hercourt_essen_rate.dfy`).
  The rate object is a class with fields `Cf`, `eta`, `D` and `Tref`.
  It has one setter per field and a bulk `ResetCoefs`.
  The rate is `Cf * pow(T/Tref, eta) * exp(D*T)`.
  The derivative is `rate * (D + eta/T)`.
  `pow` and `exp` are not computed.
  They are supplied as a `RealMath` value with their derivatives.
  Under the calculus facts in `Lawful`, the closed-form derivative is proved equal to the product-and-chain-rule derivative.
  `UnitTestScenario` replays the coefficient history of the unit test. It states each resulting coefficient vector as an assertion that Dafny proves.

`Kinetics` (file `kinetics.dfy`) holds the shared vocabulary.
This is the evaluation context `KineticsConditions`, the `KineticsModel` and `ReactionType` tags, and the opaque branch `RateLaw`.
A `RateLaw` carries its rate and derivative as function values of the context.

Reals are exact, so a sum has the same value in every order.
Floating-point rounding is not modelled.

## Model

| member | source | states |
|---|---|---|
| `DuplicateReactions.DuplicateReaction.constructor` | src/kinetics/include/antioch/duplicate_reaction.h:96-100 | the reaction is tagged Duplicate; reversibility defaults to true and the kinetics model to Kooij; species count and equation are stored; there are no branches yet |
| `DuplicateReactions.DuplicateReaction.AddForwardRate` | src/kinetics/include/antioch/duplicate_reaction.h:64 | the inherited branch list gains the new branch at its end; nothing else changes |
| `DuplicateReactions.DuplicateReaction.ComputeForwardRateCoefficient` | src/kinetics/include/antioch/duplicate_reaction.h:112-128 | with at least one branch, the in-order accumulation from branch 0 returns the sum of all branch rates |
| `DuplicateReactions.DuplicateReaction.ComputeForwardRateCoefficientAndDerivatives` | src/kinetics/include/antioch/duplicate_reaction.h:130-160 | with at least one branch and an output vector of n_species entries: kfwd is the sum of the branch rates; dkfwd_dT is the sum of the branch derivatives; every entry of dkfwd_dX is zero and its length is unchanged |
| `DuplicateReactions.ForwardRateIgnoresDensities` | src/kinetics/include/antioch/duplicate_reaction.h:116 | two evaluations that differ only in the molar densities return the same forward rate |
| `DuplicateReactions.EntryPointsAgree` | src/kinetics/include/antioch/duplicate_reaction.h:144-150 | the derivatives entry point reports the same kfwd as the plain entry point under the same conditions |
| `DuplicateReactions.AddedBranchAddsItsRate` | src/kinetics/include/antioch/duplicate_reaction.h:120-123 | appending a branch adds exactly its rate to the forward rate and exactly its derivative to the temperature derivative |
| `DuplicateReactions.SingleBranchIsThatBranch` | src/kinetics/include/antioch/duplicate_reaction.h:119 | with exactly one branch, the forward rate and its derivative are that branch's |
| `DuplicateReactions.TwoBranchesAdd` | test/parsing_chemkin.C:298 | two duplicate entries give the sum of the two rates and the sum of the two derivatives |
| `DuplicateReactions.BranchGroupsAdd` | src/kinetics/include/antioch/duplicate_reaction.h:47 | the forward rate of two concatenated groups of branches is the sum of the groups' forward rates, and likewise for the derivative |
| `DuplicateReactions.BranchRemoved` | src/kinetics/include/antioch/duplicate_reaction.h:47 | the forward rate equals the rate of any one branch plus the forward rate of the remaining branches, and likewise for the derivative |
| `DuplicateReactions.BranchOrderIsIrrelevant` | src/kinetics/include/antioch/duplicate_reaction.h:47 | in exact arithmetic, any two branch lists holding the same branches with the same multiplicities, in any order, give the same forward rate and the same derivative |
| `NumberArrays.MaxOf` | src/utilities/include/antioch/metaphysicl_utils.h:71-73 | the left fold of max over a non-empty sequence is one of its elements and bounds every element from above |
| `NumberArrays.Max` | src/utilities/include/antioch/metaphysicl_utils.h:64-76 | for size >= 1, the loop returns the fold of max over the array: an upper bound of every entry that equals some entry; the input is not modified |
| `NumberArrays.IfElse` | src/utilities/include/antioch/metaphysicl_utils.h:98-111 | a new array of the common size whose entry i is if_true[i] where condition[i] holds and if_false[i] otherwise; all-true gives if_true and all-false gives if_false; inputs are not modified |
| `BerthelotHercourtEssenRates.BerthelotHercourtEssenRate.constructor` | test/berthelothercourtessen_rate_unit.C:115-122 | the given coefficients are stored; built from (Cf, eta, D) only, Tref is 1 |
| `BerthelotHercourtEssenRates.BerthelotHercourtEssenRate.SetCf` | test/berthelothercourtessen_rate_unit.C:128 | Cf takes the new value; eta, D and Tref are unchanged |
| `BerthelotHercourtEssenRates.BerthelotHercourtEssenRate.SetEta` | test/berthelothercourtessen_rate_unit.C:129 | eta takes the new value; Cf, D and Tref are unchanged |
| `BerthelotHercourtEssenRates.BerthelotHercourtEssenRate.SetD` | test/berthelothercourtessen_rate_unit.C:130 | D takes the new value; Cf, eta and Tref are unchanged |
| `BerthelotHercourtEssenRates.BerthelotHercourtEssenRate.SetTref` | test/berthelothercourtessen_rate_unit.C:131 | Tref takes the new value; Cf, eta and D are unchanged |
| `BerthelotHercourtEssenRates.BerthelotHercourtEssenRate.ResetCoefs` | test/berthelothercourtessen_rate_unit.C:135-157 | with 4 values the coefficients (Cf, eta, D, Tref) become exactly those values; with 3 values Cf, eta, D take them in order and Tref keeps its previous value |
| `BerthelotHercourtEssenRates.BerthelotHercourtEssenRate.Rate` | test/berthelothercourtessen_rate_unit.C:82 | the rate at temperature T is Cf * pow(T/Tref, eta) * exp(D*T), for Tref ≠ 0 |
| `BerthelotHercourtEssenRates.BerthelotHercourtEssenRate.Derivative` | test/berthelothercourtessen_rate_unit.C:83 | the temperature derivative at T is Rate(T) * (D + eta/T), for Tref ≠ 0 and T ≠ 0 |
| `BerthelotHercourtEssenRates.BerthelotHercourtEssenRate.RateAndDerivative` | test/berthelothercourtessen_rate_unit.C:84-104 | evaluating at a context built from T gives the same rate and derivative as the separate evaluations at T, and for T, Tref > 0 under the laws of pow and exp the derivative is the chain-rule derivative |
| `BerthelotHercourtEssenRates.DerivativeIsChainRule` | test/berthelothercourtessen_rate_unit.C:82-83 | for T > 0 and Tref > 0, rate * (D + eta/T) equals the derivative of Cf * (T/Tref)^eta * exp(D*T) obtained by the product and chain rules |
| `BerthelotHercourtEssenRates.UnitTestScenario` | test/berthelothercourtessen_rate_unit.C:115-157 | the contract states that the test's coefficient history ends at (2.1e-11, -0.35, -2.1, 300); assertions in the body prove the intermediate vectors, among them Tref = 1 after construction from three values and the setters' Tref = 298 kept through the three-value reset |

## Left out

- The floating-point formulas are not computed. `pow` and `exp` are parameters, and the branch rates are opaque function values.
- Floating-point rounding and the order-of-summation error are not modelled. Sums are exact reals.
- The `has_nan` assertions (duplicate_reaction.h:125, 153) are left out. Exact reals have no NaN.
- The evaluation context's cached 1/T and ln T are left out. No modelled formula reads them.
- The base `Reaction` class is not part of this model. Only its branch list, its species count and its tags are modelled, as fields of `DuplicateReaction`. Appending a branch stands for its branch-adding interface.
- Duplicate branches are meant to share one kinetics model. The source assumes this and does not check it, and so does the model.
- The `BerthelotHercourtEssenRate` class header is not part of this model. Its coefficient state is modelled from what the unit test asserts. How it precomputes internal factors is not modelled.
- `ResetCoefs` takes only 3 or 4 values, as a precondition. The error behaviour for other lengths lives in the header, which is not part of this model.
- `BerthelotHercourtEssenRates.BerthelotHercourtEssenRate.Rate` and `Derivative` require `Tref != 0`, and `Derivative` also requires `T != 0`. The formulas are undefined there (a division by zero; in floating point the result is inf, NaN or 0 depending on eta). The source does not check this, and callers are expected to pass positive temperatures.
- The separate overloads taking T and taking a context are one entry point here. `RateAndDerivative` takes a context, and `Rate` and `Derivative` take T.
- `Kinetics.RateAndDerivative` (a branch's combined call) is by definition the pair of its separate rate and derivative, so `DuplicateReactions.EntryPointsAgree` rests on that definition. A branch's formulas are opaque, and the `BerthelotHercourtEssenRate` class is not connected to `RateLaw` as a branch.
- The unit test's tolerance checks, its temperature sweep and its repetition over float, double and long double are not modelled.
- The compile-time type traits of the NumberArray utilities (metaphysicl_utils.h:78-96) are not modelled.
- `Max` and `IfElse` model the fixed compile-time size as the array's length. `Max` is modelled over reals.
- Three-body and falloff reactions, the other rate-law variants and the CHEMKIN parser are not part of this model.
