/** A duplicate reaction: several independently fitted rate laws ("branches")
    for one reaction step, whose rates add up to the apparent forward rate
    coefficient k = sum_n alpha_n(T), with dk/dT = sum_n dalpha_n/dT and
    dk/dc_i = 0 for every species i. */
module DuplicateReactions {
  import opened Kinetics

  /** Sum of a sequence of reals, first element first. */
  function Total(xs: seq<real>): real
  {
    if xs == [] then 0.0 else xs[0] + Total(xs[1..])
  }

  lemma {:induction false} TotalOfSnoc(xs: seq<real>, x: real)
    ensures Total(xs + [x]) == Total(xs) + x
  {
    if xs == [] {
      assert [] + [x] == [x];
    } else {
      assert (xs + [x])[1..] == xs[1..] + [x];
      TotalOfSnoc(xs[1..], x);
    }
  }

  lemma {:induction false} TotalOfAppend(xs: seq<real>, ys: seq<real>)
    ensures Total(xs + ys) == Total(xs) + Total(ys)
  {
    if xs == [] {
      assert [] + ys == ys;
    } else {
      assert (xs + ys)[1..] == xs[1..] + ys;
      TotalOfAppend(xs[1..], ys);
    }
  }

  /** The branch rates at one context, in branch order. */
  function Rates(branches: seq<RateLaw>, conditions: KineticsConditions): seq<real>
  {
    seq(|branches|, i requires 0 <= i < |branches| => branches[i].rate(conditions))
  }

  /** The branch temperature derivatives at one context, in branch order. */
  function Derivatives(branches: seq<RateLaw>, conditions: KineticsConditions): seq<real>
  {
    seq(|branches|, i requires 0 <= i < |branches| => branches[i].derivative(conditions))
  }

  /** The apparent forward rate coefficient of a duplicate reaction: the sum of
      its branch rates. Concentrations play no part in it. */
  function ForwardRateCoefficient(branches: seq<RateLaw>, conditions: KineticsConditions): real
  {
    Total(Rates(branches, conditions))
  }

  /** The temperature derivative of the apparent forward rate coefficient. */
  function ForwardRateDerivative(branches: seq<RateLaw>, conditions: KineticsConditions): real
  {
    Total(Derivatives(branches, conditions))
  }

  /** Adding a branch adds its rate and its derivative, and nothing else. */
  lemma AddedBranchAddsItsRate(branches: seq<RateLaw>, law: RateLaw, conditions: KineticsConditions)
    ensures ForwardRateCoefficient(branches + [law], conditions)
         == ForwardRateCoefficient(branches, conditions) + law.rate(conditions)
    ensures ForwardRateDerivative(branches + [law], conditions)
         == ForwardRateDerivative(branches, conditions) + law.derivative(conditions)
  {
    assert Rates(branches + [law], conditions) == Rates(branches, conditions) + [law.rate(conditions)];
    TotalOfSnoc(Rates(branches, conditions), law.rate(conditions));
    assert Derivatives(branches + [law], conditions)
        == Derivatives(branches, conditions) + [law.derivative(conditions)];
    TotalOfSnoc(Derivatives(branches, conditions), law.derivative(conditions));
  }

  /** With exactly one branch the reaction behaves as that branch. */
  lemma SingleBranchIsThatBranch(law: RateLaw, conditions: KineticsConditions)
    ensures ForwardRateCoefficient([law], conditions) == law.rate(conditions)
    ensures ForwardRateDerivative([law], conditions) == law.derivative(conditions)
  {
    AddedBranchAddsItsRate([], law, conditions);
    assert [] + [law] == [law];
  }

  /** Two duplicate entries give the sum of the two rates and of the two
      derivatives. */
  lemma TwoBranchesAdd(first: RateLaw, second: RateLaw, conditions: KineticsConditions)
    ensures ForwardRateCoefficient([first, second], conditions)
         == first.rate(conditions) + second.rate(conditions)
    ensures ForwardRateDerivative([first, second], conditions)
         == first.derivative(conditions) + second.derivative(conditions)
  {
    SingleBranchIsThatBranch(first, conditions);
    AddedBranchAddsItsRate([first], second, conditions);
    assert [first] + [second] == [first, second];
  }

  /** Two groups of branches together give the sum of the groups' rates and
      of their derivatives. */
  lemma BranchGroupsAdd(front: seq<RateLaw>, back: seq<RateLaw>, conditions: KineticsConditions)
    ensures ForwardRateCoefficient(front + back, conditions)
         == ForwardRateCoefficient(front, conditions) + ForwardRateCoefficient(back, conditions)
    ensures ForwardRateDerivative(front + back, conditions)
         == ForwardRateDerivative(front, conditions) + ForwardRateDerivative(back, conditions)
  {
    assert Rates(front + back, conditions) == Rates(front, conditions) + Rates(back, conditions);
    TotalOfAppend(Rates(front, conditions), Rates(back, conditions));
    assert Derivatives(front + back, conditions)
        == Derivatives(front, conditions) + Derivatives(back, conditions);
    TotalOfAppend(Derivatives(front, conditions), Derivatives(back, conditions));
  }

  /** Taking branch i out removes exactly its rate and its derivative. */
  lemma BranchRemoved(branches: seq<RateLaw>, i: nat, conditions: KineticsConditions)
    requires i < |branches|
    ensures ForwardRateCoefficient(branches, conditions)
         == branches[i].rate(conditions) + ForwardRateCoefficient(branches[..i] + branches[i + 1..], conditions)
    ensures ForwardRateDerivative(branches, conditions)
         == branches[i].derivative(conditions) + ForwardRateDerivative(branches[..i] + branches[i + 1..], conditions)
  {
    var before, after := branches[..i], branches[i + 1..];
    assert branches == before + [branches[i]] + after;
    BranchGroupsAdd(before + [branches[i]], after, conditions);
    BranchGroupsAdd(before, [branches[i]], conditions);
    BranchGroupsAdd(before, after, conditions);
    SingleBranchIsThatBranch(branches[i], conditions);
  }

  /** Matching the first branch with an equal branch i of a reordering leaves
      two tails that are still reorderings of each other. */
  lemma TailsAreReorderings(branches: seq<RateLaw>, reordered: seq<RateLaw>, i: nat)
    requires multiset(branches) == multiset(reordered)
    requires |branches| > 0 && i < |reordered| && reordered[i] == branches[0]
    ensures multiset(branches[1..]) == multiset(reordered[..i] + reordered[i + 1..])
  {
    var first, before, after := branches[0], reordered[..i], reordered[i + 1..];
    assert branches == [first] + branches[1..];
    assert reordered == before + [first] + after;
    calc {
      multiset(branches[1..]);
      multiset(branches) - multiset{first};
      multiset(reordered) - multiset{first};
      multiset(before) + multiset{first} + multiset(after) - multiset{first};
      multiset(before + after);
    }
  }

  /** In exact arithmetic the order of the branches does not matter: any
      reordering of the same branches gives the same apparent rate and the
      same derivative. */
  lemma {:induction false} BranchOrderIsIrrelevant(branches: seq<RateLaw>, reordered: seq<RateLaw>, conditions: KineticsConditions)
    requires multiset(branches) == multiset(reordered)
    ensures ForwardRateCoefficient(branches, conditions) == ForwardRateCoefficient(reordered, conditions)
    ensures ForwardRateDerivative(branches, conditions) == ForwardRateDerivative(reordered, conditions)
    decreases |branches|
  {
    if branches == [] {
      assert |reordered| == |multiset(reordered)| == 0;
    } else {
      assert branches[0] in multiset(reordered);
      var i :| 0 <= i < |reordered| && reordered[i] == branches[0];
      TailsAreReorderings(branches, reordered, i);
      BranchOrderIsIrrelevant(branches[1..], reordered[..i] + reordered[i + 1..], conditions);
      BranchRemoved(branches, 0, conditions);
      assert branches[..0] + branches[0 + 1..] == branches[1..];
      BranchRemoved(reordered, i, conditions);
    }
  }

  class DuplicateReaction {
    const nSpecies: nat
    /** Diagnostic text only. */
    const equation: string
    const reversible: bool
    const reactionType: ReactionType
    /** The variant every branch is assumed (not checked) to be. */
    const kineticsModel: KineticsModel
    /** The branches, in the order they were added. */
    var forwardRate: seq<RateLaw>

    constructor (nSpecies: nat, equation: string, reversible: bool := true, kin: KineticsModel := Kooij)
      ensures this.nSpecies == nSpecies && this.equation == equation
      ensures this.reversible == reversible && kineticsModel == kin
      ensures reactionType == Duplicate
      ensures forwardRate == []
    {
      this.nSpecies := nSpecies;
      this.equation := equation;
      this.reversible := reversible;
      this.reactionType := Duplicate;
      this.kineticsModel := kin;
      this.forwardRate := [];
    }

    /** Appends a branch, as the inherited reaction interface does. */
    method AddForwardRate(law: RateLaw)
      modifies this
      ensures forwardRate == old(forwardRate) + [law]
    {
      forwardRate := forwardRate + [law];
    }

    /** The apparent forward rate coefficient, accumulated branch by branch
        starting from branch 0. The concentrations are not read. */
    method ComputeForwardRateCoefficient(molarDensities: seq<real>, conditions: KineticsConditions)
      returns (kfwd: real)
      requires |forwardRate| >= 1
      ensures kfwd == ForwardRateCoefficient(forwardRate, conditions)
    {
      kfwd := forwardRate[0].rate(conditions);
      SingleBranchIsThatBranch(forwardRate[0], conditions);
      assert forwardRate[..1] == [forwardRate[0]];
      var ir := 1;
      while ir < |forwardRate|
        invariant 1 <= ir <= |forwardRate|
        invariant kfwd == ForwardRateCoefficient(forwardRate[..ir], conditions)
      {
        assert forwardRate[..ir + 1] == forwardRate[..ir] + [forwardRate[ir]];
        AddedBranchAddsItsRate(forwardRate[..ir], forwardRate[ir], conditions);
        kfwd := kfwd + forwardRate[ir].rate(conditions);
        ir := ir + 1;
      }
      assert forwardRate[..ir] == forwardRate;
    }

    /** The apparent forward rate coefficient with its temperature derivative,
        both accumulated branch by branch from the branches' combined calls, and
        the concentration derivatives, which are all zero. */
    method ComputeForwardRateCoefficientAndDerivatives(
      molarDensities: seq<real>, conditions: KineticsConditions, dkfwdDX: array<real>)
      returns (kfwd: real, dkfwdDT: real)
      requires |forwardRate| >= 1
      requires dkfwdDX.Length == nSpecies
      modifies dkfwdDX
      ensures kfwd == ForwardRateCoefficient(forwardRate, conditions)
      ensures dkfwdDT == ForwardRateDerivative(forwardRate, conditions)
      ensures dkfwdDX.Length == nSpecies
      ensures forall i :: 0 <= i < dkfwdDX.Length ==> dkfwdDX[i] == 0.0
    {
      var first := RateAndDerivative(forwardRate[0], conditions);
      kfwd, dkfwdDT := first.0, first.1;
      SingleBranchIsThatBranch(forwardRate[0], conditions);
      assert forwardRate[..1] == [forwardRate[0]];
      var ir := 1;
      while ir < |forwardRate|
        invariant 1 <= ir <= |forwardRate|
        invariant kfwd == ForwardRateCoefficient(forwardRate[..ir], conditions)
        invariant dkfwdDT == ForwardRateDerivative(forwardRate[..ir], conditions)
      {
        var (kfwdTmp, dkfwdDTTmp) := RateAndDerivative(forwardRate[ir], conditions);
        assert forwardRate[..ir + 1] == forwardRate[..ir] + [forwardRate[ir]];
        AddedBranchAddsItsRate(forwardRate[..ir], forwardRate[ir], conditions);
        kfwd := kfwd + kfwdTmp;
        dkfwdDT := dkfwdDT + dkfwdDTTmp;
        ir := ir + 1;
      }
      assert forwardRate[..ir] == forwardRate;

      var i := 0;
      while i < dkfwdDX.Length
        invariant 0 <= i <= dkfwdDX.Length
        invariant forall k :: 0 <= k < i ==> dkfwdDX[k] == 0.0
      {
        dkfwdDX[i] := 0.0;
        i := i + 1;
      }
    }
  }

  /** Two calls that differ only in the concentrations give the same rate. */
  method ForwardRateIgnoresDensities(
    reaction: DuplicateReaction, densities: seq<real>, otherDensities: seq<real>, conditions: KineticsConditions)
    returns (k: real, otherK: real)
    requires |reaction.forwardRate| >= 1
    ensures k == otherK
  {
    k := reaction.ComputeForwardRateCoefficient(densities, conditions);
    otherK := reaction.ComputeForwardRateCoefficient(otherDensities, conditions);
  }

  /** Both entry points report the same forward rate coefficient. */
  method EntryPointsAgree(
    reaction: DuplicateReaction, densities: seq<real>, conditions: KineticsConditions, dkfwdDX: array<real>)
    returns (k: real, kWithDerivatives: real)
    requires |reaction.forwardRate| >= 1
    requires dkfwdDX.Length == reaction.nSpecies
    modifies dkfwdDX
    ensures k == kWithDerivatives
  {
    k := reaction.ComputeForwardRateCoefficient(densities, conditions);
    var dkfwdDT;
    kWithDerivatives, dkfwdDT := reaction.ComputeForwardRateCoefficientAndDerivatives(densities, conditions, dkfwdDX);
  }
}
