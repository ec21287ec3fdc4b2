/** Element-wise utilities over fixed-size number arrays, used when the
    kinetics formulas are evaluated over a batch of states at once. The
    array's length plays the part of the compile-time size. */
module NumberArrays {

  /** The larger of two values, the first one on a tie. */
  function Larger(a: real, b: real): real
  {
    if a < b then b else a
  }

  /** The maximum of a non-empty sequence, folded from the left. */
  function MaxOf(s: seq<real>): (m: real)
    requires |s| >= 1
    ensures m in s
    ensures forall k :: 0 <= k < |s| ==> s[k] <= m
  {
    if |s| == 1 then s[0] else Larger(MaxOf(s[..|s| - 1]), s[|s| - 1])
  }

  /** The maximum entry of a non-empty array, which is left unchanged. */
  method Max(a: array<real>) returns (maxval: real)
    requires a.Length >= 1
    ensures maxval == MaxOf(a[..])
    ensures forall k :: 0 <= k < a.Length ==> a[k] <= maxval
    ensures exists k :: 0 <= k < a.Length && a[k] == maxval
  {
    maxval := a[0];
    assert a[..1] == [a[0]];
    var i := 1;
    while i < a.Length
      invariant 1 <= i <= a.Length
      invariant maxval == MaxOf(a[..i])
    {
      assert a[..i + 1][..i] == a[..i];
      maxval := Larger(maxval, a[i]);
      i := i + 1;
    }
    assert a[..i] == a[..];
  }

  /** An array whose entry i is ifTrue[i] where condition[i] holds and
      ifFalse[i] otherwise. The inputs are left unchanged. */
  method IfElse<T(0)>(condition: array<bool>, ifTrue: array<T>, ifFalse: array<T>) returns (returnval: array<T>)
    requires ifTrue.Length == condition.Length && ifFalse.Length == condition.Length
    ensures fresh(returnval)
    ensures returnval.Length == condition.Length
    ensures forall i :: 0 <= i < returnval.Length ==>
      returnval[i] == if condition[i] then ifTrue[i] else ifFalse[i]
    ensures (forall i :: 0 <= i < condition.Length ==> condition[i]) ==> returnval[..] == ifTrue[..]
    ensures (forall i :: 0 <= i < condition.Length ==> !condition[i]) ==> returnval[..] == ifFalse[..]
  {
    returnval := new T[condition.Length];
    var i := 0;
    while i != condition.Length
      invariant 0 <= i <= condition.Length
      invariant forall k :: 0 <= k < i ==> returnval[k] == if condition[k] then ifTrue[k] else ifFalse[k]
    {
      returnval[i] := if condition[i] then ifTrue[i] else ifFalse[i];
      i := i + 1;
    }
  }
}
