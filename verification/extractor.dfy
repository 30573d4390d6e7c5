/** `RetrieveAllCAP`: decoding the arguments of a marker call into a
    capability array. Argument 0 is the argument count and is skipped; every
    later argument is meant to be a constant capability index.

    Two versions are modelled. `RetrieveAllCap` is the code as written: it
    casts every argument to `ConstantInt` without a check, truncates the
    zero-extended value to `unsigned int`, and writes that index without a
    bound check; the two ways this goes wrong are made explicit as faults.
    `RetrieveAllCapChecked` is the corrected extractor that skips arguments
    that are not constants or lie outside the universe; the analysis driver
    uses it. */
module Extractor {
  import opened Caps
  import opened IR

  /** 2^32: `unsigned int iarg = I->getZExtValue()` keeps the low 32 bits. */
  const U32: nat := 0x1_0000_0000

  function AsUnsigned32(v: nat): (r: nat)
    ensures r < U32
    ensures v < U32 ==> r == v
    ensures (v - r) % U32 == 0
  {
    v % U32
  }

  /** What the unchecked code does wrong instead of filling the array. */
  datatype Fault =
    | NullDeref(arg: nat)                // `dyn_cast` gave null and it was dereferenced
    | OutOfBounds(arg: nat, index: nat)  // `CAParray[iarg] = 1` with `iarg` past the end

  datatype Retrieved = Filled(caps: CapArray) | Faulted(fault: Fault)

  /** The unchecked code handles argument `a` without a fault in a universe of `n`. */
  predicate InBounds(n: nat, a: Arg)
  {
    a.ConstInt? && AsUnsigned32(a.value) < n
  }

  /** Arguments `i..` are all handled without a fault. */
  ghost predicate InBoundsFrom(n: nat, args: seq<Arg>, i: nat)
  {
    forall j :: i <= j < |args| ==> InBounds(n, args[j])
  }

  /** Some argument at position `i` or later makes the unchecked code write flag `c`. */
  ghost predicate WritesFrom(args: seq<Arg>, i: nat, c: nat)
  {
    exists j :: i <= j < |args| && args[j].ConstInt? && AsUnsigned32(args[j].value) == c
  }

  /** Some argument at position `i` or later is the constant `c`. */
  ghost predicate RequestedFrom(args: seq<Arg>, i: nat, c: nat)
  {
    exists j :: i <= j < |args| && args[j] == ConstInt(c)
  }

  /** The call asks for capability `c`: one of its arguments 1.. is the constant `c`. */
  ghost predicate Requested(args: seq<Arg>, c: nat)
  {
    RequestedFrom(args, 1, c)
  }

  /** The fault the unchecked code runs into at argument `j`. */
  function FaultAt(n: nat, a: Arg, j: nat): Fault
    requires !InBounds(n, a)
  {
    if a.NonConst? then NullDeref(j) else OutOfBounds(j, AsUnsigned32(a.value))
  }

  /** The loop of `RetrieveAllCAP` from argument `i` on, as written. It fills
      exactly the flags the arguments name, keeps every flag already set, and
      stops at the first argument it cannot handle. */
  function RetrieveFrom(acc: CapArray, args: seq<Arg>, i: nat): (r: Retrieved)
    decreases |args| - i
    ensures r.Filled? <==> InBoundsFrom(|acc|, args, i)
    ensures r.Filled? ==> |r.caps| == |acc|
    ensures r.Filled? ==> forall c: nat :: Has(r.caps, c) <==> Has(acc, c) || WritesFrom(args, i, c)
    ensures r.Faulted? ==>
      var j := r.fault.arg;
      && i <= j < |args|
      && !InBounds(|acc|, args[j])
      && r.fault == FaultAt(|acc|, args[j], j)
      && forall k :: i <= k < j ==> InBounds(|acc|, args[k])
  {
    if i >= |args| then Filled(acc)
    else
      match args[i]
      case NonConst => Faulted(NullDeref(i))
      case ConstInt(v) =>
        var index := AsUnsigned32(v);
        if index < |acc| then RetrieveFrom(acc[index := true], args, i + 1)
        else Faulted(OutOfBounds(i, index))
  }

  /** `RetrieveAllCAP(CI, CAParray)` as written: the loop starts at argument 1. */
  function RetrieveAllCap(acc: CapArray, args: seq<Arg>): (r: Retrieved)
    ensures r.Filled? <==> forall j :: 1 <= j < |args| ==> InBounds(|acc|, args[j])
    ensures r.Filled? ==> |r.caps| == |acc|
    ensures r.Filled? ==> forall c: nat :: Has(r.caps, c) <==> Has(acc, c) || WritesFrom(args, 1, c)
    ensures r.Faulted? ==>
      var j := r.fault.arg;
      && 1 <= j < |args|
      && !InBounds(|acc|, args[j])
      && r.fault == FaultAt(|acc|, args[j], j)
      && forall k :: 1 <= k < j ==> InBounds(|acc|, args[k])
  {
    RetrieveFrom(acc, args, 1)
  }

  /** The corrected loop from argument `i` on: an argument that is not a
      constant, or a constant outside the universe, is skipped. */
  function RetrieveCheckedFrom(acc: CapArray, args: seq<Arg>, i: nat): (r: CapArray)
    decreases |args| - i
    ensures |r| == |acc|
    ensures forall c: nat :: Has(r, c) <==> Has(acc, c) || (c < |acc| && RequestedFrom(args, i, c))
  {
    if i >= |args| then acc
    else
      match args[i]
      case NonConst => RetrieveCheckedFrom(acc, args, i + 1)
      case ConstInt(v) =>
        if v < |acc| then RetrieveCheckedFrom(acc[v := true], args, i + 1)
        else RetrieveCheckedFrom(acc, args, i + 1)
  }

  /** The corrected `RetrieveAllCAP`: never faults, keeps every flag already
      set, and adds exactly the in-range constants among arguments 1.. */
  function RetrieveAllCapChecked(acc: CapArray, args: seq<Arg>): (r: CapArray)
    ensures |r| == |acc|
    ensures forall c: nat :: Has(r, c) <==> Has(acc, c) || (c < |acc| && Requested(args, c))
  {
    RetrieveCheckedFrom(acc, args, 1)
  }

  /** The array a marker call contributes: a fresh zeroed array (`CAPArray_t
      CAParray = {0}`) filled from the call's arguments. */
  function CallCaps(n: nat, args: seq<Arg>): (r: CapArray)
    ensures |r| == n
    ensures forall c: nat :: Has(r, c) <==> c < n && Requested(args, c)
  {
    RetrieveAllCapChecked(Empty(n), args)
  }

  /** Both loops read only the arguments from position `i` on. */
  lemma {:induction false} FromReadsOnlySuffix(acc: CapArray, a1: seq<Arg>, a2: seq<Arg>, i: nat)
    requires |a1| == |a2|
    requires forall j :: i <= j < |a1| ==> a1[j] == a2[j]
    decreases |a1| - i
    ensures RetrieveFrom(acc, a1, i) == RetrieveFrom(acc, a2, i)
    ensures RetrieveCheckedFrom(acc, a1, i) == RetrieveCheckedFrom(acc, a2, i)
  {
    if i < |a1| {
      match a1[i]
      case NonConst =>
        FromReadsOnlySuffix(acc, a1, a2, i + 1);
      case ConstInt(v) =>
        FromReadsOnlySuffix(acc, a1, a2, i + 1);
        if AsUnsigned32(v) < |acc| {
          FromReadsOnlySuffix(acc[AsUnsigned32(v) := true], a1, a2, i + 1);
        }
        if v < |acc| {
          FromReadsOnlySuffix(acc[v := true], a1, a2, i + 1);
        }
    }
  }

  /** Argument 0 (the count) never contributes and never faults, whatever it is. */
  lemma ArgZeroIgnored(acc: CapArray, args: seq<Arg>, a0: Arg)
    requires |args| > 0
    ensures RetrieveAllCap(acc, args[0 := a0]) == RetrieveAllCap(acc, args)
    ensures RetrieveAllCapChecked(acc, args[0 := a0]) == RetrieveAllCapChecked(acc, args)
  {
    FromReadsOnlySuffix(acc, args[0 := a0], args, 1);
  }

  /** When every argument 1.. is a constant inside a universe of at most 2^32
      capabilities, the unchecked code does not fault and computes the same
      array as the corrected one. */
  lemma CheckedAgreesWhenWellFormed(acc: CapArray, args: seq<Arg>)
    requires |acc| <= U32
    requires forall j :: 1 <= j < |args| ==> args[j].ConstInt? && args[j].value < |acc|
    ensures RetrieveAllCap(acc, args) == Filled(RetrieveAllCapChecked(acc, args))
  {
    var r := RetrieveAllCap(acc, args);
    assert r.Filled? by {
      forall j | 1 <= j < |args|
        ensures InBounds(|acc|, args[j])
      {
        assert AsUnsigned32(args[j].value) == args[j].value;
      }
    }
    var checked := RetrieveAllCapChecked(acc, args);
    forall c: nat
      ensures Has(r.caps, c) <==> Has(checked, c)
    {
      if WritesFrom(args, 1, c) {
        var j :| 1 <= j < |args| && args[j].ConstInt? && AsUnsigned32(args[j].value) == c;
        assert args[j] == ConstInt(c);
      }
      if c < |acc| && Requested(args, c) {
        var j :| 1 <= j < |args| && args[j] == ConstInt(c);
        assert AsUnsigned32(args[j].value) == c;
      }
    }
    Extensional(r.caps, checked);
  }

  /** A constant past the end of the array: the unchecked code writes out of
      bounds, the corrected one skips the argument. */
  lemma OutOfRangeConstantFaults()
    ensures RetrieveAllCap(Empty(38), [ConstInt(1), ConstInt(40)]) == Faulted(OutOfBounds(1, 40))
    ensures RetrieveAllCapChecked(Empty(38), [ConstInt(1), ConstInt(40)]) == Empty(38)
  {
    var args := [ConstInt(1), ConstInt(40)];
    var r := RetrieveAllCapChecked(Empty(38), args);
    assert forall j :: 1 <= j < |args| ==> args[j] == ConstInt(40);
    Extensional(r, Empty(38));
  }

  /** A run-time value among the capability arguments: the unchecked code
      dereferences the null result of `dyn_cast`, the corrected one skips it. */
  lemma NonConstantArgumentFaults()
    ensures RetrieveAllCap(Empty(38), [ConstInt(2), ConstInt(3), NonConst]) == Faulted(NullDeref(2))
    ensures Members(RetrieveAllCapChecked(Empty(38), [ConstInt(2), ConstInt(3), NonConst])) == {3}
  {
    var args := [ConstInt(2), ConstInt(3), NonConst];
    var r := RetrieveAllCapChecked(Empty(38), args);
    assert args[1] == ConstInt(3);
    forall c: nat
      ensures c in Members(r) <==> c == 3
    {
      if c < 38 && Requested(args, c) {
        var j :| 1 <= j < |args| && args[j] == ConstInt(c);
      }
    }
  }

  /** A 64-bit constant 2^32 + 3: the unchecked code truncates it to 3 and
      grants capability 3, which the call did not name. */
  lemma TruncatedConstantAliases()
    ensures var r := RetrieveAllCap(Empty(38), [ConstInt(1), ConstInt(U32 + 3)]);
      r.Filled? && Has(r.caps, 3)
    ensures !Has(RetrieveAllCapChecked(Empty(38), [ConstInt(1), ConstInt(U32 + 3)]), 3)
  {
    var args := [ConstInt(1), ConstInt(U32 + 3)];
    assert AsUnsigned32(args[1].value) == 3;
    assert forall j :: 1 <= j < |args| ==> args[j] == ConstInt(U32 + 3);
  }
}
