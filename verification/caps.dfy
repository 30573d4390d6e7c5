/** Capability arrays: the fixed-size flag arrays (`CAPArray_t`) in which the
    local analysis records which capabilities a call site asks for. Flag `c`
    is set when capability `c` is requested. Every array of one analysis run
    has the same length, the size of the capability universe. */
module Caps {

  /** One flag per capability of the universe. */
  type CapArray = seq<bool>

  /** Capability `c` is flagged in `a`; indices outside the array are never flagged. */
  predicate Has(a: CapArray, c: nat)
  {
    c < |a| && a[c]
  }

  /** The zero-initialised array `CAPArray_t CAParray = {0}` of a universe of `n` capabilities. */
  function Empty(n: nat): (r: CapArray)
    ensures |r| == n
    ensures forall c: nat :: !Has(r, c)
  {
    seq(n, _ => false)
  }

  /** The capabilities flagged in `a`, as a set. */
  function Members(a: CapArray): (s: set<nat>)
    ensures forall c: nat :: c in s <==> Has(a, c)
  {
    set c: nat | c < |a| && a[c]
  }

  /** Element-wise OR of two arrays of the same universe. */
  function Union(a: CapArray, b: CapArray): (r: CapArray)
    requires |a| == |b|
    ensures |r| == |a|
    ensures forall c: nat :: Has(r, c) <==> Has(a, c) || Has(b, c)
  {
    seq(|a|, i requires 0 <= i < |a| => a[i] || b[i])
  }

  /** Two arrays of one length that flag the same capabilities are the same array. */
  lemma Extensional(a: CapArray, b: CapArray)
    requires |a| == |b|
    requires forall c: nat :: Has(a, c) <==> Has(b, c)
    ensures a == b
  {
    forall i | 0 <= i < |a|
      ensures a[i] == b[i]
    {
      assert Has(a, i) <==> Has(b, i);
    }
  }

  lemma UnionCommutative(a: CapArray, b: CapArray)
    requires |a| == |b|
    ensures Union(a, b) == Union(b, a)
  {
  }

  lemma UnionIdempotent(a: CapArray, b: CapArray)
    requires |a| == |b|
    ensures Union(Union(a, b), b) == Union(a, b)
  {
  }

  lemma UnionAssociative(a: CapArray, b: CapArray, d: CapArray)
    requires |a| == |b| == |d|
    ensures Union(Union(a, b), d) == Union(a, Union(b, d))
  {
  }
}
