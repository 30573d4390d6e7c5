/** The capability tables `BBCAPTable` and `FuncCAPTable`: maps from a key (a
    basic block or a function) to the capability array accumulated for it,
    and the merge performed by `AddToBBCAPTable` / `AddToFuncCAPTable`. */
module CapTable {
  import opened Caps

  type Table<K> = map<K, CapArray>

  /** Every entry of `t` is an array over a universe of `n` capabilities. */
  ghost predicate WellSized<K>(t: Table<K>, n: nat)
  {
    forall k :: k in t ==> |t[k]| == n
  }

  /** Merge `caps` into the entry for `k`: a key without an entry gets `caps`,
      an existing entry becomes its union with `caps`. No other entry changes. */
  function Merge<K>(t: Table<K>, k: K, caps: CapArray): (r: Table<K>)
    requires k in t ==> |t[k]| == |caps|
    ensures r.Keys == t.Keys + {k}
    ensures forall k' :: k' in t && k' != k ==> r[k'] == t[k']
    ensures |r[k]| == |caps|
    ensures forall c: nat :: Has(r[k], c) <==> (k in t && Has(t[k], c)) || Has(caps, c)
  {
    if k in t then t[k := Union(t[k], caps)] else t[k := caps]
  }

  /** Merging the same array into the same key twice is the same as merging it once. */
  lemma MergeIdempotent<K>(t: Table<K>, k: K, caps: CapArray)
    requires k in t ==> |t[k]| == |caps|
    ensures Merge(Merge(t, k, caps), k, caps) == Merge(t, k, caps)
  {
    var once := Merge(t, k, caps);
    var twice := Merge(once, k, caps);
    Extensional(twice[k], once[k]);
  }

  /** The order of two merges does not matter, whether or not their keys coincide. */
  lemma MergeCommutative<K>(t: Table<K>, n: nat, k1: K, a1: CapArray, k2: K, a2: CapArray)
    requires WellSized(t, n) && |a1| == n && |a2| == n
    ensures Merge(Merge(t, k1, a1), k2, a2) == Merge(Merge(t, k2, a2), k1, a1)
  {
    var left := Merge(Merge(t, k1, a1), k2, a2);
    var right := Merge(Merge(t, k2, a2), k1, a1);
    assert left.Keys == right.Keys;
    forall k | k in left
      ensures left[k] == right[k]
    {
      if k == k1 || k == k2 {
        Extensional(left[k], right[k]);
      }
    }
  }

  /** A merge never removes an entry and never clears a flag. */
  lemma MergeGrows<K>(t: Table<K>, k: K, caps: CapArray)
    requires k in t ==> |t[k]| == |caps|
    ensures forall k', c: nat :: k' in t && Has(t[k'], c) ==> k' in Merge(t, k, caps) && Has(Merge(t, k, caps)[k'], c)
  {
  }

  /** Two well-sized tables with the same keys whose entries flag the same capabilities are equal. */
  lemma TableExtensional<K>(t1: Table<K>, t2: Table<K>, n: nat)
    requires WellSized(t1, n) && WellSized(t2, n)
    requires t1.Keys == t2.Keys
    requires forall k, c: nat :: k in t1 ==> (Has(t1[k], c) <==> Has(t2[k], c))
    ensures t1 == t2
  {
    forall k | k in t1
      ensures t1[k] == t2[k]
    {
      Extensional(t1[k], t2[k]);
    }
  }
}
