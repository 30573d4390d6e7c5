/** `LocalAnalysis::runOnModule`: find the marker routine, visit each of its
    users, and for every direct call to it merge the call's capability array
    into the block table (keyed by the call's basic block) and into the
    function table (keyed by that block's function). The two tables are
    threaded through a fold over the user list instead of living in the
    pass object. */
module LocalAnalysis {
  import opened Caps
  import opened CapTable
  import opened IR
  import opened Extractor

  /** `BBCAPTable` and `FuncCAPTable`. */
  datatype Tables = Tables(bbTable: Table<BlockRef>, funcTable: Table<FuncId>)

  /** What one run of the pass yields: whether it changed the module (the
      pass's return value), whether the marker routine was found (the
      "Didn't find function" diagnostic), and the tables afterwards. */
  datatype PassResult = PassResult(modified: bool, markerFound: bool, tables: Tables)

  /** A key of either table: a basic block or a function. */
  datatype Scope = InBlock(block: BlockRef) | InFunc(func: FuncId)

  function EmptyTables(): Tables
  {
    Tables(map[], map[])
  }

  /** Every entry of both tables is an array over a universe of `n` capabilities. */
  ghost predicate Sized(t: Tables, n: nat)
  {
    WellSized(t.bbTable, n) && WellSized(t.funcTable, n)
  }

  /** The table for scope `s` has an entry for it. */
  ghost predicate HasKey(t: Tables, s: Scope)
  {
    match s
    case InBlock(b) => b in t.bbTable
    case InFunc(f) => f in t.funcTable
  }

  /** The entry for scope `s` flags capability `c`. */
  ghost predicate Grants(t: Tables, s: Scope, c: nat)
  {
    match s
    case InBlock(b) => b in t.bbTable && Has(t.bbTable[b], c)
    case InFunc(f) => f in t.funcTable && Has(t.funcTable[f], c)
  }

  /** The use is a call instruction whose called function is the marker
      (a use that is not a call, or a call passing the marker as an
      argument to some other function, is not). */
  predicate IsMarkerCall(marker: FuncId, u: Use)
  {
    u.Call? && u.callee == marker
  }

  /** The use is a marker call located in scope `s`. */
  ghost predicate MarkerCallIn(marker: FuncId, u: Use, s: Scope)
  {
    IsMarkerCall(marker, u) &&
    match s
    case InBlock(b) => u.block == b
    case InFunc(f) => u.block.parent == f
  }

  /** One iteration of the user loop. */
  function VisitUse(n: nat, marker: FuncId, u: Use, t: Tables): (r: Tables)
    requires Sized(t, n)
    ensures Sized(r, n)
    ensures !IsMarkerCall(marker, u) ==> r == t
    ensures forall s :: HasKey(r, s) <==> HasKey(t, s) || MarkerCallIn(marker, u, s)
    ensures forall s, c: nat :: Grants(r, s, c) <==>
      Grants(t, s, c) || (MarkerCallIn(marker, u, s) && c < n && Requested(u.args, c))
  {
    if !IsMarkerCall(marker, u) then t
    else
      var caps := CallCaps(n, u.args);
      Tables(Merge(t.bbTable, u.block, caps), Merge(t.funcTable, u.block.parent, caps))
  }

  /** The user loop, visiting `uses` in order. */
  function ScanUses(n: nat, marker: FuncId, uses: seq<Use>, t: Tables): (r: Tables)
    requires Sized(t, n)
    ensures Sized(r, n)
    decreases |uses|
  {
    if uses == [] then t
    else ScanUses(n, marker, uses[1..], VisitUse(n, marker, uses[0], t))
  }

  /** The pass over module `m`, whose capability universe has `n` members,
      starting from tables `t`. */
  function RunOnModule(n: nat, markerName: string, m: IRModule, t: Tables): (r: PassResult)
    requires Sized(t, n)
    ensures !r.modified
    ensures r.markerFound <==> markerName in m.symbols
    ensures !r.markerFound ==> r.tables == t
    ensures Sized(r.tables, n)
  {
    match GetFunction(m, markerName)
    case None => PassResult(false, false, t)
    case Some(marker) => PassResult(false, true, ScanUses(n, marker, UsersOf(m, marker), t))
  }
}
