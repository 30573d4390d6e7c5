# Local privilege analysis: capability discovery, in Dafny

This project models the capability-discovery core of the `LocalAnalysis`
LLVM module pass of the privilege-analysis tool. The program marks the
places that need privileges with calls to a marker routine,
`priv_lower(count, cap1, cap2, ...)`. The pass finds every direct call to
the marker. It decodes the constant capability indices in the arguments
after the count into a fixed-size flag array (`CAPArray_t`). It then merges
that array into two tables: one keyed by the call's basic block
(`BBCAPTable`) and one keyed by the block's function (`FuncCAPTable`).

How the parts map onto Dafny:

- `caps.dfy` (`Caps`): capability arrays as `seq<bool>`, with the zeroed array, membership and element-wise OR.
- `cap_table.dfy` (`CapTable`): the tables as `map`s, and the per-key merge done by `AddToBBCAPTable` / `AddToFuncCAPTable`.
- `ir.dfy` (`IR`): the small slice of LLVM IR the pass reads, as tagged datatypes.
  - A use of a function is `NonCall` or `Call(callee, args, block)`.
  - An argument is `ConstInt(value)` or `NonConst`.
  - A block carries its parent function (`getParent()`).
  - A module maps names to functions and functions to their users.
- `extractor.dfy` (`Extractor`): `RetrieveAllCAP` in two versions.
  - As written: an unchecked cast, truncation to `unsigned int`, and an unchecked write. The undefined behaviour becomes explicit `Faulted` results.
  - Corrected: skips bad arguments. The driver uses this version.
- `local_analysis.dfy` (`LocalAnalysis`): `runOnModule` as a fold over the marker's user list. The fold threads the two tables through.
- `scan_lemmas.dfy` (`ScanLemmas`): an order-free reference definition of the tables, and the theorems relating the fold to it.
- `scenario.dfy` (`Scenario`): a worked module with two blocks of one function, run through the pass.

The size of the capability universe (the length of `CAPArray_t`) is a
parameter `n`. The marker's name (`PRIVRAISE`) is also a parameter. Both
come from headers that are not part of this model.

The bodies of `AddToBBCAPTable` and `AddToFuncCAPTable` are also not part
of this model. Their semantics are assumed: a key without an entry gets
the array, and an existing entry becomes the element-wise OR. Rows citing `PrivAnalysis/LocalAnalysis.cpp:88-89` for the
merge rest on this assumption.

The analysis is meant to record only capabilities inside the universe. The
code writes a constant outside it without a check.
`Extractor.RetrieveAllCap` follows the code and reports the write as a
fault. The driver uses the corrected `Extractor.RetrieveAllCapChecked`,
which skips such arguments. The two agree whenever every capability
argument is an in-range constant
(`Extractor.CheckedAgreesWhenWellFormed`).

## Model

| member | source | states |
|---|---|---|
| `Caps.Empty` | PrivAnalysis/LocalAnalysis.cpp:82 | the fresh array has one flag per capability of the universe and none is set |
| `Caps.Union` | PrivAnalysis/LocalAnalysis.cpp:88-89 | the merged array has the same size and grants a capability exactly when either input grants it |
| `Caps.UnionCommutative` | PrivAnalysis/LocalAnalysis.cpp:88-89 | the order of the two merged arrays does not matter |
| `Caps.UnionIdempotent` | PrivAnalysis/LocalAnalysis.cpp:88-89 | merging the same array a second time changes nothing |
| `Caps.UnionAssociative` | PrivAnalysis/LocalAnalysis.cpp:88-89 | merging three arrays does not depend on grouping |
| `CapTable.Merge` | PrivAnalysis/LocalAnalysis.cpp:88-89 | the key gains an entry if it had none, and its entry grants exactly what it granted before plus the array; every other entry is untouched |
| `CapTable.MergeIdempotent` | PrivAnalysis/LocalAnalysis.cpp:88-89 | merging the same array under the same key twice equals merging it once |
| `CapTable.MergeCommutative` | PrivAnalysis/LocalAnalysis.cpp:88-89 | two merges commute, whether their keys are equal or different |
| `CapTable.MergeGrows` | PrivAnalysis/LocalAnalysis.cpp:88-89 | a merge never removes an entry and never clears a flag |
| `Extractor.AsUnsigned32` | PrivAnalysis/LocalAnalysis.cpp:44 | the index written is the zero-extended value reduced modulo 2^32 (its low 32 bits); values below 2^32 are kept as they are |
| `Extractor.RetrieveFrom` | PrivAnalysis/LocalAnalysis.cpp:40-48 | from argument i on, the unchecked loop succeeds exactly when every argument is a constant whose index fits. On success it keeps every flag and adds exactly the indices the arguments name. Otherwise it faults at the first bad argument: a null dereference for a non-constant, an out-of-bounds write for an index past the end |
| `Extractor.RetrieveAllCap` | PrivAnalysis/LocalAnalysis.cpp:36-49 | as written: writes stay in bounds exactly when every argument from index 1 on is a constant whose low 32 bits are below the array size. Then the array keeps its flags and gains exactly the named indices. Otherwise the first bad argument faults |
| `Extractor.RetrieveCheckedFrom` | PrivAnalysis/LocalAnalysis.cpp:40-48 | the corrected loop from argument i on keeps every flag and adds exactly the in-range constants at positions i and later |
| `Extractor.RetrieveAllCapChecked` | PrivAnalysis/LocalAnalysis.cpp:36-49 | corrected: never faults, never clears a flag, and adds exactly the in-range constants among arguments 1 onward |
| `Extractor.CallCaps` | PrivAnalysis/LocalAnalysis.cpp:82-83 | a call's fresh array grants exactly the in-range capabilities named by its arguments after the count |
| `Extractor.FromReadsOnlySuffix` | PrivAnalysis/LocalAnalysis.cpp:40-42 | both loops from position i read only the arguments at i and later |
| `Extractor.ArgZeroIgnored` | PrivAnalysis/LocalAnalysis.cpp:39-40 | replacing argument 0 by anything changes neither extractor's result; argument 0 never contributes or faults |
| `Extractor.CheckedAgreesWhenWellFormed` | PrivAnalysis/LocalAnalysis.cpp:42-47 | if every argument from 1 on is a constant below the universe size (at most 2^32), the unchecked code succeeds with the corrected code's array |
| `Extractor.OutOfRangeConstantFaults` | PrivAnalysis/LocalAnalysis.cpp:44-47 | `priv_lower(1, 40)` in a universe of 38 writes out of bounds as written; the corrected extractor grants nothing |
| `Extractor.NonConstantArgumentFaults` | PrivAnalysis/LocalAnalysis.cpp:42-44 | a non-constant third argument is dereferenced as a null `ConstantInt` as written; the corrected extractor keeps capability 3 and skips it |
| `Extractor.TruncatedConstantAliases` | PrivAnalysis/LocalAnalysis.cpp:44 | the constant 2^32+3 grants capability 3 as written; the corrected extractor does not grant it |
| `LocalAnalysis.VisitUse` | PrivAnalysis/LocalAnalysis.cpp:76-89 | a use that is not a direct call to the marker leaves both tables unchanged. A marker call gives its block and its block's function an entry, and adds to both exactly the capabilities the call names; nothing else changes |
| `LocalAnalysis.ScanUses` | PrivAnalysis/LocalAnalysis.cpp:72-91 | visits the users in order and keeps every entry at the universe size; what it computes is stated by `ScanLemmas.ScanCharacterization` |
| `ScanLemmas.SkippedUsesAddNothing` | PrivAnalysis/LocalAnalysis.cpp:76-79 | users that are not direct calls to the marker (non-call uses, calls to other functions) leave both tables exactly as they were |
| `LocalAnalysis.RunOnModule` | PrivAnalysis/LocalAnalysis.cpp:54-99 | the pass never reports a change to the module. The marker is found exactly when the module names it. Without the marker both tables stay as they were |
| `ScanLemmas.ScanCharacterization` | PrivAnalysis/LocalAnalysis.cpp:72-91 | after the user loop, a block or function has an entry exactly when it had one before or holds a marker call. The entry grants exactly what it granted before plus what the marker calls in it name |
| `ScanLemmas.FreshScanMatchesReference` | PrivAnalysis/LocalAnalysis.cpp:72-91 | starting from empty tables, the loop yields the reference tables defined from the set of marker calls alone |
| `ScanLemmas.ScanOrderIndependent` | PrivAnalysis/LocalAnalysis.cpp:72-91 | visiting the users in any permutation yields the same tables |
| `ScanLemmas.ScanIdempotent` | PrivAnalysis/LocalAnalysis.cpp:72-91 | scanning the same users again leaves the tables unchanged |
| `ScanLemmas.FunctionEntryIsUnionOfBlocks` | PrivAnalysis/LocalAnalysis.cpp:88-89 | in a fresh run a function has an entry exactly when one of its blocks does. Its entry grants exactly what some block of it grants |
| `ScanLemmas.RunOnModuleFresh` | PrivAnalysis/LocalAnalysis.cpp:63-98 | a fresh run over a module without the marker leaves both tables empty; with the marker it yields the reference tables of the marker's users |
| `ScanLemmas.RunOnModuleRepeatable` | PrivAnalysis/LocalAnalysis.cpp:54-99 | running the pass again over the same module leaves its tables unchanged |
| `Scenario.ExampleTables` | PrivAnalysis/LocalAnalysis.cpp:54-99 | for two blocks of one function calling `priv_lower(2, 3, 5)` and `priv_lower(1, 3)`, the blocks get {3, 5} and {3} and the function gets {3, 5}. A call to another function that passes the marker as an argument and an address-taken use add nothing |

## Left out

- The LLVM pass machinery is left out: the constructor, `doInitialization`, `getAnalysisUsage` and the pass registration (lines 22-29 and 105-115). It is framework plumbing.
- `errs()` logging and `dumpCAPTable` (lines 56, 67, 95) are debug output. The "Didn't find function" message appears only as the `markerFound` field of the result.
- The block-splitting analysis and the copied `BBFuncTable` (lines 59-60) are left out. The code never reads them; the function key comes from the block's `getParent()`.
- The bodies of `AddToBBCAPTable` and `AddToFuncCAPTable` are not part of this model. Their union semantics is assumed, as stated above.
- The universe size and the marker name are parameters. The headers that fix them are not part of this model.
- LLVM's `getZExtValue` asserts when the constant's value does not fit in 64 bits. That assertion is not modelled; `ConstInt` carries any natural number.
- The `(int)` cast of the argument count (line 37) is not modelled. An argument count never comes near 2^31.
- The undefined behaviour of the unchecked code (a write past the array, a null dereference) is modelled as a `Faulted` result of the as-written extractor. The driver is modelled only with the corrected extractor. For calls whose capability arguments are in-range constants the two agree, as `Extractor.CheckedAgreesWhenWellFormed` shows.
- LocalAnalysis.RunOnModule: requires every table entry to have the universe's size; the source guarantees this through the array type `CAPArray_t`.
- LocalAnalysis.VisitUse: requires the same table invariant, for the same reason.
- CapTable.Merge: requires an existing entry to have the size of the merged array, which the type `CAPArray_t` guarantees.

## Findings

| source | as written | input that shows it | evidently intended | confidence | as-written member | corrected member |
|---|---|---|---|---|---|---|
| PrivAnalysis/LocalAnalysis.cpp:44-47 | `CAParray[iarg] = 1` with no bound check | `priv_lower(1, 40)` with a universe of 38 capabilities writes flag 40, past the end of the array | reject the out-of-range argument and leave the array as it is | high (not executed) | `Extractor.OutOfRangeConstantFaults` | `Extractor.RetrieveAllCapChecked` |
| PrivAnalysis/LocalAnalysis.cpp:42-44 | `dyn_cast<ConstantInt>` result dereferenced without a null check | `priv_lower(2, 3, x)` with `x` computed at run time: `I` is null at argument 2 and `I->getZExtValue()` dereferences it | skip the non-constant argument | high (not executed) | `Extractor.NonConstantArgumentFaults` | `Extractor.RetrieveAllCapChecked` |
| PrivAnalysis/LocalAnalysis.cpp:44 | the 64-bit value is stored in an `unsigned int` | a 64-bit constant argument 2^32 + 3 is truncated to 3 and grants capability 3 | treat the value as out of range | low (not executed; variadic integer arguments are usually 32-bit) | `Extractor.TruncatedConstantAliases` | `Extractor.RetrieveAllCapChecked` |
