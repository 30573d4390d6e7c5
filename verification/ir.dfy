/** The part of the LLVM program representation the local analysis reads,
    replaced by small tagged datatypes: a use of a function is either a call
    (with its callee, argument list and enclosing basic block) or some other
    reference, and a call argument is either a constant integer or not. */
module IR {

  datatype Option<T> = None | Some(value: T)

  /** Identity of a function of the module. */
  type FuncId = nat

  /** A basic block; `parent` is the function it belongs to (`getParent()`). */
  datatype BlockRef = BlockRef(parent: FuncId, id: nat)

  /** A call argument: a `ConstantInt` with its zero-extended value, or anything else. */
  datatype Arg = ConstInt(value: nat) | NonConst

  /** A user of a function: a call instruction, or a use that is not a call
      (an address taken, a store, a constant expression). */
  datatype Use =
    | NonCall
    | Call(callee: FuncId, args: seq<Arg>, block: BlockRef)

  /** A module: its named functions, and the users of each function in the
      order the user iterator visits them. */
  datatype IRModule = IRModule(symbols: map<string, FuncId>, users: map<FuncId, seq<Use>>)

  /** `Module::getFunction`: the function named `name`, if the module has one. */
  function GetFunction(m: IRModule, name: string): (r: Option<FuncId>)
    ensures r.Some? <==> name in m.symbols
    ensures r.Some? ==> r.value == m.symbols[name]
  {
    if name in m.symbols then Some(m.symbols[name]) else None
  }

  /** The users of `f`; a function nobody uses has none. */
  function UsersOf(m: IRModule, f: FuncId): seq<Use>
  {
    if f in m.users then m.users[f] else []
  }
}
