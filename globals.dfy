/** The Lua global table as far as `to_globals_as` writes to it. */
module Globals {
  import opened Wrappers
  import opened Lua
  import opened Builder

  /** What `to_globals_as` registers under a name. */
  datatype Global =
    | Constructor(ctor: Ctor)
    | FunctionTable(functions: map<string, FnEntry>, call: Option<Ctor>)
    | VariantTable(variants: map<string, Ctor>, functions: map<string, FnEntry>)

  /** The Lua globals, by name. */
  type Registry = map<string, Global>

  /** The called table as its own first argument; its entries are functions, which the value
      model does not represent. */
  const CalledTable: Value := Table(map[], [])

  /** Calling a registered global from Lua: a constructor function directly, a table through
      its `__call` metamethod with the table as first argument. */
  function CallGlobal(conv: Conv, g: Global, args: seq<Value>): (r: Result<Payload>)
    ensures r.Ok? ==> (g.Constructor? && IsFunction(g.ctor)) || (g.FunctionTable? && g.call.Some? && IsFunction(g.call.value))
    ensures g.VariantTable? ==> r == Err(RuntimeError("attempt to call a table value"))
  {
    match g
    case Constructor(c) =>
      if IsFunction(c) then Construct(conv, c, args)
      else Err(RuntimeError("attempt to call a userdata value"))
    case FunctionTable(_, call) =>
      if call.Some? && IsFunction(call.value) then Construct(conv, call.value, [CalledTable] + args)
      else Err(RuntimeError("attempt to call a table value"))
    case VariantTable(_, _) => Err(RuntimeError("attempt to call a table value"))
  }

  /** What indexing a registered table with a key gives: a variant constructor or a static
      function. */
  datatype Member = CtorMember(ctor: Ctor) | FnMember(entry: FnEntry)

  /** `Global.key` from Lua. A function set into a variant table after the variants replaces a
      variant of the same name. */
  function TableEntry(g: Global, key: string): (r: Option<Member>)
    ensures g.Constructor? ==> r.None?
    ensures g.FunctionTable? ==> (r.Some? <==> key in g.functions)
    ensures g.VariantTable? ==> (r.Some? <==> key in g.variants || key in g.functions)
  {
    match g
    case Constructor(_) => Wrappers.None
    case FunctionTable(fns, _) => if key in fns then Some(FnMember(fns[key])) else Wrappers.None
    case VariantTable(vs, fns) =>
      if key in fns then Some(FnMember(fns[key]))
      else if key in vs then Some(CtorMember(vs[key]))
      else Wrappers.None
  }
}
