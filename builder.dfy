/** Constructors and static-function tables exposed to Lua, as the builder generator emits
    them, with the behaviour of the emitted closures. */
module Builder {
  import opened Wrappers
  import opened Text
  import opened Lua
  import opened Syntax
  import opened Arity
  import opened Attr

  /** `builder::generate_tuple_access`, with the parameter `args`. The first two fields are
      peeled off, and the remaining ones are numbered from 2. */
  function GenerateTupleAccess(tys: seq<string>): (r: TupleAccess)
    ensures r == TupleAccessSpec("args", tys)
  {
    if |tys| == 0 then TupleAccess([], UnitType)
    else if |tys| == 1 then TupleAccess([WholeValue("args")], Bare(tys[0]))
    else
      var first := [Positional("args", 0), Positional("args", 1)];
      var remaining := seq(|tys| - 2, idx requires 0 <= idx < |tys| - 2 => Positional("args", idx + 2));
      TupleAccess(first + remaining, TupleType(tys[..2] + tys[2..]))
  }

  // ---------------------------------------------------------------------------------------
  // Static functions

  /** One `table.set(name, create_function(|this, (a0, ..): (t0, ..)| Ok(Path::name(a0, ..))))`. */
  datatype FnEntry = FnEntry(key: string, params: seq<string>, types: seq<string>, callee: string, callArgs: seq<string>)

  /** The parameter names `a0`, `a1`, ... */
  function ParamNames(n: nat): (r: seq<string>)
    ensures |r| == n && forall i :: 0 <= i < n ==> r[i] == "a" + NatToString(i)
  {
    seq(n, idx requires 0 <= idx < n => "a" + NatToString(idx))
  }

  function EntryFor(path: string, f: MethodOrFunction): FnEntry {
    FnEntry(f.name, ParamNames(|f.args|), f.args, path + "::" + f.name, ParamNames(|f.args|))
  }

  /** `builder_for_functions`: no table for an empty list, else one entry per function. */
  function BuilderForFunctions(path: string, fns: seq<MethodOrFunction>): (r: Option<seq<FnEntry>>)
    ensures r.None? <==> fns == []
    ensures r.Some? ==> (|r.value| == |fns| &&
      forall i :: 0 <= i < |fns| ==> r.value[i].key == fns[i].name && r.value[i].types == fns[i].args)
  {
    if fns == [] then Wrappers.None
    else Some(seq(|fns|, i requires 0 <= i < |fns| => EntryFor(path, fns[i])))
  }

  /** The table after the `table.set` calls, in order: a later entry under the same key
      replaces an earlier one. */
  function FnTable(es: seq<FnEntry>): (t: map<string, FnEntry>)
    ensures t.Keys == set e | e in es :: e.key
    decreases |es|
  {
    if es == [] then map[]
    else FnTable(es[..|es| - 1])[es[|es| - 1].key := es[|es| - 1]]
  }

  lemma {:induction false} FnTableLastWins(es: seq<FnEntry>, i: nat)
    requires i < |es|
    requires forall j :: i < j < |es| ==> es[j].key != es[i].key
    ensures FnTable(es)[es[i].key] == es[i]
    decreases |es|
  {
    if i < |es| - 1 {
      FnTableLastWins(es[..|es| - 1], i);
    }
  }

  /** A function whose name no later function reuses is reachable in the table under its name,
      bound to its own entry. */
  lemma FunctionTableEntries(path: string, fns: seq<MethodOrFunction>, i: nat)
    requires i < |fns|
    requires forall j :: i < j < |fns| ==> fns[j].name != fns[i].name
    ensures BuilderForFunctions(path, fns).Some?
    ensures FnTable(BuilderForFunctions(path, fns).value)[fns[i].name] == EntryFor(path, fns[i])
  {
    FnTableLastWins(BuilderForFunctions(path, fns).value, i);
  }

  /** A call the generated code makes into Rust: the callee, the receiver for a method, and the
      argument values in order. */
  datatype Call = Call(callee: string, receiver: Option<Value>, args: seq<Value>)

  /** The first position of `name` among the parameters. */
  function Lookup(params: seq<string>, name: string): (r: Option<nat>)
    ensures r.Some? ==> r.value < |params| && params[r.value] == name
    ensures r.Some? ==> forall j :: 0 <= j < r.value ==> params[j] != name
    ensures r.None? ==> name !in params
    decreases |params|
  {
    if params == [] then Wrappers.None
    else if params[0] == name then Some(0)
    else
      var k :- Lookup(params[1..], name);
      Some(k + 1)
  }

  /** The values of the call's argument expressions, each a parameter name. */
  function Bind(params: seq<string>, vals: seq<Value>, names: seq<string>): (r: Result<seq<Value>>)
    requires |params| == |vals|
    ensures r.Ok? ==> |r.value| == |names|
    decreases |names|
  {
    if names == [] then Ok([])
    else
      match Lookup(params, names[0])
      case None => Err(CompileError("cannot find value in this scope"))
      case Some(k) =>
        var rest :- Bind(params, vals, names[1..]);
        Ok([vals[k]] + rest)
  }

  /** Calling a table entry from Lua: the arguments are converted to the declared types and
      bound to the parameters, and the callee gets the parameters named in its call. */
  function Invoke(conv: Conv, e: FnEntry, args: seq<Value>): (r: Result<Call>)
    requires |e.params| == |e.types|
    ensures ConvertArgs(conv, e.types, args).Err? ==> r == Err(ConvertArgs(conv, e.types, args).failure)
    ensures r.Ok? ==> r.value.callee == e.callee && r.value.receiver.None? && |r.value.args| == |e.callArgs|
  {
    var vals :- ConvertArgs(conv, e.types, args);
    var bound :- Bind(e.params, vals, e.callArgs);
    Ok(Call(e.callee, Wrappers.None, bound))
  }

  lemma ParamNamesDistinct(n: nat, i: nat, j: nat)
    requires i < n && j < n && i != j
    ensures ParamNames(n)[i] != ParamNames(n)[j]
  {
    var a, b := ParamNames(n)[i], ParamNames(n)[j];
    if a == b {
      assert a[1..] == NatToString(i) && b[1..] == NatToString(j);
      NatToStringInjective(i, j);
    }
  }

  lemma {:induction false} BindParamNames(n: nat, vals: seq<Value>, from: nat)
    requires |vals| == n && from <= n
    ensures Bind(ParamNames(n), vals, ParamNames(n)[from..]) == Ok(vals[from..])
  {
    var ps := ParamNames(n);
    forall i, j | 0 <= i < j < |ps|
      ensures ps[i] != ps[j]
    {
      ParamNamesDistinct(n, i, j);
    }
    BindDistinct(ps, vals, from);
  }

  /** Binding distinct parameters to their own names passes the values through in order. */
  lemma {:induction false} BindDistinct(ps: seq<string>, vals: seq<Value>, from: nat)
    requires |ps| == |vals| && from <= |ps|
    requires forall i, j :: 0 <= i < j < |ps| ==> ps[i] != ps[j]
    ensures Bind(ps, vals, ps[from..]) == Ok(vals[from..])
    decreases |ps| - from
  {
    if from < |ps| {
      LookupFirst(ps, from);
      BindDistinct(ps, vals, from + 1);
      var names := ps[from..];
      assert names[0] == ps[from] && names[1..] == ps[from + 1..];
      assert vals[from..] == [vals[from]] + vals[from + 1..];
    } else {
      assert ps[from..] == [] && vals[from..] == [];
    }
  }

  /** A name at its first position is found there. */
  lemma LookupFirst(ps: seq<string>, i: nat)
    requires i < |ps| && forall j :: 0 <= j < i ==> ps[j] != ps[i]
    ensures Lookup(ps, ps[i]) == Some(i)
  {
    assert ps[i] in ps;
  }

  /** Calling a static function from Lua calls `Path::name` with the converted arguments,
      each parameter `a<i>` passed in its own position. */
  lemma InvokeCallsInOrder(conv: Conv, path: string, f: MethodOrFunction, args: seq<Value>)
    ensures Invoke(conv, EntryFor(path, f), args).Ok? <==> ConvertArgs(conv, f.args, args).Ok?
    ensures Invoke(conv, EntryFor(path, f), args).Ok? ==>
      Invoke(conv, EntryFor(path, f), args).value ==
        Call(path + "::" + f.name, Wrappers.None, ConvertArgs(conv, f.args, args).value)
  {
    var vals := ConvertArgs(conv, f.args, args);
    if vals.Ok? {
      BindParamNames(|f.args|, vals.value, 0);
      assert ParamNames(|f.args|)[0..] == ParamNames(|f.args|);
      assert vals.value[0..] == vals.value;
    }
  }

  // ---------------------------------------------------------------------------------------
  // Constructors

  /** `lua.create_function(|_, ..|)`, or `Function::wrap(|_: Table, ..|)` for the `__call`
      metamethod, whose first Lua argument is the called table. */
  datatype Creation = CreateFunction | FunctionWrap

  /** The constructor: the unit value itself, or a function building the value from its
      positional arguments or from a table of named fields. */
  datatype Ctor =
    | ValueCtor(path: string)
    | TupleCtor(path: string, creation: Creation, access: TupleAccess)
    | NamedCtor(path: string, creation: Creation, fields: seq<NamedField>)

  predicate IsFunction(c: Ctor) {
    c.TupleCtor? || c.NamedCtor?
  }

  /** `builder_for_fields` with `builder_for_unnamed` and `builder_for_named`. */
  function BuilderForFields(path: string, fields: Fields, isFunctionWrap: bool): (c: Ctor)
    ensures c.path == path
    ensures fields.Unit? <==> c.ValueCtor?
    ensures IsFunction(c) ==> c.creation == if isFunctionWrap then FunctionWrap else CreateFunction
    ensures fields.Named? ==> c.NamedCtor? && c.fields == fields.named
  {
    var creation := if isFunctionWrap then FunctionWrap else CreateFunction;
    match fields
    case Unit => ValueCtor(path)
    case Unnamed(fs) => TupleCtor(path, creation, GenerateTupleAccess(UnnamedTypes(fs)))
    case Named(fs) => NamedCtor(path, creation, fs)
  }

  /** The Lua arguments after the leading closure parameter. */
  function AfterLeading(creation: Creation, args: seq<Value>): Result<seq<Value>> {
    match creation
    case CreateFunction => Ok(args)
    case FunctionWrap =>
      if args != [] && args[0].Table? then Ok(args[1..])
      else Err(RuntimeError("bad argument #1: expected table"))
  }

  /** Calling a constructor function from Lua. */
  function Construct(conv: Conv, c: Ctor, args: seq<Value>): (r: Result<Payload>)
    requires IsFunction(c)
    ensures c.creation.FunctionWrap? && (args == [] || !args[0].Table?) ==> r == Err(RuntimeError("bad argument #1: expected table"))
    ensures r.Ok? && c.TupleCtor? ==> r.value.TuplePayload? && |r.value.items| == |c.access.accessors|
    ensures r.Ok? && c.NamedCtor? ==> r.value.NamedPayload? && r.value.values.Keys == set k | k in FieldNames(c.fields)
  {
    var rest :- AfterLeading(c.creation, args);
    match c
    case TupleCtor(_, _, access) =>
      var p :- Receive(access.ty, conv, rest);
      (match ReadAll(access.accessors, p)
       case None => Err(CompileError("mismatched types"))
       case Some(vs) => Ok(TuplePayload(vs)))
    case NamedCtor(_, _, fs) =>
      var data := ArgAt(rest, 0);
      if !data.Table? then Err(RuntimeError("bad argument #1: expected table"))
      else
        var values :- GetFields(conv, FieldNames(fs), NamedTypes(fs), data.hash);
        Ok(NamedPayload(values))
  }

  /** The positional constructor builds the value from its arguments in declaration order,
      converted to the field types, for any number of fields. */
  lemma TupleConstructorInOrder(conv: Conv, path: string, fs: seq<UnnamedField>, args: seq<Value>)
    ensures Construct(conv, BuilderForFields(path, Unnamed(fs), false), args).Ok? <==>
      ConvertArgs(conv, UnnamedTypes(fs), args).Ok?
    ensures Construct(conv, BuilderForFields(path, Unnamed(fs), false), args).Ok? ==>
      Construct(conv, BuilderForFields(path, Unnamed(fs), false), args).value ==
        TuplePayload(ConvertArgs(conv, UnnamedTypes(fs), args).value)
  {
    TupleAccessRoundTrip("args", UnnamedTypes(fs), conv, args);
  }

  /** The named constructor takes a table and reads every declared field under its own name. */
  lemma NamedConstructorReadsFields(conv: Conv, path: string, fs: seq<NamedField>, data: Value, rest: seq<Value>)
    ensures var r := Construct(conv, BuilderForFields(path, Named(fs), false), [data] + rest);
      && (!data.Table? ==> r.Err?)
      && (data.Table? ==> r == (var g := GetFields(conv, FieldNames(fs), NamedTypes(fs), data.hash);
                                if g.Ok? then Ok(NamedPayload(g.value)) else Err(g.failure)))
  {
  }

  /** `is_function_wrap` changes only how the function is created and its leading parameter:
      called with the table first, the wrapped constructor does what the plain one does. */
  lemma WrapChangesOnlyLeadingParameter(conv: Conv, path: string, fields: Fields, t: Value, args: seq<Value>)
    requires !fields.Unit?
    ensures IsFunction(BuilderForFields(path, fields, false))
    ensures BuilderForFields(path, fields, true) == BuilderForFields(path, fields, false).(creation := FunctionWrap)
    ensures t.Table? ==> (Construct(conv, BuilderForFields(path, fields, true), [t] + args) ==
      Construct(conv, BuilderForFields(path, fields, false), args))
    ensures !t.Table? ==> Construct(conv, BuilderForFields(path, fields, true), [t] + args).Err?
  {
    assert ([t] + args)[1..] == args;
  }
}
