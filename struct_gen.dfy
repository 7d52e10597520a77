/** The struct generator: the `LuaBuilder` implementation (constructor, static functions,
    registration) and the `UserData`/`FromLua` implementations, as descriptors. */
module StructGen {
  import opened Wrappers
  import opened Text
  import opened Seqs
  import opened Lua
  import opened Syntax
  import opened Attr
  import opened Arity
  import opened Builder
  import opened Globals

  // ---------------------------------------------------------------------------------------
  // `builder`

  /** The return type of `lua_builder`: the value itself or a Lua function. */
  datatype ReturnType = SelfType | LuaFunction

  /** The `LuaBuilder` implementation: `lua_builder`'s constructor, the `__call` constructor put
      on the static-function table's metatable, and `lua_fn_builder`'s table. */
  datatype StructBuilder = StructBuilder(
    returnType: ReturnType,
    init: Ctor,
    callMeta: Option<Ctor>,
    functions: Option<seq<FnEntry>>)

  /** `r#struct::builder`. */
  function StructBuilderOf(fields: Fields, fns: seq<MethodOrFunction>): (b: StructBuilder)
    ensures b.returnType == SelfType <==> fields.Unit?
    ensures fields.Unit? <==> b.callMeta.None?
    ensures fields.Unit? <==> !IsFunction(b.init)
    ensures b.callMeta.Some? ==> b.callMeta.value == BuilderForFields("Self", fields, true)
    ensures b.init == BuilderForFields("Self", fields, false)
    ensures b.functions.Some? <==> fns != []
  {
    StructBuilder(
      if fields.Unit? then SelfType else LuaFunction,
      BuilderForFields("Self", fields, false),
      if fields.Unit? then Wrappers.None else Some(BuilderForFields("Self", fields, true)),
      BuilderForFunctions("Self", fns))
  }

  /** `to_globals_as`: the static-function table (with the `__call` constructor) when there is
      one, the constructor otherwise; nothing else in the globals changes. */
  function ToGlobalsAs(b: StructBuilder, globals: Registry, s: string): (r: Registry)
    ensures r.Keys == globals.Keys + {s}
    ensures forall k :: k in globals && k != s ==> r[k] == globals[k]
    ensures b.functions.Some? ==> r[s] == FunctionTable(FnTable(b.functions.value), b.callMeta)
    ensures b.functions.None? ==> r[s] == Constructor(b.init)
  {
    match b.functions
    case Some(table) => globals[s := FunctionTable(FnTable(table), b.callMeta)]
    case None => globals[s := Constructor(b.init)]
  }

  /** `to_globals`: registration under the type's own name. */
  function ToGlobals(name: string, b: StructBuilder, globals: Registry): (r: Registry)
    ensures r.Keys == globals.Keys + {name}
    ensures forall k :: k in globals && k != name ==> r[k] == globals[k]
    ensures b.functions.Some? ==> r[name] == FunctionTable(FnTable(b.functions.value), b.callMeta)
    ensures b.functions.None? ==> r[name] == Constructor(b.init)
  {
    ToGlobalsAs(b, globals, name)
  }

  /** A struct with fields is constructed by calling its global, whether or not it has static
      functions: the metatable's `__call` does what the plain constructor does. */
  lemma GlobalConstructs(conv: Conv, fields: Fields, fns: seq<MethodOrFunction>, globals: Registry, s: string, args: seq<Value>)
    requires !fields.Unit?
    ensures CallGlobal(conv, ToGlobalsAs(StructBuilderOf(fields, fns), globals, s)[s], args) ==
      Construct(conv, BuilderForFields("Self", fields, false), args)
  {
    WrapChangesOnlyLeadingParameter(conv, "Self", fields, CalledTable, args);
  }

  /** A unit struct without static functions is registered as the value itself; with static
      functions only their table is registered, and it is not callable. */
  lemma UnitStructGlobal(fns: seq<MethodOrFunction>, globals: Registry, s: string)
    ensures var g := ToGlobalsAs(StructBuilderOf(Unit, fns), globals, s)[s];
      && (fns == [] ==> g == Constructor(ValueCtor("Self")))
      && (fns != [] ==> g.FunctionTable? && g.call.None?)
  {
  }

  // ---------------------------------------------------------------------------------------
  // `user_data`

  /** The `UserDataMethods` registration function. */
  datatype AddKind = AddMethodMut | AddMethod | AddFunctionMut | AddFunction

  /** The add-kind for a method or function, by `(is_mut, is_self)`. */
  function AddKindOf(isMut: bool, isSelf: bool): (k: AddKind)
    ensures (k == AddMethodMut || k == AddMethod) <==> isSelf
    ensures (k == AddMethodMut || k == AddFunctionMut) <==> isMut
  {
    match (isMut, isSelf)
    case (true, true) => AddMethodMut
    case (false, true) => AddMethod
    case (true, false) => AddFunctionMut
    case (false, false) => AddFunction
  }

  /** The parser never yields a mutable non-receiver, so `add_function_mut` is never chosen
      for a parsed `impl` list. */
  lemma ParsedImplsNeverFunctionMut(elems: seq<Expr>)
    requires ImplSpecs(elems).Ok?
    ensures forall m :: m in ImplSpecs(elems).value ==> AddKindOf(m.isMut, m.isSelf) != AddFunctionMut
  {
    ImplSpecsMadeByMethodOf([], elems);
  }

  lemma {:induction false} ImplSpecsMadeByMethodOf(acc: seq<MethodOrFunction>, elems: seq<Expr>)
    requires forall m :: m in acc ==> (m.isMut ==> m.isSelf)
    ensures ImplSpecsFrom(acc, elems).Ok? ==> forall m :: m in ImplSpecsFrom(acc, elems).value ==> (m.isMut ==> m.isSelf)
    decreases |elems|
  {
    if elems != [] {
      match elems[0]
      case CallExpr(PathExpr(f), args) =>
        MethodOfReceiver(f, args);
        ImplSpecsMadeByMethodOf(acc + [MethodOf(f, args)], elems[1..]);
      case CallExpr(_, _) => ImplSpecsMadeByMethodOf(acc, elems[1..]);
      case _ =>
    }
  }

  /** A registration in `add_fields`. */
  datatype FieldReg = FieldGetter(name: string) | FieldSetter(name: string) | CustomFieldsHook(hook: string)

  /** A registration in `add_methods`: the tuple-struct index metamethods with the 0-based
      positions they serve, a method or function binding, or the custom hook. */
  datatype MethodReg =
    | MetaIndex(arms: seq<nat>)
    | MetaNewIndex(arms: seq<nat>)
    | MethodBinding(kind: AddKind, key: string, onInstance: bool, callee: string, access: TupleAccess)
    | CustomMethodsHook(hook: string)

  /** How `from_lua` reads a table. */
  datatype FromLuaShape = FromNamed(fields: seq<NamedField>) | FromTuple(tys: seq<string>) | FromUnit

  datatype StructUserData = StructUserData(fromLua: FromLuaShape, fields: seq<FieldReg>, methods: seq<MethodReg>)

  /** One `method_or_fns.<kind>(name, |_, [this,] args: ty| Ok(<caller>name(<access>)))`. */
  function Binding(m: MethodOrFunction): (r: MethodReg)
    ensures r.MethodBinding? && r.key == m.name && r.onInstance == m.isSelf
    ensures r.kind == AddKindOf(m.isMut, m.isSelf)
  {
    MethodBinding(AddKindOf(m.isMut, m.isSelf), m.name, m.isSelf,
      (if m.isSelf then "this." else "Self::") + m.name, Builder.GenerateTupleAccess(m.args))
  }

  function Bindings(impls: seq<MethodOrFunction>): (r: seq<MethodReg>)
    ensures |r| == |impls| && forall i :: 0 <= i < |impls| ==> r[i] == Binding(impls[i])
  {
    seq(|impls|, i requires 0 <= i < |impls| => Binding(impls[i]))
  }

  /** `syn::LitInt::new` on each field identifier of a tuple struct; a non-numeral panics. */
  function ParseArms(ids: seq<string>): (r: Result<seq<nat>>)
    ensures r.Ok? <==> forall i :: 0 <= i < |ids| ==> ParseDecimal(ids[i]).Some?
    ensures r.Ok? ==> (|r.value| == |ids| &&
      forall i :: 0 <= i < |ids| ==> ParseDecimal(ids[i]) == Some(r.value[i]))
    ensures r.Err? ==> r.failure.Panic?
    decreases |ids|
  {
    if ids == [] then Ok([])
    else
      match ParseDecimal(ids[0])
      case None => Err(Panic("not a valid integer literal"))
      case Some(k) =>
        var rest :- ParseArms(ids[1..]);
        Ok([k] + rest)
  }

  function OptionalFieldsHook(h: Option<string>): seq<FieldReg> {
    match h
    case Some(x) => [CustomFieldsHook(x)]
    case None => []
  }

  function OptionalMethodsHook(h: Option<string>): seq<MethodReg> {
    match h
    case Some(x) => [CustomMethodsHook(x)]
    case None => []
  }

  /** The arms of a tuple struct's index metamethods, or a compile error for a position the
      struct does not have. */
  function Arms(ids: seq<string>, n: nat): (r: Result<seq<nat>>)
    ensures r.Ok? ==> forall a :: a in r.value ==> a < n
  {
    var arms :- ParseArms(ids);
    if forall a :: a in arms ==> a < n then Ok(arms)
    else Err(CompileError("no field on type"))
  }

  /** `r#struct::user_data`. */
  function UserData(fields: Fields, getIds: seq<string>, setIds: seq<string>, customField: Option<string>,
                    impls: seq<MethodOrFunction>, customMethods: Option<string>): (r: Result<StructUserData>)
    ensures r.Err? <==> fields.Unnamed? && (Arms(getIds, |fields.unnamed|).Err? || Arms(setIds, |fields.unnamed|).Err?)
    ensures r.Err? ==> r.failure.Panic? || r.failure == CompileError("no field on type")
    ensures r.Ok? ==> (fields.Named? <==> r.value.fromLua.FromNamed?) && (fields.Unit? <==> r.value.fromLua.FromUnit?)
    ensures r.Ok? && fields.Unnamed? ==> r.value.fromLua.tys == UnnamedTypes(fields.unnamed)
  {
    var fieldsHook := OptionalFieldsHook(customField);
    var methodsHook := OptionalMethodsHook(customMethods);
    match fields
    case Named(fs) =>
      var getters := seq(|getIds|, i requires 0 <= i < |getIds| => FieldGetter(getIds[i]));
      var setters := seq(|setIds|, i requires 0 <= i < |setIds| => FieldSetter(setIds[i]));
      Ok(StructUserData(FromNamed(fs), getters + setters + fieldsHook, Bindings(impls) + methodsHook))
    case Unnamed(fs) =>
      var getArms :- Arms(getIds, |fs|);
      var setArms :- Arms(setIds, |fs|);
      Ok(StructUserData(FromTuple(UnnamedTypes(fs)), fieldsHook,
        [MetaIndex(getArms), MetaNewIndex(setArms)] + Bindings(impls) + methodsHook))
    case Unit =>
      Ok(StructUserData(FromUnit, fieldsHook, Bindings(impls) + methodsHook))
  }

  /** The names given a getter, in registration order. */
  function GetterNames(regs: seq<FieldReg>): seq<string>
    decreases |regs|
  {
    if regs == [] then []
    else (if regs[0].FieldGetter? then [regs[0].name] else []) + GetterNames(regs[1..])
  }

  /** The names given a setter, in registration order. */
  function SetterNames(regs: seq<FieldReg>): seq<string>
    decreases |regs|
  {
    if regs == [] then []
    else (if regs[0].FieldSetter? then [regs[0].name] else []) + SetterNames(regs[1..])
  }

  lemma NamesOfConcat(xs: seq<FieldReg>, ys: seq<FieldReg>)
    ensures GetterNames(xs + ys) == GetterNames(xs) + GetterNames(ys)
    ensures SetterNames(xs + ys) == SetterNames(xs) + SetterNames(ys)
  {
    GetterNamesConcat(xs, ys);
    SetterNamesConcat(xs, ys);
  }

  lemma {:induction false} GetterNamesConcat(xs: seq<FieldReg>, ys: seq<FieldReg>)
    ensures GetterNames(xs + ys) == GetterNames(xs) + GetterNames(ys)
    decreases |xs|
  {
    if xs == [] {
      assert xs + ys == ys;
    } else {
      assert (xs + ys)[0] == xs[0] && (xs + ys)[1..] == xs[1..] + ys;
      var head := if xs[0].FieldGetter? then [xs[0].name] else [];
      assert GetterNames(xs + ys) == head + GetterNames(xs[1..] + ys);
      GetterNamesConcat(xs[1..], ys);
      assert head + (GetterNames(xs[1..]) + GetterNames(ys)) == (head + GetterNames(xs[1..])) + GetterNames(ys);
    }
  }

  lemma {:induction false} SetterNamesConcat(xs: seq<FieldReg>, ys: seq<FieldReg>)
    ensures SetterNames(xs + ys) == SetterNames(xs) + SetterNames(ys)
    decreases |xs|
  {
    if xs == [] {
      assert xs + ys == ys;
    } else {
      assert (xs + ys)[0] == xs[0] && (xs + ys)[1..] == xs[1..] + ys;
      var head := if xs[0].FieldSetter? then [xs[0].name] else [];
      assert SetterNames(xs + ys) == head + SetterNames(xs[1..] + ys);
      SetterNamesConcat(xs[1..], ys);
      assert head + (SetterNames(xs[1..]) + SetterNames(ys)) == (head + SetterNames(xs[1..])) + SetterNames(ys);
    }
  }

  lemma {:induction false} NamesOfGetters(ids: seq<string>)
    ensures GetterNames(seq(|ids|, i requires 0 <= i < |ids| => FieldGetter(ids[i]))) == ids
    ensures SetterNames(seq(|ids|, i requires 0 <= i < |ids| => FieldGetter(ids[i]))) == []
    ensures SetterNames(seq(|ids|, i requires 0 <= i < |ids| => FieldSetter(ids[i]))) == ids
    ensures GetterNames(seq(|ids|, i requires 0 <= i < |ids| => FieldSetter(ids[i]))) == []
    decreases |ids|
  {
    if ids != [] {
      NamesOfGetters(ids[1..]);
      assert seq(|ids|, i requires 0 <= i < |ids| => FieldGetter(ids[i]))[1..]
        == seq(|ids[1..]|, i requires 0 <= i < |ids[1..]| => FieldGetter(ids[1..][i]));
      assert seq(|ids|, i requires 0 <= i < |ids| => FieldSetter(ids[i]))[1..]
        == seq(|ids[1..]|, i requires 0 <= i < |ids[1..]| => FieldSetter(ids[1..][i]));
    }
  }

  /** A named struct gets exactly one getter per get-field and one setter per set-field, in
      list order, and no index metamethods. */
  lemma NamedStructAccessors(fs: seq<NamedField>, getIds: seq<string>, setIds: seq<string>, customField: Option<string>,
                             impls: seq<MethodOrFunction>, customMethods: Option<string>)
    ensures var r := UserData(Named(fs), getIds, setIds, customField, impls, customMethods);
      && r.Ok?
      && GetterNames(r.value.fields) == getIds
      && SetterNames(r.value.fields) == setIds
      && forall reg :: reg in r.value.methods ==> !reg.MetaIndex? && !reg.MetaNewIndex?
  {
    NamedStructFields(fs, getIds, setIds, customField, impls, customMethods);
    BindingsAndHook(impls, customMethods);
  }

  /** The layout of a named struct's registrations. */
  lemma NamedStructFields(fs: seq<NamedField>, getIds: seq<string>, setIds: seq<string>, customField: Option<string>,
                          impls: seq<MethodOrFunction>, customMethods: Option<string>)
    ensures var r := UserData(Named(fs), getIds, setIds, customField, impls, customMethods);
      && r.Ok?
      && GetterNames(r.value.fields) == getIds
      && SetterNames(r.value.fields) == setIds
      && r.value.methods == Bindings(impls) + OptionalMethodsHook(customMethods)
  {
    AccessorNames(getIds, setIds, customField);
  }

  /** Getters, then setters, then the hook: their names come back in list order. */
  lemma AccessorNames(getIds: seq<string>, setIds: seq<string>, customField: Option<string>)
    ensures var fields := seq(|getIds|, i requires 0 <= i < |getIds| => FieldGetter(getIds[i]))
        + seq(|setIds|, i requires 0 <= i < |setIds| => FieldSetter(setIds[i])) + OptionalFieldsHook(customField);
      GetterNames(fields) == getIds && SetterNames(fields) == setIds
  {
    var getters := seq(|getIds|, i requires 0 <= i < |getIds| => FieldGetter(getIds[i]));
    var setters := seq(|setIds|, i requires 0 <= i < |setIds| => FieldSetter(setIds[i]));
    var hook := OptionalFieldsHook(customField);
    NamesOfConcat(getters + setters, hook);
    NamesOfConcat(getters, setters);
    NamesOfGetters(getIds);
    NamesOfGetters(setIds);
    NamesOfHook(customField);
  }

  /** The custom fields hook names no getter and no setter. */
  lemma NamesOfHook(customField: Option<string>)
    ensures GetterNames(OptionalFieldsHook(customField)) == []
    ensures SetterNames(OptionalFieldsHook(customField)) == []
  {
    if customField.Some? {
      assert OptionalFieldsHook(customField)[1..] == [];
    }
  }

  /** The bindings and the custom methods hook hold no index metamethod. */
  lemma BindingsAndHook(impls: seq<MethodOrFunction>, customMethods: Option<string>)
    ensures forall reg :: reg in Bindings(impls) + OptionalMethodsHook(customMethods) ==>
      reg.MethodBinding? || reg.CustomMethodsHook?
  {
    forall reg | reg in Bindings(impls)
      ensures reg.MethodBinding?
    {
      var k :| 0 <= k < |impls| && Bindings(impls)[k] == reg;
    }
  }

  /** A unit struct gets no getters, setters or index metamethods: only the bindings and the
      custom hooks. */
  lemma UnitStructAccessors(getIds: seq<string>, setIds: seq<string>, customField: Option<string>,
                            impls: seq<MethodOrFunction>, customMethods: Option<string>)
    ensures var r := UserData(Unit, getIds, setIds, customField, impls, customMethods);
      && r.Ok?
      && r.value.fields == OptionalFieldsHook(customField)
      && r.value.methods == Bindings(impls) + OptionalMethodsHook(customMethods)
  {
  }

  /** The custom hooks come after every generated registration, and the bindings follow the
      `impl` list's order. */
  lemma HooksComeLast(fields: Fields, getIds: seq<string>, setIds: seq<string>, customField: Option<string>,
                      impls: seq<MethodOrFunction>, customMethods: Option<string>)
    requires UserData(fields, getIds, setIds, customField, impls, customMethods).Ok?
    ensures var u := UserData(fields, getIds, setIds, customField, impls, customMethods).value;
      && (customField.Some? ==> u.fields[|u.fields| - 1] == CustomFieldsHook(customField.value))
      && (customMethods.Some? ==> u.methods[|u.methods| - 1] == CustomMethodsHook(customMethods.value))
      && (customMethods.None? ==> u.methods[|u.methods| - |impls|..] == Bindings(impls))
      && (customMethods.Some? ==> u.methods[|u.methods| - 1 - |impls|..|u.methods| - 1] == Bindings(impls))
  {
    FieldsHookLast(fields, getIds, setIds, customField, impls, customMethods);
    MethodsHookLast(fields, getIds, setIds, customField, impls, customMethods);
    BindingsBeforeHook(fields, getIds, setIds, customField, impls, customMethods);
  }

  /** The custom fields hook is the last field registration. */
  lemma FieldsHookLast(fields: Fields, getIds: seq<string>, setIds: seq<string>, customField: Option<string>,
                       impls: seq<MethodOrFunction>, customMethods: Option<string>)
    requires UserData(fields, getIds, setIds, customField, impls, customMethods).Ok?
    ensures var u := UserData(fields, getIds, setIds, customField, impls, customMethods).value;
      customField.Some? ==> u.fields[|u.fields| - 1] == CustomFieldsHook(customField.value)
  {
  }

  /** The custom methods hook is the last method registration. */
  lemma MethodsHookLast(fields: Fields, getIds: seq<string>, setIds: seq<string>, customField: Option<string>,
                        impls: seq<MethodOrFunction>, customMethods: Option<string>)
    requires UserData(fields, getIds, setIds, customField, impls, customMethods).Ok?
    ensures var u := UserData(fields, getIds, setIds, customField, impls, customMethods).value;
      customMethods.Some? ==> u.methods[|u.methods| - 1] == CustomMethodsHook(customMethods.value)
  {
  }

  /** The bindings sit at the end, just before the custom methods hook if there is one. */
  lemma BindingsBeforeHook(fields: Fields, getIds: seq<string>, setIds: seq<string>, customField: Option<string>,
                           impls: seq<MethodOrFunction>, customMethods: Option<string>)
    requires UserData(fields, getIds, setIds, customField, impls, customMethods).Ok?
    ensures var u := UserData(fields, getIds, setIds, customField, impls, customMethods).value;
      && (customMethods.None? ==> u.methods[|u.methods| - |impls|..] == Bindings(impls))
      && (customMethods.Some? ==> u.methods[|u.methods| - 1 - |impls|..|u.methods| - 1] == Bindings(impls))
  {
  }

  /** The method registrations: the index metamethods of a tuple struct, then the bindings,
      then the custom hook. */
  lemma UserDataMethods(fields: Fields, getIds: seq<string>, setIds: seq<string>, customField: Option<string>,
                        impls: seq<MethodOrFunction>, customMethods: Option<string>)
    requires UserData(fields, getIds, setIds, customField, impls, customMethods).Ok?
    ensures UserData(fields, getIds, setIds, customField, impls, customMethods).value.methods ==
      MetaRegs(fields, getIds, setIds) + Bindings(impls) + OptionalMethodsHook(customMethods)
  {
    match fields
    case Named(_) =>
    case Unnamed(_) =>
    case Unit =>
  }

  /** The index metamethods a tuple struct registers before its bindings. */
  function MetaRegs(fields: Fields, getIds: seq<string>, setIds: seq<string>): seq<MethodReg> {
    match fields
    case Unnamed(fs) =>
      if Arms(getIds, |fs|).Ok? && Arms(setIds, |fs|).Ok? then
        [MetaIndex(Arms(getIds, |fs|).value), MetaNewIndex(Arms(setIds, |fs|).value)]
      else []
    case _ => []
  }

  lemma {:induction false} SelectedPositionsParse(ids: seq<string>, n: nat)
    requires IsSubseq(ids, IndexStrings(0, n))
    ensures Arms(ids, n).Ok?
    ensures forall k: nat :: k < n ==> (k in Arms(ids, n).value <==> NatToString(k) in ids)
  {
    SubseqMembers(ids, IndexStrings(0, n));
    forall i | 0 <= i < |ids|
      ensures exists k: nat :: k < n && ids[i] == NatToString(k) && ParseDecimal(ids[i]) == Some(k)
    {
      assert ids[i] in IndexStrings(0, n);
      var k :| 0 <= k < n && IndexStrings(0, n)[k] == ids[i];
      ParseNatToString(k);
    }
    var arms := ParseArms(ids).value;
    forall a | a in arms
      ensures a < n
    {
      var i :| 0 <= i < |arms| && arms[i] == a;
      var k: nat :| k < n && ids[i] == NatToString(k) && ParseDecimal(ids[i]) == Some(k);
    }
    forall k: nat | k < n
      ensures k in arms <==> NatToString(k) in ids
    {
      ParseNatToString(k);
      if NatToString(k) in ids {
        var i :| 0 <= i < |ids| && ids[i] == NatToString(k);
        assert arms[i] == k;
      }
    }
  }

  /** With lists the resolver produced, a tuple struct's user data is generated without error,
      and position `k` has an `__index` (`__newindex`) arm exactly when "k" is a get (set)
      field. */
  lemma TupleStructArms(fs: seq<UnnamedField>, getSpec: FieldsVisibility, setSpec: FieldsVisibility,
                        customField: Option<string>, impls: seq<MethodOrFunction>, customMethods: Option<string>)
    requires FieldsFromVisibility(getSpec, Unnamed(fs)).Ok? && FieldsFromVisibility(setSpec, Unnamed(fs)).Ok?
    ensures var getIds := FieldsFromVisibility(getSpec, Unnamed(fs)).value;
      var setIds := FieldsFromVisibility(setSpec, Unnamed(fs)).value;
      var r := UserData(Unnamed(fs), getIds, setIds, customField, impls, customMethods);
      && r.Ok?
      && r.value.methods[0].MetaIndex? && r.value.methods[1].MetaNewIndex?
      && (forall k: nat :: k < |fs| ==> (k in r.value.methods[0].arms <==> NatToString(k) in getIds))
      && (forall k: nat :: k < |fs| ==> (k in r.value.methods[1].arms <==> NatToString(k) in setIds))
      && (forall a :: a in r.value.methods[0].arms + r.value.methods[1].arms ==> a < |fs|)
  {
    SelectionFollowsDeclaration(getSpec, Unnamed(fs));
    SelectionFollowsDeclaration(setSpec, Unnamed(fs));
    var getIds := FieldsFromVisibility(getSpec, Unnamed(fs)).value;
    var setIds := FieldsFromVisibility(setSpec, Unnamed(fs)).value;
    SelectedPositionsParse(getIds, |fs|);
    SelectedPositionsParse(setIds, |fs|);
    TupleMetamethods(fs, getIds, setIds, customField, impls, customMethods);
    var getArms, setArms := Arms(getIds, |fs|).value, Arms(setIds, |fs|).value;
    assert forall a :: a in getArms + setArms ==> a in getArms || a in setArms;
  }

  /** A tuple struct whose arms parse registers `__index` then `__newindex` with those arms. */
  lemma TupleMetamethods(fs: seq<UnnamedField>, getIds: seq<string>, setIds: seq<string>, customField: Option<string>,
                         impls: seq<MethodOrFunction>, customMethods: Option<string>)
    requires Arms(getIds, |fs|).Ok? && Arms(setIds, |fs|).Ok?
    ensures var r := UserData(Unnamed(fs), getIds, setIds, customField, impls, customMethods);
      && r.Ok?
      && r.value.methods[0] == MetaIndex(Arms(getIds, |fs|).value)
      && r.value.methods[1] == MetaNewIndex(Arms(setIds, |fs|).value)
  {
  }
}
