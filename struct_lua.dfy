/** What the code generated for a struct does at run time: field access on a userdata, the
    tuple-struct index metamethods, `FromLua`, and calls to bound methods. An instance is the
    Lua image of its fields (a `Payload`). */
module StructLua {
  import opened Wrappers
  import opened Text
  import opened Seqs
  import opened Lua
  import opened Syntax
  import opened Attr
  import opened Arity
  import opened Builder
  import opened StructGen

  // ---------------------------------------------------------------------------------------
  // Named fields

  /** `obj.key` on a named struct: the getter's clone of the field, or None when no getter is
      registered under `key`. */
  function FieldGet(ud: StructUserData, values: map<string, Value>, key: string): (r: Option<Value>)
    ensures r.Some? <==> FieldGetter(key) in ud.fields
    ensures r.Some? ==> r.value == Get(values, key)
  {
    if FieldGetter(key) in ud.fields then Some(Get(values, key)) else Wrappers.None
  }

  /** The declared type of a named field. */
  function FieldType(fs: seq<NamedField>, key: string): (r: Option<string>)
    ensures r.Some? ==> exists i :: 0 <= i < |fs| && fs[i].name == key && fs[i].ty == r.value
    ensures r.None? ==> key !in FieldNames(fs)
    decreases |fs|
  {
    if fs == [] then Wrappers.None
    else if fs[0].name == key then Some(fs[0].ty)
    else
      var t :- FieldType(fs[1..], key);
      assert FieldNames(fs) == [fs[0].name] + FieldNames(fs[1..]);
      Some(t)
  }

  /** `obj.key = v` on a named struct: the setter converts `v` to the field's type and assigns
      it; None when no setter is registered under `key`. */
  function FieldSet(conv: Conv, ud: StructUserData, fs: seq<NamedField>, values: map<string, Value>, key: string, v: Value)
    : (r: Option<Result<map<string, Value>>>)
    ensures r.Some? <==> FieldSetter(key) in ud.fields
    ensures r.Some? && r.value.Ok? ==> (FieldType(fs, key).Some? && conv(FieldType(fs, key).value, v).Ok? &&
      r.value.value == values[key := conv(FieldType(fs, key).value, v).value])
  {
    if FieldSetter(key) !in ud.fields then Wrappers.None
    else
      Some(match FieldType(fs, key)
           case None => Err(CompileError("no field on type"))
           case Some(ty) =>
             var x :- conv(ty, v);
             Ok(values[key := x]))
  }

  lemma GetterRegistered(fs: seq<NamedField>, getIds: seq<string>, setIds: seq<string>, customField: Option<string>,
                         impls: seq<MethodOrFunction>, customMethods: Option<string>, key: string)
    requires StructGen.UserData(Named(fs), getIds, setIds, customField, impls, customMethods).Ok?
    ensures var u := StructGen.UserData(Named(fs), getIds, setIds, customField, impls, customMethods).value;
      && (FieldGetter(key) in u.fields <==> key in getIds)
      && (FieldSetter(key) in u.fields <==> key in setIds)
  {
    var u := StructGen.UserData(Named(fs), getIds, setIds, customField, impls, customMethods).value;
    var getters := seq(|getIds|, i requires 0 <= i < |getIds| => FieldGetter(getIds[i]));
    var setters := seq(|setIds|, i requires 0 <= i < |setIds| => FieldSetter(setIds[i]));
    assert u.fields == getters + setters + OptionalFieldsHook(customField);
    if key in getIds {
      var i :| 0 <= i < |getIds| && getIds[i] == key;
      assert u.fields[i] == FieldGetter(key);
    }
    if key in setIds {
      var i :| 0 <= i < |setIds| && setIds[i] == key;
      assert u.fields[|getIds| + i] == FieldSetter(key);
    }
  }

  /** On a named struct, `obj.key` is readable exactly for the get-fields the resolver chose
      and assignable exactly for the set-fields; only declared fields are assignable. */
  lemma NamedFieldAccess(fs: seq<NamedField>, getSpec: FieldsVisibility, setSpec: FieldsVisibility,
                         customField: Option<string>, impls: seq<MethodOrFunction>, customMethods: Option<string>,
                         values: map<string, Value>, key: string)
    requires FieldsFromVisibility(getSpec, Named(fs)).Ok? && FieldsFromVisibility(setSpec, Named(fs)).Ok?
    ensures var getIds := FieldsFromVisibility(getSpec, Named(fs)).value;
      var setIds := FieldsFromVisibility(setSpec, Named(fs)).value;
      var r := StructGen.UserData(Named(fs), getIds, setIds, customField, impls, customMethods);
      && r.Ok?
      && (FieldGet(r.value, values, key).Some? <==> key in getIds)
      && (FieldSetter(key) in r.value.fields <==> key in setIds)
      && (key in setIds ==> FieldType(fs, key).Some?)
  {
    var getIds := FieldsFromVisibility(getSpec, Named(fs)).value;
    var setIds := FieldsFromVisibility(setSpec, Named(fs)).value;
    GetterRegistered(fs, getIds, setIds, customField, impls, customMethods, key);
    SelectionFollowsDeclaration(setSpec, Named(fs));
    SubseqMembers(setIds, DeclaredIds(Named(fs)));
  }

  /** An assignment followed by a read gives the converted value, and the other fields keep
      their values. */
  lemma NamedSetThenGet(conv: Conv, ud: StructUserData, fs: seq<NamedField>, values: map<string, Value>, key: string, v: Value)
    requires FieldGetter(key) in ud.fields
    requires FieldSet(conv, ud, fs, values, key, v).Some? && FieldSet(conv, ud, fs, values, key, v).value.Ok?
    ensures var after := FieldSet(conv, ud, fs, values, key, v).value.value;
      && FieldGet(ud, after, key) == Some(conv(FieldType(fs, key).value, v).value)
      && forall other :: other != key ==> Get(after, other) == Get(values, other)
  {
  }

  // ---------------------------------------------------------------------------------------
  // Tuple structs: `__index` and `__newindex`

  /** The Lua key converted to `usize`, then `index - 1` as the 0-based position. */
  function TupleIndex(arms: seq<nat>, items: seq<Value>, key: Value): (r: Result<Value>)
    requires forall a :: a in arms ==> a < |items|
    ensures r.Ok? <==> key.Integer? && key.n >= 1 && key.n - 1 in arms
    ensures r.Ok? ==> r.value == items[key.n - 1]
    ensures key == Integer(0) ==> r.Err? && r.failure.Panic?
  {
    if !key.Integer? || key.n < 0 then Err(RuntimeError("error converting Lua value to usize"))
    else if key.n == 0 then Err(Panic("attempt to subtract with overflow"))
    else if key.n - 1 in arms then Ok(items[key.n - 1])
    else Err(RuntimeError("Invalid index: " + NatToString(key.n)))
  }

  /** `__newindex`: the value converted to the field's type and assigned at `index - 1`. */
  function TupleNewIndex(conv: Conv, tys: seq<string>, arms: seq<nat>, items: seq<Value>, key: Value, v: Value)
    : (r: Result<seq<Value>>)
    requires |tys| == |items| && forall a :: a in arms ==> a < |items|
    ensures r.Ok? ==> |r.value| == |items|
    ensures r.Ok? ==> key.Integer? && key.n >= 1 && key.n - 1 in arms
    ensures r.Ok? ==> forall j :: 0 <= j < |items| && j != key.n - 1 ==> r.value[j] == items[j]
    ensures r.Ok? ==> conv(tys[key.n - 1], v) == Ok(r.value[key.n - 1])
  {
    if !key.Integer? || key.n < 0 then Err(RuntimeError("error converting Lua value to usize"))
    else if key.n == 0 then Err(Panic("attempt to subtract with overflow"))
    else if key.n - 1 in arms then
      var x :- conv(tys[key.n - 1], v);
      Ok(items[key.n - 1 := x])
    else Err(RuntimeError("Invalid index: " + NatToString(key.n)))
  }

  /** Lua indices are 1-based: index `k + 1` reads field `k` when it has an arm and is an
      "Invalid index" error otherwise; index 0 underflows. */
  lemma TupleIndexOneBased(arms: seq<nat>, items: seq<Value>, k: nat)
    requires forall a :: a in arms ==> a < |items|
    ensures TupleIndex(arms, items, Integer(k + 1)) ==
      if k in arms then Ok(items[k]) else Err(RuntimeError("Invalid index: " + NatToString(k + 1)))
    ensures TupleIndex(arms, items, Integer(0)).Err? && TupleIndex(arms, items, Integer(0)).failure.Panic?
  {
  }

  /** `t[k + 1] = v` followed by `t[k + 1]` gives the converted value; the other fields keep
      their values. */
  lemma TupleNewIndexThenIndex(conv: Conv, tys: seq<string>, getArms: seq<nat>, setArms: seq<nat>,
                               items: seq<Value>, k: nat, v: Value)
    requires |tys| == |items|
    requires forall a :: a in getArms ==> a < |items|
    requires forall a :: a in setArms ==> a < |items|
    requires k in setArms && conv(tys[k], v).Ok?
    ensures TupleNewIndex(conv, tys, setArms, items, Integer(k + 1), v).Ok?
    ensures var after := TupleNewIndex(conv, tys, setArms, items, Integer(k + 1), v).value;
      && (k in getArms ==> TupleIndex(getArms, after, Integer(k + 1)) == conv(tys[k], v))
      && forall j :: 0 <= j < |items| && j != k ==> after[j] == items[j]
  {
  }

  /** End to end: with the get list the resolver produced, Lua index `k + 1` reads field `k`
      exactly when the specification selected position "k". */
  lemma TupleIndexFollowsSelection(fs: seq<UnnamedField>, getSpec: FieldsVisibility, setSpec: FieldsVisibility,
                                   customField: Option<string>, impls: seq<MethodOrFunction>, customMethods: Option<string>,
                                   items: seq<Value>, k: nat)
    requires FieldsFromVisibility(getSpec, Unnamed(fs)).Ok? && FieldsFromVisibility(setSpec, Unnamed(fs)).Ok?
    requires |items| == |fs| && k < |fs|
    ensures var getIds := FieldsFromVisibility(getSpec, Unnamed(fs)).value;
      var setIds := FieldsFromVisibility(setSpec, Unnamed(fs)).value;
      var u := StructGen.UserData(Unnamed(fs), getIds, setIds, customField, impls, customMethods);
      && u.Ok? && u.value.methods[0].MetaIndex?
      && (forall a :: a in u.value.methods[0].arms ==> a < |items|)
      && (TupleIndex(u.value.methods[0].arms, items, Integer(k + 1)).Ok? <==> NatToString(k) in getIds)
  {
    TupleStructArms(fs, getSpec, setSpec, customField, impls, customMethods);
    var getIds := FieldsFromVisibility(getSpec, Unnamed(fs)).value;
    var u := StructGen.UserData(Unnamed(fs), getIds, FieldsFromVisibility(setSpec, Unnamed(fs)).value, customField, impls, customMethods);
    var arms := u.value.methods[0].arms;
    forall a | a in arms
      ensures a < |items|
    {
      assert a in arms + u.value.methods[1].arms;
    }
    TupleIndexOneBased(arms, items, k);
  }

  // ---------------------------------------------------------------------------------------
  // `FromLua`

  /** `FromLua::from_lua` for a struct named `typeName`. */
  function FromLua(conv: Conv, shape: FromLuaShape, typeName: string, v: Value): (r: Result<Payload>)
    ensures v.UserData? ==> (r.Ok? <==> v.typeName == typeName && v.native.StructValue?)
    ensures v.UserData? && r.Ok? ==> r.value == v.native.payload
    ensures !v.Table? && !v.UserData? ==> r.Err?
    ensures v.Table? && shape.FromUnit? ==> r == Ok(UnitPayload)
    ensures v.Table? && r.Ok? && shape.FromNamed? ==> r.value.NamedPayload? && r.value.values.Keys == set k | k in FieldNames(shape.fields)
    ensures v.Table? && r.Ok? && shape.FromTuple? ==> r.value.TuplePayload? && |r.value.items| == |shape.tys|
  {
    match v
    case Table(hash, items) =>
      (match shape
       case FromNamed(fs) =>
         var values :- GetFields(conv, FieldNames(fs), NamedTypes(fs), hash);
         Ok(NamedPayload(values))
       case FromTuple(tys) =>
         var vals :- TakeSequence(conv, tys, SequenceValues(items));
         Ok(TuplePayload(vals))
       case FromUnit => Ok(UnitPayload))
    case UserData(t, native) =>
      if t == typeName && native.StructValue? then Ok(native.payload)
      else Err(RuntimeError("userdata is not of the expected type"))
    case _ => Err(RuntimeError("Expected a table or a UserData. Got: " + Describe(v)))
  }

  /** A tuple struct reads exactly as many sequence values as it has fields, in order: values
      after those are ignored, and too few is "Not enough values in sequence table.". */
  lemma TupleFromLuaConsumesSequence(conv: Conv, tys: seq<string>, name: string, hash: map<string, Value>, items: seq<Value>)
    ensures var seqVals := SequenceValues(items);
      var r := FromLua(conv, FromTuple(tys), name, Table(hash, items));
      && (|seqVals| >= |tys| ==> r == FromLua(conv, FromTuple(tys), name, Table(map[], seqVals[..|tys|])))
      && (|seqVals| >= |tys| && r.Ok? ==> r.value.items == ConvertArgs(conv, tys, seqVals).value)
      && (|seqVals| < |tys| && (forall i :: 0 <= i < |seqVals| ==> conv(tys[i], seqVals[i]).Ok?) ==>
            r == Err(RuntimeError("Not enough values in sequence table.")))
  {
    var seqVals := SequenceValues(items);
    if |seqVals| >= |tys| {
      var prefix := seqVals[..|tys|];
      SequenceValuesOfNonNil(prefix);
      assert prefix[..|tys|] == prefix;
      TakeSequenceFirstError(conv, tys, seqVals, prefix);
      TakeSequenceAsArguments(conv, tys, seqVals);
    }
  }

  /** Reading the sequence converts the same values as a call with those arguments would. */
  lemma TakeSequenceAsArguments(conv: Conv, tys: seq<string>, vals: seq<Value>)
    requires |vals| >= |tys|
    ensures TakeSequence(conv, tys, vals).Ok? ==>
      ConvertArgs(conv, tys, vals).Ok? && TakeSequence(conv, tys, vals).value == ConvertArgs(conv, tys, vals).value
  {
    assert forall i :: 0 <= i < |tys| ==> ArgAt(vals, i) == vals[i];
  }

  lemma {:induction false} TakeSequenceFirstError(conv: Conv, tys: seq<string>, xs: seq<Value>, ys: seq<Value>)
    requires |xs| >= |tys| && |ys| >= |tys| && xs[..|tys|] == ys[..|tys|]
    ensures TakeSequence(conv, tys, xs) == TakeSequence(conv, tys, ys)
    decreases |tys|
  {
    if tys != [] {
      assert xs[0] == ys[0];
      assert xs[1..][..|tys| - 1] == ys[1..][..|tys| - 1];
      TakeSequenceFirstError(conv, tys[1..], xs[1..], ys[1..]);
    }
  }

  /** The Lua table image of a struct value: fields by name, or in sequence order. */
  function ToTable(p: Payload): Value {
    match p
    case NamedPayload(values) => Table(values, [])
    case TuplePayload(items) => Table(map[], items)
    case UnitPayload => Table(map[], [])
  }

  /** The shape `from_lua` expects for a struct's fields. */
  function ShapeOf(fields: Fields): FromLuaShape {
    match fields
    case Named(fs) => FromNamed(fs)
    case Unnamed(fs) => FromTuple(UnnamedTypes(fs))
    case Unit => FromUnit
  }

  /** A struct value whose table image holds exactly its declared fields. */
  predicate Fits(fields: Fields, p: Payload) {
    match fields
    case Named(fs) => p.NamedPayload? && p.values.Keys == set k | k in FieldNames(fs)
    case Unnamed(fs) => p.TuplePayload? && |p.items| == |fs| && forall i :: 0 <= i < |fs| ==> p.items[i] != Nil
    case Unit => p.UnitPayload?
  }

  /** The field types, in declaration order. */
  function FieldTypes(fields: Fields): seq<string> {
    match fields
    case Named(fs) => NamedTypes(fs)
    case Unnamed(fs) => UnnamedTypes(fs)
    case Unit => []
  }

  /** The field values of a value that fits the declaration, in declaration order. */
  function FieldValues(fields: Fields, p: Payload): (r: seq<Value>)
    requires Fits(fields, p)
    ensures |r| == |FieldTypes(fields)|
  {
    match fields
    case Named(fs) => seq(|fs|, i requires 0 <= i < |fs| => Get(p.values, fs[i].name))
    case Unnamed(_) => p.items
    case Unit => []
  }

  /** Reading a struct back from its table image gives the same value, when the leaf
      conversions accept the field values as they stand, the field names are distinct and no
      positional field is nil (the sequence would stop there). A userdata gives back the value
      it wraps. */
  lemma FromLuaRoundTrip(conv: Conv, fields: Fields, name: string, p: Payload)
    requires Fits(fields, p)
    requires fields.Named? ==> Distinct(FieldNames(fields.named))
    requires ConvKeeps(conv, FieldTypes(fields), FieldValues(fields, p))
    ensures FromLua(conv, ShapeOf(fields), name, ToTable(p)) == Ok(p)
    ensures FromLua(conv, ShapeOf(fields), name, Value.UserData(name, StructValue(p))) == Ok(p)
  {
    match fields
    case Named(fs) =>
      NamedTableReadsBack(conv, fs, name, p.values);
    case Unnamed(fs) =>
      TupleTableReadsBack(conv, UnnamedTypes(fs), name, p.items);
    case Unit =>
  }

  /** A table holding exactly the declared names, each accepted as it stands, reads back whole. */
  lemma NamedTableReadsBack(conv: Conv, fs: seq<NamedField>, name: string, values: map<string, Value>)
    requires Distinct(FieldNames(fs)) && values.Keys == set k | k in FieldNames(fs)
    requires ConvKeeps(conv, NamedTypes(fs), seq(|fs|, i requires 0 <= i < |fs| => Get(values, fs[i].name)))
    ensures FromLua(conv, FromNamed(fs), name, Table(values, [])) == Ok(NamedPayload(values))
  {
    GetFieldsReadsBack(conv, FieldNames(fs), NamedTypes(fs), values);
  }

  /** A sequence without holes, one value per field, each accepted as it stands, reads back whole. */
  lemma TupleTableReadsBack(conv: Conv, tys: seq<string>, name: string, items: seq<Value>)
    requires |tys| == |items| && ConvKeeps(conv, tys, items)
    requires forall i :: 0 <= i < |items| ==> items[i] != Nil
    ensures FromLua(conv, FromTuple(tys), name, Table(map[], items)) == Ok(TuplePayload(items))
  {
    SequenceValuesOfNonNil(items);
    TakeSequenceReadsBack(conv, tys, items);
  }

  /** Any value other than a table or userdata is refused. */
  lemma FromLuaRejectsOthers(conv: Conv, shape: FromLuaShape, name: string, v: Value)
    requires !v.Table? && !v.UserData?
    ensures FromLua(conv, shape, name, v) == Err(RuntimeError("Expected a table or a UserData. Got: " + Describe(v)))
  {
  }

  // ---------------------------------------------------------------------------------------
  // Bound methods and functions

  /** Calling a binding from Lua. A method takes the userdata as its first argument and is
      called on it; a function is called on the type. */
  function InvokeBinding(conv: Conv, reg: MethodReg, args: seq<Value>): (r: Result<Call>)
    requires reg.MethodBinding?
    ensures reg.onInstance && (args == [] || !args[0].UserData?) ==> r == Err(RuntimeError("bad argument #1: expected userdata"))
    ensures r.Ok? ==> r.value.callee == reg.callee && |r.value.args| == |reg.access.accessors|
    ensures r.Ok? ==> (reg.onInstance <==> r.value.receiver.Some?)
    ensures r.Ok? && reg.onInstance ==> args != [] && r.value.receiver == Some(args[0]) && args[0].UserData?
  {
    var receiver := if reg.onInstance then Some(ArgAt(args, 0)) else Wrappers.None;
    if receiver.Some? && !receiver.value.UserData? then Err(RuntimeError("bad argument #1: expected userdata"))
    else
      var rest := if reg.onInstance && args != [] then args[1..] else args;
      var p :- Receive(reg.access.ty, conv, rest);
      match ReadAll(reg.access.accessors, p)
      case None => Err(CompileError("mismatched types"))
      case Some(vs) => Ok(Call(reg.callee, receiver, vs))
  }

  /** A bound function receives its Lua arguments converted, in order; a bound method is called
      on the userdata it was invoked on, with the remaining arguments converted, in order. */
  lemma BindingPassesArguments(conv: Conv, m: MethodOrFunction, receiver: Value, args: seq<Value>)
    ensures !m.isSelf ==>
      InvokeBinding(conv, Binding(m), args) ==
        (var vs := ConvertArgs(conv, m.args, args);
         if vs.Ok? then Ok(Call("Self::" + m.name, Wrappers.None, vs.value)) else Err(vs.failure))
    ensures m.isSelf && receiver.UserData? ==>
      InvokeBinding(conv, Binding(m), [receiver] + args) ==
        (var vs := ConvertArgs(conv, m.args, args);
         if vs.Ok? then Ok(Call("this." + m.name, Some(receiver), vs.value)) else Err(vs.failure))
  {
    TupleAccessRoundTrip("args", m.args, conv, args);
    assert ([receiver] + args)[1..] == args;
  }
}
