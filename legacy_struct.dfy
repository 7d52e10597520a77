/** The struct generator of the older `src` crate (`struct_builder`): a `UserData`
    implementation with one cloning getter per get-name, one assigning setter per set-name, one
    binding per `impl` signature, and the custom hooks after them. It emits no constructor, no
    `FromLua` and no index metamethods. */
module LegacyStruct {
  import opened Wrappers
  import opened Lua
  import opened Syntax
  import opened Arity
  import opened Attr
  import Shared
  import Builder
  import opened StructGen
  import opened StructLua
  import opened LegacyAttr

  /** One `method_or_fns.<kind>(name, |_, [this,] param: ty| Ok(<caller>name(<access>)))`: the
      kind chosen by `(is_mut, is_method)`, the call made on `this.` for a method and on
      `Self::` otherwise, the arguments split with the parameter `param`. */
  function LegacyBinding(m: LegacyMethod): (r: MethodReg)
    ensures r.MethodBinding? && r.key == m.name && r.onInstance == m.isMethod
    ensures r.kind == AddKindOf(m.isMut, m.isMethod)
    ensures r.access == TupleAccessSpec("param", m.args)
  {
    MethodBinding(AddKindOf(m.isMut, m.isMethod), m.name, m.isMethod,
      (if m.isMethod then "this." else "Self::") + m.name, Shared.GenerateTupleAccess(m.args))
  }

  /** The registrations of the emitted `add_fields` and `add_methods`. */
  datatype LegacyStructUserData = LegacyStructUserData(fields: seq<FieldReg>, methods: seq<MethodReg>)

  /** `struct_builder`. */
  function LegacyStructBuilder(getFields: seq<string>, setFields: seq<string>, customField: Option<string>,
                               impls: seq<LegacyMethod>, customMethod: Option<string>): (r: LegacyStructUserData)
    ensures forall f :: f in r.fields && f.FieldGetter? ==> f.name in getFields
    ensures forall f :: f in r.fields && f.FieldSetter? ==> f.name in setFields
    ensures forall f :: f in r.fields && f.CustomFieldsHook? ==> customField == Some(f.hook)
  {
    var getters := seq(|getFields|, i requires 0 <= i < |getFields| => FieldGetter(getFields[i]));
    var setters := seq(|setFields|, i requires 0 <= i < |setFields| => FieldSetter(setFields[i]));
    var bindings := seq(|impls|, i requires 0 <= i < |impls| => LegacyBinding(impls[i]));
    LegacyStructUserData(getters + setters + OptionalFieldsHook(customField), bindings + OptionalMethodsHook(customMethod))
  }

  /** The field registrations are those of the current generator for a named struct: one getter
      per get-name and one setter per set-name, in list order, then the custom fields hook.
      The bindings follow the `impl` list, with the custom methods hook last. */
  lemma LegacyStructLayout(getFields: seq<string>, setFields: seq<string>, customField: Option<string>,
                           impls: seq<LegacyMethod>, customMethod: Option<string>, fs: seq<NamedField>)
    ensures var u := LegacyStructBuilder(getFields, setFields, customField, impls, customMethod);
      && u.fields == StructGen.UserData(Named(fs), getFields, setFields, customField, [], customMethod).value.fields
      && GetterNames(u.fields) == getFields
      && SetterNames(u.fields) == setFields
      && (customField.Some? ==> u.fields[|u.fields| - 1] == CustomFieldsHook(customField.value))
      && |u.methods| == |impls| + (if customMethod.Some? then 1 else 0)
      && (forall i :: 0 <= i < |impls| ==> u.methods[i] == LegacyBinding(impls[i]))
      && (customMethod.Some? ==> u.methods[|u.methods| - 1] == CustomMethodsHook(customMethod.value))
  {
    NamedStructAccessors(fs, getFields, setFields, customField, [], customMethod);
  }

  /** What the older parser's flags make of each receiver: `&mut self` and `&self` are methods
      called on the instance, while a by-value `mut self` gets `add_function_mut` and a by-value
      `self` is bound as a plain function called on `Self::`. */
  lemma LegacyReceiverKinds(name: string, args: seq<Expr>)
    ensures var kept, r := KeptArgs(args), LegacyBinding(LegacyMethodOf(name, args));
      && (kept != [] && kept[0] == "& mut self" ==> r.kind == AddMethodMut && r.onInstance)
      && (kept != [] && kept[0] == "& self" ==> r.kind == AddMethod && r.onInstance)
      && (kept != [] && kept[0] == "mut self" ==> r.kind == AddFunctionMut && !r.onInstance)
      && (kept != [] && kept[0] == "self" ==> r.kind == AddFunction && !r.onInstance)
      && (kept == [] || kept[0] !in ["& mut self", "& self", "mut self", "self"] ==>
            r.kind == AddFunction && !r.onInstance)
  {
  }

  /** A bound function receives its Lua arguments converted to the remaining signature types,
      in order; a bound method is called on the userdata it was invoked on. */
  lemma LegacyBindingPassesArguments(conv: Conv, m: LegacyMethod, receiver: Value, args: seq<Value>)
    ensures !m.isMethod ==>
      InvokeBinding(conv, LegacyBinding(m), args) ==
        (var vs := ConvertArgs(conv, m.args, args);
         if vs.Ok? then Ok(Builder.Call("Self::" + m.name, Wrappers.None, vs.value)) else Err(vs.failure))
    ensures m.isMethod && receiver.UserData? ==>
      InvokeBinding(conv, LegacyBinding(m), [receiver] + args) ==
        (var vs := ConvertArgs(conv, m.args, args);
         if vs.Ok? then Ok(Builder.Call("this." + m.name, Some(receiver), vs.value)) else Err(vs.failure))
  {
    TupleAccessRoundTrip("param", m.args, conv, args);
    assert ([receiver] + args)[1..] == args;
  }
}
