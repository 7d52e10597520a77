/** The enum generator: the `LuaBuilder` implementation (a table of variant constructors) and
    the `UserData` registrations, as descriptors. */
module EnumGen {
  import opened Wrappers
  import opened Text
  import opened Seqs
  import opened Lua
  import opened Syntax
  import opened Attr
  import opened Builder
  import opened Globals
  import opened StructGen

  // ---------------------------------------------------------------------------------------
  // `builder`

  /** `lua_builder`'s variant table, in `table.set` order, and `lua_fn_builder`'s table. */
  datatype EnumBuilder = EnumBuilder(variants: seq<(string, Ctor)>, functions: Option<seq<FnEntry>>)

  function VariantNames(vs: seq<Variant>): (r: seq<string>)
    ensures |r| == |vs| && forall i :: 0 <= i < |vs| ==> r[i] == vs[i].name
  {
    seq(|vs|, i requires 0 <= i < |vs| => vs[i].name)
  }

  /** `r#enum::builder`: each variant under its own name, built at the path `Self::Variant`;
      a unit variant is the value itself, the others are plain constructor functions. */
  function EnumBuilderOf(vs: seq<Variant>, fns: seq<MethodOrFunction>): (b: EnumBuilder)
    ensures |b.variants| == |vs|
    ensures forall i :: 0 <= i < |vs| ==> b.variants[i].0 == vs[i].name
    ensures forall i :: 0 <= i < |vs| ==> (vs[i].fields.Unit? <==> !IsFunction(b.variants[i].1))
    ensures forall i :: 0 <= i < |vs| ==> b.variants[i].1.path == "Self::" + vs[i].name
    ensures forall i :: 0 <= i < |vs| && IsFunction(b.variants[i].1) ==> b.variants[i].1.creation == CreateFunction
    ensures b.functions.Some? <==> fns != []
  {
    EnumBuilder(
      seq(|vs|, i requires 0 <= i < |vs| => (vs[i].name, BuilderForFields("Self::" + vs[i].name, vs[i].fields, false))),
      BuilderForFunctions("Self", fns))
  }

  /** The variant table after the `table.set` calls, in order. */
  function VariantMap(entries: seq<(string, Ctor)>): (m: map<string, Ctor>)
    ensures m.Keys == set i | 0 <= i < |entries| :: entries[i].0
    decreases |entries|
  {
    if entries == [] then map[]
    else
      var init := entries[..|entries| - 1];
      var m := VariantMap(init)[entries[|entries| - 1].0 := entries[|entries| - 1].1];
      assert forall i :: 0 <= i < |init| ==> init[i] == entries[i];
      m
  }

  lemma {:induction false} VariantMapLastWins(entries: seq<(string, Ctor)>, i: nat)
    requires i < |entries|
    requires forall j :: i < j < |entries| ==> entries[j].0 != entries[i].0
    ensures VariantMap(entries)[entries[i].0] == entries[i].1
    decreases |entries|
  {
    if i < |entries| - 1 {
      var init := entries[..|entries| - 1];
      assert init[i] == entries[i];
      VariantMapLastWins(init, i);
    }
  }

  /** `to_globals_as` as written: the static functions are copied into a table that is then
      dropped, and a freshly built variant table is registered. */
  function EnumToGlobalsAs(b: EnumBuilder, globals: Registry, s: string): (r: Registry)
    ensures r.Keys == globals.Keys + {s}
    ensures forall k :: k in globals && k != s ==> r[k] == globals[k]
    ensures r[s] == VariantTable(VariantMap(b.variants), map[])
  {
    globals[s := VariantTable(VariantMap(b.variants), map[])]
  }

  /** `to_globals_as` as its comment intends: the variant table extended with the static
      functions, a function replacing a variant of the same name. */
  function EnumToGlobalsAsExtended(b: EnumBuilder, globals: Registry, s: string): (r: Registry)
    ensures r.Keys == globals.Keys + {s}
    ensures forall k :: k in globals && k != s ==> r[k] == globals[k]
    ensures r[s].VariantTable? && r[s].variants == VariantMap(b.variants)
    ensures b.functions.None? ==> r[s].functions == map[]
    ensures b.functions.Some? ==> r[s].functions == FnTable(b.functions.value)
  {
    var fns := match b.functions case Some(es) => FnTable(es) case None => map[];
    globals[s := VariantTable(VariantMap(b.variants), fns)]
  }

  /** `to_globals`: registration under the enum's own name. */
  function EnumToGlobals(name: string, b: EnumBuilder, globals: Registry): (r: Registry)
    ensures r.Keys == globals.Keys + {name}
    ensures forall k :: k in globals && k != name ==> r[k] == globals[k]
    ensures r[name] == VariantTable(VariantMap(b.variants), map[])
  {
    EnumToGlobalsAs(b, globals, name)
  }

  /** Every variant is reachable in the registered table under its own name, bound to its
      constructor (variant names are distinct in Rust). */
  lemma VariantsRegistered(vs: seq<Variant>, fns: seq<MethodOrFunction>, globals: Registry, s: string, i: nat)
    requires Distinct(VariantNames(vs)) && i < |vs|
    ensures TableEntry(EnumToGlobalsAs(EnumBuilderOf(vs, fns), globals, s)[s], vs[i].name) ==
      Some(CtorMember(BuilderForFields("Self::" + vs[i].name, vs[i].fields, false)))
  {
    var b := EnumBuilderOf(vs, fns);
    forall j | i < j < |b.variants|
      ensures b.variants[j].0 != b.variants[i].0
    {
      assert VariantNames(vs)[i] != VariantNames(vs)[j];
    }
    VariantMapLastWins(b.variants, i);
  }

  /** As written, a key that is not a variant name finds nothing in the registered table,
      whatever static functions the enum declares. */
  lemma StaticFunctionsUnreachable(vs: seq<Variant>, fns: seq<MethodOrFunction>, globals: Registry, s: string, key: string)
    requires key !in VariantNames(vs)
    ensures TableEntry(EnumToGlobalsAs(EnumBuilderOf(vs, fns), globals, s)[s], key).None?
  {
    var b := EnumBuilderOf(vs, fns);
    forall i | 0 <= i < |b.variants|
      ensures b.variants[i].0 != key
    {
      assert VariantNames(vs)[i] == b.variants[i].0;
    }
  }

  /** The discrepancy on a concrete enum: `enum Animal { Pig }` with `impl = [new()]` has a
      function table holding `new`, yet `Animal.new` is nil once registered. */
  lemma StaticFunctionDropped()
    ensures var vs := [Variant("Pig", Unit)];
      var fns := [MethodOrFunction("new", [], false, false)];
      var b := EnumBuilderOf(vs, fns);
      && b.functions.Some? && "new" in FnTable(b.functions.value)
      && TableEntry(EnumToGlobalsAs(b, map[], "Animal")["Animal"], "new").None?
  {
    var vs := [Variant("Pig", Unit)];
    var fns := [MethodOrFunction("new", [], false, false)];
    assert VariantNames(vs)[0] == "Pig";
    StaticFunctionsUnreachable(vs, fns, map[], "Animal", "new");
  }

  /** With the extension kept, every static function is reachable under its name (the last
      one of a name wins), and every variant that no function shadows keeps its constructor. */
  lemma ExtendedRegistersFunctions(vs: seq<Variant>, fns: seq<MethodOrFunction>, globals: Registry, s: string, i: nat)
    requires i < |fns|
    requires forall j :: i < j < |fns| ==> fns[j].name != fns[i].name
    ensures TableEntry(EnumToGlobalsAsExtended(EnumBuilderOf(vs, fns), globals, s)[s], fns[i].name) ==
      Some(FnMember(EntryFor("Self", fns[i])))
  {
    FunctionTableEntries("Self", fns, i);
  }

  lemma ExtendedKeepsVariants(vs: seq<Variant>, fns: seq<MethodOrFunction>, globals: Registry, s: string, i: nat)
    requires Distinct(VariantNames(vs)) && i < |vs|
    requires forall f :: f in fns ==> f.name != vs[i].name
    ensures TableEntry(EnumToGlobalsAsExtended(EnumBuilderOf(vs, fns), globals, s)[s], vs[i].name) ==
      Some(CtorMember(BuilderForFields("Self::" + vs[i].name, vs[i].fields, false)))
  {
    var b := EnumBuilderOf(vs, fns);
    VariantsRegistered(vs, fns, globals, s, i);
    if b.functions.Some? {
      forall e | e in b.functions.value
        ensures e.key != vs[i].name
      {
        var j :| 0 <= j < |b.functions.value| && b.functions.value[j] == e;
        assert fns[j] in fns;
      }
    }
  }

  /** Calling a variant with fields through the registered table builds the variant from the
      Lua arguments, as its plain constructor does. */
  lemma VariantCallConstructs(conv: Conv, vs: seq<Variant>, fns: seq<MethodOrFunction>, globals: Registry, s: string,
                              i: nat, args: seq<Value>)
    requires Distinct(VariantNames(vs)) && i < |vs| && vs[i].fields.Unnamed?
    ensures var e := TableEntry(EnumToGlobalsAs(EnumBuilderOf(vs, fns), globals, s)[s], vs[i].name);
      && e.Some? && e.value.CtorMember? && IsFunction(e.value.ctor)
      && (Construct(conv, e.value.ctor, args).Ok? <==> Arity.ConvertArgs(conv, UnnamedTypes(vs[i].fields.unnamed), args).Ok?)
      && (Construct(conv, e.value.ctor, args).Ok? ==>
            Construct(conv, e.value.ctor, args).value ==
              TuplePayload(Arity.ConvertArgs(conv, UnnamedTypes(vs[i].fields.unnamed), args).value))
  {
    VariantsRegistered(vs, fns, globals, s, i);
    TupleConstructorInOrder(conv, "Self::" + vs[i].name, vs[i].fields.unnamed, args);
  }

  // ---------------------------------------------------------------------------------------
  // `user_data`

  /** The `UserData` and `FromLua` implementations: the variants in probe order (each probed
      under its lower-cased name), the field registrations and the method registrations. */
  datatype EnumUserData = EnumUserData(probes: seq<Variant>, fields: seq<FieldReg>, methods: seq<MethodReg>)

  /** The accessors of one variant: a getter under the lower-cased name, and a setter unless
      the variant is a unit variant. */
  function VariantAccessors(v: Variant): (r: seq<FieldReg>)
    ensures |r| == if v.fields.Unit? then 1 else 2
    ensures r[0] == FieldGetter(ToLower(v.name))
    ensures !v.fields.Unit? ==> r[1] == FieldSetter(ToLower(v.name))
  {
    [FieldGetter(ToLower(v.name))] + if v.fields.Unit? then [] else [FieldSetter(ToLower(v.name))]
  }

  function AllAccessors(vs: seq<Variant>): seq<FieldReg>
    decreases |vs|
  {
    if vs == [] then [] else VariantAccessors(vs[0]) + AllAccessors(vs[1..])
  }

  /** `r#enum::user_data`. */
  function EnumUserDataOf(vs: seq<Variant>, customField: Option<string>, customMethods: Option<string>): (u: EnumUserData)
    ensures u.probes == vs
    ensures |AllAccessors(vs)| <= |u.fields| && u.fields[..|AllAccessors(vs)|] == AllAccessors(vs)
    ensures forall m :: m in u.methods ==> customMethods.Some? && m == CustomMethodsHook(customMethods.value)
  {
    EnumUserData(vs, AllAccessors(vs) + OptionalFieldsHook(customField), OptionalMethodsHook(customMethods))
  }

  lemma {:induction false} AllAccessorsMembers(vs: seq<Variant>, key: string)
    ensures FieldGetter(key) in AllAccessors(vs) <==> exists v :: v in vs && ToLower(v.name) == key
    ensures FieldSetter(key) in AllAccessors(vs) <==> exists v :: v in vs && ToLower(v.name) == key && !v.fields.Unit?
    ensures forall r :: r in AllAccessors(vs) ==> !r.CustomFieldsHook?
    decreases |vs|
  {
    if vs != [] {
      AllAccessorsMembers(vs[1..], key);
      assert forall v :: v in vs <==> v == vs[0] || v in vs[1..];
    }
  }

  /** Every variant is readable under its lower-cased name and, unless it is a unit variant,
      assignable; nothing else is registered except the custom hook, which comes last. The
      `impl` list is not used for enums: the only method registration is the custom hook. */
  lemma EnumAccessors(vs: seq<Variant>, customField: Option<string>, customMethods: Option<string>, key: string)
    ensures var u := EnumUserDataOf(vs, customField, customMethods);
      && (FieldGetter(key) in u.fields <==> exists v :: v in vs && ToLower(v.name) == key)
      && (FieldSetter(key) in u.fields <==> exists v :: v in vs && ToLower(v.name) == key && !v.fields.Unit?)
      && (forall r :: r in u.fields && r.CustomFieldsHook? ==> customField == Some(r.hook) && r == u.fields[|u.fields| - 1])
      && (forall m :: m in u.methods ==> m == CustomMethodsHook(customMethods.value))
      && u.probes == vs
  {
    AllAccessorsMembers(vs, key);
    var u := EnumUserDataOf(vs, customField, customMethods);
    forall r | r in u.fields && r.CustomFieldsHook?
      ensures customField == Some(r.hook) && r == u.fields[|u.fields| - 1]
    {
      assert r !in AllAccessors(vs);
    }
  }
}
