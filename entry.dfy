/** The `#[mlua_gen]` attribute macro: parse the attribute, then generate the struct's or the
    enum's code and emit it after the unchanged item. */
module Entry {
  import opened Wrappers
  import opened Seqs
  import opened Syntax
  import opened Attr
  import opened Shared
  import opened StructGen
  import opened EnumGen

  /** The attribute's items applied in order to the default attributes; the first error ends
      parsing. */
  function ParseAll(st: AttrState, metas: seq<Meta>): (r: Result<AttrState>)
    ensures r.Err? ==> r.failure.CompileError?
    ensures metas == [] ==> r == Ok(st)
    decreases |metas|
  {
    if metas == [] then Ok(st)
    else
      var next :- ApplyMeta(st, metas[0]);
      ParseAll(next, metas[1..])
  }

  /** The `impl` entries without a receiver, in order: the static functions. */
  function Statics(impls: seq<MethodOrFunction>): (r: seq<MethodOrFunction>)
    ensures forall m :: m in r <==> m in impls && !m.isSelf
    ensures IsSubseq(r, impls)
    decreases |impls|
  {
    if impls == [] then []
    else
      var rest := Statics(impls[1..]);
      assert impls == [impls[0]] + impls[1..];
      if impls[0].isSelf then
        SubseqSkip(rest, impls[0], impls[1..]);
        rest
      else
        SubseqKeep(rest, impls[0], impls[1..]);
        [impls[0]] + rest
  }

  /** The generated implementations. */
  datatype Generated =
    | StructCode(builder: StructBuilder, userData: StructUserData)
    | EnumCode(enumBuilder: EnumBuilder, enumUserData: EnumUserData)

  /** The macro's output: the annotated item, the generic arguments the implementations name
      the type with, and the implementations. */
  datatype Output = Output(item: DeriveInput, typeArgs: GenericArgs, code: Generated)

  /** The body of the `match input.data`. */
  function Generate(data: Data, attrs: AttrState): (r: Result<Generated>)
    ensures data.Union? ==> r == Err(Panic("Must annotate struct or enum"))
    ensures data.Enum? ==> r.Ok? && r.value.EnumCode? && r.value.enumUserData.probes == data.variants
    ensures r.Ok? && data.Struct? ==> r.value.StructCode?
  {
    match data
    case Struct(fields) =>
      var getIds :- FieldsFromVisibility(attrs.getVis, fields);
      var setIds :- FieldsFromVisibility(attrs.setVis, fields);
      var ud :- StructGen.UserData(fields, getIds, setIds, attrs.customFields, attrs.impls, attrs.customImpls);
      Ok(StructCode(StructBuilderOf(fields, Statics(attrs.impls)), ud))
    case Enum(vs) =>
      Ok(EnumCode(EnumBuilderOf(vs, Statics(attrs.impls)), EnumUserDataOf(vs, attrs.customFields, attrs.customImpls)))
    case Union => Err(Panic("Must annotate struct or enum"))
  }

  /** `mlua_gen(args, input)`. */
  function Expand(input: DeriveInput, metas: seq<Meta>): (r: Result<Output>)
    ensures r.Ok? ==> r.value.item == input && r.value.typeArgs == RemoveTyFromGenerics(input.generics)
    ensures ParseAll(DefaultAttrs, metas).Err? ==> r == Err(ParseAll(DefaultAttrs, metas).failure)
    ensures input.data.Union? ==> r.Err?
  {
    var attrs :- ParseAll(DefaultAttrs, metas);
    var code :- Generate(input.data, attrs);
    Ok(Output(input, RemoveTyFromGenerics(input.generics), code))
  }

  /** The macro as it runs: a default `Attributes` value that the attribute parser updates
      item by item, stopping at the first error, then the generation. */
  method MluaGen(input: DeriveInput, metas: seq<Meta>) returns (r: Result<Output>)
    ensures r == Expand(input, metas)
  {
    var attributes := new Attributes();
    var i := 0;
    while i < |metas|
      invariant 0 <= i <= |metas|
      invariant ParseAll(DefaultAttrs, metas) == ParseAll(attributes.State(), metas[i..])
    {
      var p := attributes.Parse(metas[i]);
      if p.Err? {
        return Err(p.failure);
      }
      i := i + 1;
    }
    var code := Generate(input.data, attributes.State());
    if code.Err? {
      return Err(code.failure);
    }
    return Ok(Output(input, RemoveTyFromGenerics(input.generics), code.value));
  }

  /** A malformed attribute is reported as a compile error, whatever the item. */
  lemma AttributeErrorIsCompileError(input: DeriveInput, metas: seq<Meta>)
    requires ParseAll(DefaultAttrs, metas).Err?
    ensures Expand(input, metas) == Err(ParseAll(DefaultAttrs, metas).failure)
    ensures Expand(input, metas).failure.CompileError?
  {
  }

  /** On success the annotated item is emitted unchanged. A union is refused with a panic. */
  lemma ItemKept(input: DeriveInput, metas: seq<Meta>)
    ensures Expand(input, metas).Ok? ==> Expand(input, metas).value.item == input
    ensures input.data.Union? && ParseAll(DefaultAttrs, metas).Ok? ==>
      Expand(input, metas) == Err(Panic("Must annotate struct or enum"))
  {
  }

  /** A named struct's getters are the fields its `get` specification selects and its setters
      those its `set` specification selects: the two are resolved independently. */
  lemma StructAccessorsFollowSpecs(input: DeriveInput, metas: seq<Meta>)
    requires input.data.Struct? && input.data.fields.Named?
    requires Expand(input, metas).Ok?
    ensures var attrs := ParseAll(DefaultAttrs, metas).value;
      var code := Expand(input, metas).value.code;
      && code.StructCode?
      && GetterNames(code.userData.fields) == FieldsFromVisibility(attrs.getVis, input.data.fields).value
      && SetterNames(code.userData.fields) == FieldsFromVisibility(attrs.setVis, input.data.fields).value
  {
    var attrs := ParseAll(DefaultAttrs, metas).value;
    var fields := input.data.fields;
    NamedStructAccessors(fields.named, FieldsFromVisibility(attrs.getVis, fields).value,
      FieldsFromVisibility(attrs.setVis, fields).value, attrs.customFields, attrs.impls, attrs.customImpls);
  }

  lemma StaticsEmpty(impls: seq<MethodOrFunction>)
    ensures Statics(impls) != [] <==> exists m :: m in impls && !m.isSelf
  {
    if Statics(impls) != [] {
      assert Statics(impls)[0] in Statics(impls);
    }
  }

  lemma BindsEveryImpl(fields: Fields, getIds: seq<string>, setIds: seq<string>, customField: Option<string>,
                       impls: seq<MethodOrFunction>, customMethods: Option<string>)
    requires StructGen.UserData(fields, getIds, setIds, customField, impls, customMethods).Ok?
    ensures forall m :: m in impls ==>
      Binding(m) in StructGen.UserData(fields, getIds, setIds, customField, impls, customMethods).value.methods
  {
    var u := StructGen.UserData(fields, getIds, setIds, customField, impls, customMethods).value;
    UserDataMethods(fields, getIds, setIds, customField, impls, customMethods);
    forall m | m in impls
      ensures Binding(m) in u.methods
    {
      var k :| 0 <= k < |impls| && impls[k] == m;
      assert Bindings(impls)[k] == Binding(m);
    }
  }

  /** The static-function table holds exactly the `impl` entries without a receiver, for
      structs and enums alike; every entry, receiver or not, is bound on a struct's user data,
      and none on an enum's. */
  lemma StaticsAndBindings(input: DeriveInput, metas: seq<Meta>)
    requires Expand(input, metas).Ok?
    ensures var attrs := ParseAll(DefaultAttrs, metas).value;
      var code := Expand(input, metas).value.code;
      && (code.StructCode? ==>
            && (code.builder.functions.Some? <==> exists m :: m in attrs.impls && !m.isSelf)
            && (forall m :: m in attrs.impls ==> Binding(m) in code.userData.methods))
      && (code.EnumCode? ==>
            && (code.enumBuilder.functions.Some? <==> exists m :: m in attrs.impls && !m.isSelf)
            && (forall reg :: reg in code.enumUserData.methods ==> reg.CustomMethodsHook?))
  {
    var attrs := ParseAll(DefaultAttrs, metas).value;
    StaticsEmpty(attrs.impls);
    match input.data
    case Struct(fields) =>
      BindsEveryImpl(fields, FieldsFromVisibility(attrs.getVis, fields).value,
        FieldsFromVisibility(attrs.setVis, fields).value, attrs.customFields, attrs.impls, attrs.customImpls);
    case Enum(vs) =>
      EnumAccessors(vs, attrs.customFields, attrs.customImpls, "");
  }
}
