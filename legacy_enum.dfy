/** The enum generator of the older `src` crate (`enum_builder`) and what its code does at run
    time. Every variant gets a getter under its lower-cased name; a unit variant also gets a
    field under its own name holding that variant; a variant with fields gets a constructor
    function under its own name. The custom hooks are accepted and never emitted. */
module LegacyEnum {
  import opened Wrappers
  import opened Text
  import opened Seqs
  import opened Lua
  import opened Syntax
  import opened Arity
  import opened Builder
  import Shared
  import opened EnumGen
  import opened EnumLua

  /** A registration in the emitted `add_fields`: a variant's getter, or a unit variant's
      constant. */
  datatype LegacyField =
    | VariantGetter(key: string, variant: Variant)
    | UnitConstant(key: string, name: string)

  /** A registration in the emitted `add_methods`: the constructor of a variant with fields,
      reading a table of named fields or positional arguments split with the parameter
      `param`. */
  datatype LegacyCtor =
    | NamedVariantCtor(key: string, name: string, fields: seq<NamedField>)
    | TupleVariantCtor(key: string, name: string, access: TupleAccess)

  datatype LegacyEnumUserData = LegacyEnumUserData(fields: seq<LegacyField>, methods: seq<LegacyCtor>)

  /** The constructor of one variant with fields. */
  function CtorOf(v: Variant): (c: LegacyCtor)
    requires !v.fields.Unit?
    ensures c.key == v.name && c.name == v.name
    ensures v.fields.Named? ==> c == NamedVariantCtor(v.name, v.name, v.fields.named)
    ensures v.fields.Unnamed? ==> c.TupleVariantCtor? && c.access == TupleAccessSpec("param", UnnamedTypes(v.fields.unnamed))
  {
    match v.fields
    case Named(fs) => NamedVariantCtor(v.name, v.name, fs)
    case Unnamed(fs) => TupleVariantCtor(v.name, v.name, Shared.GenerateTupleAccess(UnnamedTypes(fs)))
  }

  function Getters(vs: seq<Variant>): (r: seq<LegacyField>)
    ensures |r| == |vs| && forall i :: 0 <= i < |vs| ==> r[i] == VariantGetter(ToLower(vs[i].name), vs[i])
  {
    seq(|vs|, i requires 0 <= i < |vs| => VariantGetter(ToLower(vs[i].name), vs[i]))
  }

  /** The unit variants' constants, in declaration order. */
  function UnitConstants(vs: seq<Variant>): (r: seq<LegacyField>)
    ensures forall f :: f in r <==> exists v :: v in vs && v.fields.Unit? && f == UnitConstant(v.name, v.name)
    decreases |vs|
  {
    if vs == [] then []
    else
      var rest := UnitConstants(vs[1..]);
      assert forall v :: v in vs <==> v == vs[0] || v in vs[1..];
      (if vs[0].fields.Unit? then [UnitConstant(vs[0].name, vs[0].name)] else []) + rest
  }

  /** The constructors of the variants with fields, in declaration order. */
  function VariantCtors(vs: seq<Variant>): (r: seq<LegacyCtor>)
    ensures forall c :: c in r <==> exists v :: v in vs && !v.fields.Unit? && c == CtorOf(v)
    decreases |vs|
  {
    if vs == [] then []
    else
      var rest := VariantCtors(vs[1..]);
      assert forall v :: v in vs <==> v == vs[0] || v in vs[1..];
      (if vs[0].fields.Unit? then [] else [CtorOf(vs[0])]) + rest
  }

  /** `enum_builder`: every getter, then every unit constant; the constructor functions. */
  function LegacyEnumBuilder(vs: seq<Variant>, customField: Option<string>, customMethod: Option<string>): (r: LegacyEnumUserData)
    ensures |r.fields| >= |vs| && forall i :: 0 <= i < |vs| ==> r.fields[i] == VariantGetter(ToLower(vs[i].name), vs[i])
    ensures forall c :: c in r.methods ==> exists v :: v in vs && !v.fields.Unit? && c == CtorOf(v)
  {
    LegacyEnumUserData(Getters(vs) + UnitConstants(vs), VariantCtors(vs))
  }

  /** The layout: one getter per variant under its lower-cased name, in declaration order,
      followed by a constant under its own name for each unit variant and nothing else; one
      constructor function per variant with fields; and the custom hooks change nothing. */
  lemma LegacyEnumLayout(vs: seq<Variant>, customField: Option<string>, customMethod: Option<string>)
    ensures var u := LegacyEnumBuilder(vs, customField, customMethod);
      && u == LegacyEnumBuilder(vs, Wrappers.None, Wrappers.None)
      && |u.fields| >= |vs|
      && (forall i :: 0 <= i < |vs| ==> u.fields[i] == VariantGetter(ToLower(vs[i].name), vs[i]))
      && (forall f :: f in u.fields[|vs|..] <==>
            exists v :: v in vs && v.fields.Unit? && f == UnitConstant(v.name, v.name))
      && (forall c :: c in u.methods <==> exists v :: v in vs && !v.fields.Unit? && c == CtorOf(v))
  {
    var u := LegacyEnumBuilder(vs, customField, customMethod);
    assert u.fields[|vs|..] == UnitConstants(vs);
  }

  // ---------------------------------------------------------------------------------------
  // Reading a field

  /** The last registration under `key`: a later field of a name replaces an earlier one. */
  function LastField(fields: seq<LegacyField>, key: string): (r: Option<nat>)
    ensures r.Some? ==> r.value < |fields| && fields[r.value].key == key
    ensures r.Some? ==> forall j :: r.value < j < |fields| ==> fields[j].key != key
    ensures r.None? ==> forall j :: 0 <= j < |fields| ==> fields[j].key != key
    decreases |fields|
  {
    if fields == [] then Wrappers.None
    else if fields[|fields| - 1].key == key then Some(|fields| - 1)
    else LastField(fields[..|fields| - 1], key)
  }

  /** `value.key` on the older enum userdata of type `typeName`: a getter gives the variant's
      image or nil, a unit constant a fresh userdata holding that unit variant. */
  function LegacyIndex(typeName: string, u: LegacyEnumUserData, inst: Native, key: string): (r: Option<Value>)
    requires inst.EnumValue?
    ensures r.Some? <==> exists j :: 0 <= j < |u.fields| && u.fields[j].key == key
    ensures r.Some? && r.value.UserData? ==> r.value.typeName == typeName && r.value.native.EnumValue? && r.value.native.payload == UnitPayload
  {
    match LastField(u.fields, key)
    case None => Wrappers.None
    case Some(i) =>
      match u.fields[i]
      case VariantGetter(_, v) => Some(VariantGet(v, inst))
      case UnitConstant(_, n) => Some(Value.UserData(typeName, EnumValue(n, UnitPayload)))
  }

  /** A lower-cased key that belongs to one variant and names no unit variant reads as the
      current generator's getter does: the image for that variant, nil for any other. */
  lemma LegacyGetterAsCurrent(typeName: string, vs: seq<Variant>, customField: Option<string>, customMethod: Option<string>,
                              inst: Native, i: nat)
    requires inst.EnumValue? && i < |vs| && EnumLua.OwnKey(vs, i)
    requires forall v :: v in vs && v.fields.Unit? ==> v.name != ToLower(vs[i].name)
    ensures LegacyIndex(typeName, LegacyEnumBuilder(vs, customField, customMethod), inst, ToLower(vs[i].name))
      == Some(VariantGet(vs[i], inst))
    ensures EnumLua.Index(vs, inst, ToLower(vs[i].name)) == Some(VariantGet(vs[i], inst))
  {
    var key := ToLower(vs[i].name);
    var u := LegacyEnumBuilder(vs, customField, customMethod);
    forall j | |vs| <= j < |u.fields|
      ensures u.fields[j].key != key
    {
      assert u.fields[j] in u.fields[|vs|..];
      LegacyEnumLayout(vs, customField, customMethod);
    }
    forall j | i < j < |vs|
      ensures u.fields[j].key != key
    {
    }
    assert u.fields[i].key == key;
    var r := LastField(u.fields, key);
    assert r == Some(i);
    var c := EnumLua.LastAccessor(vs, key, false);
    assert c == Some(i);
  }

  /** A unit variant's own name reads as a new value of that variant, provided variant names
      are distinct. */
  lemma LegacyUnitConstant(typeName: string, vs: seq<Variant>, customField: Option<string>, customMethod: Option<string>,
                           inst: Native, i: nat)
    requires inst.EnumValue? && i < |vs| && vs[i].fields.Unit?
    requires Distinct(VariantNames(vs))
    ensures LegacyIndex(typeName, LegacyEnumBuilder(vs, customField, customMethod), inst, vs[i].name)
      == Some(Value.UserData(typeName, EnumValue(vs[i].name, UnitPayload)))
  {
    var u := LegacyEnumBuilder(vs, customField, customMethod);
    LegacyEnumLayout(vs, customField, customMethod);
    var f := UnitConstant(vs[i].name, vs[i].name);
    assert vs[i] in vs;
    assert f in u.fields[|vs|..];
    var k :| |vs| <= k < |u.fields| && u.fields[k] == f;
    UnitConstantsOnce(vs, i);
    forall j | k < j < |u.fields|
      ensures u.fields[j].key != vs[i].name
    {
      assert u.fields[j] in u.fields[|vs|..];
      var v :| v in vs && v.fields.Unit? && u.fields[j] == UnitConstant(v.name, v.name);
      assert u.fields[j] != f;
    }
    LastFieldAt(u.fields, vs[i].name, k);
  }

  /** The last registration under `key` is the one no later field shares the key with. */
  lemma {:induction false} LastFieldAt(fields: seq<LegacyField>, key: string, k: nat)
    requires k < |fields| && fields[k].key == key
    requires forall j :: k < j < |fields| ==> fields[j].key != key
    ensures LastField(fields, key) == Some(k)
    decreases |fields|
  {
    if k < |fields| - 1 {
      LastFieldAt(fields[..|fields| - 1], key, k);
    }
  }

  /** With distinct names, a unit variant's constant is registered once. */
  lemma {:induction false} UnitConstantsOnce(vs: seq<Variant>, i: nat)
    requires i < |vs| && vs[i].fields.Unit? && Distinct(VariantNames(vs))
    ensures forall a, b :: |vs| <= a < b < |Getters(vs) + UnitConstants(vs)| ==>
      (Getters(vs) + UnitConstants(vs))[a] != UnitConstant(vs[i].name, vs[i].name) ||
      (Getters(vs) + UnitConstants(vs))[b] != UnitConstant(vs[i].name, vs[i].name)
  {
    var fields := Getters(vs) + UnitConstants(vs);
    forall a, b | |vs| <= a < b < |fields|
      ensures fields[a] != UnitConstant(vs[i].name, vs[i].name) || fields[b] != UnitConstant(vs[i].name, vs[i].name)
    {
      assert fields[a] == UnitConstants(vs)[a - |vs|] && fields[b] == UnitConstants(vs)[b - |vs|];
      UnitConstantsDistinct(vs, a - |vs|, b - |vs|);
    }
  }

  /** Distinct variant names give distinct unit constants. */
  lemma {:induction false} UnitConstantsDistinct(vs: seq<Variant>, a: nat, b: nat)
    requires Distinct(VariantNames(vs))
    requires a < b < |UnitConstants(vs)|
    ensures UnitConstants(vs)[a] != UnitConstants(vs)[b]
    decreases |vs|
  {
    var rest := UnitConstants(vs[1..]);
    TailNamesDistinct(vs);
    if vs[0].fields.Unit? {
      assert UnitConstants(vs) == [UnitConstant(vs[0].name, vs[0].name)] + rest;
      if a == 0 {
        assert UnitConstants(vs)[b] == rest[b - 1];
        HeadConstantUnique(vs, rest[b - 1]);
      } else {
        UnitConstantsDistinct(vs[1..], a - 1, b - 1);
      }
    } else {
      assert UnitConstants(vs) == rest;
      UnitConstantsDistinct(vs[1..], a, b);
    }
  }

  /** Dropping the first variant keeps the names distinct. */
  lemma TailNamesDistinct(vs: seq<Variant>)
    requires Distinct(VariantNames(vs)) && vs != []
    ensures Distinct(VariantNames(vs[1..]))
  {
    assert forall j :: 0 <= j < |vs[1..]| ==> VariantNames(vs[1..])[j] == VariantNames(vs)[j + 1];
  }

  /** No later unit constant repeats the first variant's name. */
  lemma HeadConstantUnique(vs: seq<Variant>, c: LegacyField)
    requires Distinct(VariantNames(vs)) && vs != [] && c in UnitConstants(vs[1..])
    ensures c != UnitConstant(vs[0].name, vs[0].name)
  {
    var v :| v in vs[1..] && v.fields.Unit? && c == UnitConstant(v.name, v.name);
    var m :| 0 <= m < |vs[1..]| && vs[1..][m] == v;
    assert VariantNames(vs)[0] != VariantNames(vs)[m + 1];
  }

  // ---------------------------------------------------------------------------------------
  // Constructing a variant

  /** Calling a constructor function from Lua. A named field whose value (nil when absent)
      does not convert makes `expect("Missing data")` panic. */
  function LegacyConstruct(conv: Conv, c: LegacyCtor, args: seq<Value>): (r: Result<Native>)
    ensures r.Ok? ==> r.value.EnumValue? && r.value.variant == c.name
    ensures c.NamedVariantCtor? && !ArgAt(args, 0).Table? ==> r == Err(RuntimeError("bad argument #1: expected table"))
    ensures c.NamedVariantCtor? && ArgAt(args, 0).Table? && r.Err? ==> r.failure == Panic("Missing data")
  {
    match c
    case NamedVariantCtor(_, name, fs) =>
      var data := ArgAt(args, 0);
      if !data.Table? then Err(RuntimeError("bad argument #1: expected table"))
      else
        var values :- Expect(GetFields(conv, FieldNames(fs), NamedTypes(fs), data.hash), "Missing data");
        Ok(EnumValue(name, NamedPayload(values)))
    case TupleVariantCtor(_, name, access) =>
      var p :- Receive(access.ty, conv, args);
      match ReadAll(access.accessors, p)
      case None => Err(CompileError("mismatched types"))
      case Some(items) => Ok(EnumValue(name, TuplePayload(items)))
  }

  /** A variant's constructor builds what the current generator's constructor for that variant
      builds, from the same arguments. A positional variant fails as the current one does; a
      named variant given a table panics with "Missing data" where the current one raises the
      conversion error. */
  lemma LegacyConstructorAsCurrent(conv: Conv, v: Variant, args: seq<Value>)
    requires !v.fields.Unit?
    ensures var l, c := LegacyConstruct(conv, CtorOf(v), args), Construct(conv, BuilderForFields("Self::" + v.name, v.fields, false), args);
      && (l.Ok? <==> c.Ok?)
      && (l.Ok? ==> l.value == EnumValue(v.name, c.value))
      && (l.Err? && v.fields.Unnamed? ==> l.failure == c.failure)
      && (l.Err? && v.fields.Named? && ArgAt(args, 0).Table? ==> l.failure == Panic("Missing data"))
  {
    if v.fields.Unnamed? {
      var tys := UnnamedTypes(v.fields.unnamed);
      TupleAccessRoundTrip("param", tys, conv, args);
      TupleAccessRoundTrip("args", tys, conv, args);
    }
  }

  /** A named variant's constructor, given the table its getter returns, rebuilds the value,
      provided the conversions accept the stored values. */
  lemma LegacyNamedRoundTrip(conv: Conv, name: string, fs: seq<NamedField>, values: map<string, Value>)
    requires values.Keys == (set k | k in FieldNames(fs)) && Distinct(FieldNames(fs))
    requires forall k :: 0 <= k < |fs| ==> conv(fs[k].ty, Get(values, fs[k].name)) == Ok(Get(values, fs[k].name))
    ensures var v := Variant(name, Named(fs));
      var inst := EnumValue(name, NamedPayload(values));
      LegacyConstruct(conv, CtorOf(v), [VariantGet(v, inst)]) == Ok(inst)
  {
    NamedImageReads(conv, fs, values);
  }
}
