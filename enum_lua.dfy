/** What the code generated for an enum does at run time: the per-variant field getters and
    setters on a userdata, and `FromLua`, which probes a table for a variant key. An enum value
    is its variant's name with the Lua image of its fields. */
module EnumLua {
  import opened Wrappers
  import opened Text
  import opened Seqs
  import opened Lua
  import opened Syntax
  import opened Arity
  import opened EnumGen

  /** What a variant's getter gives for the instance's own variant: its named fields as a
      table, its positional fields as a sequence, `true` for a unit variant. */
  function Image(p: Payload): (r: Value)
    ensures r != Nil
    ensures p.NamedPayload? ==> r == Table(p.values, [])
    ensures p.TuplePayload? ==> r == Table(map[], PushAll(p.items))
    ensures p.UnitPayload? ==> r == Boolean(true)
  {
    match p
    case NamedPayload(values) => Table(values, [])
    case TuplePayload(items) => Table(map[], PushAll(items))
    case UnitPayload => Boolean(true)
  }

  /** The getter registered for `v`: the image when the instance is that variant, nil
      otherwise. */
  function VariantGet(v: Variant, inst: Native): (r: Value)
    requires inst.EnumValue?
    ensures r != Nil <==> inst.variant == v.name
  {
    if inst.variant == v.name then Image(inst.payload) else Nil
  }

  /** The last variant registered under `key` (as a getter, or as a setter when
      `needSetter`): later registrations of a name replace earlier ones. */
  function LastAccessor(vs: seq<Variant>, key: string, needSetter: bool): (r: Option<nat>)
    ensures r.Some? ==> (r.value < |vs| && ToLower(vs[r.value].name) == key &&
      (needSetter ==> !vs[r.value].fields.Unit?))
    ensures r.Some? ==> forall j :: r.value < j < |vs| ==>
      !(ToLower(vs[j].name) == key && (needSetter ==> !vs[j].fields.Unit?))
    ensures r.None? ==> forall j :: 0 <= j < |vs| ==>
      !(ToLower(vs[j].name) == key && (needSetter ==> !vs[j].fields.Unit?))
    decreases |vs|
  {
    if vs == [] then Wrappers.None
    else
      var last := vs[|vs| - 1];
      if ToLower(last.name) == key && (needSetter ==> !last.fields.Unit?) then Some(|vs| - 1)
      else LastAccessor(vs[..|vs| - 1], key, needSetter)
  }

  /** `value.key` on an enum userdata; None when no getter has that name. */
  function Index(vs: seq<Variant>, inst: Native, key: string): (r: Option<Value>)
    requires inst.EnumValue?
    ensures r.Some? <==> exists j :: 0 <= j < |vs| && ToLower(vs[j].name) == key
    ensures r.Some? && r.value != Nil ==> ToLower(inst.variant) == key
  {
    match LastAccessor(vs, key, false)
    case None => Wrappers.None
    case Some(i) => Some(VariantGet(vs[i], inst))
  }

  /** The setter registered for a variant with fields: the argument must be a table, and the
      instance is replaced by that variant, its named fields read by name, its positional
      fields read at `1..=n`. */
  function VariantSet(conv: Conv, v: Variant, arg: Value): (r: Result<Native>)
    requires !v.fields.Unit?
    ensures r.Ok? ==> r.value.EnumValue? && r.value.variant == v.name
  {
    if !arg.Table? then Err(RuntimeError("error converting Lua value to table"))
    else
      match v.fields
      case Named(fs) =>
        var values :- GetFields(conv, FieldNames(fs), NamedTypes(fs), arg.hash);
        Ok(EnumValue(v.name, NamedPayload(values)))
      case Unnamed(fs) =>
        var items :- ConvertArgs(conv, UnnamedTypes(fs), arg.items);
        Ok(EnumValue(v.name, TuplePayload(items)))
  }

  /** `value.key = arg` on an enum userdata: the new instance, or None when no setter has
      that name. */
  function Assign(conv: Conv, vs: seq<Variant>, key: string, arg: Value): (r: Option<Result<Native>>)
    ensures r.Some? <==> exists j :: 0 <= j < |vs| && ToLower(vs[j].name) == key && !vs[j].fields.Unit?
    ensures r.Some? && r.value.Ok? ==> r.value.value.EnumValue? && ToLower(r.value.value.variant) == key
  {
    match LastAccessor(vs, key, true)
    case None => Wrappers.None
    case Some(i) => Some(VariantSet(conv, vs[i], arg))
  }

  /** A key that belongs to exactly one variant. */
  predicate OwnKey(vs: seq<Variant>, i: nat)
    requires i < |vs|
  {
    forall j :: 0 <= j < |vs| && ToLower(vs[j].name) == ToLower(vs[i].name) ==> j == i
  }

  /** Assigning a variant's key switches the instance to that variant: reading the key back
      gives the new fields, and every other variant's getter reads nil. Unit variants have no
      setter. */
  lemma AssignThenIndex(conv: Conv, vs: seq<Variant>, i: nat, arg: Value)
    requires i < |vs| && OwnKey(vs, i)
    requires Distinct(VariantNames(vs))
    ensures vs[i].fields.Unit? ==> Assign(conv, vs, ToLower(vs[i].name), arg).None?
    ensures !vs[i].fields.Unit? ==> Assign(conv, vs, ToLower(vs[i].name), arg) == Some(VariantSet(conv, vs[i], arg))
    ensures !vs[i].fields.Unit? && VariantSet(conv, vs[i], arg).Ok? ==>
      var after := VariantSet(conv, vs[i], arg).value;
      && Index(vs, after, ToLower(vs[i].name)) == Some(Image(after.payload))
      && forall j :: 0 <= j < |vs| && j != i ==> VariantGet(vs[j], after) == Nil
  {
    var key := ToLower(vs[i].name);
    var g := LastAccessor(vs, key, false);
    assert g == Some(i);
    if !vs[i].fields.Unit? {
      assert LastAccessor(vs, key, true) == Some(i);
      forall j | 0 <= j < |vs| && j != i
        ensures vs[j].name != vs[i].name
      {
        assert VariantNames(vs)[j] != VariantNames(vs)[i];
      }
    }
  }

  // ---------------------------------------------------------------------------------------
  // `FromLua`

  /** One probe's outcome: go on with the next variant, or stop with this result. */
  datatype Step = Skip | Decided(result: Result<Native>)

  /** The probe for variant `v`, given the value stored under its lower-cased key: nil moves
      on, the variant's expected kind decides, anything else is "Invalid data format.". A
      conversion error inside the variant's arm is the result. */
  function ProbeOne(conv: Conv, v: Variant, tv: Value): (s: Step)
    ensures tv == Nil ==> s == Skip
    ensures tv != Nil ==> s.Decided?
    ensures s.Decided? && s.result.Ok? ==> s.result.value.EnumValue? && s.result.value.variant == v.name
  {
    if tv == Nil then Skip
    else
      match v.fields
      case Named(fs) =>
        if !tv.Table? then Decided(Err(RuntimeError("Invalid data format.")))
        else
          Decided(var values :- GetFields(conv, FieldNames(fs), NamedTypes(fs), tv.hash);
                  Ok(EnumValue(v.name, NamedPayload(values))))
      case Unnamed(fs) =>
        if !tv.Table? then Decided(Err(RuntimeError("Invalid data format.")))
        else
          Decided(var items :- TakeSequence(conv, UnnamedTypes(fs), SequenceValues(tv.items));
                  Ok(EnumValue(v.name, TuplePayload(items))))
      case Unit =>
        if tv.Boolean? then Decided(Ok(EnumValue(v.name, UnitPayload)))
        else Decided(Err(RuntimeError("Invalid data format.")))
  }

  /** The probes, in declaration order. */
  function Probe(conv: Conv, vs: seq<Variant>, hash: map<string, Value>): (r: Result<Native>)
    ensures r.Ok? ==> r.value.EnumValue? && exists v :: v in vs && r.value.variant == v.name
    ensures (forall v :: v in vs ==> Get(hash, ToLower(v.name)) == Nil) ==> r == Err(RuntimeError("No valid variant found."))
    decreases |vs|
  {
    if vs == [] then Err(RuntimeError("No valid variant found."))
    else
      assert forall v :: v in vs[1..] ==> v in vs;
      match ProbeOne(conv, vs[0], Get(hash, ToLower(vs[0].name)))
      case Skip => Probe(conv, vs[1..], hash)
      case Decided(r) => r
  }

  /** `FromLua::from_lua` for the enum: only a table is accepted. */
  function FromLua(conv: Conv, vs: seq<Variant>, v: Value): (r: Result<Native>)
    ensures !v.Table? ==> r.Err?
    ensures r.Ok? ==> r.value.EnumValue? && exists x :: x in vs && r.value.variant == x.name
  {
    match v
    case Table(hash, _) => Probe(conv, vs, hash)
    case _ => Err(RuntimeError("Expected a table. Got: " + Describe(v)))
  }

  /** The first variant, in declaration order, whose key holds a non-nil value decides the
      result; when there is none the result is "No valid variant found.". */
  lemma {:induction false} FirstPresentKeyDecides(conv: Conv, vs: seq<Variant>, hash: map<string, Value>, i: nat)
    requires i <= |vs|
    requires forall j :: 0 <= j < i ==> Get(hash, ToLower(vs[j].name)) == Nil
    ensures i == |vs| ==> Probe(conv, vs, hash) == Err(RuntimeError("No valid variant found."))
    ensures i < |vs| && Get(hash, ToLower(vs[i].name)) != Nil ==>
      Probe(conv, vs, hash) == ProbeOne(conv, vs[i], Get(hash, ToLower(vs[i].name))).result
    decreases i
  {
    if i > 0 {
      assert ProbeOne(conv, vs[0], Get(hash, ToLower(vs[0].name))) == Skip;
      assert forall j :: 0 <= j < i - 1 ==> vs[1..][j] == vs[j + 1];
      FirstPresentKeyDecides(conv, vs[1..], hash, i - 1);
    }
  }

  /** Only tables are decoded: a userdata holding the enum, as a unit variant's global is, is
      refused like any other non-table value. */
  lemma FromLuaTableOnly(conv: Conv, vs: seq<Variant>, v: Value)
    requires !v.Table?
    ensures FromLua(conv, vs, v) == Err(RuntimeError("Expected a table. Got: " + Describe(v)))
  {
  }

  /** A variant whose fields fit its declaration, with the field names distinct and no nil
      positional field. */
  predicate Fits(v: Variant, p: Payload) {
    match v.fields
    case Named(fs) => p.NamedPayload? && p.values.Keys == (set k | k in FieldNames(fs)) && Distinct(FieldNames(fs))
    case Unnamed(fs) => p.TuplePayload? && |p.items| == |fs| && forall k :: 0 <= k < |fs| ==> p.items[k] != Nil
    case Unit => p.UnitPayload?
  }

  /** The leaf conversions accept the variant's field values as they stand. */
  ghost predicate Keeps(conv: Conv, v: Variant, p: Payload)
    requires Fits(v, p)
  {
    match v.fields
    case Named(fs) => forall k :: 0 <= k < |fs| ==> conv(fs[k].ty, Get(p.values, fs[k].name)) == Ok(Get(p.values, fs[k].name))
    case Unnamed(fs) => ConvKeeps(conv, UnnamedTypes(fs), p.items)
    case Unit => true
  }

  /** The table `from_lua` reads a value from: its variant's lower-cased key holding the
      getter's image. */
  function Encode(v: Variant, p: Payload): Value {
    Table(map[ToLower(v.name) := Image(p)], [])
  }

  lemma NamedImageReads(conv: Conv, fs: seq<NamedField>, values: map<string, Value>)
    requires values.Keys == (set k | k in FieldNames(fs)) && Distinct(FieldNames(fs))
    requires forall k :: 0 <= k < |fs| ==> conv(fs[k].ty, Get(values, fs[k].name)) == Ok(Get(values, fs[k].name))
    ensures GetFields(conv, FieldNames(fs), NamedTypes(fs), values) == Ok(values)
  {
    GetFieldsReadsBack(conv, FieldNames(fs), NamedTypes(fs), values);
  }

  lemma TupleImageReads(conv: Conv, fs: seq<UnnamedField>, items: seq<Value>)
    requires |items| == |fs| && forall k :: 0 <= k < |fs| ==> items[k] != Nil
    requires ConvKeeps(conv, UnnamedTypes(fs), items)
    ensures TakeSequence(conv, UnnamedTypes(fs), SequenceValues(PushAll(items))) == Ok(items)
  {
    SequenceValuesOfNonNil(items);
    TakeSequenceReadsBack(conv, UnnamedTypes(fs), items);
  }

  /** Decoding the table form of a value gives the value back, provided no earlier variant
      shares its lower-cased key. */
  lemma DecodeEncode(conv: Conv, vs: seq<Variant>, i: nat, p: Payload)
    requires i < |vs| && Fits(vs[i], p) && Keeps(conv, vs[i], p)
    requires forall j :: 0 <= j < i ==> ToLower(vs[j].name) != ToLower(vs[i].name)
    ensures FromLua(conv, vs, Encode(vs[i], p)) == Ok(EnumValue(vs[i].name, p))
  {
    var hash := map[ToLower(vs[i].name) := Image(p)];
    FirstPresentKeyDecides(conv, vs, hash, i);
    ImageReads(conv, vs[i], p);
  }

  /** The probe of a variant reads its own image back. */
  lemma ImageReads(conv: Conv, v: Variant, p: Payload)
    requires Fits(v, p) && Keeps(conv, v, p)
    ensures ProbeOne(conv, v, Image(p)).result == Ok(EnumValue(v.name, p))
  {
    match v.fields
    case Named(fs) =>
      NamedImageReads(conv, fs, p.values);
    case Unnamed(fs) =>
      TupleImageReads(conv, fs, p.items);
    case Unit =>
  }

  /** A unit variant is decoded from any boolean, `false` included. */
  lemma UnitFromAnyBoolean(conv: Conv, vs: seq<Variant>, i: nat, b: bool)
    requires i < |vs| && vs[i].fields.Unit?
    requires forall j :: 0 <= j < i ==> ToLower(vs[j].name) != ToLower(vs[i].name)
    ensures FromLua(conv, vs, Table(map[ToLower(vs[i].name) := Boolean(b)], [])) == Ok(EnumValue(vs[i].name, UnitPayload))
  {
    FirstPresentKeyDecides(conv, vs, map[ToLower(vs[i].name) := Boolean(b)], i);
  }

  /** The setter and `from_lua` read a variant's table alike when its first positional values
      have no hole; a hole is read as nil by the setter but ends the sequence for `from_lua`. */
  lemma SetterAgreesWithDecoder(conv: Conv, v: Variant, t: Value)
    requires !v.fields.Unit? && t.Table?
    requires v.fields.Unnamed? ==>
      |t.items| >= |v.fields.unnamed| && forall k :: 0 <= k < |v.fields.unnamed| ==> t.items[k] != Nil
    ensures VariantSet(conv, v, t) == ProbeOne(conv, v, t).result
  {
    if v.fields.Unnamed? {
      var tys := UnnamedTypes(v.fields.unnamed);
      var sv := SequenceValues(t.items);
      SequenceValuesPrefix(t.items, |tys|);
      var a := ConvertArgs(conv, tys, t.items);
      var b := TakeSequence(conv, tys, sv);
      assert forall k :: 0 <= k < |tys| ==> sv[k] == t.items[k] == ArgAt(t.items, k);
      assert a.Ok? <==> b.Ok?;
      if a.Ok? {
        assert a.value == b.value;
      } else {
        ConvertTakeSameError(conv, tys, t.items, sv);
      }
    }
  }

  lemma {:induction false} ConvertTakeSameError(conv: Conv, tys: seq<string>, items: seq<Value>, sv: seq<Value>)
    requires |items| >= |tys| && |sv| >= |tys|
    requires forall k :: 0 <= k < |tys| ==> sv[k] == items[k]
    ensures ConvertArgs(conv, tys, items).Err? ==> ConvertArgs(conv, tys, items) == TakeSequence(conv, tys, sv)
    decreases |tys|
  {
    if tys != [] {
      ConvertTakeSameError(conv, tys[1..], items[1..], sv[1..]);
    }
  }
}
