/** The attribute parser of the older `src` crate. It reads the same specifications as the
    current one, with three differences: an unexpected visibility panics instead of failing
    to compile, positional and unit field lists panic, and the `impl` parser always removes
    the first argument of a signature, receiver or not. */
module LegacyAttr {
  import opened Wrappers
  import opened Syntax
  import opened Seqs
  import opened Attr

  // ---------------------------------------------------------------------------------------
  // Visibilities and field selection

  /** `From<&Visibility> for FieldsVisibility`. */
  function LegacyFromVis(v: Vis): (r: Result<FieldsVisibility>)
    ensures r.Ok? <==> WellFormedVis(v)
    ensures r.Ok? ==> r == FromVis(v)
    ensures r.Err? ==> r.failure == Panic("Unexpected visibility")
  {
    match v
    case Public => Ok(Pub)
    case Restricted(p) =>
      if p == "(crate)" then Ok(PubCrate)
      else if p == "(super)" then Ok(PubSuper)
      else Err(Panic("Unexpected visibility"))
    case Inherited => Ok(FieldsVisibility.None)
  }

  /** The filter closure of the older resolver. */
  function LegacyKeepField(spec: FieldsVisibility, e: Entry): Result<bool> {
    match spec
    case Pub =>
      var level :- LegacyFromVis(e.vis);
      Ok(level == Pub)
    case PubCrate =>
      var level :- LegacyFromVis(e.vis);
      Ok(level == Pub || level == PubCrate)
    case PubSuper =>
      var level :- LegacyFromVis(e.vis);
      Ok(level == Pub || level == PubCrate || level == PubSuper)
    case Custom(v) => Ok(e.id in v)
    case All => Ok(true)
    case None => Ok(false)
  }

  function LegacySelect(spec: FieldsVisibility, es: seq<Entry>): (r: Result<seq<string>>)
    ensures r.Err? <==> exists e :: e in es && LegacyKeepField(spec, e).Err?
    ensures r.Ok? ==> |r.value| <= |es|
    decreases |es|
  {
    if es == [] then Ok([])
    else
      assert forall e :: e in es <==> e == es[0] || e in es[1..];
      var keep :- LegacyKeepField(spec, es[0]);
      var rest :- LegacySelect(spec, es[1..]);
      Ok(if keep then [es[0].id] + rest else rest)
  }

  /** The older `fields_from_visibility`: named fields only. */
  function LegacyFieldsFromVisibility(spec: FieldsVisibility, fields: Fields): (r: Result<seq<string>>)
    ensures fields.Unnamed? ==> r == Err(Panic("Shouldn't be a unnamed struct"))
    ensures fields.Unit? ==> r == Err(Panic("Shouldn't be a unit struct"))
  {
    match fields
    case Named(_) => LegacySelect(spec, Entries(fields))
    case Unnamed(_) => Err(Panic("Shouldn't be a unnamed struct"))
    case Unit => Err(Panic("Shouldn't be a unit struct"))
  }

  lemma {:induction false} LegacySelectAgrees(spec: FieldsVisibility, es: seq<Entry>)
    ensures LegacySelect(spec, es).Ok? <==> Select(spec, es).Ok?
    ensures LegacySelect(spec, es).Ok? ==> LegacySelect(spec, es).value == Select(spec, es).value
    ensures LegacySelect(spec, es).Err? ==> LegacySelect(spec, es).failure == Panic("Unexpected visibility")
    decreases |es|
  {
    if es != [] {
      LegacySelectAgrees(spec, es[1..]);
    }
  }

  /** On named fields the older resolver selects what the current one selects, and both fail
      on the same inputs, by a panic; positional and unit fields, which the current resolver
      handles, make the older one panic. */
  lemma LegacyResolverAgrees(spec: FieldsVisibility, fields: Fields)
    ensures fields.Named? ==>
      (LegacyFieldsFromVisibility(spec, fields).Ok? <==> FieldsFromVisibility(spec, fields).Ok?)
    ensures fields.Named? && LegacyFieldsFromVisibility(spec, fields).Ok? ==>
      LegacyFieldsFromVisibility(spec, fields).value == FieldsFromVisibility(spec, fields).value
    ensures LegacyFieldsFromVisibility(spec, fields).Err? ==> LegacyFieldsFromVisibility(spec, fields).failure.Panic?
    ensures !fields.Named? ==> LegacyFieldsFromVisibility(spec, fields).Err?
    ensures fields.Unit? ==> FieldsFromVisibility(spec, fields) == Ok([])
    ensures fields.Unnamed? ==> FieldsFromVisibility(All, fields) == Ok(DeclaredIds(fields))
  {
    LegacySelectAgrees(spec, Entries(fields));
    AllAndNoneSelection(fields);
  }

  /** The older thresholds form the same monotone filter; `*` selects every named field,
      None nothing, and an explicit list exactly the fields it names. */
  lemma LegacySelection(lo: FieldsVisibility, hi: FieldsVisibility, v: seq<string>, fs: seq<NamedField>)
    requires IsThreshold(lo) && IsThreshold(hi) && SpecRank(lo) <= SpecRank(hi)
    ensures var l, h := LegacyFieldsFromVisibility(lo, Named(fs)), LegacyFieldsFromVisibility(hi, Named(fs));
      l.Ok? && h.Ok? ==> IsSubseq(l.value, h.value)
    ensures LegacyFieldsFromVisibility(All, Named(fs)) == Ok(FieldNames(fs))
    ensures LegacyFieldsFromVisibility(FieldsVisibility.None, Named(fs)) == Ok([])
    ensures LegacyFieldsFromVisibility(Custom(v), Named(fs)).Ok?
    ensures forall x :: x in LegacyFieldsFromVisibility(Custom(v), Named(fs)).value <==> x in v && x in FieldNames(fs)
  {
    var fields := Named(fs);
    LegacyResolverAgrees(lo, fields);
    LegacyResolverAgrees(hi, fields);
    LegacyResolverAgrees(All, fields);
    LegacyResolverAgrees(FieldsVisibility.None, fields);
    LegacyResolverAgrees(Custom(v), fields);
    ThresholdsAreMonotone(lo, hi, fields);
    AllAndNoneSelection(fields);
    CustomSelection(v, fields);
  }

  /** The older `FieldsVisibility::parse`. */
  function LegacyParseVisibility(v: MetaValue): (r: Result<FieldsVisibility>)
    ensures r.Ok? <==> ParseVisibility(v).Ok?
    ensures r.Ok? ==> r == ParseVisibility(v)
    ensures r.Err? && v.VisToken? ==> r.failure == Panic("Unexpected visibility")
    ensures r.Err? && !v.VisToken? ==> r == ParseVisibility(v)
  {
    if v.StarToken? then Ok(All)
    else if v.VisToken? then LegacyFromVis(v.vis)
    else
      var elems :- ArrayOf(v);
      var names :- PathList(elems);
      Ok(Custom(names))
  }

  // ---------------------------------------------------------------------------------------
  // Method signatures

  /** The older descriptor. `isMethod`: the first argument is a reference receiver;
      `isMut`: it is a mutable receiver, by reference or by value. */
  datatype LegacyMethod = LegacyMethod(name: string, args: seq<string>, isMut: bool, isMethod: bool)

  /** One `name(args...)` element: the kept arguments, with the front one popped and inspected. */
  function LegacyMethodOf(name: string, args: seq<Expr>): (m: LegacyMethod)
    ensures m.name == name
    ensures m.isMut <==> |KeptArgs(args)| > 0 && KeptArgs(args)[0] in ["& mut self", "mut self"]
    ensures m.isMethod <==> |KeptArgs(args)| > 0 && KeptArgs(args)[0] in ["& mut self", "& self"]
    ensures |m.args| == if KeptArgs(args) == [] then 0 else |KeptArgs(args)| - 1
    ensures m.args == KeptArgs(args)[|KeptArgs(args)| - |m.args|..]
  {
    var kept := KeptArgs(args);
    var firstArg := if kept == [] then Wrappers.None else Some(kept[0]);
    var rest := if kept == [] then [] else kept[1..];
    LegacyMethod(name, rest,
      firstArg == Some("& mut self") || firstArg == Some("mut self"),
      firstArg == Some("& mut self") || firstArg == Some("& self"))
  }

  /** Against the current parser: the name and mutability agree, a reference receiver is a
      receiver for both, and the arguments agree exactly when the first one is a receiver.
      Otherwise the older parser has lost the first real argument. */
  lemma LegacyMethodVersusCurrent(name: string, args: seq<Expr>)
    ensures var l, c := LegacyMethodOf(name, args), MethodOf(name, args);
      && l.name == c.name && l.isMut == c.isMut
      && (l.isMethod ==> c.isSelf)
      && (c.isSelf ==> l.args == c.args)
      && (!c.isSelf && c.args != [] ==> l.args == c.args[1..] && |l.args| < |c.args|)
  {
    MethodOfReceiver(name, args);
  }

  /** The older `impl` loop, from the element after the ones already turned into `acc`. */
  function LegacyImplSpecsFrom(acc: seq<LegacyMethod>, elems: seq<Expr>): Result<seq<LegacyMethod>>
    decreases |elems|
  {
    if elems == [] then Ok(acc)
    else
      match elems[0]
      case CallExpr(PathExpr(f), args) => LegacyImplSpecsFrom(acc + [LegacyMethodOf(f, args)], elems[1..])
      case CallExpr(_, _) => LegacyImplSpecsFrom(acc, elems[1..])
      case _ => Err(CompileError("Expected an identifier"))
  }

  function LegacyImplSpecs(elems: seq<Expr>): (r: Result<seq<LegacyMethod>>)
    ensures r.Err? <==> exists i :: 0 <= i < |elems| && !elems[i].CallExpr?
    ensures r.Err? ==> r.failure == CompileError("Expected an identifier")
  {
    LegacyImplSpecsFromAgrees([], [], elems);
    ImplSpecsFromFails([], elems);
    LegacyImplSpecsFrom([], elems)
  }

  lemma {:induction false} LegacyImplSpecsFromAgrees(lacc: seq<LegacyMethod>, acc: seq<MethodOrFunction>, elems: seq<Expr>)
    requires |lacc| == |acc|
    requires forall i :: 0 <= i < |acc| ==> lacc[i].name == acc[i].name
    ensures LegacyImplSpecsFrom(lacc, elems).Ok? <==> ImplSpecsFrom(acc, elems).Ok?
    ensures LegacyImplSpecsFrom(lacc, elems).Ok? ==>
      |LegacyImplSpecsFrom(lacc, elems).value| == |ImplSpecsFrom(acc, elems).value|
    ensures LegacyImplSpecsFrom(lacc, elems).Ok? ==> forall i :: 0 <= i < |ImplSpecsFrom(acc, elems).value| ==>
      LegacyImplSpecsFrom(lacc, elems).value[i].name == ImplSpecsFrom(acc, elems).value[i].name
    ensures LegacyImplSpecsFrom(lacc, elems).Err? ==> LegacyImplSpecsFrom(lacc, elems).failure == ImplSpecsFrom(acc, elems).failure
    decreases |elems|
  {
    if elems != [] {
      match elems[0]
      case CallExpr(PathExpr(f), args) =>
        LegacyImplSpecsFromAgrees(lacc + [LegacyMethodOf(f, args)], acc + [MethodOf(f, args)], elems[1..]);
      case CallExpr(_, _) => LegacyImplSpecsFromAgrees(lacc, acc, elems[1..]);
      case _ =>
    }
  }

  /** The older `impl` list fails where the current one does, with the same error, and
      otherwise describes the same functions under the same names in the same order. */
  lemma LegacyImplSpecsAgree(elems: seq<Expr>)
    ensures LegacyImplSpecs(elems).Ok? <==> ImplSpecs(elems).Ok?
    ensures LegacyImplSpecs(elems).Err? ==> LegacyImplSpecs(elems).failure == ImplSpecs(elems).failure
    ensures LegacyImplSpecs(elems).Ok? ==> (|LegacyImplSpecs(elems).value| == |ImplSpecs(elems).value| &&
      forall i :: 0 <= i < |ImplSpecs(elems).value| ==> LegacyImplSpecs(elems).value[i].name == ImplSpecs(elems).value[i].name)
  {
    LegacyImplSpecsFromAgrees([], [], elems);
  }

  /** `impl = [new(i32)]`: the older parser describes `new` with no argument, the current one
      with its `i32` argument. */
  lemma LegacyDropsFirstArgument()
    ensures LegacyImplSpecs([CallExpr(PathExpr("new"), [PathExpr("i32")])]) ==
      Ok([LegacyMethod("new", [], false, false)])
    ensures ImplSpecs([CallExpr(PathExpr("new"), [PathExpr("i32")])]) ==
      Ok([MethodOrFunction("new", ["i32"], false, false)])
  {
    var args := [PathExpr("i32")];
    var elems := [CallExpr(PathExpr("new"), args)];
    assert KeptArgs(args) == ["i32"] by {
      assert args[1..] == [];
    }
    NotAReceiver("i32");
    assert elems[1..] == [];
    var l := LegacyMethodOf("new", args);
    assert l.args == [] && !l.isMut && !l.isMethod;
    assert LegacyImplSpecs(elems) == LegacyImplSpecsFrom([] + [l], elems[1..]);
    assert [] + [l] == [l];
    var c := MethodOf("new", args);
    assert c.args == ["i32"] && !c.isMut && !c.isSelf;
    assert ImplSpecs(elems) == ImplSpecsFrom([] + [c], elems[1..]);
    assert [] + [c] == [c];
  }

  lemma NotAReceiver(s: string)
    requires |s| == 3
    ensures s != "& mut self" && s != "mut self" && s != "& self" && s != "self"
  {
  }

  /** The older `impl` loop, pushing onto `vec_elements` and popping the first kept argument
      off a double-ended queue. */
  method LegacyParseImplArray(elems: seq<Expr>) returns (r: Result<seq<LegacyMethod>>)
    ensures r == LegacyImplSpecs(elems)
  {
    var vecElements: seq<LegacyMethod> := [];
    var i := 0;
    while i < |elems|
      invariant 0 <= i <= |elems|
      invariant LegacyImplSpecsFrom(vecElements, elems[i..]) == LegacyImplSpecs(elems)
    {
      assert elems[i..][0] == elems[i] && elems[i..][1..] == elems[i + 1..];
      var elem := elems[i];
      if elem.CallExpr? {
        if elem.func.PathExpr? {
          var args := KeptArgs(elem.args);
          var firstArg: Option<string> := Wrappers.None;
          if args != [] {
            firstArg := Some(args[0]);
            args := args[1..];
          }
          var isMut := firstArg == Some("& mut self") || firstArg == Some("mut self");
          var isMethod := firstArg == Some("& mut self") || firstArg == Some("& self");
          vecElements := vecElements + [LegacyMethod(elem.func.path, args, isMut, isMethod)];
        }
      } else {
        return Err(CompileError("Expected an identifier"));
      }
      i := i + 1;
    }
    return Ok(vecElements);
  }

  // ---------------------------------------------------------------------------------------
  // The whole attribute

  datatype LegacyAttrState = LegacyAttrState(
    getVis: FieldsVisibility,
    setVis: FieldsVisibility,
    impls: seq<LegacyMethod>,
    customFields: Option<string>,
    customImpls: Option<string>)

  /** `Attributes::default()`: both specifications default to PubSuper. */
  const LegacyDefault: LegacyAttrState := LegacyAttrState(PubSuper, PubSuper, [], Wrappers.None, Wrappers.None)

  /** The effect of the older `Attributes::parse` on one item. */
  function LegacyApplyMeta(st: LegacyAttrState, meta: Meta): (r: Result<LegacyAttrState>)
    ensures meta.key.None? ==> r == Err(CompileError("Expected an ident."))
    ensures r.Ok? ==> meta.key.Some? && meta.key.value in ["get", "set", "impl", "custom_fields", "custom_impls"]
    ensures r.Ok? && meta.key != Some("get") ==> r.value.getVis == st.getVis
    ensures r.Ok? && meta.key != Some("set") ==> r.value.setVis == st.setVis
    ensures r.Ok? && meta.key != Some("impl") ==> r.value.impls == st.impls
    ensures r.Ok? && meta.key != Some("custom_fields") ==> r.value.customFields == st.customFields
    ensures r.Ok? && meta.key != Some("custom_impls") ==> r.value.customImpls == st.customImpls
  {
    if meta.key.None? then Err(CompileError("Expected an ident."))
    else
      var key := meta.key.value;
      if key == "get" then
        var v :- LegacyParseVisibility(meta.value);
        Ok(st.(getVis := v))
      else if key == "set" then
        var v :- LegacyParseVisibility(meta.value);
        Ok(st.(setVis := v))
      else if key == "impl" then
        var elems :- ArrayOf(meta.value);
        var ms :- LegacyImplSpecs(elems);
        Ok(st.(impls := ms))
      else if key == "custom_fields" then
        var id :- IdentOf(meta.value);
        Ok(st.(customFields := Some(id)))
      else if key == "custom_impls" then
        var id :- IdentOf(meta.value);
        Ok(st.(customImpls := Some(id)))
      else Err(CompileError("Unexpected attribute name: " + key))
  }

  /** The older parser accepts exactly the items the current one accepts and sets the same
      specifications and hooks; the one failure that is a panic rather than a compile error is
      an unexpected visibility after `get =` or `set =`. */
  lemma LegacyApplyMetaAgrees(lst: LegacyAttrState, st: AttrState, meta: Meta)
    requires lst.getVis == st.getVis && lst.setVis == st.setVis
    requires lst.customFields == st.customFields && lst.customImpls == st.customImpls
    ensures LegacyApplyMeta(lst, meta).Ok? <==> ApplyMeta(st, meta).Ok?
    ensures LegacyApplyMeta(lst, meta).Ok? ==>
      var l, c := LegacyApplyMeta(lst, meta).value, ApplyMeta(st, meta).value;
      l.getVis == c.getVis && l.setVis == c.setVis && l.customFields == c.customFields && l.customImpls == c.customImpls
    ensures LegacyApplyMeta(lst, meta).Err? ==>
      (LegacyApplyMeta(lst, meta).failure.Panic? <==>
        meta.key.Some? && meta.key.value in ["get", "set"] && meta.value.VisToken?)
    ensures LegacyApplyMeta(lst, meta).Err? && LegacyApplyMeta(lst, meta).failure.Panic? ==>
      LegacyApplyMeta(lst, meta).failure == Panic("Unexpected visibility")
  {
    if meta.key.Some? && meta.key.value == "impl" && meta.value.ArrayExpr? {
      LegacyImplSpecsAgree(meta.value.elems);
    }
  }

  /** The older parser state `Attributes`. */
  class LegacyAttributes {
    var getVis: FieldsVisibility
    var setVis: FieldsVisibility
    var impls: seq<LegacyMethod>
    var customFields: Option<string>
    var customImpls: Option<string>

    function State(): LegacyAttrState
      reads this
    {
      LegacyAttrState(getVis, setVis, impls, customFields, customImpls)
    }

    /** `Attributes::default()`. */
    constructor ()
      ensures State() == LegacyDefault
    {
      getVis := PubSuper;
      setVis := PubSuper;
      impls := [];
      customFields := Wrappers.None;
      customImpls := Wrappers.None;
    }

    /** The older `Attributes::parse`: one `key = value` item. */
    method Parse(meta: Meta) returns (r: Result<()>)
      modifies this
      ensures r.Ok? <==> LegacyApplyMeta(old(State()), meta).Ok?
      ensures r.Err? ==> r.failure == LegacyApplyMeta(old(State()), meta).failure
      ensures State() == if r.Ok? then LegacyApplyMeta(old(State()), meta).value else old(State())
    {
      if meta.key.None? {
        return Err(CompileError("Expected an ident."));
      }
      var key := meta.key.value;
      if key == "get" {
        var v := LegacyParseVisibility(meta.value);
        if v.Err? {
          return Err(v.failure);
        }
        getVis := v.value;
      } else if key == "set" {
        var v := LegacyParseVisibility(meta.value);
        if v.Err? {
          return Err(v.failure);
        }
        setVis := v.value;
      } else if key == "impl" {
        var arr := ArrayOf(meta.value);
        if arr.Err? {
          return Err(arr.failure);
        }
        var vecElements := LegacyParseImplArray(arr.value);
        if vecElements.Err? {
          return Err(vecElements.failure);
        }
        impls := vecElements.value;
      } else if key == "custom_fields" {
        var id := IdentOf(meta.value);
        if id.Err? {
          return Err(id.failure);
        }
        customFields := Some(id.value);
      } else if key == "custom_impls" {
        var id := IdentOf(meta.value);
        if id.Err? {
          return Err(id.failure);
        }
        customImpls := Some(id.value);
      } else {
        return Err(CompileError("Unexpected attribute name: " + key));
      }
      return Ok(());
    }
  }
}
