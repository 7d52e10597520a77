/** The attribute arguments of `#[mlua_gen(...)]`: field visibility specifications, their
    resolution against a field list, and the `impl = [...]` method signatures. */
module Attr {
  import opened Wrappers
  import opened Syntax
  import opened Text
  import opened Seqs

  /** Which fields get a getter (or a setter). The first five are thresholds, ordered by how
      much they select; Custom is an explicit list of identifiers. */
  datatype FieldsVisibility = None | Pub | PubCrate | PubSuper | All | Custom(names: seq<string>)

  predicate IsThreshold(spec: FieldsVisibility) {
    !spec.Custom?
  }

  /** The visibilities a declared field can be mapped to. */
  predicate IsLevel(spec: FieldsVisibility) {
    spec == FieldsVisibility.None || spec == Pub || spec == PubCrate || spec == PubSuper
  }

  /** A declared visibility that the mapping accepts. */
  predicate WellFormedVis(v: Vis) {
    !v.Restricted? || v.path == "(crate)" || v.path == "(super)"
  }

  /** The threshold order: None < Pub < PubCrate < PubSuper < All. */
  function SpecRank(spec: FieldsVisibility): nat
    requires IsThreshold(spec)
  {
    match spec
    case None => 0
    case Pub => 1
    case PubCrate => 2
    case PubSuper => 3
    case All => 4
  }

  /** How hidden a declared field is, on the same scale: a field is selected by a threshold
      exactly when its level is at most the threshold's rank. */
  function FieldLevel(v: Vis): nat
    requires WellFormedVis(v)
  {
    match v
    case Public => 1
    case Restricted(p) => if p == "(crate)" then 2 else 3
    case Inherited => 4
  }

  /** `TryFrom<&Visibility> for FieldsVisibility`. */
  function FromVis(v: Vis): (r: Result<FieldsVisibility>)
    ensures r.Ok? <==> WellFormedVis(v)
    ensures r.Ok? ==> IsLevel(r.value)
    ensures r.Err? ==> r.failure.CompileError?
  {
    match v
    case Public => Ok(Pub)
    case Restricted(p) =>
      if p == "(crate)" then Ok(PubCrate)
      else if p == "(super)" then Ok(PubSuper)
      else Err(CompileError("Unexpected visibility"))
    case Inherited => Ok(FieldsVisibility.None)
  }

  /** `pub` maps to `Pub`, `pub(crate)` to `PubCrate`, `pub(super)` to `PubSuper` and an
      inherited visibility to `None`; apart from `None`, the rank is the field's level. */
  lemma FromVisMatchesLevel(v: Vis)
    requires WellFormedVis(v)
    ensures v.Public? ==> FromVis(v) == Ok(Pub)
    ensures v == Restricted("(crate)") ==> FromVis(v) == Ok(PubCrate)
    ensures v == Restricted("(super)") ==> FromVis(v) == Ok(PubSuper)
    ensures v.Inherited? ==> FromVis(v) == Ok(FieldsVisibility.None)
    ensures FromVis(v).Ok? && SpecRank(FromVis(v).value) == FieldLevel(v) % 4
  {
  }

  // ---------------------------------------------------------------------------------------
  // Resolving a specification against a field list

  /** A declared field as the resolver sees it: its identifier (the name, or the decimal
      position of a positional field) and its visibility. */
  datatype Entry = Entry(id: string, vis: Vis)

  function Entries(fields: Fields): (es: seq<Entry>)
    ensures fields.Named? ==> Ids(es) == FieldNames(fields.named)
    ensures fields.Unnamed? ==> Ids(es) == IndexStrings(0, |fields.unnamed|)
    ensures fields.Unit? ==> es == []
  {
    match fields
    case Named(fs) => seq(|fs|, i requires 0 <= i < |fs| => Entry(fs[i].name, fs[i].vis))
    case Unnamed(fs) => seq(|fs|, i requires 0 <= i < |fs| => Entry(NatToString(i), fs[i].vis))
    case Unit => []
  }

  function Ids(es: seq<Entry>): (r: seq<string>)
    ensures |r| == |es| && forall i :: 0 <= i < |es| ==> r[i] == es[i].id
  {
    seq(|es|, i requires 0 <= i < |es| => es[i].id)
  }

  /** The identifiers of all declared fields, in declaration order. */
  function DeclaredIds(fields: Fields): seq<string> {
    Ids(Entries(fields))
  }

  /** The filter closure: whether `spec` selects a field. The threshold arms convert the
      field's visibility and `expect` the conversion to succeed. */
  function KeepField(spec: FieldsVisibility, e: Entry): (r: Result<bool>)
    ensures r.Err? <==> (spec.Pub? || spec.PubCrate? || spec.PubSuper?) && !WellFormedVis(e.vis)
    ensures r.Err? ==> r.failure.Panic?
    ensures spec.Custom? ==> (r == Ok(true) <==> e.id in spec.names)
  {
    match spec
    case Pub =>
      var level :- Expect(FromVis(e.vis), "Is Pub");
      Ok(level == Pub)
    case PubCrate =>
      var level :- Expect(FromVis(e.vis), "Is PubCrate");
      Ok(level == Pub || level == PubCrate)
    case PubSuper =>
      var level :- Expect(FromVis(e.vis), "Is PubSuper");
      Ok(level == Pub || level == PubCrate || level == PubSuper)
    case Custom(v) => Ok(e.id in v)
    case All => Ok(true)
    case None => Ok(false)
  }

  lemma KeepFieldByRank(spec: FieldsVisibility, e: Entry)
    requires IsThreshold(spec) && WellFormedVis(e.vis)
    ensures KeepField(spec, e) == Ok(FieldLevel(e.vis) <= SpecRank(spec))
  {
  }

  /** Filter the entries with `KeepField` and keep their identifiers, in order. */
  function Select(spec: FieldsVisibility, es: seq<Entry>): (r: Result<seq<string>>)
    ensures r.Err? <==> exists e :: e in es && KeepField(spec, e).Err?
    ensures r.Ok? ==> |r.value| <= |es|
    decreases |es|
  {
    if es == [] then Ok([])
    else
      assert forall e :: e in es <==> e == es[0] || e in es[1..];
      var keep :- KeepField(spec, es[0]);
      var rest :- Select(spec, es[1..]);
      Ok(if keep then [es[0].id] + rest else rest)
  }

  /** `FieldsVisibility::fields_from_visibility`. */
  function FieldsFromVisibility(spec: FieldsVisibility, fields: Fields): (r: Result<seq<string>>)
    ensures fields.Unit? ==> r == Ok([])
    ensures r.Err? ==> r.failure.Panic?
  {
    SelectFailsByPanic(spec, Entries(fields));
    match fields
    case Named(_) => Select(spec, Entries(fields))
    case Unnamed(_) => Select(spec, Entries(fields))
    case Unit => Ok([])
  }

  lemma {:induction false} SelectFailsByPanic(spec: FieldsVisibility, es: seq<Entry>)
    ensures Select(spec, es).Err? ==> Select(spec, es).failure.Panic?
    decreases |es|
  {
    if es != [] {
      SelectFailsByPanic(spec, es[1..]);
    }
  }

  lemma {:induction false} SelectIsSubsequence(spec: FieldsVisibility, es: seq<Entry>)
    ensures Select(spec, es).Ok? ==> IsSubseq(Select(spec, es).value, Ids(es))
    decreases |es|
  {
    if es != [] && Select(spec, es).Ok? {
      SelectIsSubsequence(spec, es[1..]);
      assert Ids(es) == [es[0].id] + Ids(es[1..]);
      var rest := Select(spec, es[1..]).value;
      if KeepField(spec, es[0]).value {
        SubseqKeep(rest, es[0].id, Ids(es[1..]));
      } else {
        SubseqSkip(rest, es[0].id, Ids(es[1..]));
      }
    }
  }

  /** The selected identifiers are declared fields, in declaration order; positional fields
      come out as "0", "1", ... */
  lemma SelectionFollowsDeclaration(spec: FieldsVisibility, fields: Fields)
    ensures FieldsFromVisibility(spec, fields).Ok? ==>
      IsSubseq(FieldsFromVisibility(spec, fields).value, DeclaredIds(fields))
  {
    SelectIsSubsequence(spec, Entries(fields));
  }

  lemma {:induction false} SelectMonotone(lo: FieldsVisibility, hi: FieldsVisibility, es: seq<Entry>)
    requires IsThreshold(lo) && IsThreshold(hi) && SpecRank(lo) <= SpecRank(hi)
    ensures Select(lo, es).Ok? && Select(hi, es).Ok? ==>
      IsSubseq(Select(lo, es).value, Select(hi, es).value)
    decreases |es|
  {
    if es != [] && Select(lo, es).Ok? && Select(hi, es).Ok? {
      SelectMonotone(lo, hi, es[1..]);
      var x := es[0].id;
      var restLo, restHi := Select(lo, es[1..]).value, Select(hi, es[1..]).value;
      if KeepField(lo, es[0]).value {
        assert WellFormedVis(es[0].vis) || lo == All;
        SubseqKeep(restLo, x, restHi);
      } else if KeepField(hi, es[0]).value {
        SubseqSkip(restLo, x, restHi);
      }
    }
  }

  /** A higher threshold selects at least what a lower one selects, in the same order. */
  lemma ThresholdsAreMonotone(lo: FieldsVisibility, hi: FieldsVisibility, fields: Fields)
    requires IsThreshold(lo) && IsThreshold(hi) && SpecRank(lo) <= SpecRank(hi)
    ensures FieldsFromVisibility(lo, fields).Ok? && FieldsFromVisibility(hi, fields).Ok? ==>
      IsSubseq(FieldsFromVisibility(lo, fields).value, FieldsFromVisibility(hi, fields).value)
  {
    SelectMonotone(lo, hi, Entries(fields));
  }

  lemma {:induction false} SelectAllNone(es: seq<Entry>)
    ensures Select(All, es) == Ok(Ids(es))
    ensures Select(FieldsVisibility.None, es) == Ok([])
    decreases |es|
  {
    if es != [] {
      SelectAllNone(es[1..]);
      assert Ids(es) == [es[0].id] + Ids(es[1..]);
    }
  }

  /** `*` selects every declared field and None selects nothing. */
  lemma AllAndNoneSelection(fields: Fields)
    ensures FieldsFromVisibility(All, fields) == Ok(DeclaredIds(fields))
    ensures FieldsFromVisibility(FieldsVisibility.None, fields) == Ok([])
  {
    SelectAllNone(Entries(fields));
  }

  lemma {:induction false} SelectCustom(v: seq<string>, es: seq<Entry>)
    ensures Select(Custom(v), es).Ok?
    ensures forall x :: x in Select(Custom(v), es).value <==> x in v && x in Ids(es)
    decreases |es|
  {
    if es != [] {
      SelectCustom(v, es[1..]);
      assert Ids(es) == [es[0].id] + Ids(es[1..]);
    }
  }

  /** An explicit list selects exactly the declared fields it names; names of no field are
      dropped. */
  lemma CustomSelection(v: seq<string>, fields: Fields)
    ensures FieldsFromVisibility(Custom(v), fields).Ok?
    ensures forall x :: x in FieldsFromVisibility(Custom(v), fields).value <==>
      x in v && x in DeclaredIds(fields)
  {
    SelectCustom(v, Entries(fields));
  }

  lemma {:induction false} SelectThreshold(spec: FieldsVisibility, es: seq<Entry>)
    requires IsThreshold(spec)
    requires forall e :: e in es ==> WellFormedVis(e.vis)
    ensures Select(spec, es).Ok?
    ensures forall x :: x in Select(spec, es).value <==>
      exists e :: e in es && e.id == x && FieldLevel(e.vis) <= SpecRank(spec)
    decreases |es|
  {
    if es != [] {
      SelectThreshold(spec, es[1..]);
      KeepFieldByRank(spec, es[0]);
      forall x ensures x in Select(spec, es).value <==>
        exists e :: e in es && e.id == x && FieldLevel(e.vis) <= SpecRank(spec)
      {
        if exists e :: e in es && e.id == x && FieldLevel(e.vis) <= SpecRank(spec) {
          var e :| e in es && e.id == x && FieldLevel(e.vis) <= SpecRank(spec);
          if e != es[0] {
            assert e in es[1..];
          }
        }
      }
    }
  }

  /** With well-formed visibilities, a threshold selects exactly the fields whose level is at
      most its rank. */
  lemma ThresholdSelection(spec: FieldsVisibility, fields: Fields)
    requires IsThreshold(spec)
    requires forall e :: e in Entries(fields) ==> WellFormedVis(e.vis)
    ensures FieldsFromVisibility(spec, fields).Ok?
    ensures forall x :: x in FieldsFromVisibility(spec, fields).value <==>
      exists e :: e in Entries(fields) && e.id == x && FieldLevel(e.vis) <= SpecRank(spec)
  {
    SelectThreshold(spec, Entries(fields));
  }

  lemma {:induction false} SelectPanics(spec: FieldsVisibility, es: seq<Entry>)
    requires spec == Pub || spec == PubCrate || spec == PubSuper
    ensures Select(spec, es).Err? <==> exists e :: e in es && !WellFormedVis(e.vis)
    decreases |es|
  {
    if es != [] {
      SelectPanics(spec, es[1..]);
      if exists e :: e in es && !WellFormedVis(e.vis) {
        var e :| e in es && !WellFormedVis(e.vis);
        if e != es[0] {
          assert e in es[1..];
        }
      }
    }
  }

  /** Pub, PubCrate and PubSuper panic exactly when some declared field has a visibility the
      mapping rejects, such as `pub(self)`; None, All and Custom never look at visibilities. */
  lemma ThresholdPanics(spec: FieldsVisibility, fields: Fields)
    requires spec == Pub || spec == PubCrate || spec == PubSuper
    ensures FieldsFromVisibility(spec, fields).Err? <==>
      exists e :: e in Entries(fields) && !WellFormedVis(e.vis)
  {
    SelectPanics(spec, Entries(fields));
  }

  // ---------------------------------------------------------------------------------------
  // Parsing `get = ...` / `set = ...`

  /** The array after `=`: `meta.value()?` then parsing an `ExprArray`. */
  function ArrayOf(v: MetaValue): (r: Result<seq<Expr>>)
    ensures r.Ok? <==> v.ArrayExpr?
    ensures r.Ok? ==> r.value == v.elems
    ensures r.Err? ==> r.failure.CompileError?
  {
    match v
    case NoValue => Err(CompileError("expected `=`"))
    case ArrayExpr(elems) => Ok(elems)
    case _ => Err(CompileError("expected square brackets"))
  }

  /** The identifier after `=`. */
  function IdentOf(v: MetaValue): (r: Result<string>)
    ensures r.Ok? <==> v.IdentToken?
    ensures r.Ok? ==> r.value == v.ident
    ensures r.Err? ==> r.failure.CompileError?
  {
    match v
    case NoValue => Err(CompileError("expected `=`"))
    case IdentToken(i) => Ok(i)
    case _ => Err(CompileError("expected identifier"))
  }

  /** The elements of an explicit list; anything but a path is an error. */
  function PathList(elems: seq<Expr>): (r: Result<seq<string>>)
    ensures r.Ok? ==> (|r.value| == |elems| &&
      forall i :: 0 <= i < |elems| ==> elems[i] == PathExpr(r.value[i]))
    ensures r.Err? <==> exists i :: 0 <= i < |elems| && !elems[i].PathExpr?
    ensures r.Err? ==> r.failure.CompileError?
    decreases |elems|
  {
    if elems == [] then Ok([])
    else if !elems[0].PathExpr? then Err(CompileError("Expected an identifier"))
    else
      var rest :- PathList(elems[1..]);
      Ok([elems[0].path] + rest)
  }

  /** `FieldsVisibility::parse`. */
  function ParseVisibility(v: MetaValue): (r: Result<FieldsVisibility>)
    ensures r.Err? ==> r.failure.CompileError?
    ensures v.StarToken? ==> r == Ok(All)
    ensures v.VisToken? ==> r == FromVis(v.vis)
    ensures v.ArrayExpr? ==> (r.Ok? <==> forall i :: 0 <= i < |v.elems| ==> v.elems[i].PathExpr?)
    ensures v.ArrayExpr? && r.Ok? ==> r.value.Custom? && |r.value.names| == |v.elems|
    ensures v.ArrayExpr? && r.Ok? ==> forall i :: 0 <= i < |v.elems| ==> v.elems[i] == PathExpr(r.value.names[i])
    ensures !v.StarToken? && !v.VisToken? && !v.ArrayExpr? ==> r.Err?
  {
    if v.StarToken? then Ok(All)
    else if v.VisToken? then FromVis(v.vis)
    else
      var elems :- ArrayOf(v);
      var names :- PathList(elems);
      Ok(Custom(names))
  }

  /** An explicit list written in the attribute holds paths, and a path never reads as a
      decimal position: a list can never select a positional field. */
  lemma ParsedListSelectsNoPosition(v: MetaValue, fs: seq<UnnamedField>)
    requires v.ArrayExpr? && forall e :: e in v.elems && e.PathExpr? ==> IsPathText(e.path)
    requires ParseVisibility(v).Ok?
    ensures FieldsFromVisibility(ParseVisibility(v).value, Unnamed(fs)) == Ok([])
  {
    var names := PathList(v.elems).value;
    forall n | n in names
      ensures IsPathText(n)
    {
      var k :| 0 <= k < |names| && names[k] == n;
      assert v.elems[k] == PathExpr(n) && v.elems[k] in v.elems;
    }
    var es := Entries(Unnamed(fs));
    forall e | e in es
      ensures e.id !in names
    {
      var i :| 0 <= i < |es| && es[i] == e;
      assert e.id == NatToString(i);
    }
    SelectNothingListed(names, es);
  }

  lemma {:induction false} SelectNothingListed(v: seq<string>, es: seq<Entry>)
    requires forall e :: e in es ==> e.id !in v
    ensures Select(Custom(v), es) == Ok([])
    decreases |es|
  {
    if es != [] {
      assert es[0] in es;
      SelectNothingListed(v, es[1..]);
    }
  }

  // ---------------------------------------------------------------------------------------
  // Method signatures from `impl = [name(args...), ...]`

  /** A method or associated function to expose. `isSelf`: its first argument is a receiver;
      `isMut`: that receiver is mutable. */
  datatype MethodOrFunction = MethodOrFunction(name: string, args: seq<string>, isMut: bool, isSelf: bool)

  /** Builds the descriptor of one `name(args...)` element. The receiver is recognised by the
      text of the first kept argument and is then removed from the argument list. */
  function MethodOf(name: string, args: seq<Expr>): (m: MethodOrFunction)
    ensures m.name == name
  {
    var kept := KeptArgs(args);
    var first := if kept == [] then "" else kept[0];
    var isSelf := kept != [] && (first == "& mut self" || first == "mut self" || first == "& self" || first == "self");
    var isMut := kept != [] && (first == "& mut self" || first == "mut self");
    MethodOrFunction(name, if isSelf then kept[1..] else kept, isMut, isSelf)
  }

  /** The receiver flags and the arguments of a descriptor: a receiver is one of the four
      `self` forms in first position, only `&mut self` and `mut self` are mutable, and the
      receiver, and only the receiver, is removed from the kept arguments. */
  lemma MethodOfReceiver(name: string, args: seq<Expr>)
    ensures var m, kept := MethodOf(name, args), KeptArgs(args);
      && (m.isSelf <==> |kept| > 0 && kept[0] in ["& mut self", "mut self", "& self", "self"])
      && (m.isMut <==> |kept| > 0 && kept[0] in ["& mut self", "mut self"])
      && (m.isMut ==> m.isSelf)
      && |m.args| + (if m.isSelf then 1 else 0) == |kept|
      && m.args == kept[|kept| - |m.args|..]
  {
    var m, kept := MethodOf(name, args), KeptArgs(args);
    if m.isSelf {
      assert m.args == kept[1..];
    } else {
      assert m.args == kept[0..];
    }
  }

  /** The `impl` loop, from the element after the ones already turned into `acc`: a call whose
      function is a path gives a descriptor, a call on anything else is skipped, any other
      element is an error. */
  function ImplSpecsFrom(acc: seq<MethodOrFunction>, elems: seq<Expr>): Result<seq<MethodOrFunction>>
    decreases |elems|
  {
    if elems == [] then Ok(acc)
    else
      match elems[0]
      case CallExpr(PathExpr(f), args) => ImplSpecsFrom(acc + [MethodOf(f, args)], elems[1..])
      case CallExpr(_, _) => ImplSpecsFrom(acc, elems[1..])
      case _ => Err(CompileError("Expected an identifier"))
  }

  function ImplSpecs(elems: seq<Expr>): (r: Result<seq<MethodOrFunction>>)
    ensures r.Ok? ==> |r.value| <= |elems|
  {
    ImplSpecsFromLength([], elems);
    ImplSpecsFrom([], elems)
  }

  /** Each element adds at most one descriptor. */
  lemma {:induction false} ImplSpecsFromLength(acc: seq<MethodOrFunction>, elems: seq<Expr>)
    ensures ImplSpecsFrom(acc, elems).Ok? ==> |ImplSpecsFrom(acc, elems).value| <= |acc| + |elems|
    decreases |elems|
  {
    if elems != [] {
      match elems[0]
      case CallExpr(PathExpr(f), args) => ImplSpecsFromLength(acc + [MethodOf(f, args)], elems[1..]);
      case CallExpr(_, _) => ImplSpecsFromLength(acc, elems[1..]);
      case _ =>
    }
  }

  lemma {:induction false} ImplSpecsFromFails(acc: seq<MethodOrFunction>, elems: seq<Expr>)
    ensures ImplSpecsFrom(acc, elems).Err? <==> exists i :: 0 <= i < |elems| && !elems[i].CallExpr?
    ensures ImplSpecsFrom(acc, elems).Err? ==>
      ImplSpecsFrom(acc, elems).failure == CompileError("Expected an identifier")
    decreases |elems|
  {
    if elems != [] {
      match elems[0]
      case CallExpr(PathExpr(f), args) => ImplSpecsFromFails(acc + [MethodOf(f, args)], elems[1..]);
      case CallExpr(_, _) => ImplSpecsFromFails(acc, elems[1..]);
      case _ =>
      if exists i :: 0 <= i < |elems[1..]| && !elems[1..][i].CallExpr? {
        var i :| 0 <= i < |elems[1..]| && !elems[1..][i].CallExpr?;
        assert !elems[i + 1].CallExpr?;
      }
      if exists i :: 0 <= i < |elems| && !elems[i].CallExpr? {
        var i :| 0 <= i < |elems| && !elems[i].CallExpr?;
        if i > 0 { assert !elems[1..][i - 1].CallExpr?; }
      }
    }
  }

  /** `impl = [...]` fails exactly when some element is not a call. */
  lemma ImplSpecsFailOnNonCall(elems: seq<Expr>)
    ensures ImplSpecs(elems).Err? <==> exists i :: 0 <= i < |elems| && !elems[i].CallExpr?
    ensures ImplSpecs(elems).Err? ==> ImplSpecs(elems).failure == CompileError("Expected an identifier")
  {
    ImplSpecsFromFails([], elems);
  }

  predicate IsPathCall(e: Expr) {
    e.CallExpr? && e.func.PathExpr?
  }

  /** The descriptor of each element of a list of calls on paths. */
  function CallSpecs(elems: seq<Expr>): (r: seq<MethodOrFunction>)
    requires forall i :: 0 <= i < |elems| ==> IsPathCall(elems[i])
    ensures |r| == |elems|
    ensures forall i :: 0 <= i < |elems| ==> IsPathCall(elems[i]) && r[i] == MethodOf(elems[i].func.path, elems[i].args)
    decreases |elems|
  {
    if elems == [] then []
    else
      assert IsPathCall(elems[0]);
      [MethodOf(elems[0].func.path, elems[0].args)] + CallSpecs(elems[1..])
  }

  lemma {:induction false} ImplSpecsFromCalls(acc: seq<MethodOrFunction>, elems: seq<Expr>)
    requires forall e :: e in elems ==> IsPathCall(e)
    ensures ImplSpecsFrom(acc, elems) == Ok(acc + CallSpecs(elems))
    decreases |elems|
  {
    if elems != [] {
      assert elems[0] in elems;
      var m := MethodOf(elems[0].func.path, elems[0].args);
      ImplSpecsFromStep(acc, elems);
      ImplSpecsFromCalls(acc + [m], elems[1..]);
      assert acc + [m] + CallSpecs(elems[1..]) == acc + CallSpecs(elems);
    } else {
      assert acc + CallSpecs(elems) == acc;
    }
  }

  /** A call on a path contributes its descriptor and parsing moves on. */
  lemma ImplSpecsFromStep(acc: seq<MethodOrFunction>, elems: seq<Expr>)
    requires elems != [] && IsPathCall(elems[0])
    ensures ImplSpecsFrom(acc, elems) == ImplSpecsFrom(acc + [MethodOf(elems[0].func.path, elems[0].args)], elems[1..])
  {
  }

  /** When every element is a call on a path, each gives one descriptor, in order. */
  lemma ImplSpecsOnePerCall(elems: seq<Expr>)
    requires forall e :: e in elems ==> IsPathCall(e)
    ensures ImplSpecs(elems).Ok? && |ImplSpecs(elems).value| == |elems|
    ensures forall i :: 0 <= i < |elems| ==> (IsPathCall(elems[i]) &&
      ImplSpecs(elems).value[i] == MethodOf(elems[i].func.path, elems[i].args))
  {
    ImplSpecsFromCalls([], elems);
    assert [] + CallSpecs(elems) == CallSpecs(elems);
  }

  /** The `impl` loop of `Attributes::parse`, pushing onto `vecElements`. */
  method ParseImplArray(elems: seq<Expr>) returns (r: Result<seq<MethodOrFunction>>)
    ensures r == ImplSpecs(elems)
  {
    var vecElements: seq<MethodOrFunction> := [];
    var i := 0;
    while i < |elems|
      invariant 0 <= i <= |elems|
      invariant ImplSpecsFrom(vecElements, elems[i..]) == ImplSpecs(elems)
    {
      assert elems[i..][0] == elems[i] && elems[i..][1..] == elems[i + 1..];
      var elem := elems[i];
      if elem.CallExpr? {
        if elem.func.PathExpr? {
          vecElements := vecElements + [MethodOf(elem.func.path, elem.args)];
        }
      } else {
        return Err(CompileError("Expected an identifier"));
      }
      i := i + 1;
    }
    return Ok(vecElements);
  }

  // ---------------------------------------------------------------------------------------
  // The whole attribute

  /** The parsed attribute, as a value. */
  datatype AttrState = AttrState(
    getVis: FieldsVisibility,
    setVis: FieldsVisibility,
    impls: seq<MethodOrFunction>,
    customFields: Option<string>,
    customImpls: Option<string>)

  /** `Attributes::default()`: both specifications default to PubSuper. */
  const DefaultAttrs: AttrState := AttrState(PubSuper, PubSuper, [], Wrappers.None, Wrappers.None)

  /** The effect of `Attributes::parse` on one `key = value` item; on an error the state is
      left as it was. */
  function ApplyMeta(st: AttrState, meta: Meta): (r: Result<AttrState>)
    ensures r.Err? ==> r.failure.CompileError?
  {
    if meta.key.None? then Err(CompileError("Expected an ident."))
    else
      var key := meta.key.value;
      if key == "get" then
        var v :- ParseVisibility(meta.value);
        Ok(st.(getVis := v))
      else if key == "set" then
        var v :- ParseVisibility(meta.value);
        Ok(st.(setVis := v))
      else if key == "impl" then
        var elems :- ArrayOf(meta.value);
        ImplSpecsFromFails([], elems);
        var ms :- ImplSpecs(elems);
        Ok(st.(impls := ms))
      else if key == "custom_fields" then
        var id :- IdentOf(meta.value);
        Ok(st.(customFields := Some(id)))
      else if key == "custom_impls" then
        var id :- IdentOf(meta.value);
        Ok(st.(customImpls := Some(id)))
      else Err(CompileError("Unexpected attribute name: " + key))
  }

  /** Each key sets only its own part of the attribute; an unknown key is an error. */
  lemma ApplyMetaTouchesOneKey(st: AttrState, meta: Meta)
    ensures ApplyMeta(st, meta).Ok? ==> (meta.key.Some? &&
      meta.key.value in ["get", "set", "impl", "custom_fields", "custom_impls"])
    ensures ApplyMeta(st, meta).Ok? && meta.key.value != "get" ==> ApplyMeta(st, meta).value.getVis == st.getVis
    ensures ApplyMeta(st, meta).Ok? && meta.key.value != "set" ==> ApplyMeta(st, meta).value.setVis == st.setVis
    ensures ApplyMeta(st, meta).Ok? && meta.key.value != "impl" ==> ApplyMeta(st, meta).value.impls == st.impls
    ensures ApplyMeta(st, meta).Ok? && meta.key.value == "impl" ==>
      ApplyMeta(st, meta).value.impls == ImplSpecs(meta.value.elems).value
    ensures ApplyMeta(st, meta).Ok? && meta.key.value == "get" ==>
      ApplyMeta(st, meta).value.getVis == ParseVisibility(meta.value).value
    ensures ApplyMeta(st, meta).Ok? && meta.key.value == "set" ==>
      ApplyMeta(st, meta).value.setVis == ParseVisibility(meta.value).value
    ensures ApplyMeta(st, meta).Ok? && meta.key.value != "custom_fields" ==> ApplyMeta(st, meta).value.customFields == st.customFields
    ensures ApplyMeta(st, meta).Ok? && meta.key.value == "custom_fields" ==>
      meta.value.IdentToken? && ApplyMeta(st, meta).value.customFields == Some(meta.value.ident)
    ensures ApplyMeta(st, meta).Ok? && meta.key.value != "custom_impls" ==> ApplyMeta(st, meta).value.customImpls == st.customImpls
    ensures ApplyMeta(st, meta).Ok? && meta.key.value == "custom_impls" ==>
      meta.value.IdentToken? && ApplyMeta(st, meta).value.customImpls == Some(meta.value.ident)
  {
  }

  /** What a user writes after `get =` decides what is readable: `*` every declared field, a
      list exactly the declared fields it names. */
  lemma GetAttributeSelects(st: AttrState, value: MetaValue, fields: Fields)
    requires value.StarToken? || (value.ArrayExpr? && forall i :: 0 <= i < |value.elems| ==> value.elems[i].PathExpr?)
    ensures ApplyMeta(st, Meta(Some("get"), value)).Ok?
    ensures var spec := ApplyMeta(st, Meta(Some("get"), value)).value.getVis;
      && FieldsFromVisibility(spec, fields).Ok?
      && (value.StarToken? ==> FieldsFromVisibility(spec, fields).value == DeclaredIds(fields))
      && (value.ArrayExpr? ==> forall x :: x in FieldsFromVisibility(spec, fields).value <==>
            x in DeclaredIds(fields) && PathExpr(x) in value.elems)
  {
    var spec := ApplyMeta(st, Meta(Some("get"), value)).value.getVis;
    if value.StarToken? {
      AllAndNoneSelection(fields);
    } else {
      var names := PathList(value.elems).value;
      assert spec == Custom(names);
      CustomSelection(names, fields);
      forall x
        ensures x in names <==> PathExpr(x) in value.elems
      {
        if x in names {
          var i :| 0 <= i < |names| && names[i] == x;
          assert value.elems[i] == PathExpr(x);
        }
        if PathExpr(x) in value.elems {
          var i :| 0 <= i < |value.elems| && value.elems[i] == PathExpr(x);
          assert names[i] == x;
        }
      }
    }
  }

  /** The parser state `Attributes` that the macro's attribute parser mutates. */
  class Attributes {
    var getVis: FieldsVisibility
    var setVis: FieldsVisibility
    var impls: seq<MethodOrFunction>
    var customFields: Option<string>
    var customImpls: Option<string>

    function State(): AttrState
      reads this
    {
      AttrState(getVis, setVis, impls, customFields, customImpls)
    }

    /** `Attributes::default()`. */
    constructor ()
      ensures State() == DefaultAttrs
    {
      getVis := PubSuper;
      setVis := PubSuper;
      impls := [];
      customFields := Wrappers.None;
      customImpls := Wrappers.None;
    }

    /** `Attributes::parse`: one `key = value` item. */
    method Parse(meta: Meta) returns (r: Result<()>)
      modifies this
      ensures r.Ok? <==> ApplyMeta(old(State()), meta).Ok?
      ensures r.Err? ==> r.failure == ApplyMeta(old(State()), meta).failure
      ensures State() == if r.Ok? then ApplyMeta(old(State()), meta).value else old(State())
    {
      if meta.key.None? {
        return Err(CompileError("Expected an ident."));
      }
      var key := meta.key.value;
      if key == "get" {
        var v := ParseVisibility(meta.value);
        if v.Err? {
          return Err(v.failure);
        }
        getVis := v.value;
      } else if key == "set" {
        var v := ParseVisibility(meta.value);
        if v.Err? {
          return Err(v.failure);
        }
        setVis := v.value;
      } else if key == "impl" {
        var arr := ArrayOf(meta.value);
        if arr.Err? {
          return Err(arr.failure);
        }
        var vecElements := ParseImplArray(arr.value);
        if vecElements.Err? {
          ImplSpecsFailOnNonCall(arr.value);
          return Err(vecElements.failure);
        }
        impls := vecElements.value;
      } else if key == "custom_fields" {
        var id := IdentOf(meta.value);
        if id.Err? {
          return Err(id.failure);
        }
        customFields := Some(id.value);
      } else if key == "custom_impls" {
        var id := IdentOf(meta.value);
        if id.Err? {
          return Err(id.failure);
        }
        customImpls := Some(id.value);
      } else {
        return Err(CompileError("Unexpected attribute name: " + key));
      }
      return Ok(());
    }
  }
}
