/** Helpers shared by the struct and enum generators. */
module Shared {
  import opened Wrappers
  import opened Syntax
  import opened Arity

  /** `shared::generate_tuple_access`: the split by field count, with the parameter `param`. */
  function GenerateTupleAccess(tys: seq<string>): (r: TupleAccess)
    ensures r == TupleAccessSpec("param", tys)
  {
    match |tys|
    case 0 => TupleAccess([], UnitType)
    case 1 => TupleAccess([WholeValue("param")], Bare(tys[0]))
    case _ =>
      var argsIdent := seq(|tys|, idx requires 0 <= idx < |tys| => Positional("param", idx));
      TupleAccess(argsIdent, TupleType(tys))
  }

  /** The generic arguments written after the type's name: nothing, or `<...>`. */
  datatype GenericArgs = NoGenerics | Angle(params: seq<GenericParam>)

  /** A parameter as it may appear in argument position: a type parameter with no `:`, bounds,
      `=` or default, or a lifetime. */
  predicate IsStripped(g: GenericParam) {
    match g
    case TypeParam(_, colon, bounds, eq, default) => !colon && bounds == [] && !eq && default.None?
    case LifetimeParam(_, _) => true
    case ConstParam(_, _, _) => false
  }

  /** The `filter_map` closure: clear a type parameter, keep a lifetime, drop a const. */
  function StripParam(g: GenericParam): (r: Option<GenericParam>)
    ensures r.None? <==> g.ConstParam?
    ensures r.Some? ==> IsStripped(r.value)
    ensures g.TypeParam? ==> r == Some(TypeParam(g.ident, false, [], false, Wrappers.None))
    ensures g.LifetimeParam? ==> r == Some(g)
  {
    match g
    case TypeParam(ident, _, _, _, _) => Some(g.(colon := false, bounds := [], eq := false, default := Wrappers.None))
    case ConstParam(_, _, _) => Wrappers.None
    case LifetimeParam(_, _) => Some(g)
  }

  function StripParams(gs: seq<GenericParam>): (r: seq<GenericParam>)
    ensures |r| <= |gs|
    ensures forall g :: g in r ==> IsStripped(g)
    decreases |gs|
  {
    if gs == [] then []
    else (match StripParam(gs[0]) case Some(g) => [g] case None => []) + StripParams(gs[1..])
  }

  /** `remove_ty_from_generics`. */
  function RemoveTyFromGenerics(gs: seq<GenericParam>): (r: GenericArgs)
    ensures r.NoGenerics? <==> forall g :: g in gs ==> g.ConstParam?
    ensures r.Angle? ==> r.params == StripParams(gs) && r.params != []
  {
    StripParamsEmpty(gs);
    var kept := StripParams(gs);
    if kept == [] then NoGenerics else Angle(kept)
  }

  lemma {:induction false} StripParamsEmpty(gs: seq<GenericParam>)
    ensures StripParams(gs) == [] <==> forall g :: g in gs ==> g.ConstParam?
    decreases |gs|
  {
    if gs != [] {
      StripParamsEmpty(gs[1..]);
      assert forall g :: g in gs ==> g == gs[0] || g in gs[1..];
    }
  }

  /** Stripping works parameter by parameter and keeps their order. */
  lemma {:induction false} StripParamsConcat(xs: seq<GenericParam>, ys: seq<GenericParam>)
    ensures StripParams(xs + ys) == StripParams(xs) + StripParams(ys)
    decreases |xs|
  {
    if xs != [] {
      assert (xs + ys)[0] == xs[0] && (xs + ys)[1..] == xs[1..] + ys;
      var head := match StripParam(xs[0]) case Some(g) => [g] case None => [];
      assert StripParams(xs + ys) == head + StripParams(xs[1..] + ys);
      StripParamsConcat(xs[1..], ys);
      assert head + (StripParams(xs[1..]) + StripParams(ys)) == (head + StripParams(xs[1..])) + StripParams(ys);
    } else {
      assert xs + ys == ys;
    }
  }

  /** Const parameters disappear, lifetimes stay as they are, type parameters keep only their
      name; the rest of the list is unaffected. */
  lemma {:induction false} StripOne(xs: seq<GenericParam>, g: GenericParam, ys: seq<GenericParam>)
    ensures g.ConstParam? ==> StripParams(xs + [g] + ys) == StripParams(xs) + StripParams(ys)
    ensures g.LifetimeParam? ==> StripParams(xs + [g] + ys) == StripParams(xs) + [g] + StripParams(ys)
    ensures g.TypeParam? ==> (StripParams(xs + [g] + ys) ==
      StripParams(xs) + [TypeParam(g.ident, false, [], false, Wrappers.None)] + StripParams(ys))
  {
    StripParamsConcat(xs + [g], ys);
    StripParamsConcat(xs, [g]);
    StripSingle(g);
  }

  /** A one-element list strips to what its element strips to. */
  lemma StripSingle(g: GenericParam)
    ensures StripParams([g]) == match StripParam(g) case Some(h) => [h] case None => []
  {
    assert [g][1..] == [];
  }

  lemma {:induction false} StripParamsIdempotent(gs: seq<GenericParam>)
    ensures StripParams(StripParams(gs)) == StripParams(gs)
    decreases |gs|
  {
    if gs != [] {
      StripParamsIdempotent(gs[1..]);
      var head := match StripParam(gs[0]) case Some(g) => [g] case None => [];
      StripParamsConcat(head, StripParams(gs[1..]));
      if head != [] {
        assert head[1..] == [];
      }
    }
  }

  /** Stripping an already stripped list changes nothing. */
  lemma RemoveTyIdempotent(gs: seq<GenericParam>)
    ensures RemoveTyFromGenerics(gs).Angle? ==>
      RemoveTyFromGenerics(RemoveTyFromGenerics(gs).params) == RemoveTyFromGenerics(gs)
  {
    StripParamsIdempotent(gs);
    StripParamsEmpty(StripParams(gs));
  }
}
