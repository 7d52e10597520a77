/** How a list of argument types is passed through one closure parameter: nothing for zero
    types, the bare value for one (a parenthesised single type is not a tuple), a tuple read
    back with positional accessors for two or more. */
module Arity {
  import opened Wrappers
  import opened Lua

  /** An argument expression of the generated call: the whole parameter, or `param.index`. */
  datatype Access = WholeValue(param: string) | Positional(param: string, index: nat)

  /** The declared type of the closure parameter. */
  datatype TypeExpr = UnitType | Bare(ty: string) | TupleType(tys: seq<string>)

  /** The accessor list and the parameter type that a generator emits. */
  datatype TupleAccess = TupleAccess(accessors: seq<Access>, ty: TypeExpr)

  /** The reference split, stated once; every generator's version is proved equal to it. */
  function TupleAccessSpec(param: string, tys: seq<string>): (r: TupleAccess)
    ensures |tys| != 1 ==> |r.accessors| == |tys|
    ensures |tys| == 0 ==> r.ty == UnitType
    ensures |tys| == 1 ==> r.accessors == [WholeValue(param)] && r.ty == Bare(tys[0])
    ensures |tys| >= 2 ==> (r.ty == TupleType(tys) &&
      forall i :: 0 <= i < |tys| ==> r.accessors[i] == Positional(param, i))
  {
    if |tys| == 0 then TupleAccess([], UnitType)
    else if |tys| == 1 then TupleAccess([WholeValue(param)], Bare(tys[0]))
    else TupleAccess(seq(|tys|, i requires 0 <= i < |tys| => Positional(param, i)), TupleType(tys))
  }

  // ---------------------------------------------------------------------------------------
  // What the closure receives

  /** The `i`-th Lua argument of a call; missing trailing arguments read as nil. */
  function ArgAt(args: seq<Value>, i: nat): Value {
    if i < |args| then args[i] else Nil
  }

  /** Each argument converted to its declared type, in order; the first failing conversion is
      the error. */
  function ConvertArgs(conv: Conv, tys: seq<string>, args: seq<Value>): (r: Result<seq<Value>>)
    ensures r.Ok? <==> forall i :: 0 <= i < |tys| ==> conv(tys[i], ArgAt(args, i)).Ok?
    ensures r.Ok? ==> (|r.value| == |tys| &&
      forall i :: 0 <= i < |tys| ==> conv(tys[i], ArgAt(args, i)) == Ok(r.value[i]))
    decreases |tys|
  {
    if tys == [] then Ok([])
    else
      var tail := if args == [] then [] else args[1..];
      assert forall i :: 0 <= i < |tys| - 1 ==> ArgAt(tail, i) == ArgAt(args, i + 1);
      var v :- conv(tys[0], ArgAt(args, 0));
      var rest :- ConvertArgs(conv, tys[1..], tail);
      Ok([v] + rest)
  }

  /** The value bound to the closure parameter. */
  datatype ArgPack = UnitArg | SingleArg(v: Value) | TupleArg(vs: seq<Value>)

  /** `FromLuaMulti` for the parameter type. */
  function Receive(ty: TypeExpr, conv: Conv, args: seq<Value>): Result<ArgPack> {
    match ty
    case UnitType => Ok(UnitArg)
    case Bare(t) =>
      var v :- conv(t, ArgAt(args, 0));
      Ok(SingleArg(v))
    case TupleType(ts) =>
      var vs :- ConvertArgs(conv, ts, args);
      Ok(TupleArg(vs))
  }

  /** The value an accessor denotes, when it fits the parameter's shape. */
  function Read(a: Access, p: ArgPack): Option<Value> {
    match a
    case WholeValue(_) => if p.SingleArg? then Some(p.v) else Wrappers.None
    case Positional(_, i) => if p.TupleArg? && i < |p.vs| then Some(p.vs[i]) else Wrappers.None
  }

  function ReadAll(accs: seq<Access>, p: ArgPack): (r: Option<seq<Value>>)
    ensures r.Some? ==> |r.value| == |accs|
    decreases |accs|
  {
    if accs == [] then Some([])
    else
      var v :- Read(accs[0], p);
      var rest :- ReadAll(accs[1..], p);
      Some([v] + rest)
  }

  lemma {:induction false} ReadPositions(param: string, from: nat, n: nat, vs: seq<Value>)
    requires from + n <= |vs|
    ensures ReadAll(seq(n, i requires 0 <= i < n => Positional(param, from + i)), TupleArg(vs))
      == Some(vs[from..from + n])
    decreases n
  {
    var accs := seq(n, i requires 0 <= i < n => Positional(param, from + i));
    if n > 0 {
      ReadPositions(param, from + 1, n - 1, vs);
      assert accs[1..] == seq(n - 1, i requires 0 <= i < n - 1 => Positional(param, from + 1 + i));
      assert vs[from..from + n] == [vs[from]] + vs[from + 1..from + n];
    }
  }

  /** The accessors of the reference split, applied to what the closure receives, give back
      the converted Lua arguments in declaration order, whatever the arity. */
  lemma TupleAccessRoundTrip(param: string, tys: seq<string>, conv: Conv, args: seq<Value>)
    ensures Receive(TupleAccessSpec(param, tys).ty, conv, args).Ok? <==> ConvertArgs(conv, tys, args).Ok?
    ensures Receive(TupleAccessSpec(param, tys).ty, conv, args).Ok? ==>
      ReadAll(TupleAccessSpec(param, tys).accessors, Receive(TupleAccessSpec(param, tys).ty, conv, args).value)
        == Some(ConvertArgs(conv, tys, args).value)
  {
    var spec := TupleAccessSpec(param, tys);
    if |tys| == 1 {
      var r := ConvertArgs(conv, tys, args);
      if r.Ok? {
        assert r.value == [r.value[0]];
      }
    } else if |tys| >= 2 {
      var r := ConvertArgs(conv, tys, args);
      if r.Ok? {
        ReadPositions(param, 0, |tys|, r.value);
        assert spec.accessors == seq(|tys|, i requires 0 <= i < |tys| => Positional(param, 0 + i));
        assert r.value[0..|tys|] == r.value;
      }
    }
  }
}
