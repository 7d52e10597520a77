/** An abstract view of the Lua values that the generated code reads and writes. */
module Lua {
  import opened Wrappers
  import opened Seqs

  /** A Lua value. A table has a string-keyed part and a sequence part (`t[1]`, `t[2]`, ...);
      an entry holding `Nil` is an absent entry. A userdata carries the Rust type it wraps. */
  datatype Value =
    | Nil
    | Boolean(b: bool)
    | Integer(n: int)
    | Table(hash: map<string, Value>, items: seq<Value>)
    | UserData(typeName: string, native: Native)
    | Other(description: string)

  /** A Rust value owned by a userdata. */
  datatype Native =
    | StructValue(payload: Payload)
    | EnumValue(variant: string, payload: Payload)

  /** The fields of a struct or of an enum variant, each held as the Lua image of its value. */
  datatype Payload =
    | NamedPayload(values: map<string, Value>)
    | TuplePayload(items: seq<Value>)
    | UnitPayload

  /** `FromLua` for a leaf type: given the Rust type's text and a Lua value, the converted value
      or a conversion error. It belongs to `mlua`, so every operation takes it as a parameter. */
  type Conv = (string, Value) -> Result<Value>

  /** `table.get::<Value>(key)`: an absent key reads as nil. */
  function Get(hash: map<string, Value>, key: string): Value {
    if key in hash then hash[key] else Nil
  }

  /** `table.get::<Value>(i)` for an integer key `i` (1-based). */
  function GetIndex(items: seq<Value>, i: int): Value {
    if 1 <= i <= |items| then items[i - 1] else Nil
  }

  /** `table.sequence_values()`: the values at 1, 2, ... up to the first absent one. */
  function SequenceValues(items: seq<Value>): (r: seq<Value>)
    ensures |r| <= |items| && r == items[..|r|]
    ensures forall i :: 0 <= i < |r| ==> r[i] != Nil
    ensures |r| < |items| ==> items[|r|] == Nil
  {
    if items == [] || items[0] == Nil then [] else [items[0]] + SequenceValues(items[1..])
  }

  /** A sequence without holes is read whole. */
  lemma {:induction false} SequenceValuesOfNonNil(vals: seq<Value>)
    requires forall i :: 0 <= i < |vals| ==> vals[i] != Nil
    ensures SequenceValues(vals) == vals
    decreases |vals|
  {
    if vals != [] {
      SequenceValuesOfNonNil(vals[1..]);
    }
  }

  /** A sequence whose first `n` values have no hole yields at least those. */
  lemma {:induction false} SequenceValuesPrefix(vals: seq<Value>, n: nat)
    requires n <= |vals| && forall i :: 0 <= i < n ==> vals[i] != Nil
    ensures |SequenceValues(vals)| >= n
    decreases n
  {
    if n > 0 {
      SequenceValuesPrefix(vals[1..], n - 1);
    }
  }

  /** `table.push(v)` on a table whose sequence part is `items`: the value goes to the first
      free index, so pushing nil stores nothing. */
  function Push(items: seq<Value>, v: Value): seq<Value> {
    if v == Nil then items else items + [v]
  }

  /** Pushing `vals` one after another onto an empty sequence part. */
  function PushAll(vals: seq<Value>): (r: seq<Value>)
    ensures forall i :: 0 <= i < |r| ==> r[i] != Nil
    ensures multiset(r) == multiset(vals)[Nil := 0]
    ensures (forall i :: 0 <= i < |vals| ==> vals[i] != Nil) ==> r == vals
    decreases |vals|
  {
    if vals == [] then []
    else
      var init := vals[..|vals| - 1];
      assert vals == init + [vals[|vals| - 1]];
      Push(PushAll(init), vals[|vals| - 1])
  }

  /** Pushing two runs of values in turn keeps each run's non-nil values in order. */
  lemma {:induction false} PushAllConcat(a: seq<Value>, b: seq<Value>)
    ensures PushAll(a + b) == PushAll(a) + PushAll(b)
    decreases |b|
  {
    if b == [] {
      assert a + b == a;
    } else {
      var init := b[..|b| - 1];
      var last := b[|b| - 1];
      assert (a + b)[..|a + b| - 1] == a + init;
      assert (a + b)[|a + b| - 1] == last;
      PushAllConcat(a, init);
      assert PushAll(a + b) == Push(PushAll(a) + PushAll(init), last);
      assert PushAll(b) == Push(PushAll(init), last);
    }
  }

  /** A nil pushed between values leaves no hole: the later values move down. */
  lemma PushSkipsNil()
    ensures PushAll([Nil, Integer(5)]) == [Integer(5)]
  {
    assert [Nil, Integer(5)][..1] == [Nil];
    assert [Nil][..0] == [];
  }

  /** The leaf conversion accepts each value as it stands. */
  ghost predicate ConvKeeps(conv: Conv, tys: seq<string>, vals: seq<Value>)
    requires |tys| == |vals|
  {
    forall i :: 0 <= i < |tys| ==> conv(tys[i], vals[i]) == Ok(vals[i])
  }

  /** `table.get(key)?` for each declared field in order, converted to the field's type: the
      first failing conversion is the error, and each field name maps to its converted value. */
  function GetFields(conv: Conv, keys: seq<string>, tys: seq<string>, hash: map<string, Value>): (r: Result<map<string, Value>>)
    requires |keys| == |tys|
    ensures r.Ok? <==> forall i :: 0 <= i < |keys| ==> conv(tys[i], Get(hash, keys[i])).Ok?
    ensures r.Ok? ==> r.value.Keys == set k | k in keys
    ensures r.Ok? ==> forall i :: 0 <= i < |keys| && (forall j :: 0 <= j < i ==> keys[j] != keys[i]) ==>
      conv(tys[i], Get(hash, keys[i])) == Ok(r.value[keys[i]])
    decreases |keys|
  {
    if keys == [] then Ok(map[])
    else
      var v :- conv(tys[0], Get(hash, keys[0]));
      var rest :- GetFields(conv, keys[1..], tys[1..], hash);
      Ok(rest[keys[0] := v])
  }

  /** When the keys are distinct, name every entry of the table, and the conversion accepts each
      entry as it stands, the fields read back are the table itself. */
  lemma GetFieldsReadsBack(conv: Conv, keys: seq<string>, tys: seq<string>, hash: map<string, Value>)
    requires |keys| == |tys| && Distinct(keys) && hash.Keys == set k | k in keys
    requires forall i :: 0 <= i < |keys| ==> conv(tys[i], Get(hash, keys[i])) == Ok(Get(hash, keys[i]))
    ensures GetFields(conv, keys, tys, hash) == Ok(hash)
  {
    var g := GetFields(conv, keys, tys, hash);
    assert g.Ok?;
    forall k | k in g.value.Keys
      ensures g.value[k] == hash[k]
    {
      var i :| 0 <= i < |keys| && keys[i] == k;
      assert conv(tys[i], Get(hash, keys[i])) == Ok(g.value[keys[i]]);
    }
    assert g.value == hash;
  }

  /** The `{val:?}` rendering in error messages, abbreviated to the kind of value. */
  function Describe(v: Value): string {
    match v
    case Nil => "Nil"
    case Boolean(_) => "Boolean"
    case Integer(_) => "Integer"
    case Table(_, _) => "Table"
    case UserData(_, _) => "UserData"
    case Other(d) => d
  }

  /** One `FromLua::from_lua(sequence_value.next().ok_or_else(..)??, lua)?` per field: the next
      sequence value, converted to the field's type; running out of values is an error. */
  function TakeSequence(conv: Conv, tys: seq<string>, vals: seq<Value>): (r: Result<seq<Value>>)
    ensures r.Ok? <==> |vals| >= |tys| && forall i :: 0 <= i < |tys| ==> conv(tys[i], vals[i]).Ok?
    ensures r.Ok? ==> (|r.value| == |tys| &&
      forall i :: 0 <= i < |tys| ==> conv(tys[i], vals[i]) == Ok(r.value[i]))
    ensures |vals| < |tys| && (forall i :: 0 <= i < |vals| ==> conv(tys[i], vals[i]).Ok?) ==>
      r == Err(RuntimeError("Not enough values in sequence table."))
    decreases |tys|
  {
    if tys == [] then Ok([])
    else if vals == [] then Err(RuntimeError("Not enough values in sequence table."))
    else
      var v :- conv(tys[0], vals[0]);
      var rest :- TakeSequence(conv, tys[1..], vals[1..]);
      Ok([v] + rest)
  }

  /** A sequence the conversion accepts value by value, exactly as long as the types, is read
      back whole. */
  lemma TakeSequenceReadsBack(conv: Conv, tys: seq<string>, vals: seq<Value>)
    requires |tys| == |vals| && ConvKeeps(conv, tys, vals)
    ensures TakeSequence(conv, tys, vals) == Ok(vals)
  {
    var r := TakeSequence(conv, tys, vals);
    assert r.Ok?;
    assert r.value == vals;
  }
}
