# mlua_gen, modelled in Dafny

`mlua_gen` is a Rust procedural macro. `#[mlua_gen(get = …, set = …, impl = [...],
custom_fields = …, custom_impls = …)]` placed on a struct or an enum exposes that type to Lua
through the `mlua` crate. The attribute says:

- which fields get a Lua getter or setter: a visibility threshold (`pub`, `pub(crate)`,
  `pub(super)`), `*`, or an explicit list;
- which methods and associated functions are bound.

From that, the macro emits a `LuaBuilder` implementation (constructors and the static-function
table that `to_globals` registers), a `UserData` implementation and a `FromLua` implementation.
A small runtime crate adds the `NewIndex` trait, which describes what `t[index] = item` does
to a Rust collection.

This project models the macro's decisions and the Lua-visible behaviour of what it generates.
Generated code is represented by descriptors: registrations, constructors, tuple accessors and
tables. Their run-time meaning is given by functions over an abstract Lua value.

The older `src` crate is modelled beside the current macro: its attribute parser, struct
generator and enum generator. Each legacy part is related to the current one by lemmas.

Modules, one per source concern:

- `Wrappers`, `Seqs`, `Text`: Option/Result with the three failure kinds (compile error, panic,
  Lua runtime error), subsequences, ASCII lower-casing and decimal numerals.
- `Lua`: Lua values, tables, `sequence_values`, and leaf `FromLua` conversions. The
  conversions are the parameter `conv`.
- `Syntax`: what `syn` hands the macro.
- `Attr`: the attribute parser and the field resolver (`mlua-gen-macros/src/attr.rs`).
  `Attr.Attributes` is the parser state, which is mutated item by item.
- `Arity`, `Builder`, `Shared`, `Globals`: tuple access, constructors, static-function
  tables, generic stripping, and the global registry.
- `StructGen` and `StructLua`: the struct generator and what its code does in Lua.
- `EnumGen` and `EnumLua`: the same for enums.
- `Entry`: the `mlua_gen` entry point.
- `NewIndex`: the runtime trait, with one class per collection.
- `LegacyAttr`, `LegacyStruct`, `LegacyEnum`: the older crate.

## Model

| member | source | states |
|---|---|---|
| Text.ToLower | mlua-gen-macros/src/enum.rs:90 | lower-casing keeps the length of the variant name |
| Text.ParseNatToString | mlua-gen-macros/src/struct.rs:136-137 | a field position printed in decimal reads back as the same integer literal |
| Text.NatToStringInjective | mlua-gen-macros/src/attr.rs:275 | distinct positions get distinct identifiers |
| Text.IndexStrings | mlua-gen-macros/src/attr.rs:275 | one decimal identifier per tuple field |
| Lua.SequenceValues | mlua-gen-macros/src/struct.rs:257-258 | the sequence read is the longest nil-free prefix of the table's array part |
| Lua.GetFields | mlua-gen-macros/src/struct.rs:229-241 | reading named fields succeeds iff every field converts; the result maps each field name to its converted value |
| Lua.TakeSequence | mlua-gen-macros/src/struct.rs:245-253 | succeeds iff there are enough values and each converts; the values are taken in order; too few gives "Not enough values in sequence table." |
| Lua.GetFieldsReadsBack | mlua-gen-macros/src/struct.rs:229-241 | when the field names are distinct, name every table entry and each entry converts to itself, the fields read are the table itself |
| Lua.TakeSequenceReadsBack | mlua-gen-macros/src/struct.rs:243-253 | one value per field, each converting to itself, is read back whole and in order |
| Lua.PushAll | mlua-gen-macros/src/enum.rs:162-173 | pushing values one by one onto an empty table keeps exactly the non-nil values: none of its entries is nil, it holds each non-nil value as often as the input does, and a nil-free input is kept whole |
| Lua.PushAllConcat | mlua-gen-macros/src/enum.rs:162-173 | pushing two runs of values keeps each run's non-nil values, in order, one run after the other |
| Lua.PushSkipsNil | mlua-gen-macros/src/enum.rs:170 | a nil pushed before `5` leaves no hole: the sequence part is `[5]` |
| Syntax.KeptArgs | mlua-gen-macros/src/attr.rs:57-68 | only path and reference arguments are kept, in order, and never more than were given: a kept text is some argument's path or reference, every path or reference argument is kept, and when all arguments are paths or references they are kept one for one |
| Syntax.KeptArgsConcat | mlua-gen-macros/src/attr.rs:57-67 | the filter works argument by argument: the kept texts of two runs of arguments are each run's kept texts in order |
| Attr.FromVis | mlua-gen-macros/src/attr.rs:130-146 | a field visibility maps to a level exactly when it is `pub`, `pub(crate)`, `pub(super)` or private; anything else is an error |
| Attr.FromVisMatchesLevel | mlua-gen-macros/src/attr.rs:130-146 | `pub`, `pub(crate)`, `pub(super)` and an inherited visibility map to `Pub`, `PubCrate`, `PubSuper` and `None`; apart from `None` the rank is the field's level |
| Attr.Entries | mlua-gen-macros/src/attr.rs:187-191 | named fields are identified by name; tuple fields by their decimal position; a unit struct has none |
| Attr.Ids | mlua-gen-macros/src/attr.rs:237 | the identifiers of the entries, in order |
| Attr.KeepFieldByRank | mlua-gen-macros/src/attr.rs:193-212 | with well-formed visibilities, a threshold keeps exactly the fields whose level is at most its rank |
| Attr.KeepField | mlua-gen-macros/src/attr.rs:189-270 | the filter closure fails, with a panic, exactly for a threshold and a visibility that does not map to a level; a custom list keeps exactly the listed identifiers |
| Attr.Select | mlua-gen-macros/src/attr.rs:185-280 | the selection fails exactly when the closure fails on some declared field, and never names more fields than were declared |
| Attr.FieldsFromVisibility | mlua-gen-macros/src/attr.rs:185-280 | a unit struct selects nothing; every failure is a panic |
| Attr.SelectionFollowsDeclaration | mlua-gen-macros/src/attr.rs:185-280 | the selected identifiers are declared identifiers, in declaration order |
| Attr.ThresholdsAreMonotone | mlua-gen-macros/src/attr.rs:193-212 | a higher threshold selects a superset of what a lower one selects, keeping its order |
| Attr.AllAndNoneSelection | mlua-gen-macros/src/attr.rs:226-227 | `*` selects every declared field; None selects nothing |
| Attr.CustomSelection | mlua-gen-macros/src/attr.rs:213-225 | an explicit list selects exactly the declared fields it names |
| Attr.ThresholdSelection | mlua-gen-macros/src/attr.rs:193-212 | with well-formed visibilities, a threshold succeeds and selects exactly the fields at or below its level |
| Attr.ThresholdPanics | mlua-gen-macros/src/attr.rs:140 | Pub, PubCrate and PubSuper panic exactly when some field has an unexpected `pub(...)` visibility |
| Attr.ArrayOf | mlua-gen-macros/src/attr.rs:169 | the value after `=` is accepted exactly when it is an array; otherwise it is a compile error |
| Attr.IdentOf | mlua-gen-macros/src/attr.rs:104-108 | the value after `=` is accepted exactly when it is an identifier |
| Attr.PathList | mlua-gen-macros/src/attr.rs:169-182 | an explicit list fails exactly when some element is not a path; otherwise it gives one name per element |
| Attr.ParseVisibility | mlua-gen-macros/src/attr.rs:149-183 | `*` gives every field; a visibility token gives its level (FromVis); an array gives the explicit list of its paths, in order, and fails exactly when one element is not a path; any other value fails; every failure is a compile error |
| Attr.ParsedListSelectsNoPosition | mlua-gen-macros/src/attr.rs:267-270 | a list written in the attribute never selects a tuple field, since a path never reads as a position |
| Attr.MethodOf | mlua-gen-macros/src/attr.rs:70-91 | the descriptor is named after the called path |
| Attr.MethodOfReceiver | mlua-gen-macros/src/attr.rs:70-91 | a receiver is recognised by the first kept argument, in all four spellings; `is_mut` only for `&mut self` and `mut self`, and a mutable receiver is a receiver; the receiver, and only the receiver, is removed from the arguments, which otherwise keep their order |
| Attr.ImplSpecsFailOnNonCall | mlua-gen-macros/src/attr.rs:51-97 | `impl = [...]` fails with "Expected an identifier" exactly when some element is not a call |
| Attr.ImplSpecs | mlua-gen-macros/src/attr.rs:51-97 | the `impl` list gives at most one descriptor per element |
| Attr.ImplSpecsOnePerCall | mlua-gen-macros/src/attr.rs:51-97 | when every element calls a path, each element gives one descriptor, in order |
| Attr.ParseImplArray | mlua-gen-macros/src/attr.rs:47-102 | the loop pushing descriptors computes the `impl` list specification |
| Attr.ApplyMeta | mlua-gen-macros/src/attr.rs:36-116 | every failure of one attribute item is a compile error; what a successful item sets is stated by Attr.ApplyMetaTouchesOneKey |
| Attr.ApplyMetaTouchesOneKey | mlua-gen-macros/src/attr.rs:36-116 | a successful item has a known key and changes only that key's part of the state; `get`/`set` store the parsed visibility, `impl` replaces the list, `custom_fields`/`custom_impls` store the given identifier |
| Attr.GetAttributeSelects | mlua-gen-macros/src/attr.rs:39-42 | `get = *` makes every declared field readable; `get = [a, b]` makes readable exactly the declared fields the list names |
| Attr.Attributes.constructor | mlua-gen-macros/src/attr.rs:119-128 | both specifications default to PubSuper, with no impls and no hooks |
| Attr.Attributes.Parse | mlua-gen-macros/src/attr.rs:36-116 | the state becomes the item's effect, or stays unchanged on error |
| Arity.TupleAccessSpec | mlua-gen-macros/src/builder.rs:105-149 | zero types take `()` and no accessor; one type takes the whole value; two or more take a tuple read by position |
| Arity.ConvertArgs | mlua-gen-macros/src/builder.rs:35 | the arguments convert iff each one converts to its declared type; the results are in order |
| Arity.TupleAccessRoundTrip | mlua-gen-macros/src/builder.rs:113-149 | the emitted accessors, applied to what the closure receives, give exactly the converted arguments in order |
| Builder.GenerateTupleAccess | mlua-gen-macros/src/builder.rs:113-149 | the split by field count agrees with the reference split, with the parameter `args` |
| Builder.ParamNames | mlua-gen-macros/src/builder.rs:19-30 | the parameters are `a0`, `a1`, … |
| Builder.BuilderForFunctions | mlua-gen-macros/src/builder.rs:9-51 | no table iff there are no functions; otherwise one entry per function, in order |
| Builder.FnTable | mlua-gen-macros/src/builder.rs:43-48 | the table's keys are the function names |
| Builder.FunctionTableEntries | mlua-gen-macros/src/builder.rs:33-38 | a function whose name no later function reuses is reachable under its name |
| Builder.InvokeCallsInOrder | mlua-gen-macros/src/builder.rs:35-36 | calling a table entry succeeds iff the arguments convert, and it calls `Path::name` with them in order |
| Builder.Invoke | mlua-gen-macros/src/builder.rs:9-51 | calling a table entry fails with the conversion error when an argument does not convert; on success it calls the entry's callee, without a receiver, with one value per name in its call |
| Builder.BuilderForFields | mlua-gen-macros/src/builder.rs:53-103 | a unit shape is the value itself; otherwise it is a function created plainly or by `Function::wrap`; named fields are kept |
| Builder.TupleConstructorInOrder | mlua-gen-macros/src/builder.rs:65-82 | the positional constructor succeeds iff its arguments convert, and builds the value from them in order |
| Builder.Construct | mlua-gen-macros/src/builder.rs:53-103 | a wrapped constructor called without the table as first argument fails; a positional constructor builds one value per accessor; a named one builds a value with exactly the declared field names |
| Builder.NamedConstructorReadsFields | mlua-gen-macros/src/builder.rs:84-103 | the named constructor takes a table and reads every declared field under its own name; anything else is refused |
| Builder.WrapChangesOnlyLeadingParameter | mlua-gen-macros/src/builder.rs:71-75 | `is_function_wrap` changes only how the function is created and the leading table it skips |
| Shared.GenerateTupleAccess | mlua-gen-macros/src/shared.rs:5-24 | the split by field count agrees with the reference split, with the parameter `param` |
| Shared.StripParam | mlua-gen-macros/src/shared.rs:30-43 | a const parameter is dropped; a lifetime is kept as is; a type parameter loses its bounds and default |
| Shared.StripParams | mlua-gen-macros/src/shared.rs:27-44 | every stripped parameter is in argument form, and none is added |
| Shared.RemoveTyFromGenerics | mlua-gen-macros/src/shared.rs:26-50 | nothing is emitted iff every parameter is const; otherwise `<…>` holds the stripped parameters |
| Shared.StripParamsIdempotent | mlua-gen-macros/src/shared.rs:26-50 | stripping twice is stripping once |
| Shared.RemoveTyIdempotent | mlua-gen-macros/src/shared.rs:26-50 | stripping the emitted argument list changes nothing |
| Globals.TableEntry | mlua-gen-macros/src/enum.rs:55-68 | a constructor global has no members; a table has exactly its functions, plus its variants for an enum |
| StructGen.StructBuilderOf | mlua-gen-macros/src/struct.rs:14-54 | a unit struct's builder returns the value and has no `__call`; otherwise the builder and `__call` are the fields' constructor; the function table exists iff there are static functions |
| StructGen.ToGlobalsAs | mlua-gen-macros/src/struct.rs:75-89 | only the given name changes; it holds the function table with the `__call` constructor, or else the constructor |
| StructGen.ToGlobals | mlua-gen-macros/src/struct.rs:71-73 | only the type's own name changes; it holds the static-function table with the `__call` constructor when there are static functions, the constructor otherwise |
| StructGen.GlobalConstructs | mlua-gen-macros/src/struct.rs:20-35 | calling a struct's global constructs it, with or without static functions |
| Globals.CallGlobal | mlua-gen-macros/src/struct.rs:20-35 | only a constructor function, or a table whose metatable has a `__call` constructor, can be called; calling an enum's variant table fails |
| StructGen.UnitStructGlobal | mlua-gen-macros/src/struct.rs:79-86 | a unit struct without static functions is registered as its value; with them only the non-callable table is registered |
| StructGen.AddKindOf | mlua-gen-macros/src/struct.rs:295-300 | the kind is a method kind iff the entry has a receiver, and a `_mut` kind iff it is mutable |
| StructGen.ParsedImplsNeverFunctionMut | mlua-gen-macros/src/struct.rs:298 | a parsed `impl` list never yields `add_function_mut` |
| StructGen.Binding | mlua-gen-macros/src/struct.rs:272-311 | one binding under the function's name, on the instance iff it has a receiver, of the kind its flags choose |
| StructGen.Bindings | mlua-gen-macros/src/struct.rs:272-314 | one binding per `impl` entry, in order |
| StructGen.ParseArms | mlua-gen-macros/src/struct.rs:136-137 | the positions parse iff every identifier is a decimal numeral; otherwise it panics |
| StructGen.Arms | mlua-gen-macros/src/struct.rs:195-212 | every index arm is a position the struct has |
| StructGen.NamedStructAccessors | mlua-gen-macros/src/struct.rs:109-128 | a named struct gets one getter per get-field and one setter per set-field, in order, with the hooks after them |
| StructGen.UserData | mlua-gen-macros/src/struct.rs:95-355 | generation fails exactly for a tuple struct whose get or set identifiers are not numerals below its field count, with a panic or "no field on type"; the `from_lua` shape follows the fields' kind, and a tuple struct reads its field types in order |
| StructGen.UnitStructAccessors | mlua-gen-macros/src/struct.rs:145 | a unit struct gets no getters, setters or index metamethods |
| StructGen.HooksComeLast | mlua-gen-macros/src/struct.rs:341-352 | the custom hooks follow every generated registration, and the bindings follow the index metamethods |
| StructGen.TupleStructArms | mlua-gen-macros/src/struct.rs:129-143 | with lists the resolver produced, a tuple struct gets index arms for exactly the selected positions |
| StructLua.FieldGet | mlua-gen-macros/src/struct.rs:117-122 | `obj.key` is readable iff a getter is registered under the key, and gives a clone of the field |
| StructLua.FieldType | mlua-gen-macros/src/struct.rs:229-237 | the declared type of a named field, or none when no field has that name |
| StructLua.FieldSet | mlua-gen-macros/src/struct.rs:161-169 | `obj.key = v` is accepted iff a setter is registered; it converts `v` to the field's type and changes only that field |
| StructLua.NamedFieldAccess | mlua-gen-macros/src/struct.rs:109-175 | a field is readable exactly when the get specification selects it, and writable exactly when the set specification does |
| StructLua.NamedSetThenGet | mlua-gen-macros/src/struct.rs:161-169 | reading after an assignment gives the converted value; the other fields are unchanged |
| StructLua.TupleIndex | mlua-gen-macros/src/struct.rs:197-203 | `__index` succeeds exactly for an integer `index >= 1` whose position `index - 1` has an arm, and reads that position; index 0 panics |
| StructLua.TupleNewIndex | mlua-gen-macros/src/struct.rs:205-212 | `__newindex` keeps the tuple's length, succeeds only for a selected position `index - 1`, stores there the converted value and leaves every other position unchanged |
| StructLua.TupleIndexOneBased | mlua-gen-macros/src/struct.rs:199 | Lua index `k + 1` reads field `k`; index 0 underflows and panics |
| StructLua.TupleNewIndexThenIndex | mlua-gen-macros/src/struct.rs:205-212 | reading after an indexed assignment gives the converted value; the other positions are unchanged |
| StructLua.TupleIndexFollowsSelection | mlua-gen-macros/src/struct.rs:129-143 | index `k + 1` is readable exactly when the get specification selects position `k` |
| StructLua.TupleFromLuaConsumesSequence | mlua-gen-macros/src/struct.rs:243-265 | a tuple struct reads exactly as many sequence values as it has fields, in order; a hole ends the sequence |
| StructLua.FromLuaRoundTrip | mlua-gen-macros/src/struct.rs:327-339 | reading a struct back from its table image, or from its userdata, gives the same value |
| StructLua.FromLuaRejectsOthers | mlua-gen-macros/src/struct.rs:336 | any value other than a table or userdata is refused with "Expected a table or a UserData" |
| StructLua.FromLua | mlua-gen-macros/src/struct.rs:327-339 | a userdata is accepted exactly when it holds this struct, and gives its value; a table gives a named value with the declared field names, a tuple value with one item per field, or the unit value; anything else is an error |
| StructLua.BindingPassesArguments | mlua-gen-macros/src/struct.rs:308-311 | a bound function gets its Lua arguments converted in order; a bound method is called on its userdata |
| StructLua.InvokeBinding | mlua-gen-macros/src/struct.rs:295-311 | a method called without a userdata first argument fails; a successful call goes to the bound callee, on that userdata exactly when it is a method, with one value per accessor |
| EnumGen.VariantNames | mlua-gen-macros/src/enum.rs:19-29 | the variant names, in declaration order |
| EnumGen.EnumBuilderOf | mlua-gen-macros/src/enum.rs:13-32 | one constructor per variant under its own name at `Self::Variant`; a unit variant is a value, the others plain functions; the function table exists iff there are static functions |
| EnumGen.VariantMap | mlua-gen-macros/src/enum.rs:41-45 | the variant table's keys are the variant names |
| EnumGen.VariantMapLastWins | mlua-gen-macros/src/enum.rs:43 | a name no later variant reuses maps to its own constructor |
| EnumGen.EnumToGlobalsAs | mlua-gen-macros/src/enum.rs:55-71 | only the given name changes; it holds a freshly built variant table with no functions |
| EnumGen.EnumToGlobalsAsExtended | mlua-gen-macros/src/enum.rs:56-65 | only the given name changes; it holds the variant table extended with the static functions |
| EnumGen.EnumToGlobals | mlua-gen-macros/src/enum.rs:51-53 | only the enum's own name changes; it holds the freshly built variant table with no static functions |
| EnumGen.VariantsRegistered | mlua-gen-macros/src/enum.rs:41-45 | every variant is reachable in the registered table under its own name |
| EnumGen.StaticFunctionsUnreachable | mlua-gen-macros/src/enum.rs:55-68 | as written, no key other than a variant name finds anything in the registered table |
| EnumGen.StaticFunctionDropped | mlua-gen-macros/src/enum.rs:56-68 | `enum Animal { Pig }` with `impl = [new()]` builds a table holding `new`, yet `Animal.new` is nil |
| EnumGen.ExtendedRegistersFunctions | mlua-gen-macros/src/enum.rs:58-65 | with the extension kept, every static function is reachable under its name |
| EnumGen.ExtendedKeepsVariants | mlua-gen-macros/src/enum.rs:58-65 | with the extension kept, a variant that no function shadows keeps its constructor |
| EnumGen.VariantCallConstructs | mlua-gen-macros/src/enum.rs:19-29 | calling a tuple variant through the registered table builds that variant from the converted arguments |
| EnumGen.VariantAccessors | mlua-gen-macros/src/enum.rs:251-257 | a getter under the lower-cased name, and a setter unless it is a unit variant |
| EnumGen.AllAccessorsMembers | mlua-gen-macros/src/enum.rs:86-260 | a key has a getter iff some variant lowers to it, and a setter iff such a variant has fields |
| EnumGen.EnumAccessors | mlua-gen-macros/src/enum.rs:286-296 | the enum's user data has every variant's accessors, the field hook last, and no method but the custom hook |
| EnumGen.EnumUserDataOf | mlua-gen-macros/src/enum.rs:76-298 | `from_lua` probes the variants in declaration order; the variant accessors come first among the fields; the only method registration is the custom hook |
| EnumLua.Image | mlua-gen-macros/src/enum.rs:124-196 | a variant's image is never nil; a tuple variant's image is its fields pushed in order, so nil fields leave no entry (Lua.PushAll) |
| EnumLua.VariantGet | mlua-gen-macros/src/enum.rs:125-133 | a variant's getter is non-nil exactly for an instance of that variant |
| EnumLua.Index | mlua-gen-macros/src/enum.rs:250-256 | a key is readable exactly when some variant's lower-cased name is that key, and a non-nil read belongs to the instance's own variant |
| EnumLua.LastAccessor | mlua-gen-macros/src/enum.rs:251-256 | the last variant registered under a key is the one that answers |
| EnumLua.VariantSet | mlua-gen-macros/src/enum.rs:135-145 | a setter that succeeds switches the instance to that variant |
| EnumLua.Assign | mlua-gen-macros/src/enum.rs:199-209 | a key is assignable exactly when some variant with fields has that lower-cased name, and a successful assignment switches the instance to a variant of that key |
| EnumLua.AssignThenIndex | mlua-gen-macros/src/enum.rs:199-209 | assigning a variant's key switches to that variant, and reading the key back gives its image |
| EnumLua.ProbeOne | mlua-gen-macros/src/enum.rs:239-250 | nil moves on to the next variant; any other value decides the result |
| EnumLua.FirstPresentKeyDecides | mlua-gen-macros/src/enum.rs:274-284 | the first variant whose key holds a non-nil value decides; with none it is "No valid variant found." |
| EnumLua.Probe | mlua-gen-macros/src/enum.rs:240-249 | a decoded value is of one of the declared variants; when no variant's key holds a value the result is "No valid variant found." |
| EnumLua.FromLua | mlua-gen-macros/src/enum.rs:274-284 | only a table can decode, and a decoded value is of one of the declared variants |
| EnumLua.FromLuaTableOnly | mlua-gen-macros/src/enum.rs:282 | only tables are decoded; anything else gives "Expected a table" |
| EnumLua.DecodeEncode | mlua-gen-macros/src/enum.rs:146-152 | decoding a value's table form gives the value back, provided no earlier variant shares its key |
| EnumLua.ImageReads | mlua-gen-macros/src/enum.rs:146-152 | a variant's own probe reads its image back as the same payload, when the fields fit and convert to themselves |
| EnumLua.UnitFromAnyBoolean | mlua-gen-macros/src/enum.rs:234 | a unit variant is decoded from any boolean, `false` included |
| EnumLua.SetterAgreesWithDecoder | mlua-gen-macros/src/enum.rs:199-218 | the setter and `from_lua` read a variant's table alike when its sequence has no hole |
| Entry.ParseAll | mlua-gen-macros/src/lib.rs:69-71 | a failing attribute is a compile error; no items leave the defaults |
| Entry.Statics | mlua-gen-macros/src/lib.rs:82-86 | the static functions are exactly the `impl` entries without a receiver, in order |
| Entry.MluaGen | mlua-gen-macros/src/lib.rs:63-138 | the macro, run on a mutable `Attributes`, computes the expansion |
| Entry.AttributeErrorIsCompileError | mlua-gen-macros/src/lib.rs:71 | a malformed attribute expands to its compile error, whatever the item |
| Entry.ItemKept | mlua-gen-macros/src/lib.rs:129-136 | on success the annotated item is emitted unchanged; a union panics |
| Entry.Generate | mlua-gen-macros/src/lib.rs:73-130 | a union panics with "Must annotate struct or enum"; an enum always generates enum code probing its variants; a struct generates struct code |
| Entry.Expand | mlua-gen-macros/src/lib.rs:63-138 | a successful expansion keeps the item and names the type with its generics stripped of types; an attribute error is the expansion's error; a union never expands |
| Entry.StructAccessorsFollowSpecs | mlua-gen-macros/src/lib.rs:76-77 | a named struct's getters and setters come from its two specifications, resolved independently |
| Entry.StaticsEmpty | mlua-gen-macros/src/lib.rs:82-86 | there are static functions iff some `impl` entry has no receiver |
| Entry.BindsEveryImpl | mlua-gen-macros/src/lib.rs:90-100 | every `impl` entry is bound on the struct's user data |
| Entry.StaticsAndBindings | mlua-gen-macros/src/lib.rs:79-127 | the function table exists iff some entry has no receiver; structs bind every entry; enums bind none |
| NewIndex.VecAfter | mlua-gen/src/lib.rs:73-79 | the vector grows with defaults to reach the index; the item lands there; the other slots are unchanged |
| NewIndex.VecIdempotent | mlua-gen/src/lib.rs:73-79 | writing the same item twice is writing it once |
| NewIndex.VecLastWriteWins | mlua-gen/src/lib.rs:73-79 | the later of two writes at one index stays |
| NewIndex.VecWritesCommute | mlua-gen/src/lib.rs:73-79 | writes at different indices commute |
| NewIndex.LuaVec.constructor | mlua-gen/src/lib.rs:69-72 | the vector starts with the given items |
| NewIndex.LuaVec.NewIndex | mlua-gen/src/lib.rs:73-79 | the new contents are the old ones after the write |
| NewIndex.MapAfter | mlua-gen/src/lib.rs:86-88 | the key is inserted with the item; the other entries are unchanged |
| NewIndex.MapWrites | mlua-gen/src/lib.rs:82-98 | writes under different keys commute; a later write under a key replaces the earlier one |
| NewIndex.LuaMap.constructor | mlua-gen/src/lib.rs:82-85 | the map starts with the given entries |
| NewIndex.LuaMap.NewIndex | mlua-gen/src/lib.rs:86-97 | the new entries are the old ones after the insert |
| NewIndex.SetAfter | mlua-gen/src/lib.rs:112-114 | the item is inserted; nothing else is added or removed |
| NewIndex.SetIgnoresIndex | mlua-gen/src/lib.rs:100-123 | the index makes no difference; inserting a present item changes nothing |
| NewIndex.LuaSet.constructor | mlua-gen/src/lib.rs:108-111 | the set starts with the given items |
| NewIndex.LuaSet.NewIndex | mlua-gen/src/lib.rs:112-123 | the new set is the old one with the item inserted |
| LegacyAttr.LegacyFromVis | src/attr.rs:110-124 | agrees with the current mapping where that succeeds; otherwise panics with "Unexpected visibility" |
| LegacyAttr.LegacyFieldsFromVisibility | src/attr.rs:163-208 | tuple and unit structs panic |
| LegacyAttr.LegacySelectAgrees | src/attr.rs:165-204 | the older filter selects what the current one selects, and panics where it fails |
| LegacyAttr.LegacySelect | src/attr.rs:163-204 | the older selection fails exactly when its closure fails on some declared field, and never names more fields than were declared |
| LegacyAttr.LegacyResolverAgrees | src/attr.rs:163-208 | on named fields both resolvers agree; on other shapes only the older one fails |
| LegacyAttr.LegacySelection | src/attr.rs:168-194 | older thresholds are monotone; `*` selects every field; None selects nothing; a list selects the fields it names |
| LegacyAttr.LegacyParseVisibility | src/attr.rs:127-161 | accepts what the current parser accepts, giving the same value; an unexpected `pub(...)` panics |
| LegacyAttr.LegacyMethodOf | src/attr.rs:44-72 | the first kept argument is always popped; it sets `is_mut` and `is_method` when it is a receiver |
| LegacyAttr.LegacyMethodVersusCurrent | src/attr.rs:58-71 | the name and mutability agree with the current parser; the arguments differ only when the first is not a receiver |
| LegacyAttr.LegacyImplSpecsAgree | src/attr.rs:37-82 | the older `impl` list fails where the current one does; otherwise it describes the same functions, in order |
| LegacyAttr.LegacyImplSpecs | src/attr.rs:37-82 | the older `impl` list fails with "Expected an identifier" exactly when some element is not a call |
| LegacyAttr.LegacyDropsFirstArgument | src/attr.rs:58 | `impl = [new(i32)]` describes `new` without its `i32` argument |
| LegacyAttr.LegacyParseImplArray | src/attr.rs:37-82 | the loop computes the older `impl` list specification |
| LegacyAttr.LegacyApplyMetaAgrees | src/attr.rs:25-96 | the older parser accepts the same items and sets the same parts; its only other failure is the visibility panic |
| LegacyAttr.LegacyApplyMeta | src/attr.rs:25-96 | an item without an identifier fails; an accepted item has one of the five keys and changes only the setting that key names |
| LegacyAttr.LegacyAttributes.constructor | src/attr.rs:99-108 | both specifications default to PubSuper |
| LegacyAttr.LegacyAttributes.Parse | src/attr.rs:25-96 | the state becomes the item's effect, or stays unchanged on error |
| LegacyStruct.LegacyBinding | src/struct.rs:45-95 | the kind comes from `(is_mut, is_method)`; the call is on the instance iff it is a method; the arguments are split with `param` |
| LegacyStruct.LegacyStructLayout | src/struct.rs:17-43 | the field registrations equal the current generator's for a named struct; the bindings follow the `impl` list; the hooks come last |
| LegacyStruct.LegacyStructBuilder | src/struct.rs:8-43 | getters are registered only for get-selected names, setters only for set-selected names, and the only hook is the custom fields one |
| LegacyStruct.LegacyReceiverKinds | src/struct.rs:78-89 | `&mut self` and `&self` bind methods; by-value receivers bind functions |
| LegacyStruct.LegacyBindingPassesArguments | src/struct.rs:91-95 | a bound function gets its converted arguments in order; a bound method is called on its userdata |
| LegacyEnum.CtorOf | src/enum.rs:64-71 | the constructor has the variant's own name; a tuple variant is split with `param` |
| LegacyEnum.Getters | src/enum.rs:154-160 | one getter per variant under its lower-cased name, in order |
| LegacyEnum.UnitConstants | src/enum.rs:139-149 | exactly the unit variants, each under its own name |
| LegacyEnum.VariantCtors | src/enum.rs:161-166 | exactly the variants with fields get a constructor function |
| LegacyEnum.LegacyEnumLayout | src/enum.rs:172-194 | getters first, then the unit constants; constructors for the variants with fields; the custom hooks change nothing |
| LegacyEnum.LegacyEnumBuilder | src/enum.rs:9-195 | the first registrations are one getter per variant, in declaration order, under its lower-cased name; every constructor belongs to a variant with fields |
| LegacyEnum.LastField | src/enum.rs:178-186 | the last registration under a key is the one that answers |
| LegacyEnum.LegacyGetterAsCurrent | src/enum.rs:154-160 | a variant's lower-cased key reads as the current getter does |
| LegacyEnum.LegacyIndex | src/enum.rs:154-160 | a key is readable exactly when some field registration has that key; a userdata read is a unit value of this enum |
| LegacyEnum.LegacyUnitConstant | src/enum.rs:143-147 | a unit variant's own name reads as a new value of that variant |
| LegacyEnum.LegacyConstructorAsCurrent | src/enum.rs:64-71 | a variant's constructor builds what the current constructor builds; a named failure panics with "Missing data" |
| LegacyEnum.LegacyConstruct | src/enum.rs:64-125 | a successful constructor builds its own variant; a named variant fails without a table, and a table that does not convert panics with "Missing data" |
| LegacyEnum.LegacyNamedRoundTrip | src/enum.rs:54-71 | given a named variant's getter table, its constructor rebuilds the value |

## Left out

- Token emission by `syn` and `quote` is not modelled. Generated code is described by
  descriptors whose behaviour is stated in Dafny.
- The `mlua` runtime is abstract. Leaf `FromLua` conversions are the parameter `conv`.
  Userdata take/borrow failures and function-creation errors are not modelled.
- The `dbg!` wrapper in mlua-gen-macros/src/lib.rs:16-40 writes files when a feature is on.
  That I/O is left out.
- `mlua-gen-new`, the `LuaBuilder` trait declaration, the `to_lua!` macro and the tests are
  not part of this model.
- src/lib.rs, the older crate's entry point, is not part of this model. Its attribute parser,
  struct generator and enum generator are modelled.
- Text.ToLower: lower-cases ASCII letters only; Unicode case mapping is not modelled.
- Attr.FromVis: `source_text()` is assumed to be available. The parenthesised text is a
  parameter of the visibility.
- The messages of `syn` errors are abbreviated. The `{val:?}` rendering is reduced to the
  value's kind (`Lua.Describe`).
- Hash and B-tree collections differ only in iteration order, which is not modelled. The
  `NewIndex` classes cover both.
- NewIndex.LuaVec.NewIndex: `usize` overflow of `index + 1` is not modelled.
- StructLua.FromLua: for a userdata of the struct's type the source calls `take()`
  (mlua-gen-macros/src/struct.rs:333-334), which moves the value out and leaves the userdata
  unusable from Lua. The model returns the payload and does not model the emptied userdata.
- EnumLua.DecodeEncode: the round trip is stated for tuple variants without nil fields. The
  getter pushes each field with `table.push`, which stores nothing for nil, so a value such as
  `A(None, 5)` has the image `{5}` (Lua.PushSkipsNil) and does not read back as itself.
- StructLua.TupleIndex: index 0 is modelled as the debug-build underflow panic of `index - 1`.
  Release-build wrap-around is not modelled. The `usize` key is converted only from a Lua
  integer: a numeric string (`"2"`) or an integral float (`2.0`), which `mlua`'s `usize`
  conversion coerces, is refused with the conversion error here.
- StructLua.TupleNewIndex: the same key conversion as StructLua.TupleIndex, so numeric-string
  and integral-float keys are refused as well.
- `parse_str::<Type>(arg).expect("Invalid type.")` is assumed to succeed for every recorded
  argument text.
- Duplicate registrations under one key: the last one wins, as `mlua` does. Proofs about a
  particular key require that no later registration reuses it.
- The custom `custom_fields` and `custom_impls` hooks are opaque. Only their position among
  the registrations is modelled.
- The enum builder calls `builder_for_fields` with two arguments (mlua-gen-macros/src/enum.rs:26),
  one fewer than its definition takes. It is modelled as `is_function_wrap = false`, the plain
  `lua.create_function` that the enum's variant table needs.
- The doc comments at mlua-gen/src/lib.rs:38 and 46 say static functions live under
  `MyStruct_`. The code registers them under the type's own name, and the model follows the
  code.
- LegacyStruct.LegacyStructLayout: the older struct's getter and setter behaviour is stated
  only as equality with the current generator's registrations. The runtime lemmas of
  `StructLua` then apply.
- LegacyEnum.LegacyConstructorAsCurrent: the older tuple-variant constructor takes positional
  arguments, not a table, so it has no round trip with the getter's sequence image.

## Findings

| source | as written | input that shows it | evidently intended | confidence | as-written member | corrected member |
|---|---|---|---|---|---|---|
| src/attr.rs:58 | the older `impl` parser always pops the first kept argument, receiver or not | `impl = [new(i32)]` describes `new` with no arguments, so the binding takes `()` | pop the first argument only when it is a receiver, as the current parser does (mlua-gen-macros/src/attr.rs:86-91) | not executed | LegacyAttr.LegacyDropsFirstArgument | Attr.MethodOfReceiver |
| mlua-gen-macros/src/enum.rs:56-68 | `to_globals_as` copies the static functions into a variant table, then registers a second, freshly built variant table | `enum Animal { Pig }` with `impl = [new()]`: `Animal.new` is nil | register the extended table, so static functions are reachable next to the variants | not executed | EnumGen.StaticFunctionDropped | EnumGen.ExtendedRegistersFunctions |
