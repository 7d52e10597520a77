/** What the declaration parser (`syn`) hands to the macro, reduced to the parts it inspects.
    Types, paths and identifiers are kept as their source text. */
module Syntax {
  import opened Wrappers

  /** A declared visibility: `pub`, `pub(...)` with the source text of the parenthesised
      part (such as "(crate)"), or nothing. */
  datatype Vis = Public | Restricted(path: string) | Inherited

  datatype NamedField = NamedField(vis: Vis, name: string, ty: string)
  datatype UnnamedField = UnnamedField(vis: Vis, ty: string)

  /** `syn::Fields`: the three field shapes of a struct or enum variant. */
  datatype Fields =
    | Named(named: seq<NamedField>)
    | Unnamed(unnamed: seq<UnnamedField>)
    | Unit

  datatype Variant = Variant(name: string, fields: Fields)

  /** `syn::GenericParam`. A type parameter records whether it has a `:`, its bounds,
      whether it has `=` and its default type. */
  datatype GenericParam =
    | TypeParam(ident: string, colon: bool, bounds: seq<string>, eq: bool, default: Option<string>)
    | LifetimeParam(lifetime: string, bounds: seq<string>)
    | ConstParam(ident: string, ty: string, default: Option<string>)

  /** The expressions that can appear in the attribute's arrays. A reference keeps the text of
      its token stream (tokens joined by single spaces, such as "& mut self"). */
  datatype Expr =
    | PathExpr(path: string)
    | ReferenceExpr(text: string)
    | CallExpr(func: Expr, args: seq<Expr>)
    | OtherExpr(text: string)

  /** What follows a key of the attribute: nothing (no `=`), `= *`, `= pub...`, `= [ ... ]`,
      `= ident`, or anything else. */
  datatype MetaValue =
    | NoValue
    | StarToken
    | VisToken(vis: Vis)
    | ArrayExpr(elems: seq<Expr>)
    | IdentToken(ident: string)
    | OtherTokens

  /** One `key = value` item of `#[mlua_gen(...)]`; `key` is None when the path is not a
      single identifier. */
  datatype Meta = Meta(key: Option<string>, value: MetaValue)

  datatype Data = Struct(fields: Fields) | Enum(variants: seq<Variant>) | Union

  /** The annotated item. */
  datatype DeriveInput = DeriveInput(ident: string, generics: seq<GenericParam>, data: Data)

  function FieldNames(fs: seq<NamedField>): (r: seq<string>)
    ensures |r| == |fs| && forall i :: 0 <= i < |fs| ==> r[i] == fs[i].name
  {
    seq(|fs|, i requires 0 <= i < |fs| => fs[i].name)
  }

  function NamedTypes(fs: seq<NamedField>): (r: seq<string>)
    ensures |r| == |fs| && forall i :: 0 <= i < |fs| ==> r[i] == fs[i].ty
  {
    seq(|fs|, i requires 0 <= i < |fs| => fs[i].ty)
  }

  function UnnamedTypes(fs: seq<UnnamedField>): (r: seq<string>)
    ensures |r| == |fs| && forall i :: 0 <= i < |fs| ==> r[i] == fs[i].ty
  {
    seq(|fs|, i requires 0 <= i < |fs| => fs[i].ty)
  }

  /** The text of a call argument that the `impl` parser keeps: a path or a reference. */
  function ArgText(e: Expr): Option<string> {
    match e
    case PathExpr(p) => Some(p)
    case ReferenceExpr(t) => Some(t)
    case _ => None
  }

  /** The `filter_map` over a call's arguments: paths and references in order, the rest dropped. */
  function KeptArgs(args: seq<Expr>): (r: seq<string>)
    ensures |r| <= |args|
    ensures forall t :: t in r ==> exists i :: 0 <= i < |args| && ArgText(args[i]) == Some(t)
    ensures forall i :: 0 <= i < |args| && ArgText(args[i]).Some? ==> ArgText(args[i]).value in r
    ensures (forall i :: 0 <= i < |args| ==> ArgText(args[i]).Some?) ==>
      |r| == |args| && forall i :: 0 <= i < |r| ==> ArgText(args[i]) == Some(r[i])
    decreases |args|
  {
    if args == [] then []
    else
      var rest := KeptArgs(args[1..]);
      assert forall i :: 1 <= i < |args| ==> args[i] == args[1..][i - 1];
      (match ArgText(args[0]) case Some(t) => [t] case None => []) + rest
  }

  /** Keeping the arguments of two runs keeps each run's, one after the other. */
  lemma {:induction false} KeptArgsConcat(a: seq<Expr>, b: seq<Expr>)
    ensures KeptArgs(a + b) == KeptArgs(a) + KeptArgs(b)
    decreases |a|
  {
    if a == [] {
      assert a + b == b;
    } else {
      assert (a + b)[1..] == a[1..] + b;
      assert (a + b)[0] == a[0];
      KeptArgsConcat(a[1..], b);
    }
  }

  /** An identifier or path never starts with a digit. */
  predicate IsPathText(s: string) {
    s != [] && !('0' <= s[0] <= '9')
  }
}
