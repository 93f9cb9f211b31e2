/**
 * What the expansion promises: how parameters are classified and split,
 * how the struct is named, when the expansion aborts, and how the emitted
 * items mirror the annotated function.
 */
module StructifyProperties {
  import opened Wrappers
  import opened Syntax
  import opened StructifyDerive
  import Case

  // ---- dependency classification ----

  /** Only the last segment's identifier decides: any prefix, leading `::`, qualified self or generic arguments are ignored. */
  lemma DependencyByLastSegment(qself: Option<Ty>, leadingColon: bool, prefix: seq<PathSegment>, last: PathSegment)
    ensures IsDependencyType(TypePath(qself, SynPath(leadingColon, prefix + [last]))) <==> last.ident == "Dep"
  {
  }

  // ---- struct name ----

  /** `get_ident` gives back the identifier of a one-identifier path. */
  lemma GetIdentOfIdentPath(id: string)
    ensures GetIdent(IdentPath(id)) == Some(id)
  {
  }

  /**
   * `#[structify(Name)]` names the struct `Name`, whatever the function is called;
   * a name `Ident::new` refuses, such as the raw `r#type`, aborts.
   */
  lemma ExplicitNameUsedVerbatim(id: string, fnIdent: string)
    ensures IsIdentifier(id) ==> GetStructNameIdent(Paths([IdentPath(id)]), fnIdent) == Ok(id)
    ensures !IsIdentifier(id) ==> GetStructNameIdent(Paths([IdentPath(id)]), fnIdent) == Err(InvalidIdent)
  {
  }

  /** With one path argument the function's own name plays no part. */
  lemma ExplicitNameIgnoresFunctionName(path: SynPath, fnA: string, fnB: string)
    ensures GetStructNameIdent(Paths([path]), fnA) == GetStructNameIdent(Paths([path]), fnB)
  {
  }

  /**
   * Bare `#[structify]` names the struct by Pascal-casing the function's name,
   * and fails when that name is no identifier (`fn __` gives "", `fn _1` gives "1").
   */
  lemma DefaultNameIsPascalCase(fnIdent: string)
    ensures IsIdentifier(Case.ToPascal(fnIdent)) ==>
      GetStructNameIdent(Paths([]), fnIdent) == Ok(Case.ToPascal(fnIdent))
    ensures !IsIdentifier(Case.ToPascal(fnIdent)) ==>
      GetStructNameIdent(Paths([]), fnIdent) == Err(InvalidIdent)
  {
  }

  /** Pascal-casing keeps every character an identifier may continue with. */
  lemma {:induction false} PascalKeepsIdentChars(s: string, wordStart: bool)
    requires forall k :: 0 <= k < |s| ==> IdentContinue(s[k])
    ensures forall k :: 0 <= k < |Case.PascalFrom(s, wordStart)| ==> IdentContinue(Case.PascalFrom(s, wordStart)[k])
  {
    if s != [] {
      PascalKeepsIdentChars(s[1..], s[0] == '_');
      assert IdentContinue(s[0]);
    }
  }

  /** A function whose name starts with a letter always gets its Pascal-cased name as the default. */
  lemma DefaultNameOfLetterName(fnIdent: string)
    requires IsIdentifier(fnIdent)
    requires 'a' <= fnIdent[0] <= 'z' || 'A' <= fnIdent[0] <= 'Z'
    ensures GetStructNameIdent(Paths([]), fnIdent) == Ok(Case.ToPascal(fnIdent))
  {
    var r := Case.ToPascal(fnIdent);
    PascalKeepsIdentChars(fnIdent[1..], false);
    assert r == [Case.Upper(fnIdent[0])] + Case.PascalFrom(fnIdent[1..], false);
    forall k | 1 <= k < |r| ensures IdentContinue(r[k]) {
      assert r[k] == Case.PascalFrom(fnIdent[1..], false)[k - 1];
    }
  }

  /**
   * Name resolution fails exactly for unparsable tokens, two or more paths,
   * one path that is not a bare identifier, or a default name that is no identifier.
   */
  lemma StructNameFailures(attr: AttrArgs, fnIdent: string)
    ensures GetStructNameIdent(attr, fnIdent).Err? <==>
      || attr.NotPaths?
      || |attr.args| > 1
      || (|attr.args| == 1 && forall id :: attr.args[0] == IdentPath(id) ==> !IsIdentifier(id))
      || (|attr.args| == 0 && !IsIdentifier(Case.ToPascal(fnIdent)))
    ensures attr.NotPaths? ==> GetStructNameIdent(attr, fnIdent) == Err(NotPunctuatedPath)
    ensures attr.Paths? && |attr.args| > 1 ==> GetStructNameIdent(attr, fnIdent) == Err(ExpectedExactlyOne)
    ensures attr.Paths? && |attr.args| == 1 && GetIdent(attr.args[0]).None? ==>
      GetStructNameIdent(attr, fnIdent) == Err(NotAnIdent)
    ensures attr.Paths? && |attr.args| == 0 && !IsIdentifier(Case.ToPascal(fnIdent)) ==>
      GetStructNameIdent(attr, fnIdent) == Err(InvalidIdent)
  {
    if attr.Paths? && |attr.args| == 1 {
      forall id | attr.args[0] == IdentPath(id) ensures GetIdent(attr.args[0]) == Some(id) {
        GetIdentOfIdentPath(id);
      }
    }
  }

  // ---- failures ----

  /** A name error aborts the expansion before any parameter is looked at. */
  lemma NameErrorComesFirst(attr: AttrArgs, item: ItemFn)
    requires GetStructNameIdent(attr, item.sig.ident).Err?
    ensures Expand(attr, item) == Err(GetStructNameIdent(attr, item.sig.ident).error)
  {
  }

  /** A receiver anywhere among the parameters aborts the whole expansion: no item is produced. */
  lemma ReceiverAborts(attr: AttrArgs, item: ItemFn, i: nat)
    requires i < |item.sig.inputs| && item.sig.inputs[i].Receiver?
    requires GetStructNameIdent(attr, item.sig.ident).Ok?
    ensures Expand(attr, item) == Err(ReceiverNotSupported)
  {
  }

  /** The expansion succeeds exactly when the name resolves and every parameter is `pat: ty`. */
  lemma ExpandSucceedsIff(attr: AttrArgs, item: ItemFn)
    ensures Expand(attr, item).Ok? <==>
      GetStructNameIdent(attr, item.sig.ident).Ok? &&
      forall i :: 0 <= i < |item.sig.inputs| ==> item.sig.inputs[i].Typed?
  {
  }

  // ---- the partition of the parameters ----

  /** A field is in the struct exactly when a parameter of that name and type is not a dependency. */
  lemma {:induction false} FieldsAreTheOrdinaryParameters(inputs: seq<FnArg>, pat: string, ty: Ty)
    ensures Field(pat, ty) in Fields(inputs) <==> Typed(pat, ty) in inputs && !IsDependencyType(ty)
  {
    if inputs != [] {
      FieldsAreTheOrdinaryParameters(inputs[1..], pat, ty);
      assert inputs == [inputs[0]] + inputs[1..];
    }
  }

  /** `execute` takes `pat: impl Into<ty>` exactly when a parameter of that name and type is a dependency. */
  lemma {:induction false} DepArgsAreTheDependencies(inputs: seq<FnArg>, pat: string, ty: Ty)
    ensures ImplInto(pat, ty) in DepArgs(inputs) <==> Typed(pat, ty) in inputs && IsDependencyType(ty)
  {
    if inputs != [] {
      DepArgsAreTheDependencies(inputs[1..], pat, ty);
      assert inputs == [inputs[0]] + inputs[1..];
    }
  }

  /** Every parameter lands in exactly one of the two lists. */
  lemma {:induction false} FieldsAndDepsCount(inputs: seq<FnArg>)
    requires !HasReceiver(inputs)
    ensures |Fields(inputs)| + |DepArgs(inputs)| == |inputs|
  {
    if inputs != [] {
      TailNoReceiver(inputs);
      FieldsAndDepsCount(inputs[1..]);
    }
  }

  /** Which parameters are dependencies, in declaration order. */
  function DepMask(inputs: seq<FnArg>): seq<bool>
  {
    seq(|inputs|, i requires 0 <= i < |inputs| => InClass(inputs[i], true))
  }

  /** The parameter that `execute` argument stands for. */
  function ParamOf(arg: ExecuteArg): FnArg
  {
    match arg
    case ImplInto(pat, ty) => Typed(pat, ty)
    case SelfRef => Receiver(true, false)
  }

  /** Interleaves fields and dependencies back into one parameter list, as the mask says. */
  function Merge(mask: seq<bool>, fields: seq<Field>, deps: seq<ExecuteArg>): seq<FnArg>
  {
    if mask == [] then []
    else if mask[0] then
      if deps == [] then [] else [ParamOf(deps[0])] + Merge(mask[1..], fields, deps[1..])
    else
      if fields == [] then [] else [Typed(fields[0].pat, fields[0].ty)] + Merge(mask[1..], fields[1..], deps)
  }

  /**
   * The split loses and reorders nothing: putting the struct fields and the
   * `execute` dependencies back in the parameters' order gives the parameters.
   */
  lemma {:induction false} SplitPreservesOrder(inputs: seq<FnArg>)
    requires !HasReceiver(inputs)
    ensures Merge(DepMask(inputs), Fields(inputs), DepArgs(inputs)) == inputs
  {
    if inputs != [] {
      var rest := inputs[1..];
      assert DepMask(inputs)[1..] == DepMask(rest);
      TailNoReceiver(inputs);
      SplitPreservesOrder(rest);
      var mask, fields, deps := DepMask(inputs), Fields(inputs), DepArgs(inputs);
      assert inputs[0].Typed?;
      var pat, ty := inputs[0].pat, inputs[0].ty;
      assert mask[0] == IsDependencyType(ty);
      {
        if IsDependencyType(ty) {
          assert deps == [ImplInto(pat, ty)] + DepArgs(rest);
          assert deps[1..] == DepArgs(rest);
          assert fields == Fields(rest);
          assert Merge(mask, fields, deps) == [Typed(pat, ty)] + Merge(mask[1..], fields, deps[1..]);
        } else {
          assert fields == [Field(pat, ty)] + Fields(rest);
          assert fields[1..] == Fields(rest);
          assert deps == DepArgs(rest);
          assert Merge(mask, fields, deps) == [Typed(pat, ty)] + Merge(mask[1..], fields[1..], deps);
        }
      }
      assert inputs == [Typed(pat, ty)] + rest;
    }
  }

  /** One binding per parameter, in declaration order: `let p = p.into();` for a dependency, `let p = &self.p;` otherwise. */
  lemma {:induction false} OneBindingPerParameter(inputs: seq<FnArg>)
    requires !HasReceiver(inputs)
    ensures |Bindings(inputs)| == |inputs|
    ensures forall i :: 0 <= i < |inputs| ==>
      Bindings(inputs)[i] == (if InClass(inputs[i], true) then LetInto(inputs[i].pat) else LetSelfField(inputs[i].pat))
  {
    if inputs != [] {
      var rest := inputs[1..];
      TailNoReceiver(inputs);
      OneBindingPerParameter(rest);
      assert inputs[0].Typed?;
      forall i | 1 <= i < |inputs|
        ensures Bindings(inputs)[i] == (if InClass(inputs[i], true) then LetInto(inputs[i].pat) else LetSelfField(inputs[i].pat))
      {
        assert inputs[i] == rest[i - 1];
      }
    }
  }

  /** `Self { .. }` initialises each field by name, in field order. */
  lemma {:induction false} InitsNameTheFields(fields: seq<Field>)
    ensures |Inits(fields)| == |fields|
    ensures forall k :: 0 <= k < |fields| ==> Inits(fields)[k] == FieldInit(fields[k].pat)
  {
    if fields != [] {
      InitsNameTheFields(fields[1..]);
      forall k | 1 <= k < |fields| ensures Inits(fields)[k] == FieldInit(fields[k].pat) {
        assert fields[k] == fields[1..][k - 1];
      }
    }
  }

  // ---- the emitted items ----

  /**
   * The output is the function (marked `#[allow(unused)]`), the struct, and
   * its `impl` with `new` and `execute`. `new` takes exactly the struct's
   * fields; `execute` takes `&self` then the dependencies, is `async` exactly
   * when the function is, returns the declared type or `()`, and runs the
   * function's own block after its bindings.
   */
  lemma ExpansionLayout(attr: AttrArgs, item: ItemFn, items: seq<Item>)
    requires Expand(attr, item) == Ok(items)
    ensures |items| == 3
    ensures items[0] == AllowUnused(item)
    ensures items[1].Struct? && items[2].Impl? && items[1].name == items[2].name
    ensures items[1].fields == Fields(item.sig.inputs)
    ensures items[1].name == GetStructNameIdent(attr, item.sig.ident).value
    ensures items[2].newFn.params == items[1].fields
    ensures |items[2].newFn.inits| == |items[1].fields|
    ensures forall k :: 0 <= k < |items[1].fields| ==> items[2].newFn.inits[k].pat == items[1].fields[k].pat
    ensures items[2].execute.args == [SelfRef] + DepArgs(item.sig.inputs)
    ensures |items[1].fields| + |items[2].execute.args| == |item.sig.inputs| + 1
    ensures items[2].execute.bindings == Bindings(item.sig.inputs)
    ensures |items[2].execute.bindings| == |item.sig.inputs|
    ensures items[2].execute.asyncness <==> item.sig.asyncness
    ensures item.sig.output.Default? ==> items[2].execute.ret == Tuple([])
    ensures item.sig.output.Type? ==> items[2].execute.ret == item.sig.output.ty
    ensures items[2].execute.block == item.block
  {
    var inputs := item.sig.inputs;
    FieldsAndDepsCount(inputs);
    OneBindingPerParameter(inputs);
    InitsNameTheFields(Fields(inputs));
  }
}
