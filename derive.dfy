/**
 * The expansion of `#[structify]` on a free function: the function itself,
 * a struct holding its ordinary parameters, a `new` constructor taking them,
 * and an `execute` method that takes the `Dep` parameters instead.
 */
module StructifyDerive {
  import opened Wrappers
  import opened Syntax
  import Case

  /** The ways an expansion aborts; each is a panic inside the macro. */
  datatype Error =
    | ExpectedExactlyOne    // more than one path in `#[structify(..)]`
    | NotAnIdent            // the one path is not a bare identifier (`get_ident().unwrap()`)
    | NotPunctuatedPath     // the attribute is not a comma-separated list of paths
    | ReceiverNotSupported  // the function takes `self`
    | InvalidIdent          // the name is no identifier, so `Ident::new` refuses it

  /** The last path segment that marks a dependency parameter. */
  const DepIdent: string := "Dep"

  /** `is_dependency_type`: a path type whose last segment is named `Dep`, whatever precedes it. */
  predicate IsDependencyType(ty: Ty)
    ensures IsDependencyType(ty) ==> ty.TypePath? && |ty.path.segments| > 0
  {
    match ty
    case TypePath(_, path) =>
      |path.segments| > 0 && path.segments[|path.segments| - 1].ident == DepIdent
    case _ => false
  }

  /** The path made of the one bare identifier `id`. */
  function IdentPath(id: string): SynPath
  {
    SynPath(false, [PathSegment(id, NoArguments)])
  }

  /** `Path::get_ident`: the identifier of a path with no leading `::`, one segment and no arguments. */
  function GetIdent(path: SynPath): (r: Option<string>)
    ensures r.Some? ==> path == IdentPath(r.value)
  {
    if !path.leadingColon && |path.segments| == 1 && path.segments[0].arguments.NoArguments?
    then Some(path.segments[0].ident)
    else None
  }

  /** A character that may begin an identifier; every non-ASCII character is taken to be one. */
  predicate IdentStart(c: char)
  {
    c == '_' || 'a' <= c <= 'z' || 'A' <= c <= 'Z' || c as int >= 0x80
  }

  /** A character that may follow the first one in an identifier. */
  predicate IdentContinue(c: char)
  {
    IdentStart(c) || '0' <= c <= '9'
  }

  /** What `Ident::new` demands of its string: non-empty, a start character, then continue characters. */
  predicate IsIdentifier(s: string)
  {
    s != [] && IdentStart(s[0]) && forall k :: 1 <= k < |s| ==> IdentContinue(s[k])
  }

  /** `get_struct_name_ident`: the struct's name, from the attribute or from the function's name. */
  function GetStructNameIdent(attr: AttrArgs, fnIdent: string): (r: Result<string, Error>)
    ensures r.Ok? && attr.Paths? && |attr.args| == 1 ==> attr.args[0] == IdentPath(r.value)
    ensures r.Ok? ==> IsIdentifier(r.value) && attr.Paths? && |attr.args| <= 1
    ensures r.Ok? && attr.Paths? && |attr.args| == 0 ==> '_' !in r.value
  {
    match attr
    case NotPaths => Err(NotPunctuatedPath)
    case Paths(args) =>
      if |args| == 0 then
        var name := Case.ToPascal(fnIdent);
        if IsIdentifier(name) then Ok(name) else Err(InvalidIdent)
      else if |args| > 1 then Err(ExpectedExactlyOne)
      else
        match GetIdent(args[0])
        case Some(id) => if IsIdentifier(id) then Ok(id) else Err(InvalidIdent)
        case None => Err(NotAnIdent)
  }

  /** The parameter is `pat: ty` with `ty` a dependency type (`dep == true`) or not (`dep == false`). */
  predicate InClass(arg: FnArg, dep: bool)
  {
    arg.Typed? && IsDependencyType(arg.ty) == dep
  }

  /** What one parameter contributes to the struct: `pat: ty` unless it is a dependency. */
  function FieldOf(arg: FnArg): seq<Field>
  {
    match arg
    case Typed(pat, ty) => if IsDependencyType(ty) then [] else [Field(pat, ty)]
    case Receiver(_, _) => []
  }

  /** What one parameter contributes to `execute`'s parameters: `pat: impl Into<ty>` if it is a dependency. */
  function DepArgOf(arg: FnArg): seq<ExecuteArg>
  {
    match arg
    case Typed(pat, ty) => if IsDependencyType(ty) then [ImplInto(pat, ty)] else []
    case Receiver(_, _) => []
  }

  /** What one parameter contributes to the `let` statements opening `execute`. */
  function BindingOf(arg: FnArg): seq<Binding>
  {
    match arg
    case Typed(pat, ty) => if IsDependencyType(ty) then [LetInto(pat)] else [LetSelfField(pat)]
    case Receiver(_, _) => []
  }

  /** The struct fields: each parameter that is not a dependency, as `pat: ty`, in declaration order. */
  function Fields(inputs: seq<FnArg>): (r: seq<Field>)
    ensures |r| <= |inputs|
    ensures forall k :: 0 <= k < |r| ==> !IsDependencyType(r[k].ty)
  {
    if inputs == [] then [] else FieldOf(inputs[0]) + Fields(inputs[1..])
  }

  /** The dependency parameters as `execute` takes them, `pat: impl Into<ty>`, in declaration order. */
  function DepArgs(inputs: seq<FnArg>): (r: seq<ExecuteArg>)
    ensures forall k :: 0 <= k < |r| ==> r[k].ImplInto?
  {
    if inputs == [] then [] else DepArgOf(inputs[0]) + DepArgs(inputs[1..])
  }

  /** The `let` statements opening `execute`: one per parameter, in declaration order. */
  function Bindings(inputs: seq<FnArg>): (r: seq<Binding>)
    ensures |r| <= |inputs|
  {
    if inputs == [] then [] else BindingOf(inputs[0]) + Bindings(inputs[1..])
  }

  /** The initialisers of `Self { .. }` in `new`: `pat: pat` for each field, in field order. */
  function Inits(fields: seq<Field>): (r: seq<FieldInit>)
    ensures |r| == |fields|
  {
    if fields == [] then [] else [FieldInit(fields[0].pat)] + Inits(fields[1..])
  }

  predicate HasReceiver(inputs: seq<FnArg>)
  {
    exists i :: 0 <= i < |inputs| && inputs[i].Receiver?
  }

  /** The return type of `execute`: the declared one, or `()` when there is none. */
  function ReturnTy(output: ReturnType): Ty
  {
    match output
    case Default => UnitTy
    case Type(ty) => ty
  }

  /** The tokens `quote!` emits for struct `name`: the function kept as written, the struct, and its `impl`. */
  function Emit(name: string, item: ItemFn): (r: seq<Item>)
    ensures |r| == 3 && r[0].AllowUnused? && r[1].Struct? && r[2].Impl?
    ensures r[1].name == name && r[2].name == name
    ensures r[1].fields == r[2].newFn.params
  {
    var fields := Fields(item.sig.inputs);
    [ AllowUnused(item),
      Struct(name, fields),
      Impl(name,
           NewFn(fields, Inits(fields)),
           ExecuteFn(item.sig.asyncness,
                     [SelfRef] + DepArgs(item.sig.inputs),
                     ReturnTy(item.sig.output),
                     Bindings(item.sig.inputs),
                     item.block)) ]
  }

  /**
   * The whole expansion: the struct name is resolved first, then any
   * receiver parameter aborts; otherwise the three items, in emission order.
   */
  function Expand(attr: AttrArgs, item: ItemFn): (r: Result<seq<Item>, Error>)
    ensures r.Ok? ==> |r.value| == 3 && r.value[0] == AllowUnused(item)
  {
    match GetStructNameIdent(attr, item.sig.ident)
    case Err(e) => Err(e)
    case Ok(name) =>
      if HasReceiver(item.sig.inputs) then Err(ReceiverNotSupported)
      else Ok(Emit(name, item))
  }

  /** The three lists built parameter by parameter split over a concatenation. */
  lemma {:induction false} FieldsAppend(a: seq<FnArg>, b: seq<FnArg>)
    ensures Fields(a + b) == Fields(a) + Fields(b)
  {
    if a == [] {
      assert a + b == b;
    } else {
      assert (a + b)[0] == a[0];
      assert (a + b)[1..] == a[1..] + b;
      FieldsAppend(a[1..], b);
    }
  }

  lemma {:induction false} DepArgsAppend(a: seq<FnArg>, b: seq<FnArg>)
    ensures DepArgs(a + b) == DepArgs(a) + DepArgs(b)
  {
    if a == [] {
      assert a + b == b;
    } else {
      assert (a + b)[0] == a[0];
      assert (a + b)[1..] == a[1..] + b;
      DepArgsAppend(a[1..], b);
    }
  }

  lemma {:induction false} BindingsAppend(a: seq<FnArg>, b: seq<FnArg>)
    ensures Bindings(a + b) == Bindings(a) + Bindings(b)
  {
    if a == [] {
      assert a + b == b;
    } else {
      assert (a + b)[0] == a[0];
      assert (a + b)[1..] == a[1..] + b;
      BindingsAppend(a[1..], b);
    }
  }

  /** What the parameter at `i` adds to each list, as the loop pushes it. */
  lemma StepLists(inputs: seq<FnArg>, i: nat)
    requires i < |inputs|
    ensures Fields(inputs[..i + 1]) == Fields(inputs[..i]) + FieldOf(inputs[i])
    ensures [SelfRef] + DepArgs(inputs[..i + 1]) == ([SelfRef] + DepArgs(inputs[..i])) + DepArgOf(inputs[i])
    ensures Bindings(inputs[..i + 1]) == Bindings(inputs[..i]) + BindingOf(inputs[i])
  {
    var x := inputs[i];
    assert inputs[..i + 1] == inputs[..i] + [x];
    Singleton(x);
    FieldsAppend(inputs[..i], [x]);
    DepArgsAppend(inputs[..i], [x]);
    BindingsAppend(inputs[..i], [x]);
    assert [SelfRef] + (DepArgs(inputs[..i]) + DepArgOf(x)) == ([SelfRef] + DepArgs(inputs[..i])) + DepArgOf(x);
  }

  /** A single parameter contributes exactly its own part to each list. */
  lemma Singleton(x: FnArg)
    ensures Fields([x]) == FieldOf(x)
    ensures DepArgs([x]) == DepArgOf(x)
    ensures Bindings([x]) == BindingOf(x)
  {
    assert [x][1..] == [];
    assert FieldOf(x) + [] == FieldOf(x);
    assert DepArgOf(x) + [] == DepArgOf(x);
    assert BindingOf(x) + [] == BindingOf(x);
  }

  lemma {:induction false} InitsAppend(a: seq<Field>, b: seq<Field>)
    ensures Inits(a + b) == Inits(a) + Inits(b)
  {
    if a == [] {
      assert a + b == b;
    } else {
      assert (a + b)[0] == a[0];
      assert (a + b)[1..] == a[1..] + b;
      InitsAppend(a[1..], b);
    }
  }

  /** Pushing a field pushes its initialiser. */
  lemma InitsPush(a: seq<Field>, f: Field)
    ensures Inits(a + [f]) == Inits(a) + [FieldInit(f.pat)]
  {
    InitsAppend(a, [f]);
    assert [f][1..] == [];
  }

  /** Without a receiver, the head is a typed parameter and the tail has no receiver either. */
  lemma TailNoReceiver(inputs: seq<FnArg>)
    requires inputs != [] && !HasReceiver(inputs)
    ensures inputs[0].Typed? && !HasReceiver(inputs[1..])
  {
    var rest := inputs[1..];
    forall i | 0 <= i < |rest| ensures !rest[i].Receiver? {
      assert rest[i] == inputs[i + 1];
    }
  }

  /** A typed parameter extends a receiver-free prefix to a receiver-free prefix. */
  lemma NoReceiverPush(inputs: seq<FnArg>, i: nat)
    requires i < |inputs| && inputs[i].Typed? && !HasReceiver(inputs[..i])
    ensures !HasReceiver(inputs[..i + 1])
  {
    forall j | 0 <= j < i + 1
      ensures !inputs[j].Receiver?
    {
      if j < i {
        assert inputs[..i][j] == inputs[j];
      }
    }
  }

  /**
   * The pass over the parameters: each typed parameter is pushed onto the
   * lists (`execute`'s seeded with `&self`); a receiver stops the pass.
   */
  method CollectInputs(inputs: seq<FnArg>)
    returns (receiver: bool, fields: seq<Field>, newStructFields: seq<FieldInit>,
             executeArgs: seq<ExecuteArg>, executeBindings: seq<Binding>)
    ensures receiver <==> HasReceiver(inputs)
    ensures !receiver ==>
      && fields == Fields(inputs)
      && newStructFields == Inits(fields)
      && executeArgs == [SelfRef] + DepArgs(inputs)
      && executeBindings == Bindings(inputs)
  {
    fields := [];
    executeBindings := [];
    newStructFields := [];
    executeArgs := [SelfRef];

    for i := 0 to |inputs|
      invariant fields == Fields(inputs[..i])
      invariant newStructFields == Inits(fields)
      invariant executeArgs == [SelfRef] + DepArgs(inputs[..i])
      invariant executeBindings == Bindings(inputs[..i])
      invariant !HasReceiver(inputs[..i])
    {
      var arg := inputs[i];
      StepLists(inputs, i);
      match arg {
        case Typed(pat, ty) =>
          NoReceiverPush(inputs, i);
          if IsDependencyType(ty) {
            assert fields + [] == fields;
            executeArgs := executeArgs + [ImplInto(pat, ty)];
            executeBindings := executeBindings + [LetInto(pat)];
          } else {
            InitsPush(fields, Field(pat, ty));
            fields := fields + [Field(pat, ty)];
            executeBindings := executeBindings + [LetSelfField(pat)];
            newStructFields := newStructFields + [FieldInit(pat)];
            assert executeArgs + [] == executeArgs;
          }
        case Receiver(_, _) =>
          assert inputs[i].Receiver?;
          return true, fields, newStructFields, executeArgs, executeBindings;
      }
    }
    assert inputs[..|inputs|] == inputs;
    receiver := false;
  }

  /**
   * The macro entry point: the name is resolved, then the pass over the
   * parameters, aborting at a receiver; the result is exactly `Expand`.
   */
  method Structify(attr: AttrArgs, item: ItemFn) returns (out: Result<seq<Item>, Error>)
    ensures out == Expand(attr, item)
  {
    var structName: string;
    match GetStructNameIdent(attr, item.sig.ident) {
      case Err(e) =>
        return Err(e);
      case Ok(name) =>
        structName := name;
    }

    var asyncness := item.sig.asyncness;

    var receiver, fields, newStructFields, executeArgs, executeBindings := CollectInputs(item.sig.inputs);
    if receiver {
      return Err(ReceiverNotSupported);
    }

    var block := item.block;

    var retTy: Ty;
    match item.sig.output {
      case Default => retTy := UnitTy;
      case Type(ty) => retTy := ty;
    }

    out := Ok([ AllowUnused(item),
                Struct(structName, fields),
                Impl(structName,
                     NewFn(fields, newStructFields),
                     ExecuteFn(asyncness, executeArgs, retTy, executeBindings, block)) ]);
  }
}
