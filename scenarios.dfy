/**
 * The functions the crate's tests annotate, and what their tests expect of
 * the generated struct, `new` and `execute`: here for every argument value,
 * not only the numbers the tests pick.
 */
module Scenarios {
  import opened Wrappers
  import opened Syntax
  import opened StructifyDerive
  import opened Semantics
  import Case

  const I32: Ty := TypePath(None, IdentPath("i32"))

  /** `Dep<t>` */
  function DepOf(t: Ty): Ty
  {
    TypePath(None, SynPath(false, [PathSegment("Dep", AngleBracketed([t]))]))
  }

  /** `From<T> for Dep<T>`: a plain value passed to `execute` becomes a new `Dep` holding it. */
  function WrapInDep(target: Ty, v: Value): Value
  {
    DepHandle(v)
  }

  /** `fn unit() {}` */
  const UnitFn: ItemFn := ItemFn(Signature(false, "unit", [], Default), Block(UnitLit))

  /** `fn args_with_return(a: i32, b: i32) -> i32 { a + b }` */
  const ArgsWithReturn: ItemFn :=
    ItemFn(Signature(false, "args_with_return", [Typed("a", I32), Typed("b", I32)], Type(I32)),
           Block(Add(Var("a"), Var("b"))))

  /** `fn mixed_args_and_deps_with_return(dep: Dep<i32>, a: i32, dep2: Dep<i32>, b: i32) -> i32 { *dep.inner() + *dep2.inner() + a + b }` */
  const MixedArgsAndDeps: ItemFn :=
    ItemFn(Signature(false, "mixed_args_and_deps_with_return",
                     [Typed("dep", DepOf(I32)), Typed("a", I32), Typed("dep2", DepOf(I32)), Typed("b", I32)],
                     Type(I32)),
           Block(Add(Add(Add(DepInner(Var("dep")), DepInner(Var("dep2"))), Var("a")), Var("b"))))

  /** `async fn async_arg_and_dep_with_return(i: i32, dep: Dep<i32>) -> i32 { *dep.inner() + i }` */
  const AsyncArgAndDep: ItemFn :=
    ItemFn(Signature(true, "async_arg_and_dep_with_return", [Typed("i", I32), Typed("dep", DepOf(I32))], Type(I32)),
           Block(Add(DepInner(Var("dep")), Var("i"))))

  /** `#[structify(NameIsB)] fn name_is_a() {}` */
  const NameIsA: ItemFn := ItemFn(Signature(false, "name_is_a", [], Default), Block(UnitLit))

  // ---- helpers: the lists of short parameter lists, one parameter at a time ----

  lemma Lists2(x: FnArg, y: FnArg)
    ensures Fields([x, y]) == FieldOf(x) + FieldOf(y)
    ensures DepArgs([x, y]) == DepArgOf(x) + DepArgOf(y)
  {
    assert [x, y] == [x] + [y];
    FieldsAppend([x], [y]);
    DepArgsAppend([x], [y]);
    Singleton(x);
    Singleton(y);
  }

  lemma Lists4(w: FnArg, x: FnArg, y: FnArg, z: FnArg)
    ensures Fields([w, x, y, z]) == (FieldOf(w) + FieldOf(x)) + (FieldOf(y) + FieldOf(z))
    ensures DepArgs([w, x, y, z]) == (DepArgOf(w) + DepArgOf(x)) + (DepArgOf(y) + DepArgOf(z))
  {
    assert [w, x, y, z] == [w, x] + [y, z];
    FieldsAppend([w, x], [y, z]);
    DepArgsAppend([w, x], [y, z]);
    Lists2(w, x);
    Lists2(y, z);
  }

  function ValOf<V>(x: FnArg, v: V, dep: bool): seq<V>
  {
    if InClass(x, dep) then [v] else []
  }

  /**
   * Associativity of concatenation, stated apart: inside a larger proof the
   * solver otherwise re-derives it through sequence extensionality, at a
   * cost that varies widely with the solver seed.
   */
  lemma ConcatAssoc<T>(a: seq<T>, b: seq<T>, c: seq<T>)
    ensures a + (b + c) == (a + b) + c
  {
  }

  lemma {:induction false} ClassValsAppend<V>(a: seq<FnArg>, b: seq<FnArg>, u: seq<V>, v: seq<V>, dep: bool)
    requires |u| == |a| && |v| == |b|
    ensures ClassVals(a + b, u + v, dep) == ClassVals(a, u, dep) + ClassVals(b, v, dep)
  {
    if a == [] {
      assert a + b == b && u + v == v;
    } else {
      var head := if InClass(a[0], dep) then [u[0]] else [];
      assert (a + b)[0] == a[0] && (u + v)[0] == u[0];
      assert (a + b)[1..] == a[1..] + b && (u + v)[1..] == u[1..] + v;
      assert ClassVals(a + b, u + v, dep) == head + ClassVals(a[1..] + b, u[1..] + v, dep);
      assert ClassVals(a, u, dep) == head + ClassVals(a[1..], u[1..], dep);
      ClassValsAppend(a[1..], b, u[1..], v, dep);
      ConcatAssoc(head, ClassVals(a[1..], u[1..], dep), ClassVals(b, v, dep));
    }
  }

  lemma ClassVals2<V>(x: FnArg, y: FnArg, u: V, v: V, dep: bool)
    ensures ClassVals([x, y], [u, v], dep) == ValOf(x, u, dep) + ValOf(y, v, dep)
  {
    assert [x, y] == [x] + [y] && [u, v] == [u] + [v];
    ClassValsAppend([x], [y], [u], [v], dep);
    assert [x][1..] == [] && [y][1..] == [];
    assert ValOf(x, u, dep) + [] == ValOf(x, u, dep);
    assert ValOf(y, v, dep) + [] == ValOf(y, v, dep);
  }

  lemma ClassVals4<V>(w: FnArg, x: FnArg, y: FnArg, z: FnArg, s: V, t: V, u: V, v: V, dep: bool)
    ensures ClassVals([w, x, y, z], [s, t, u, v], dep)
         == (ValOf(w, s, dep) + ValOf(x, t, dep)) + (ValOf(y, u, dep) + ValOf(z, v, dep))
  {
    assert [w, x, y, z] == [w, x] + [y, z] && [s, t, u, v] == [s, t] + [u, v];
    ClassValsAppend([w, x], [y, z], [s, t], [u, v], dep);
    ClassVals2(w, x, s, t, dep);
    ClassVals2(y, z, u, v, dep);
  }

  /** A `Dep<i32>` parameter is a dependency and an `i32` one is not. */
  lemma Classify(p: string)
    ensures IsDependencyType(DepOf(I32)) && !IsDependencyType(I32)
    ensures InClass(Typed(p, DepOf(I32)), true) && !InClass(Typed(p, DepOf(I32)), false)
    ensures InClass(Typed(p, I32), false) && !InClass(Typed(p, I32), true)
  {
  }

  /** With no name in the attribute and no receiver, the expansion is the three items under the given default name. */
  lemma DefaultExpansion(item: ItemFn, name: string)
    requires !HasReceiver(item.sig.inputs)
    requires Case.ToPascal(item.sig.ident) == name
    requires IsIdentifier(name)
    ensures Expand(Paths([]), item) == Ok(Emit(name, item))
  {
  }

  /** The default names of the test functions pass the identifier check of `Ident::new`. */
  lemma ScenarioNamesAreIdentifiers()
    ensures IsIdentifier("Unit") && IsIdentifier("ArgsWithReturn")
    ensures IsIdentifier("MixedArgsAndDepsWithReturn") && IsIdentifier("AsyncArgAndDepWithReturn")
    ensures IsIdentifier("NameIsB")
  {
  }

  // ---- `fn unit() {}` ----

  /** The default name of `fn unit` is `Unit`. */
  lemma UnitName()
    ensures Case.ToPascal(UnitFn.sig.ident) == "Unit"
  {
    Case.PascalOfUnit();
  }

  /** `Unit::new().execute()`: the struct `Unit` has no fields, `execute` is not `async`, returns `()` and gives `()`. */
  lemma UnitScenario()
    ensures var r := Expand(Paths([]), UnitFn);
      && r.Ok? && |r.value| == 3 && r.value[2].Impl?
      && r.value[1] == Struct("Unit", []) && r.value[2].execute.ret == UnitTy && !r.value[2].execute.asyncness
      && RunGenerated(r.value, [], [], WrapInDep) == Some(UnitValue)
  {
    UnitName();
    ScenarioNamesAreIdentifiers();
    assert !HasReceiver(UnitFn.sig.inputs);
    assert Expand(Paths([]), UnitFn) == Ok(Emit("Unit", UnitFn));
    var items := Emit("Unit", UnitFn);
    assert ClassVals<Value>(UnitFn.sig.inputs, [], false) == [] && ClassVals<Value>(UnitFn.sig.inputs, [], true) == [];
    GeneratedResultIsCallResult(Paths([]), UnitFn, items, [], WrapInDep);
    assert CallEnv(UnitFn, []) == Some(map[]);
  }

  // ---- `fn args_with_return(a: i32, b: i32) -> i32` ----

  // The struct `ArgsWithReturn` holds `a` and `b`; `execute` takes only `&self`.

  /** The default name of the function is `ArgsWithReturn`. */
  lemma ArgsWithReturnName()
    ensures Case.ToPascal(ArgsWithReturn.sig.ident) == "ArgsWithReturn"
  {
    Case.PascalOfArgsWithReturn();
  }

  lemma ArgsWithReturnExpansion()
    ensures Expand(Paths([]), ArgsWithReturn) == Ok(Emit("ArgsWithReturn", ArgsWithReturn))
  {
    ArgsWithReturnName();
    ScenarioNamesAreIdentifiers();
    ArgsWithReturnNoReceiver();
    DefaultExpansion(ArgsWithReturn, "ArgsWithReturn");
  }

  lemma ArgsWithReturnNoReceiver()
    ensures !HasReceiver(ArgsWithReturn.sig.inputs)
  {
  }

  lemma ArgsWithReturnLists()
    ensures Fields(ArgsWithReturn.sig.inputs) == [Field("a", I32), Field("b", I32)]
    ensures DepArgs(ArgsWithReturn.sig.inputs) == []
  {
    var inputs := ArgsWithReturn.sig.inputs;
    Classify("a");
    Lists2(inputs[0], inputs[1]);
    assert inputs == [inputs[0], inputs[1]];
  }

  /** The direct call `args_with_return(a, b)` returns `a + b`. */
  lemma ArgsWithReturnCall(a: int, b: int)
    ensures Call(ArgsWithReturn, [Int(a), Int(b)]) == Some(Int(a + b))
  {
    var inputs := ArgsWithReturn.sig.inputs;
    var names := ["a", "b"];
    var args := [Int(a), Int(b)];
    assert Pats(inputs) == names;
    assert !HasReceiver(inputs);
    var env := Bind(map[], names, args);
    assert CallEnv(ArgsWithReturn, args) == Some(env);
    BindAt(map[], names, args, 0);
    BindAt(map[], names, args, 1);
    assert Eval(Var("a"), env) == Some(Int(a));
    assert Eval(Var("b"), env) == Some(Int(b));
    assert ArgsWithReturn.block.tail == Add(Var("a"), Var("b"));
  }

  /** `new(a, b)` takes both values and `execute` none; neither is wrapped. */
  lemma ArgsWithReturnValues(a: int, b: int)
    ensures var inputs := ArgsWithReturn.sig.inputs;
      var raw := [Int(a), Int(b)];
      && ClassVals(inputs, raw, false) == raw
      && ClassVals(inputs, raw, true) == []
      && Effective(inputs, raw, WrapInDep) == raw
      && DistinctPats(inputs)
  {
    var inputs := ArgsWithReturn.sig.inputs;
    var raw := [Int(a), Int(b)];
    Classify("a");
    assert inputs == [inputs[0], inputs[1]];
    ClassVals2(inputs[0], inputs[1], Int(a), Int(b), false);
    ClassVals2(inputs[0], inputs[1], Int(a), Int(b), true);
    assert Pats(inputs) == ["a", "b"];
  }

  /** `ArgsWithReturn::new(a, b).execute() == a + b`, as the test checks for 1 and 2. */
  lemma ArgsWithReturnScenario(a: int, b: int)
    ensures var r := Expand(Paths([]), ArgsWithReturn);
      && r.Ok?
      && RunGenerated(r.value, [Int(a), Int(b)], [], WrapInDep) == Some(Int(a + b))
  {
    ArgsWithReturnExpansion();
    ArgsWithReturnValues(a, b);
    var items := Emit("ArgsWithReturn", ArgsWithReturn);
    GeneratedResultIsCallResult(Paths([]), ArgsWithReturn, items, [Int(a), Int(b)], WrapInDep);
    ArgsWithReturnCall(a, b);
  }

  // ---- `fn mixed_args_and_deps_with_return(dep: Dep<i32>, a: i32, dep2: Dep<i32>, b: i32) -> i32` ----

  // The struct keeps `a, b` as fields; `execute` takes `dep, dep2` after `&self`.

  /** The default name of the function is `MixedArgsAndDepsWithReturn`. */
  lemma MixedArgsAndDepsName()
    ensures Case.ToPascal(MixedArgsAndDeps.sig.ident) == "MixedArgsAndDepsWithReturn"
  {
    Case.PascalOfMixedArgsAndDepsWithReturn();
  }

  lemma MixedArgsAndDepsExpansion()
    ensures Expand(Paths([]), MixedArgsAndDeps) == Ok(Emit("MixedArgsAndDepsWithReturn", MixedArgsAndDeps))
  {
    MixedArgsAndDepsName();
    ScenarioNamesAreIdentifiers();
    MixedArgsAndDepsNoReceiver();
    DefaultExpansion(MixedArgsAndDeps, "MixedArgsAndDepsWithReturn");
  }

  lemma MixedArgsAndDepsNoReceiver()
    ensures !HasReceiver(MixedArgsAndDeps.sig.inputs)
  {
  }

  lemma MixedArgsAndDepsLists()
    ensures Fields(MixedArgsAndDeps.sig.inputs) == [Field("a", I32), Field("b", I32)]
    ensures DepArgs(MixedArgsAndDeps.sig.inputs) == [ImplInto("dep", DepOf(I32)), ImplInto("dep2", DepOf(I32))]
  {
    var inputs := MixedArgsAndDeps.sig.inputs;
    Classify("a");
    Lists4(inputs[0], inputs[1], inputs[2], inputs[3]);
    assert inputs == [inputs[0], inputs[1], inputs[2], inputs[3]];
  }

  /** The scope of that call binds each parameter to its argument. */
  lemma MixedArgsAndDepsEnv(d1: int, a: int, d2: int, b: int)
    ensures var env := Bind(map[], ["dep", "a", "dep2", "b"], [DepHandle(Int(d1)), Int(a), DepHandle(Int(d2)), Int(b)]);
      && "dep" in env && env["dep"] == DepHandle(Int(d1))
      && "a" in env && env["a"] == Int(a)
      && "dep2" in env && env["dep2"] == DepHandle(Int(d2))
      && "b" in env && env["b"] == Int(b)
  {
    var names := ["dep", "a", "dep2", "b"];
    var args := [DepHandle(Int(d1)), Int(a), DepHandle(Int(d2)), Int(b)];
    BindAt(map[], names, args, 0);
    BindAt(map[], names, args, 1);
    BindAt(map[], names, args, 2);
    BindAt(map[], names, args, 3);
  }

  /** The direct call with `Dep`s holding `d1`, `d2` and plain `a`, `b` returns `d1 + d2 + a + b`. */
  lemma MixedArgsAndDepsCall(d1: int, a: int, d2: int, b: int)
    ensures Call(MixedArgsAndDeps, [DepHandle(Int(d1)), Int(a), DepHandle(Int(d2)), Int(b)])
         == Some(Int(d1 + d2 + a + b))
  {
    var inputs := MixedArgsAndDeps.sig.inputs;
    var names := ["dep", "a", "dep2", "b"];
    var args := [DepHandle(Int(d1)), Int(a), DepHandle(Int(d2)), Int(b)];
    assert Pats(inputs) == names;
    MixedArgsAndDepsNoReceiver();
    var env := Bind(map[], names, args);
    assert CallEnv(MixedArgsAndDeps, args) == Some(env);
    MixedArgsAndDepsEnv(d1, a, d2, b);
    assert Eval(Var("a"), env) == Some(Int(a));
    assert Eval(Var("b"), env) == Some(Int(b));
    assert Eval(DepInner(Var("dep")), env) == Some(Int(d1));
    assert Eval(DepInner(Var("dep2")), env) == Some(Int(d2));
    var sum2 := Add(DepInner(Var("dep")), DepInner(Var("dep2")));
    assert Eval(sum2, env) == Some(Int(d1 + d2));
    assert Eval(Add(sum2, Var("a")), env) == Some(Int(d1 + d2 + a));
    assert Eval(Add(Add(sum2, Var("a")), Var("b")), env) == Some(Int(d1 + d2 + a + b));
    assert MixedArgsAndDeps.block.tail == Add(Add(sum2, Var("a")), Var("b"));
  }

  /** `new(a, b)` and `execute(d1, d2)` give back the four values in declaration order, the dependencies wrapped. */
  lemma MixedArgsAndDepsValues(d1: int, a: int, d2: int, b: int)
    ensures var inputs := MixedArgsAndDeps.sig.inputs;
      var raw := [Int(d1), Int(a), Int(d2), Int(b)];
      && ClassVals(inputs, raw, false) == [Int(a), Int(b)]
      && ClassVals(inputs, raw, true) == [Int(d1), Int(d2)]
      && Effective(inputs, raw, WrapInDep) == [DepHandle(Int(d1)), Int(a), DepHandle(Int(d2)), Int(b)]
      && DistinctPats(inputs)
  {
    var inputs := MixedArgsAndDeps.sig.inputs;
    var raw := [Int(d1), Int(a), Int(d2), Int(b)];
    Classify("a");
    assert inputs == [inputs[0], inputs[1], inputs[2], inputs[3]];
    ClassVals4(inputs[0], inputs[1], inputs[2], inputs[3], Int(d1), Int(a), Int(d2), Int(b), false);
    ClassVals4(inputs[0], inputs[1], inputs[2], inputs[3], Int(d1), Int(a), Int(d2), Int(b), true);
    var eff := [DepHandle(Int(d1)), Int(a), DepHandle(Int(d2)), Int(b)];
    forall i | 0 <= i < 4
      ensures Effective(inputs, raw, WrapInDep)[i] == eff[i]
    {
      if i == 0 || i == 2 {
        assert WrapInDep(TyOf(inputs[i]), raw[i]) == DepHandle(raw[i]);
      }
    }
    assert Pats(inputs) == ["dep", "a", "dep2", "b"];
  }

  /** `MixedArgsAndDepsWithReturn::new(a, b).execute(d1, d2)` returns `d1 + d2 + a + b`, as the test checks for 1, 2, 3, 4. */
  lemma MixedArgsAndDepsScenario(d1: int, a: int, d2: int, b: int)
    ensures Expand(Paths([]), MixedArgsAndDeps).Ok?
    ensures RunGenerated(Expand(Paths([]), MixedArgsAndDeps).value, [Int(a), Int(b)], [Int(d1), Int(d2)], WrapInDep)
         == Some(Int(d1 + d2 + a + b))
  {
    MixedArgsAndDepsExpansion();
    MixedArgsAndDepsValues(d1, a, d2, b);
    var items := Emit("MixedArgsAndDepsWithReturn", MixedArgsAndDeps);
    GeneratedResultIsCallResult(Paths([]), MixedArgsAndDeps, items, [Int(d1), Int(a), Int(d2), Int(b)], WrapInDep);
    MixedArgsAndDepsCall(d1, a, d2, b);
  }

  // ---- `async fn async_arg_and_dep_with_return(i: i32, dep: Dep<i32>) -> i32` ----

  // The struct keeps `i`; `execute` is `async`, takes `dep` after `&self` and returns `i32`.

  /** The default name of the function is `AsyncArgAndDepWithReturn`. */
  lemma AsyncArgAndDepName()
    ensures Case.ToPascal(AsyncArgAndDep.sig.ident) == "AsyncArgAndDepWithReturn"
  {
    Case.PascalOfAsyncArgAndDepWithReturn();
  }

  lemma AsyncArgAndDepExpansion()
    ensures Expand(Paths([]), AsyncArgAndDep) == Ok(Emit("AsyncArgAndDepWithReturn", AsyncArgAndDep))
  {
    AsyncArgAndDepName();
    ScenarioNamesAreIdentifiers();
    AsyncArgAndDepNoReceiver();
    DefaultExpansion(AsyncArgAndDep, "AsyncArgAndDepWithReturn");
  }

  lemma AsyncArgAndDepNoReceiver()
    ensures !HasReceiver(AsyncArgAndDep.sig.inputs)
  {
  }

  lemma AsyncArgAndDepLists()
    ensures Fields(AsyncArgAndDep.sig.inputs) == [Field("i", I32)]
    ensures DepArgs(AsyncArgAndDep.sig.inputs) == [ImplInto("dep", DepOf(I32))]
  {
    var inputs := AsyncArgAndDep.sig.inputs;
    Classify("i");
    Lists2(inputs[0], inputs[1]);
    assert inputs == [inputs[0], inputs[1]];
  }

  /** The direct call with `i` and a `Dep` holding `d`, once awaited, gives `d + i`. */
  lemma AsyncArgAndDepCall(i: int, d: int)
    ensures Call(AsyncArgAndDep, [Int(i), DepHandle(Int(d))]) == Some(Int(d + i))
  {
    var inputs := AsyncArgAndDep.sig.inputs;
    var names := ["i", "dep"];
    var args := [Int(i), DepHandle(Int(d))];
    assert Pats(inputs) == names;
    assert !HasReceiver(inputs);
    var env := Bind(map[], names, args);
    assert CallEnv(AsyncArgAndDep, args) == Some(env);
    BindAt(map[], names, args, 0);
    BindAt(map[], names, args, 1);
    assert Eval(Var("i"), env) == Some(Int(i));
    assert Eval(Var("dep"), env) == Some(DepHandle(Int(d)));
    assert Eval(DepInner(Var("dep")), env) == Some(Int(d));
    assert AsyncArgAndDep.block.tail == Add(DepInner(Var("dep")), Var("i"));
  }

  /** `new(i)` and `execute(d)` give back the two values in declaration order, the dependency wrapped. */
  lemma AsyncArgAndDepValues(i: int, d: int)
    ensures var inputs := AsyncArgAndDep.sig.inputs;
      var raw := [Int(i), Int(d)];
      && ClassVals(inputs, raw, false) == [Int(i)]
      && ClassVals(inputs, raw, true) == [Int(d)]
      && Effective(inputs, raw, WrapInDep) == [Int(i), DepHandle(Int(d))]
      && DistinctPats(inputs)
  {
    var inputs := AsyncArgAndDep.sig.inputs;
    var raw := [Int(i), Int(d)];
    Classify("i");
    assert inputs == [inputs[0], inputs[1]];
    ClassVals2(inputs[0], inputs[1], Int(i), Int(d), false);
    ClassVals2(inputs[0], inputs[1], Int(i), Int(d), true);
    assert WrapInDep(TyOf(inputs[1]), raw[1]) == DepHandle(raw[1]);
    assert Pats(inputs) == ["i", "dep"];
  }

  /** `AsyncArgAndDepWithReturn::new(i).execute(d).await` gives `d + i`, as the test checks for 1 and 41. */
  lemma AsyncArgAndDepScenario(i: int, d: int)
    ensures var r := Expand(Paths([]), AsyncArgAndDep);
      && r.Ok? && |r.value| == 3 && r.value[2].Impl?
      && r.value[2].execute.asyncness && r.value[2].execute.ret == I32
      && RunGenerated(r.value, [Int(i)], [Int(d)], WrapInDep) == Some(Int(d + i))
  {
    AsyncArgAndDepExpansion();
    AsyncArgAndDepValues(i, d);
    var items := Emit("AsyncArgAndDepWithReturn", AsyncArgAndDep);
    GeneratedResultIsCallResult(Paths([]), AsyncArgAndDep, items, [Int(i), Int(d)], WrapInDep);
    AsyncArgAndDepCall(i, d);
  }

  // ---- naming and rejection ----

  /** `#[structify(NameIsB)] fn name_is_a() {}` generates `NameIsB`, not `NameIsA`. */
  lemma ExplicitNameScenario()
    ensures Expand(Paths([IdentPath("NameIsB")]), NameIsA).Ok?
    ensures Expand(Paths([IdentPath("NameIsB")]), NameIsA).value[1] == Struct("NameIsB", [])
  {
    assert !HasReceiver(NameIsA.sig.inputs);
    ScenarioNamesAreIdentifiers();
  }

  /** `#[structify(A, B)]` aborts the expansion: only one name may be given. */
  lemma TwoNamesScenario()
    ensures Expand(Paths([IdentPath("A"), IdentPath("B")]), UnitFn) == Err(ExpectedExactlyOne)
  {
  }

  /** A function taking `&mut self` aborts the expansion even though its name resolves. */
  lemma ReceiverScenario()
    ensures Expand(Paths([]), ItemFn(Signature(false, "unit", [Receiver(true, true)], Default), Block(UnitLit)))
         == Err(ReceiverNotSupported)
  {
    Case.PascalOfUnit();
    ScenarioNamesAreIdentifiers();
    assert [Receiver(true, true)][0].Receiver?;
  }

  /**
   * Names `Ident::new` refuses: `fn __() {}` and `fn _1() {}` get the default
   * names "" and "1", and `#[structify(r#type)]` passes on the raw spelling.
   */
  lemma InvalidNameScenario()
    ensures Expand(Paths([]), ItemFn(Signature(false, "__", [], Default), Block(UnitLit))) == Err(InvalidIdent)
    ensures Expand(Paths([]), ItemFn(Signature(false, "_1", [], Default), Block(UnitLit))) == Err(InvalidIdent)
    ensures Expand(Paths([IdentPath("r#type")]), UnitFn) == Err(InvalidIdent)
  {
    assert !IdentContinue("r#type"[1]);
  }
}
