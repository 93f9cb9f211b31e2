/**
 * What the generated code does when run: `Name::new(fields).execute(deps)`
 * binds every parameter name to the value a direct call of the original
 * function would bind it to, so the copied body computes the same result.
 */
module Semantics {
  import opened Wrappers
  import opened Syntax
  import opened StructifyDerive

  /** Run-time values: integers, `()`, and a `Dep` handle on a shared value. */
  datatype Value = Int(n: int) | UnitValue | DepHandle(shared: Value)

  /** The names in scope and what they are bound to. */
  type Env = map<string, Value>

  /** The value of an expression; `None` for an unbound name or an ill-typed operation. */
  function Eval(e: Expr, env: Env): Option<Value>
  {
    match e
    case IntLit(n) => Some(Int(n))
    case UnitLit => Some(UnitValue)
    case Var(x) => if x in env then Some(env[x]) else None
    case DepInner(d) =>
      (match Eval(d, env)
       case Some(DepHandle(v)) => Some(v)
       case _ => None)
    case Add(l, r) =>
      (match (Eval(l, env), Eval(r, env))
       case (Some(Int(a)), Some(Int(b))) => Some(Int(a + b))
       case _ => None)
  }

  /** Binds `names` to `vals` left to right, a later binding replacing an earlier one of the same name. */
  function Bind<V>(scope: map<string, V>, names: seq<string>, vals: seq<V>): map<string, V>
    requires |names| == |vals|
    decreases |names|
  {
    if names == [] then scope else Bind(scope[names[0] := vals[0]], names[1..], vals[1..])
  }

  function PatOf(arg: FnArg): string
  {
    match arg
    case Typed(pat, _) => pat
    case Receiver(_, _) => "self"
  }

  function TyOf(arg: FnArg): Ty
  {
    match arg
    case Typed(_, ty) => ty
    case Receiver(_, _) => UnitTy
  }

  function Pats(inputs: seq<FnArg>): seq<string>
  {
    seq(|inputs|, i requires 0 <= i < |inputs| => PatOf(inputs[i]))
  }

  function Tys(inputs: seq<FnArg>): seq<Ty>
  {
    seq(|inputs|, i requires 0 <= i < |inputs| => TyOf(inputs[i]))
  }

  /** No two parameters share a name, as the Rust compiler demands of every function. */
  predicate DistinctPats(inputs: seq<FnArg>)
  {
    forall i, j :: 0 <= i < j < |inputs| ==> PatOf(inputs[i]) != PatOf(inputs[j])
  }

  // ---- the direct call ----

  /** The scope of the original function's body when it is called with `args`. */
  function CallEnv(f: ItemFn, args: seq<Value>): Option<Env>
  {
    if |args| != |f.sig.inputs| || HasReceiver(f.sig.inputs) then None
    else Some(Bind(map[], Pats(f.sig.inputs), args))
  }

  function Call(f: ItemFn, args: seq<Value>): Option<Value>
  {
    match CallEnv(f, args)
    case None => None
    case Some(env) => Eval(f.block.tail, env)
  }

  // ---- the generated code ----

  function FieldNames(fields: seq<Field>): (r: seq<string>)
    ensures |r| == |fields|
  {
    if fields == [] then [] else [fields[0].pat] + FieldNames(fields[1..])
  }

  function ArgPats(args: seq<ExecuteArg>): (r: seq<string>)
    ensures |r| == |args|
  {
    if args == [] then [] else [if args[0].ImplInto? then args[0].pat else "self"] + ArgPats(args[1..])
  }

  function ArgTys(args: seq<ExecuteArg>): (r: seq<Ty>)
    ensures |r| == |args|
  {
    if args == [] then [] else [if args[0].ImplInto? then args[0].ty else UnitTy] + ArgTys(args[1..])
  }

  /** `Self { pat: pat, .. }` evaluated in `scope`: the instance as a map from field name to value. */
  function Init(inits: seq<FieldInit>, scope: Env): Option<Env>
  {
    if inits == [] then Some(map[])
    else if inits[0].pat !in scope then None
    else
      match Init(inits[1..], scope)
      case None => None
      case Some(rest) => Some(rest[inits[0].pat := scope[inits[0].pat]])
  }

  /** `Name::new(args)`. */
  function New(n: NewFn, args: seq<Value>): (r: Option<Env>)
    ensures |args| != |n.params| ==> r.None?
  {
    if |args| != |FieldNames(n.params)| then None
    else Init(n.inits, Bind(map[], FieldNames(n.params), args))
  }

  /**
   * The `let` statements of `execute` run in order: `let p = p.into();`
   * converts the argument to the declared type `targets[p]` through the
   * caller's `Into`, and `let p = &self.p;` reads the field.
   */
  function RunBindings(bindings: seq<Binding>, env: Env, self: Env, targets: map<string, Ty>,
                       into: (Ty, Value) -> Value): Option<Env>
    decreases |bindings|
  {
    if bindings == [] then Some(env)
    else
      match bindings[0]
      case LetInto(p) =>
        if p in env && p in targets
        then RunBindings(bindings[1..], env[p := into(targets[p], env[p])], self, targets, into)
        else None
      case LetSelfField(p) =>
        if p in self then RunBindings(bindings[1..], env[p := self[p]], self, targets, into) else None
  }

  /** `self.execute(args)` up to its block: the scope the block runs in. */
  function ExecuteEnv(x: ExecuteFn, self: Env, args: seq<Value>, into: (Ty, Value) -> Value): (r: Option<Env>)
    ensures r.Some? ==> x.args != [] && x.args[0] == SelfRef && |args| == |x.args| - 1
  {
    if x.args == [] || x.args[0] != SelfRef || |args| != |x.args| - 1 then None
    else
      var params := x.args[1..];
      if |ArgPats(params)| != |args| || |ArgTys(params)| != |args| then None
      else RunBindings(x.bindings, Bind(map[], ArgPats(params), args), self, Bind(map[], ArgPats(params), ArgTys(params)), into)
  }

  /** `Name::new(newArgs)` then `.execute(executeArgs)`, up to the block. */
  function GeneratedEnv(items: seq<Item>, newArgs: seq<Value>, executeArgs: seq<Value>,
                        into: (Ty, Value) -> Value): Option<Env>
  {
    if |items| != 3 || !items[2].Impl? then None
    else
      match New(items[2].newFn, newArgs)
      case None => None
      case Some(self) => ExecuteEnv(items[2].execute, self, executeArgs, into)
  }

  function RunGenerated(items: seq<Item>, newArgs: seq<Value>, executeArgs: seq<Value>,
                        into: (Ty, Value) -> Value): Option<Value>
  {
    if |items| != 3 || !items[2].Impl? then None
    else
      match GeneratedEnv(items, newArgs, executeArgs, into)
      case None => None
      case Some(env) => Eval(items[2].execute.block.tail, env)
  }

  // ---- how one call's arguments divide between `new` and `execute` ----

  /** The names of the parameters of one class, in order. */
  function ClassPats(inputs: seq<FnArg>, dep: bool): seq<string>
  {
    if inputs == [] then []
    else (if InClass(inputs[0], dep) then [PatOf(inputs[0])] else []) + ClassPats(inputs[1..], dep)
  }

  /** The entries of `vals` at the positions of the parameters of one class, in order. */
  function ClassVals<V>(inputs: seq<FnArg>, vals: seq<V>, dep: bool): (r: seq<V>)
    requires |vals| == |inputs|
    ensures |r| == |ClassPats(inputs, dep)|
  {
    if inputs == [] then []
    else (if InClass(inputs[0], dep) then [vals[0]] else []) + ClassVals(inputs[1..], vals[1..], dep)
  }

  /** What the original function receives for each parameter: a dependency's argument after `into`. */
  function Effective(inputs: seq<FnArg>, raw: seq<Value>, into: (Ty, Value) -> Value): (r: seq<Value>)
    requires |raw| == |inputs|
    ensures |r| == |inputs|
  {
    seq(|inputs|, i requires 0 <= i < |inputs| => if InClass(inputs[i], true) then into(TyOf(inputs[i]), raw[i]) else raw[i])
  }

  // ---- lemmas on binding ----

  lemma {:induction false} BindOutside<V>(scope: map<string, V>, names: seq<string>, vals: seq<V>, k: string)
    requires |names| == |vals| && k !in names
    decreases |names|
    ensures k in Bind(scope, names, vals) <==> k in scope
    ensures k in scope ==> Bind(scope, names, vals)[k] == scope[k]
  {
    if names != [] {
      assert names[0] in names;
      BindOutside(scope[names[0] := vals[0]], names[1..], vals[1..], k);
    }
  }

  lemma {:induction false} BindKeys<V>(scope: map<string, V>, names: seq<string>, vals: seq<V>, k: string)
    requires |names| == |vals|
    decreases |names|
    ensures k in Bind(scope, names, vals) <==> k in scope || k in names
  {
    if names != [] {
      BindKeys(scope[names[0] := vals[0]], names[1..], vals[1..], k);
      assert names == [names[0]] + names[1..];
    }
  }

  /** With distinct names, the `i`-th name is bound to the `i`-th value. */
  lemma {:induction false} BindAt<V>(scope: map<string, V>, names: seq<string>, vals: seq<V>, i: nat)
    requires |names| == |vals| && i < |names|
    requires forall a, b :: 0 <= a < b < |names| ==> names[a] != names[b]
    decreases |names|
    ensures names[i] in Bind(scope, names, vals) && Bind(scope, names, vals)[names[i]] == vals[i]
  {
    if i == 0 {
      assert names[0] !in names[1..] by {
        forall k | 0 <= k < |names[1..]| ensures names[1..][k] != names[0] {
          assert names[1..][k] == names[k + 1];
        }
      }
      BindOutside(scope[names[0] := vals[0]], names[1..], vals[1..], names[0]);
    } else {
      BindAt(scope[names[0] := vals[0]], names[1..], vals[1..], i - 1);
    }
  }

  /** The parameter at `i`, of class `dep`, is bound to `vals[i]` by the class's names and values. */
  lemma {:induction false} ClassBindAt<V>(scope: map<string, V>, inputs: seq<FnArg>, vals: seq<V>, dep: bool, i: nat)
    requires |vals| == |inputs| && DistinctPats(inputs) && i < |inputs| && InClass(inputs[i], dep)
    decreases |inputs|
    ensures PatOf(inputs[i]) in Bind(scope, ClassPats(inputs, dep), ClassVals(inputs, vals, dep))
    ensures Bind(scope, ClassPats(inputs, dep), ClassVals(inputs, vals, dep))[PatOf(inputs[i])] == vals[i]
  {
    var rest := inputs[1..];
    assert DistinctPats(rest) by {
      forall a, b | 0 <= a < b < |rest| ensures PatOf(rest[a]) != PatOf(rest[b]) {
        assert rest[a] == inputs[a + 1] && rest[b] == inputs[b + 1];
      }
    }
    var head := if InClass(inputs[0], dep) then [PatOf(inputs[0])] else [];
    var headVals := if InClass(inputs[0], dep) then [vals[0]] else [];
    var scope' := if InClass(inputs[0], dep) then scope[PatOf(inputs[0]) := vals[0]] else scope;
    assert ClassPats(inputs, dep) == head + ClassPats(rest, dep);
    assert ClassVals(inputs, vals, dep) == headVals + ClassVals(rest, vals[1..], dep);
    assert Bind(scope, ClassPats(inputs, dep), ClassVals(inputs, vals, dep))
        == Bind(scope', ClassPats(rest, dep), ClassVals(rest, vals[1..], dep)) by {
      if InClass(inputs[0], dep) {
        assert (head + ClassPats(rest, dep))[1..] == ClassPats(rest, dep);
        assert (headVals + ClassVals(rest, vals[1..], dep))[1..] == ClassVals(rest, vals[1..], dep);
      } else {
        assert head + ClassPats(rest, dep) == ClassPats(rest, dep);
        assert headVals + ClassVals(rest, vals[1..], dep) == ClassVals(rest, vals[1..], dep);
      }
    }
    if i == 0 {
      var p := PatOf(inputs[0]);
      forall n | n in ClassPats(rest, dep) ensures n != p {
        ClassPatsInPats(rest, dep, n);
        var k :| 0 <= k < |rest| && PatOf(rest[k]) == n;
        assert rest[k] == inputs[k + 1];
      }
      BindOutside(scope', ClassPats(rest, dep), ClassVals(rest, vals[1..], dep), p);
    } else {
      assert rest[i - 1] == inputs[i];
      ClassBindAt(scope', rest, vals[1..], dep, i - 1);
    }
  }

  /** A name of one class is the name of some parameter. */
  lemma {:induction false} ClassPatsInPats(inputs: seq<FnArg>, dep: bool, n: string)
    requires n in ClassPats(inputs, dep)
    ensures exists k :: 0 <= k < |inputs| && PatOf(inputs[k]) == n
  {
    if n != PatOf(inputs[0]) || !InClass(inputs[0], dep) {
      ClassPatsInPats(inputs[1..], dep, n);
      var k :| 0 <= k < |inputs[1..]| && PatOf(inputs[1..][k]) == n;
      assert inputs[1..][k] == inputs[k + 1];
    }
  }

  /** The tail of a parameter list keeps distinct names, none of them the head's. */
  lemma TailDistinct(inputs: seq<FnArg>)
    requires inputs != [] && DistinctPats(inputs)
    ensures DistinctPats(inputs[1..])
    ensures PatOf(inputs[0]) !in Pats(inputs[1..])
  {
    var rest := inputs[1..];
    forall a, b | 0 <= a < b < |rest| ensures PatOf(rest[a]) != PatOf(rest[b]) {
      assert rest[a] == inputs[a + 1] && rest[b] == inputs[b + 1];
    }
    forall k | 0 <= k < |rest| ensures Pats(rest)[k] != PatOf(inputs[0]) {
      assert rest[k] == inputs[k + 1];
    }
  }

  /** The first binding rebinds the first parameter, then the rest run. */
  lemma RunBindingsStep(inputs: seq<FnArg>, env: Env, self: Env, targets: map<string, Ty>, into: (Ty, Value) -> Value)
    requires inputs != [] && inputs[0].Typed?
    requires InClass(inputs[0], true) ==> PatOf(inputs[0]) in env && PatOf(inputs[0]) in targets
    requires !InClass(inputs[0], true) ==> PatOf(inputs[0]) in self
    ensures var p := PatOf(inputs[0]);
      var v := if InClass(inputs[0], true) then into(targets[p], env[p]) else self[p];
      RunBindings(Bindings(inputs), env, self, targets, into) == RunBindings(Bindings(inputs[1..]), env[p := v], self, targets, into)
  {
    var p := PatOf(inputs[0]);
    var b := if InClass(inputs[0], true) then LetInto(p) else LetSelfField(p);
    assert Bindings(inputs) == [b] + Bindings(inputs[1..]);
    assert Bindings(inputs)[1..] == Bindings(inputs[1..]);
  }

  /** Every dependency's name is in scope with a declared type, and every other parameter is a field of `self`. */
  predicate BindingsReady(inputs: seq<FnArg>, env: Env, self: Env, targets: map<string, Ty>)
  {
    && (forall i :: 0 <= i < |inputs| && InClass(inputs[i], true) ==>
          PatOf(inputs[i]) in env && PatOf(inputs[i]) in targets)
    && (forall i :: 0 <= i < |inputs| && !InClass(inputs[i], true) ==> PatOf(inputs[i]) in self)
  }

  lemma ReadyTail(inputs: seq<FnArg>, env: Env, self: Env, targets: map<string, Ty>, p: string, v: Value)
    requires inputs != [] && BindingsReady(inputs, env, self, targets)
    ensures BindingsReady(inputs[1..], env[p := v], self, targets)
  {
    var rest := inputs[1..];
    forall i | 0 <= i < |rest| ensures rest[i] == inputs[i + 1] {
    }
  }

  /**
   * Running the bindings of `execute` binds every parameter name and
   * leaves every other name in scope as it was.
   */
  lemma {:induction false} RunBindingsScope(inputs: seq<FnArg>, env: Env, self: Env, targets: map<string, Ty>,
                                            into: (Ty, Value) -> Value)
    requires !HasReceiver(inputs) && BindingsReady(inputs, env, self, targets)
    decreases |inputs|
    ensures RunBindings(Bindings(inputs), env, self, targets, into).Some?
    ensures forall k :: k in RunBindings(Bindings(inputs), env, self, targets, into).value <==> k in env || k in Pats(inputs)
    ensures forall k :: k in env && k !in Pats(inputs) ==>
      RunBindings(Bindings(inputs), env, self, targets, into).value[k] == env[k]
  {
    if inputs != [] {
      var rest := inputs[1..];
      TailNoReceiver(inputs);
      var p := PatOf(inputs[0]);
      var v := if InClass(inputs[0], true) then into(targets[p], env[p]) else self[p];
      RunBindingsStep(inputs, env, self, targets, into);
      ReadyTail(inputs, env, self, targets, p, v);
      RunBindingsScope(rest, env[p := v], self, targets, into);
      assert Pats(inputs) == [p] + Pats(rest);
    }
  }

  /**
   * Before the `let`s of `execute` run, each dependency's name holds its
   * argument and its declared type, and the instance holds every other
   * parameter's argument.
   */
  predicate Prepared(inputs: seq<FnArg>, raw: seq<Value>, env: Env, self: Env, targets: map<string, Ty>)
    requires |raw| == |inputs|
  {
    forall i :: 0 <= i < |inputs| ==>
      if InClass(inputs[i], true)
      then PatOf(inputs[i]) in env && env[PatOf(inputs[i])] == raw[i]
        && PatOf(inputs[i]) in targets && targets[PatOf(inputs[i])] == TyOf(inputs[i])
      else PatOf(inputs[i]) in self && self[PatOf(inputs[i])] == raw[i]
  }

  /** Rebinding the first parameter's name keeps the rest of the parameters prepared. */
  lemma PreparedTail(inputs: seq<FnArg>, raw: seq<Value>, env: Env, self: Env, targets: map<string, Ty>, v: Value)
    requires |raw| == |inputs| && inputs != [] && DistinctPats(inputs)
    requires Prepared(inputs, raw, env, self, targets)
    ensures Prepared(inputs[1..], raw[1..], env[PatOf(inputs[0]) := v], self, targets)
    ensures BindingsReady(inputs[1..], env[PatOf(inputs[0]) := v], self, targets)
  {
    var rest := inputs[1..];
    TailDistinct(inputs);
    forall i | 0 <= i < |rest| ensures rest[i] == inputs[i + 1] && PatOf(rest[i]) != PatOf(inputs[0]) {
      assert Pats(rest)[i] == PatOf(rest[i]);
    }
  }

  /**
   * Running the bindings of `execute` rebinds every parameter name to what
   * the direct call receives for it: a dependency to its converted
   * argument, a field to the instance's value.
   */
  lemma {:induction false} RunBindingsAt(inputs: seq<FnArg>, raw: seq<Value>, env: Env, self: Env,
                                         targets: map<string, Ty>, into: (Ty, Value) -> Value)
    requires |raw| == |inputs| && !HasReceiver(inputs) && DistinctPats(inputs)
    requires Prepared(inputs, raw, env, self, targets)
    decreases |inputs|
    ensures RunBindings(Bindings(inputs), env, self, targets, into).Some?
    ensures forall i :: 0 <= i < |inputs| ==>
      && Pats(inputs)[i] in RunBindings(Bindings(inputs), env, self, targets, into).value
      && RunBindings(Bindings(inputs), env, self, targets, into).value[Pats(inputs)[i]] == Effective(inputs, raw, into)[i]
  {
    assert BindingsReady(inputs, env, self, targets);
    RunBindingsScope(inputs, env, self, targets, into);
    if inputs != [] {
      var rest := inputs[1..];
      TailNoReceiver(inputs);
      TailDistinct(inputs);
      var p := PatOf(inputs[0]);
      var v := if InClass(inputs[0], true) then into(targets[p], env[p]) else self[p];
      var env' := env[p := v];
      RunBindingsStep(inputs, env, self, targets, into);
      PreparedTail(inputs, raw, env, self, targets, v);
      RunBindingsScope(rest, env', self, targets, into);
      RunBindingsAt(rest, raw[1..], env', self, targets, into);
      var r := RunBindings(Bindings(rest), env', self, targets, into).value;
      var eff := Effective(inputs, raw, into);
      assert r[p] == v == eff[0];
      forall i | 1 <= i < |inputs|
        ensures Pats(inputs)[i] in r && r[Pats(inputs)[i]] == eff[i]
      {
        assert Pats(inputs)[i] == Pats(rest)[i - 1];
        assert eff[i] == Effective(rest, raw[1..], into)[i - 1];
      }
    }
  }

  /** `Self { .. }` over the initialisers of `fields` copies each field's value from the scope. */
  lemma {:induction false} InitAt(fields: seq<Field>, scope: Env)
    requires forall n :: n in FieldNames(fields) ==> n in scope
    ensures Init(Inits(fields), scope).Some?
    ensures forall n :: n in FieldNames(fields) ==>
      n in Init(Inits(fields), scope).value && Init(Inits(fields), scope).value[n] == scope[n]
  {
    if fields != [] {
      assert FieldNames(fields) == [fields[0].pat] + FieldNames(fields[1..]);
      InitAt(fields[1..], scope);
      assert Inits(fields)[1..] == Inits(fields[1..]);
    }
  }

  lemma {:induction false} FieldNamesOfFields(inputs: seq<FnArg>)
    ensures FieldNames(Fields(inputs)) == ClassPats(inputs, false)
  {
    if inputs != [] {
      FieldNamesOfFields(inputs[1..]);
      if InClass(inputs[0], false) {
        var f := Field(inputs[0].pat, inputs[0].ty);
        assert Fields(inputs) == [f] + Fields(inputs[1..]);
        assert Fields(inputs)[1..] == Fields(inputs[1..]);
      } else {
        assert Fields(inputs) == Fields(inputs[1..]);
      }
    }
  }

  lemma {:induction false} ArgsOfDepArgs(inputs: seq<FnArg>)
    ensures ArgPats(DepArgs(inputs)) == ClassPats(inputs, true)
    ensures ArgTys(DepArgs(inputs)) == ClassVals(inputs, Tys(inputs), true)
  {
    if inputs != [] {
      ArgsOfDepArgs(inputs[1..]);
      assert Tys(inputs)[1..] == Tys(inputs[1..]);
      if InClass(inputs[0], true) {
        var a := ImplInto(inputs[0].pat, inputs[0].ty);
        assert DepArgs(inputs) == [a] + DepArgs(inputs[1..]);
        assert DepArgs(inputs)[1..] == DepArgs(inputs[1..]);
      } else {
        assert DepArgs(inputs) == DepArgs(inputs[1..]);
      }
    }
  }

  /** `new`, given the non-dependency arguments in order, stores each under its parameter's name. */
  lemma NewStoresFields(inputs: seq<FnArg>, raw: seq<Value>)
    requires |raw| == |inputs| && DistinctPats(inputs) && !HasReceiver(inputs)
    ensures var fields := Fields(inputs);
      var self := New(NewFn(fields, Inits(fields)), ClassVals(inputs, raw, false));
      && self.Some?
      && forall i :: 0 <= i < |inputs| && !InClass(inputs[i], true) ==>
           PatOf(inputs[i]) in self.value && self.value[PatOf(inputs[i])] == raw[i]
  {
    var fields := Fields(inputs);
    var fieldVals := ClassVals(inputs, raw, false);
    FieldNamesOfFields(inputs);
    var scope := Bind(map[], ClassPats(inputs, false), fieldVals);
    forall n | n in FieldNames(fields) ensures n in scope {
      BindKeys(map[], ClassPats(inputs, false), fieldVals, n);
    }
    InitAt(fields, scope);
    var self := Init(Inits(fields), scope).value;
    assert New(NewFn(fields, Inits(fields)), fieldVals) == Some(self);
    forall i | 0 <= i < |inputs| && !InClass(inputs[i], true)
      ensures PatOf(inputs[i]) in self && self[PatOf(inputs[i])] == raw[i]
    {
      assert inputs[i].Typed?;
      ClassBindAt(map[], inputs, raw, false, i);
      BindKeys(map[], ClassPats(inputs, false), fieldVals, PatOf(inputs[i]));
    }
  }

  /** The scope `execute` binds its dependency parameters in: each holds its own value, and only parameter names are bound. */
  lemma DepScope<V>(inputs: seq<FnArg>, vals: seq<V>)
    requires |vals| == |inputs| && DistinctPats(inputs)
    ensures var scope := Bind(map[], ClassPats(inputs, true), ClassVals(inputs, vals, true));
      && (forall i :: 0 <= i < |inputs| && InClass(inputs[i], true) ==>
            PatOf(inputs[i]) in scope && scope[PatOf(inputs[i])] == vals[i])
      && (forall k :: k in scope ==> k in Pats(inputs))
  {
    var scope := Bind(map[], ClassPats(inputs, true), ClassVals(inputs, vals, true));
    forall i | 0 <= i < |inputs| && InClass(inputs[i], true)
      ensures PatOf(inputs[i]) in scope && scope[PatOf(inputs[i])] == vals[i]
    {
      ClassBindAt(map[], inputs, vals, true, i);
    }
    forall k | k in scope ensures k in Pats(inputs) {
      BindKeys(map[], ClassPats(inputs, true), ClassVals(inputs, vals, true), k);
      ClassPatsInPats(inputs, true, k);
      var j :| 0 <= j < |inputs| && PatOf(inputs[j]) == k;
      assert Pats(inputs)[j] == k;
    }
  }

  /** `execute` binds its dependency parameters to the dependency arguments, then runs its `let`s. */
  lemma ExecuteRunsBindings(inputs: seq<FnArg>, raw: seq<Value>, x: ExecuteFn, self: Env, into: (Ty, Value) -> Value)
    requires |raw| == |inputs|
    requires x.args == [SelfRef] + DepArgs(inputs) && x.bindings == Bindings(inputs)
    ensures ExecuteEnv(x, self, ClassVals(inputs, raw, true), into)
         == RunBindings(Bindings(inputs), Bind(map[], ClassPats(inputs, true), ClassVals(inputs, raw, true)), self,
                        Bind(map[], ClassPats(inputs, true), ClassVals(inputs, Tys(inputs), true)), into)
  {
    ArgsOfDepArgs(inputs);
    assert x.args[1..] == DepArgs(inputs);
  }

  /** The scope and declared types `execute` binds before its `let`s prepare every parameter. */
  lemma ExecutePrepared(inputs: seq<FnArg>, raw: seq<Value>, self: Env)
    requires |raw| == |inputs| && DistinctPats(inputs)
    requires forall i :: 0 <= i < |inputs| && !InClass(inputs[i], true) ==>
      PatOf(inputs[i]) in self && self[PatOf(inputs[i])] == raw[i]
    ensures var env0 := Bind(map[], ClassPats(inputs, true), ClassVals(inputs, raw, true));
      var targets := Bind(map[], ClassPats(inputs, true), ClassVals(inputs, Tys(inputs), true));
      && Prepared(inputs, raw, env0, self, targets)
      && BindingsReady(inputs, env0, self, targets)
      && (forall k :: k in env0 ==> k in Pats(inputs))
  {
    DepScope(inputs, raw);
    DepScope(inputs, Tys(inputs));
  }

  /**
   * The `let`s of `execute`, run in the scope of the dependency arguments
   * with an instance holding the other arguments, set up the scope of a
   * direct call with every dependency argument converted by `into`.
   */
  lemma BindingsBuildCallScope(inputs: seq<FnArg>, raw: seq<Value>, self: Env, into: (Ty, Value) -> Value)
    requires |raw| == |inputs| && DistinctPats(inputs) && !HasReceiver(inputs)
    requires forall i :: 0 <= i < |inputs| && !InClass(inputs[i], true) ==>
      PatOf(inputs[i]) in self && self[PatOf(inputs[i])] == raw[i]
    ensures RunBindings(Bindings(inputs), Bind(map[], ClassPats(inputs, true), ClassVals(inputs, raw, true)), self,
                        Bind(map[], ClassPats(inputs, true), ClassVals(inputs, Tys(inputs), true)), into)
         == Some(Bind(map[], Pats(inputs), Effective(inputs, raw, into)))
  {
    var env0 := Bind(map[], ClassPats(inputs, true), ClassVals(inputs, raw, true));
    var targets := Bind(map[], ClassPats(inputs, true), ClassVals(inputs, Tys(inputs), true));
    ExecutePrepared(inputs, raw, self);
    RunBindingsScope(inputs, env0, self, targets, into);
    RunBindingsAt(inputs, raw, env0, self, targets, into);
    var r := RunBindings(Bindings(inputs), env0, self, targets, into).value;
    assert forall k :: k in r <==> k in Pats(inputs);
    ScopeByNames(Pats(inputs), Effective(inputs, raw, into), r);
  }

  /** A scope holding exactly the distinct `names`, each bound to its value, is the one `Bind` builds. */
  lemma ScopeByNames(names: seq<string>, vals: seq<Value>, r: Env)
    requires |names| == |vals|
    requires forall a, b :: 0 <= a < b < |names| ==> names[a] != names[b]
    requires forall k :: k in r <==> k in names
    requires forall i :: 0 <= i < |names| ==> r[names[i]] == vals[i]
    ensures r == Bind(map[], names, vals)
  {
    var c := Bind(map[], names, vals);
    forall k ensures k in r <==> k in c {
      BindKeys(map[], names, vals, k);
    }
    forall k | k in c ensures r[k] == c[k] {
      BindKeys(map[], names, vals, k);
      var i :| 0 <= i < |names| && names[i] == k;
      BindAt(map[], names, vals, i);
    }
  }

  /**
   * The generated code is the function, partially applied: for arguments
   * `raw` (one per parameter, in declaration order), `new` given the
   * non-dependency arguments and `execute` given the dependency arguments
   * set up exactly the scope that a direct call sets up with every
   * dependency argument converted by `into`.
   */
  lemma GeneratedScopeIsCallScope(attr: AttrArgs, f: ItemFn, items: seq<Item>, raw: seq<Value>,
                                  into: (Ty, Value) -> Value)
    requires Expand(attr, f) == Ok(items)
    requires |raw| == |f.sig.inputs| && DistinctPats(f.sig.inputs)
    ensures CallEnv(f, Effective(f.sig.inputs, raw, into)).Some?
    ensures GeneratedEnv(items, ClassVals(f.sig.inputs, raw, false), ClassVals(f.sig.inputs, raw, true), into)
         == CallEnv(f, Effective(f.sig.inputs, raw, into))
  {
    var inputs := f.sig.inputs;
    assert !HasReceiver(inputs);
    var fields := Fields(inputs);
    var impl := items[2];
    assert impl.newFn == NewFn(fields, Inits(fields));
    NewStoresFields(inputs, raw);
    var self := New(impl.newFn, ClassVals(inputs, raw, false)).value;
    ExecuteRunsBindings(inputs, raw, impl.execute, self, into);
    BindingsBuildCallScope(inputs, raw, self, into);
    var eff := Effective(inputs, raw, into);
    assert CallEnv(f, eff) == Some(Bind(map[], Pats(inputs), eff));
  }

  /** Hence `Name::new(..).execute(..)` returns what the function returns for the same effective arguments. */
  lemma GeneratedResultIsCallResult(attr: AttrArgs, f: ItemFn, items: seq<Item>, raw: seq<Value>,
                                    into: (Ty, Value) -> Value)
    requires Expand(attr, f) == Ok(items)
    requires |raw| == |f.sig.inputs| && DistinctPats(f.sig.inputs)
    ensures RunGenerated(items, ClassVals(f.sig.inputs, raw, false), ClassVals(f.sig.inputs, raw, true), into)
         == Call(f, Effective(f.sig.inputs, raw, into))
  {
    GeneratedScopeIsCallScope(attr, f, items, raw, into);
  }
}
