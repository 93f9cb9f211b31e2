# structify: a Dafny model of the `#[structify]` attribute macro

`#[structify]` is a procedural attribute macro placed on a free Rust
function. It leaves the function in place and generates three more things:

- a struct whose fields are the function's ordinary parameters;
- a `new` constructor that takes those parameters;
- an `execute` method. It takes `&self` and then the function's *dependency*
  parameters, those whose type's last path segment is named `Dep`, each as
  `impl Into<T>`. It rebinds every parameter and runs the function's own body.

The struct is named by the attribute (`#[structify(Name)]`) or, when the
attribute is bare, by the Pascal case of the function's name.

The model covers the macro crate's core:

- `is_dependency_type`;
- `get_struct_name_ident`;
- the `structify` entry point: the pass over the parameters that builds the
  field, initialiser, argument and binding lists, the return type, the
  asyncness, the aborts, and the items emitted in order.

The modules are:

- `Syntax`: the part of the `syn` syntax tree the macro reads, and the items
  it emits.
- `Case`: the Pascal-case conversion used for the default name.
- `StructifyDerive`:
  - `IsDependencyType` and `GetStructNameIdent`;
  - `Expand`, the whole expansion as a function;
  - `CollectInputs` and `Structify`, the imperative pass of the source with
    its loop, proved equal to `Expand`.
- `StructifyProperties`: what the expansion promises. This covers how
  parameters are classified, how the struct is named, when expansion aborts,
  that the split into fields and dependencies loses and reorders nothing, and
  the layout of the emitted items.
- `Semantics`: a small evaluator for the generated code. Its main theorem:
  `Name::new(fields).execute(deps)` computes exactly what a direct call of
  the function computes. The direct call uses the same arguments, with every
  dependency converted through the caller's `Into`.
- `Scenarios`: the functions the crate's own tests annotate, with the
  expansions and results those tests expect, proved for every argument value.

Panics in the macro are modelled as `Err` values of `StructifyDerive.Error`.
This includes the panic of `syn::Ident::new` when the struct name it is given
is not an identifier. A bare `#[structify]` or an empty `#[structify()]`
uses the default name (crates/structify-derive/src/lib.rs, lines 22-23).

## Model

| member | source | states |
|---|---|---|
| StructifyDerive.IsDependencyType | crates/structify-derive/src/lib.rs:5-12 | `is_dependency_type`: a dependency type is a path type with at least one segment; references, tuples and other types never are. |
| StructifyProperties.DependencyByLastSegment | crates/structify-derive/src/lib.rs:5-12 | A path type is a dependency exactly when its last segment is named `Dep`, whatever precedes that segment. |
| StructifyDerive.GetIdent | crates/structify-derive/src/lib.rs:29 | `get_ident` succeeds only on a path that is one bare identifier, and gives back that identifier. |
| StructifyProperties.GetIdentOfIdentPath | crates/structify-derive/src/lib.rs:29 | `get_ident` of a one-identifier path is that identifier. |
| StructifyDerive.IsIdentifier | crates/structify-derive/src/lib.rs:23-31 | The check `Ident::new` makes before it builds the struct name: the string is non-empty, starts with a letter, `_` or a non-ASCII character, and continues with those or digits. |
| StructifyDerive.GetStructNameIdent | crates/structify-derive/src/lib.rs:14-35 | `get_struct_name_ident`: every name it gives is an identifier and comes from a list of at most one path. A default name also contains no `_`. |
| StructifyProperties.ExplicitNameUsedVerbatim | crates/structify-derive/src/lib.rs:28-31 | `#[structify(Name)]` names the struct `Name` when `Name` is an identifier. Otherwise it aborts with `InvalidIdent`, as for the raw spelling `r#type`. |
| StructifyProperties.ExplicitNameIgnoresFunctionName | crates/structify-derive/src/lib.rs:28-31 | With one path in the attribute, the function's name plays no part in the result. |
| StructifyProperties.DefaultNameIsPascalCase | crates/structify-derive/src/lib.rs:17-23 | A bare attribute names the struct by the Pascal case of the function's name. When that is not an identifier, `Ident::new` aborts the expansion with `InvalidIdent`. |
| StructifyProperties.DefaultNameOfLetterName | crates/structify-derive/src/lib.rs:17-23 | A function whose name is an identifier starting with an ASCII letter always gets its Pascal-case name as the default name. |
| StructifyProperties.StructNameFailures | crates/structify-derive/src/lib.rs:19-34 | Naming fails exactly when one of four things holds, each with its own error. The tokens are not a path list. There are two or more paths. The one path is not a bare identifier, or its identifier is refused by `Ident::new`. Or the attribute is empty and the default name is not an identifier. |
| Case.ToPascal | crates/structify-derive/src/lib.rs:17 | The Pascal-case name contains no `_`. |
| Case.SnakeToPascal | crates/structify-derive/src/lib.rs:17 | A snake-case name made of non-empty words becomes those words capitalised and run together. |
| StructifyDerive.Fields | crates/structify-derive/src/lib.rs:63-66 | The struct fields: no field has a dependency type, and there is at most one per parameter. |
| StructifyDerive.Bindings | crates/structify-derive/src/lib.rs:60-69 | The `let` statements of `execute`: at most one per parameter. |
| StructifyDerive.Inits | crates/structify-derive/src/lib.rs:70-72 | The initialisers of `Self { .. }`: one per field. |
| StructifyDerive.Emit | crates/structify-derive/src/lib.rs:88-107 | `quote!` emits three items: the function, the struct and its `impl`. The struct and the `impl` share the name, and `new` takes exactly the struct's fields. |
| StructifyDerive.Expand | crates/structify-derive/src/lib.rs:38-109 | The expansion as a function. A successful one emits three items, the first of which is the annotated function unchanged. |
| StructifyDerive.ReturnTy | crates/structify-derive/src/lib.rs:83-86 | The return type of `execute`: the function's declared return type, or `()` when it declares none. |
| StructifyDerive.DepArgs | crates/structify-derive/src/lib.rs:59 | Every argument `execute` gains from the parameters is a `pat: impl Into<ty>` argument. |
| StructifyDerive.CollectInputs | crates/structify-derive/src/lib.rs:43-79 | The loop reports a receiver exactly when the parameters contain one. Otherwise it returns the fields, their initialisers, `&self` followed by the dependency arguments, and one binding per parameter. Each list equals the function that defines it (`Fields`, `Inits`, `DepArgs`, `Bindings`). |
| StructifyDerive.Structify | crates/structify-derive/src/lib.rs:38-109 | The imperative macro body returns exactly `Expand`: the name error, the receiver error, or the three emitted items. |
| StructifyProperties.NameErrorComesFirst | crates/structify-derive/src/lib.rs:41-53 | A naming failure aborts the expansion with that failure, before any parameter is examined. |
| StructifyProperties.ReceiverAborts | crates/structify-derive/src/lib.rs:75-77 | Once the name resolves, a receiver at any position aborts the expansion with `ReceiverNotSupported`. |
| StructifyProperties.ExpandSucceedsIff | crates/structify-derive/src/lib.rs:38-79 | The expansion succeeds exactly when the name resolves and every parameter is `pat: ty`. |
| StructifyProperties.FieldsAreTheOrdinaryParameters | crates/structify-derive/src/lib.rs:63-66 | `pat: ty` is a struct field exactly when it is a parameter whose type is not a dependency. |
| StructifyProperties.DepArgsAreTheDependencies | crates/structify-derive/src/lib.rs:58-59 | `execute` takes `pat: impl Into<ty>` exactly when `pat: ty` is a dependency parameter. |
| StructifyProperties.FieldsAndDepsCount | crates/structify-derive/src/lib.rs:53-79 | Every parameter becomes either a field or a dependency argument, never both and never neither. |
| StructifyProperties.SplitPreservesOrder | crates/structify-derive/src/lib.rs:53-79 | Interleaving the fields and the dependency arguments by each parameter's class gives back the parameter list: nothing is lost or reordered. |
| StructifyProperties.OneBindingPerParameter | crates/structify-derive/src/lib.rs:60-69 | `execute` opens with one binding per parameter, in declaration order: `let p = p.into();` for a dependency and `let p = &self.p;` otherwise. |
| StructifyProperties.InitsNameTheFields | crates/structify-derive/src/lib.rs:70-72 | `Self { .. }` in `new` initialises each field from the parameter of the same name, in field order. |
| StructifyProperties.ExpansionLayout | crates/structify-derive/src/lib.rs:88-107 | The expansion emits the function marked `#[allow(unused)]`, the struct and its `impl` under the resolved name. `new` takes exactly the fields. `execute` takes `&self` then the dependencies, is `async` exactly when the function is, returns the declared type or `()`, and ends with the function's block. |
| Semantics.New | crates/structify-derive/src/lib.rs:97-101 | `Name::new` with the wrong number of arguments builds nothing. |
| Semantics.RunBindings | crates/structify-derive/src/lib.rs:103 | The `let` statements of `execute`, run in order. `let p = p.into();` converts the argument to its declared type, and `let p = &self.p;` reads the field. A missing name stops the run. Its scope is stated by `RunBindingsScope`. |
| Semantics.ExecuteEnv | crates/structify-derive/src/lib.rs:102-104 | `execute` runs only on a receiver `&self` followed by one argument for each dependency parameter. |
| Semantics.NewStoresFields | crates/structify-derive/src/lib.rs:97-100 | `new`, given the ordinary arguments in order, stores each under its parameter's name. |
| Semantics.ExecuteRunsBindings | crates/structify-derive/src/lib.rs:102-103 | `execute` binds its dependency parameters to its arguments, with their declared types as the targets of `into`, then runs its bindings. |
| Semantics.RunBindingsScope | crates/structify-derive/src/lib.rs:103 | The bindings of `execute` bind every parameter name and leave every other name in scope as it was. |
| Semantics.RunBindingsAt | crates/structify-derive/src/lib.rs:60-69 | After the bindings, each parameter name holds what a direct call receives for it: a dependency's argument converted by `into`, or the instance's field. |
| Semantics.BindingsBuildCallScope | crates/structify-derive/src/lib.rs:102-104 | The bindings build exactly the scope of a direct call in which every dependency argument is converted by `into`. |
| Semantics.GeneratedScopeIsCallScope | crates/structify-derive/src/lib.rs:96-105 | For any arguments, `new` with the ordinary ones and `execute` with the dependencies set up the same scope as a direct call with the same effective arguments. |
| Semantics.GeneratedResultIsCallResult | crates/structify-derive/src/lib.rs:88-107 | Hence `Name::new(..).execute(..)` returns what the function returns when called directly with the same effective arguments. |
| Scenarios.UnitScenario | crates/structify/src/lib.rs:41-47 | `fn unit() {}` becomes struct `Unit` with no fields. Its `execute` is not `async`, returns `()`, and gives `()`. |
| Scenarios.ArgsWithReturnLists | crates/structify/src/lib.rs:59-62 | `args_with_return` gets the fields `a: i32` and `b: i32`, and no dependency arguments. |
| Scenarios.ArgsWithReturnScenario | crates/structify/src/lib.rs:59-67 | `ArgsWithReturn::new(a, b).execute()` returns `a + b` for all `a` and `b`. |
| Scenarios.MixedArgsAndDepsLists | crates/structify/src/lib.rs:80-83 | `mixed_args_and_deps_with_return` gets the fields `a` and `b`, and the dependency arguments `dep` and `dep2`, in that order. |
| Scenarios.MixedArgsAndDepsScenario | crates/structify/src/lib.rs:80-89 | `MixedArgsAndDepsWithReturn::new(a, b).execute(d1, d2)` returns `d1 + d2 + a + b`; each plain value is wrapped into a `Dep`. |
| Scenarios.AsyncArgAndDepLists | crates/structify/src/lib.rs:119-122 | `async_arg_and_dep_with_return` gets the field `i` and the dependency argument `dep`. |
| Scenarios.AsyncArgAndDepScenario | crates/structify/src/lib.rs:119-128 | `AsyncArgAndDepWithReturn::new(i).execute(d)` is `async`, returns `i32`, and gives `d + i`. |
| Scenarios.ExplicitNameScenario | crates/structify/src/lib.rs:91-97 | `#[structify(NameIsB)] fn name_is_a() {}` generates a struct named `NameIsB`. |
| Scenarios.InvalidNameScenario | crates/structify-derive/src/lib.rs:17-31 | `fn __` and `fn _1` get the default names "" and "1", and `#[structify(r#type)]` gives the raw spelling. `Ident::new` refuses all three, so each expansion aborts with `InvalidIdent`. |
| Scenarios.TwoNamesScenario | crates/structify-derive/src/lib.rs:25-27 | An attribute with two names aborts with `ExpectedExactlyOne`. |
| Scenarios.ReceiverScenario | crates/structify-derive/src/lib.rs:75-77 | A function taking `&mut self` aborts with `ReceiverNotSupported`. |

## Left out

- Token parsing is not modelled. `parse_macro_input!` failing on something other than a function, `syn`'s parser, and `quote!` token printing are left out. The input is the parsed syntax tree, and the output is the list of items, not tokens.
- Case.ToPascal: word boundaries are `_` only, and each word's first ASCII letter is upper-cased. `convert_case` also splits at case changes and digits, and lower-cases the rest of each word. The two agree on lower-case ASCII snake names like the ones the tests use. They do not agree on names with upper-case letters, digits or non-ASCII letters; for example, `élan` stays `élan` here but `convert_case` gives `Élan`.
- Case.ToPascalIdempotent: idempotence holds only of the simplified conversion. `convert_case` lower-cases the rest of each word, so it maps `a_b` to `AB` and then `AB` to `Ab`; here both give `AB`.
- StructifyDerive.IsIdentifier: the identifier check of `Ident::new` is exact for ASCII characters. Every non-ASCII character is taken to be an identifier character, because the Unicode XID tables are not modelled.
- Spans (`Span::call_site`), `pub` visibility, and the `#[allow(unused)]` attribute are kept only as the shape of the items.
- Patterns are modelled as plain identifiers. A destructuring pattern such as `(a, b): (i32, i32)` is not modelled.
- Semantics.RunBindingsAt: `let p = &self.p;` binds the field's value, not a borrow; lifetimes and references are not modelled.
- Semantics.GeneratedScopeIsCallScope: requires distinct parameter names. An attribute macro runs before name resolution, so the macro does expand `fn f(a: i32, a: i32)`. The compiler then rejects the result: the kept function and `new` repeat a parameter name, and the struct repeats a field. Such an expansion never compiles, so its `new` and `execute` never run, and the theorem leaves out no program that runs.
- Rust type checking is not modelled. The `Into<T>` conversion is a parameter `into` of the semantic theorems, so the model does not check that the caller's type implements `Into`. The scenarios use `From<T> for Dep<T>` (crates/structify/src/lib.rs:31-35).
- `Dep` is modelled as a handle on a value. Its `Arc` sharing, `Dep::get`, and `From<Arc<T>>` are not modelled.
- The scenarios use unbounded integers, so `i32` overflow in the test functions is not modelled.
- Async is not modelled: an `async` function's `execute` is `async`, and `.await` gives its result. Futures and the runtime are left out.
- The semantics evaluate only the expression forms the test functions use: literals, variables, `*dep.inner()` and `+`.
- The tests `unit_with_return`, `arg_and_dep_with_return`, `async_unit_with_return` and `async_args_with_return` are not restated as scenarios. Their struct names (`UnitWithReturn`, …) and their expected values (such as 42 and 3) are not proved. `Semantics.GeneratedResultIsCallResult` covers their bodies only in general. For a function without a receiver, with distinct parameter names and a body in the four expression forms above, the generated `new` and `execute` give what a direct call gives.
