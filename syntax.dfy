/**
 * The syntax the `#[structify]` macro reads and writes, reduced to what the
 * expansion looks at: the parsed attribute arguments, the annotated function
 * and the four items it emits.
 */
module Syntax {
  import opened Wrappers

  /** A type as written in a parameter or a return position. */
  datatype Ty =
    | TypePath(qself: Option<Ty>, path: SynPath)  // `i32`, `Dep<i32>`, `crate::Dep<T>`, `<T as X>::Y`
    | Reference(mutable: bool, elem: Ty)          // `&T`, `&mut T`
    | Tuple(elems: seq<Ty>)                       // `()`, `(A, B)`
    | OtherTy(text: string)                       // slices, arrays, `impl Trait`, fn pointers, ...

  /** A path `a::b::C<..>`, possibly with a leading `::`. */
  datatype SynPath = SynPath(leadingColon: bool, segments: seq<PathSegment>)

  datatype PathSegment = PathSegment(ident: string, arguments: PathArguments)

  datatype PathArguments =
    | NoArguments                                   // `Dep`
    | AngleBracketed(args: seq<Ty>)                 // `Dep<i32>`
    | Parenthesized(inputs: seq<Ty>, output: Option<Ty>)  // `Fn(A) -> B`

  /** The unit type `()`. */
  const UnitTy: Ty := Tuple([])

  /** A function parameter: `pat: ty`, or a receiver `self`, `&self`, `&mut self`. */
  datatype FnArg = Typed(pat: string, ty: Ty) | Receiver(reference: bool, mutable: bool)

  /** A declared return type, or none (`Default`). */
  datatype ReturnType = Default | Type(ty: Ty)

  datatype Signature = Signature(asyncness: bool, ident: string, inputs: seq<FnArg>, output: ReturnType)

  /** The expressions that function bodies are written in here. */
  datatype Expr =
    | IntLit(n: int)               // `42`
    | UnitLit                      // `()`, the value of an empty block
    | Var(name: string)            // a parameter or a `let` binding
    | DepInner(operand: Expr)      // `*e.inner()`, the value a `Dep` holds
    | Add(left: Expr, right: Expr) // `l + r`

  /** A function body; `{}` is `Block(UnitLit)`. */
  datatype Block = Block(tail: Expr)

  datatype ItemFn = ItemFn(sig: Signature, block: Block)

  /** The attribute's tokens after parsing as comma-separated paths, or the failure to parse them. */
  datatype AttrArgs = Paths(args: seq<SynPath>) | NotPaths

  /** `pat: ty`, a struct field and a parameter of `new`. */
  datatype Field = Field(pat: string, ty: Ty)

  /** `pat: pat`, a field initialiser in `Self { .. }`. */
  datatype FieldInit = FieldInit(pat: string)

  /** A parameter of `execute`: `&self`, or `pat: impl Into<ty>`. */
  datatype ExecuteArg = SelfRef | ImplInto(pat: string, ty: Ty)

  /** A statement at the top of `execute`: `let pat = pat.into();` or `let pat = &self.pat;`. */
  datatype Binding = LetInto(pat: string) | LetSelfField(pat: string)

  /** `pub fn new(params) -> Self { Self { inits } }` */
  datatype NewFn = NewFn(params: seq<Field>, inits: seq<FieldInit>)

  /** `pub [async] fn execute(args) -> ret { bindings block }` */
  datatype ExecuteFn = ExecuteFn(asyncness: bool, args: seq<ExecuteArg>, ret: Ty, bindings: seq<Binding>, block: Block)

  /** One item of the macro's output. */
  datatype Item =
    | AllowUnused(f: ItemFn)                               // `#[allow(unused)]` and the function itself
    | Struct(name: string, fields: seq<Field>)             // `pub struct Name { fields }`
    | Impl(name: string, newFn: NewFn, execute: ExecuteFn) // `impl Name { new, execute }`
}
