/*
 * The slice of the typed high-level IR that the static-borrow-constants pass
 * reads and writes: types, paths, expression trees with their owning state,
 * items, modules and the crate, plus the resolver and evaluator the pass
 * consults (given as values whose behaviour is a parameter of the model).
 */
module Hir {
  import opened Wrappers

  type Ident = string

  /** A crate-relative path such as `a::b::c`, one component per element. */
  type SimplePath = seq<Ident>

  /** Modules are identified by their path from the crate root. */
  type ModPath = SimplePath

  datatype GenericParams = GenericParams(typeParams: seq<Ident>, valueParams: seq<Ident>)

  /** A path as written in an expression, with its generic arguments. */
  datatype Path = Path(components: SimplePath, args: seq<TypeRef>)

  datatype BorrowType = Shared | Unique | Owned

  datatype TypeRef =
    | TPrimitive(name: Ident)
    | TGeneric(name: Ident)
    | TPath(path: Path)
    | TTuple(elems: seq<TypeRef>)
    | TArray(inner: TypeRef, size: ArraySize)
    | TSlice(inner: TypeRef)
    | TBorrow(bt: BorrowType, inner: TypeRef)

  datatype ArraySize = Known(count: nat) | Unevaluated(cg: ConstGeneric)

  datatype ConstGeneric =
    | CgInfer
    | CgParam(name: Ident)
    | CgUnevaluated(expr: ExprRoot)
    | CgEvaluated(value: EncodedLiteral)

  /** The evaluator's encoded form of a constant value (its contents are opaque here). */
  datatype EncodedLiteral = EncodedLiteral(bytes: seq<nat>)

  datatype Stage = Created | TypecheckRequest | Typecheck | Expand | Mir

  /** The lexical context carried by the root of every expression tree. */
  datatype ExprState = ExprState(
    modulePath: SimplePath,
    itemPath: SimplePath,
    traits: seq<Path>,
    implGenerics: Option<GenericParams>,
    itemGenerics: Option<GenericParams>,
    stage: Stage)

  datatype LiteralValue = Integer(i: int) | Boolean(b: bool) | Str(s: string)

  /** What a `PathValue` node names. */
  datatype PathTarget = UnknownTarget | FunctionTarget | StaticTarget | ConstantTarget | EnumConstructor | StructConstructor

  /** The node kinds whose constancy is the conjunction of their children's. */
  datatype CompositeKind =
    | Tuple
    | TupleVariant(variant: Path)
    | ArrayList
    | ArraySized(count: nat)
    | StructLiteral(structPath: Path, fieldNames: seq<Ident>)
    | Field(fieldName: Ident)
    | Cast

  /**
   * An expression node together with its resolved type. `Opaque` stands for
   * every node kind the pass has no rule for; its children are still walked.
   */
  datatype Expr =
    | Literal(ty: TypeRef, lit: LiteralValue)
    | UnitVariant(ty: TypeRef, path: Path)
    | PathValue(ty: TypeRef, path: Path, target: PathTarget)
    | Composite(ty: TypeRef, kind: CompositeKind, children: seq<Expr>)
    | Unsize(ty: TypeRef, value: Expr)
    | Borrow(ty: TypeRef, bt: BorrowType, value: Expr)
    | Opaque(ty: TypeRef, tag: string, children: seq<Expr>)

  /** An owned expression tree with its state (an `ExprPtr`). */
  datatype ExprRoot = ExprRoot(node: Expr, state: ExprState)

  datatype Linkage = Linkage(name: string)

  const DefaultLinkage: Linkage := Linkage("")

  datatype Static = Static(
    linkage: Linkage,
    isMut: bool,
    ty: TypeRef,
    value: Option<ExprRoot>,
    valueRes: Option<EncodedLiteral>,
    valueGenerated: bool)

  datatype Constant = Constant(params: GenericParams, ty: TypeRef, value: Option<ExprRoot>)

  datatype Function = Function(params: GenericParams, args: seq<TypeRef>, ret: TypeRef, code: Option<ExprRoot>)

  datatype Publicity = PubGlobal | PubRestricted(scope: SimplePath) | PubNone

  datatype ValueItem =
    | FunctionItem(fn: Function)
    | StaticItem(st: Static)
    | ConstantItem(cst: Constant)
    | OtherValue(tag: string)

  datatype VisEnt = VisEnt(publicity: Publicity, ent: ValueItem)

  datatype Named<T> = Named(name: Ident, item: T)

  datatype EnumVariant = EnumVariant(name: Ident, expr: Option<ExprRoot>)

  datatype EnumData = ValueVariants(variants: seq<EnumVariant>) | DataVariants(names: seq<Ident>)

  datatype Enum = Enum(params: GenericParams, data: EnumData)

  datatype TypeItem =
    | ModuleItem(sub: Module)
    | EnumItem(enumDef: Enum)
    | StructItem(params: GenericParams, fields: seq<TypeRef>)
    | TypeAlias(params: GenericParams, aliased: TypeRef)
    | TraitItem(params: GenericParams, methods: seq<Named<Function>>)

  /** A module: its value namespace and its type namespace (which holds submodules). */
  datatype Module = Module(valueItems: seq<Named<VisEnt>>, modItems: seq<Named<TypeItem>>)

  datatype TypeImpl = TypeImpl(
    params: GenericParams,
    selfTy: TypeRef,
    srcModule: ModPath,
    methods: seq<Named<Function>>,
    constants: seq<Named<Constant>>)

  datatype TraitImpl = TraitImpl(
    params: GenericParams,
    traitPath: SimplePath,
    selfTy: TypeRef,
    srcModule: ModPath,
    methods: seq<Named<Function>>,
    constants: seq<Named<Constant>>,
    statics: seq<Named<Static>>,
    types: seq<Named<TypeRef>>)

  datatype Crate = Crate(root: Module, typeImpls: seq<TypeImpl>, traitImpls: seq<TraitImpl>)

  /** A static created by the pass, waiting to be added to its module. */
  datatype PendingStatic = PendingStatic(path: SimplePath, item: Static)

  // ---- Collaborators ----

  datatype Compare = Equal | Fuzzy | Unequal

  /** What the resolver finds behind a value path. */
  datatype ValueKind = NotFound | ConstantValue | StaticValue | FunctionValue | ImportValue | StructConstructorValue

  /** The generic parameters the resolver currently has in scope. */
  datatype Scope = Scope(implGenerics: Option<GenericParams>, itemGenerics: Option<GenericParams>)

  const EmptyScope: Scope := Scope(None, None)

  /**
   * The type-fact queries the pass asks. Their behaviour lives outside this
   * file, so the model takes them as arbitrary functions.
   */
  datatype Resolver = Resolver(
    typeNeedsMonomorph: TypeRef -> bool,
    pathNeedsMonomorph: Path -> bool,
    interiorMutable: (Scope, TypeRef) -> Compare,
    getValue: (Scope, Path) -> ValueKind)

  /** What the constant evaluator does with one initializer. */
  datatype EvalOutcome = Evaluated(value: EncodedLiteral) | RequestedNewStatic

  type Evaluator = (SimplePath, Option<ExprRoot>, TypeRef) -> EvalOutcome

  /** Internal errors that abort the whole pass. */
  datatype Bug = NoCurrentModule | NewStaticDuringCommit | UnknownModule(path: ModPath)
}
