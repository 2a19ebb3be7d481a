/*
 * The meaning of one classifier run over an expression tree, as functions:
 * whether each node counts as constant, which borrows are promoted, what the
 * rewritten tree is and which statics are requested, in request order.
 *
 * Visiting a node through `visit_node_ptr` turns the ambient all-constant flag
 * `f` into `f && Lift(e, ...).isConst`, and the rewrite it performs does not
 * depend on `f` (a borrow judges its operand with a fresh flag); so one
 * function of the node describes every visit of it.
 */
module Classification {
  import opened Wrappers
  import opened Hir
  import opened Names

  /**
   * What a classifier run depends on besides the tree: the resolver with the
   * generics it has in scope, the state of the root expression being walked,
   * and the module that receives new statics (None when no module is current).
   */
  datatype Env = Env(resolver: Resolver, scope: Scope, state: ExprState, current: Option<ModPath>)

  function TargetModule(env: Env): ModPath {
    if env.current.Some? then env.current.value else []
  }

  /** The path of the static with index `idx` in the current module's list. */
  function LiftedPath(env: Env, idx: nat): SimplePath {
    TargetModule(env) + [LiftedName(idx)]
  }

  /**
   * The state given to a lifted initializer: module, module path, traits and
   * both generic sets of the enclosing root, with the stage reset to Typecheck.
   */
  function FreshState(s: ExprState): ExprState {
    ExprState(s.modulePath, s.itemPath, s.traits, s.implGenerics, s.itemGenerics, Typecheck)
  }

  /** A new static as the registry builds it: default linkage, not mutable, not yet evaluated. */
  function NewStaticItem(ty: TypeRef, value: ExprRoot): Static {
    Static(DefaultLinkage, false, ty, Some(value), None, false)
  }

  /** A value path is constant when it names a constant or a function and is not still generic. */
  predicate PathIsConstant(env: Env, p: Path) {
    var v := env.resolver.getValue(env.scope, p);
    (v == ConstantValue || v == FunctionValue) && !env.resolver.pathNeedsMonomorph(p)
  }

  /** The borrowed value, looking through at most one `Unsize` wrapper. */
  function BorrowTarget(v: Expr): Expr {
    if v.Unsize? then v.value else v
  }

  /** Puts `n` where `BorrowTarget(v)` was, keeping an `Unsize` wrapper in place. */
  function ReplaceTarget(v: Expr, n: Expr): Expr {
    if v.Unsize? then Unsize(v.ty, n) else n
  }

  /** The three gates, in the order they are tried: not generic, shared, not interior-mutable. */
  predicate PassesGates(env: Env, bt: BorrowType, ty: TypeRef) {
    && !env.resolver.typeNeedsMonomorph(ty)
    && bt == Shared
    && env.resolver.interiorMutable(env.scope, ty) == Unequal
  }

  /** The reference node that replaces a promoted value. */
  function StaticRef(ty: TypeRef, path: SimplePath): Expr {
    PathValue(ty, Path(path, []), StaticTarget)
  }

  datatype Lifting = Lifting(expr: Expr, isConst: bool, lifted: seq<PendingStatic>)

  datatype Liftings = Liftings(exprs: seq<Expr>, allConst: bool, lifted: seq<PendingStatic>)

  /**
   * Classifies and rewrites `e`, numbering the statics it requests from `base`.
   * `isConst` is what the node contributes to its parent's all-constant flag.
   */
  function Lift(e: Expr, env: Env, base: nat): (r: Lifting)
    ensures r.expr.ty == e.ty
    ensures r.expr.Unsize? == e.Unsize?
    ensures e.Unsize? ==> r.expr.value.ty == e.value.ty && r.expr.value.Unsize? == e.value.Unsize?
    decreases e
  {
    match e
    case Literal(_, _) => Lifting(e, true, [])
    case UnitVariant(_, _) => Lifting(e, true, [])
    case PathValue(_, p, _) => Lifting(e, PathIsConstant(env, p), [])
    case Composite(ty, kind, cs) =>
      var rs := LiftAll(cs, env, base);
      Lifting(Composite(ty, kind, rs.exprs), rs.allConst, rs.lifted)
    case Unsize(ty, v) =>
      var rv := Lift(v, env, base);
      Lifting(Unsize(ty, rv.expr), rv.isConst, rv.lifted)
    case Opaque(ty, tag, cs) =>
      var rs := LiftAll(cs, env, base);
      Lifting(Opaque(ty, tag, rs.exprs), false, rs.lifted)
    case Borrow(ty, bt, v) =>
      var rv := Lift(v, env, base);
      var target := BorrowTarget(rv.expr);
      if rv.isConst && PassesGates(env, bt, target.ty) then
        var path := LiftedPath(env, base + |rv.lifted|);
        var st := PendingStatic(path, NewStaticItem(target.ty, ExprRoot(target, FreshState(env.state))));
        Lifting(Borrow(ty, bt, ReplaceTarget(rv.expr, StaticRef(target.ty, path))), true, rv.lifted + [st])
      else
        Lifting(Borrow(ty, bt, rv.expr), false, rv.lifted)
  }

  /** Classifies the children `cs` in order; `allConst` is whether every one was constant. */
  function LiftAll(cs: seq<Expr>, env: Env, base: nat): (r: Liftings)
    ensures |r.exprs| == |cs|
    decreases cs
  {
    if cs == [] then Liftings([], true, [])
    else
      var init := LiftAll(cs[..|cs| - 1], env, base);
      var last := Lift(cs[|cs| - 1], env, base + |init.lifted|);
      Liftings(init.exprs + [last.expr], init.allConst && last.isConst, init.lifted + last.lifted)
  }

  /** One more child: how the run over `cs[..i + 1]` extends the run over `cs[..i]`. */
  lemma {:induction false} LiftAllStep(cs: seq<Expr>, i: nat, env: Env, base: nat)
    requires i < |cs|
    ensures var init := LiftAll(cs[..i], env, base);
            var last := Lift(cs[i], env, base + |init.lifted|);
            LiftAll(cs[..i + 1], env, base)
              == Liftings(init.exprs + [last.expr], init.allConst && last.isConst, init.lifted + last.lifted)
  {
    assert cs[..i + 1][..i] == cs[..i];
  }

  /** Classifying `xs + [x]` classifies `xs`, then `x` numbered after the statics `xs` requested. */
  lemma {:induction false} LiftAllSnoc(xs: seq<Expr>, x: Expr, env: Env, base: nat)
    ensures var init := LiftAll(xs, env, base);
            var last := Lift(x, env, base + |init.lifted|);
            LiftAll(xs + [x], env, base)
              == Liftings(init.exprs + [last.expr], init.allConst && last.isConst, init.lifted + last.lifted)
  {
    var cs := xs + [x];
    assert cs[..|cs| - 1] == xs;
  }
}
