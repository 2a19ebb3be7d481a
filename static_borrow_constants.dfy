/*
 * The pass itself, in the imperative form of mrustc's pass: a classifier
 * object per expression tree whose two flags are updated node by node, and a
 * crate visitor that tracks the current module and the resolver's generics,
 * stages new statics per module and commits them once the walk is over.
 *
 * Trees are values here: where mrustc overwrites a slot in place, the
 * methods return the rewritten subtree and the caller stores it in the slot.
 */
module StaticBorrowConstants {
  import opened Wrappers
  import opened Hir
  import opened Names
  import opened Classification
  import opened PromotionProperties
  import opened Registry
  import opened Walk

  /** Classifies one expression tree and promotes its eligible borrows. */
  class ExprVisitorMutate {
    /** Where new statics are requested (the crate visitor behind the callback). */
    const outer: OuterVisitor
    const resolver: Resolver
    /** The generics the resolver has in scope during this run. */
    const scope: Scope
    /** The state of the root expression being walked. */
    const rootState: ExprState

    var isConstant: bool
    var allConstant: bool

    constructor (outer: OuterVisitor, rootState: ExprState)
      ensures this.outer == outer && this.rootState == rootState
      ensures resolver == outer.resolver && scope == outer.scope
      ensures !isConstant && !allConstant
    {
      this.outer := outer;
      this.resolver := outer.resolver;
      this.scope := outer.scope;
      this.rootState := rootState;
      isConstant := false;
      allConstant := false;
    }

    ghost function Env(): Env
      reads outer`currentModule
    {
      Classification.Env(resolver, scope, rootState, outer.currentModule)
    }

    ghost function Base(ns: PendingMap): nat
      reads outer`currentModule
    {
      NextIndex(ns, outer.currentModule)
    }

    /** `e` was rewritten to `e2` and its statics appended to the registry, which held `ns0`. */
    ghost predicate Rewrote(e: Expr, e2: Expr, ns0: PendingMap)
      reads outer`currentModule, outer`newStatics
    {
      Rewritten(e, e2, Env(), ns0, outer.newStatics)
    }

    ghost predicate RewroteAll(cs: seq<Expr>, cs2: seq<Expr>, ns0: PendingMap)
      reads outer`currentModule, outer`newStatics
    {
      RewrittenAll(cs, cs2, Env(), ns0, outer.newStatics)
    }

    /** Visits the root of an expression tree (no flag bookkeeping around it). */
    method VisitRoot(e: Expr) returns (e2: Expr, out: Outcome<Bug>)
      requires outer.Valid() && !isConstant
      modifies this, outer`newStatics
      ensures outer.Valid()
      ensures out.Fail? ==> outer.currentModule.None? && out.error == NoCurrentModule
      ensures out.Pass? ==> Rewrote(e, e2, old(outer.newStatics))
    {
      e2, out := Visit(e);
    }

    /**
     * Visits a child slot: the node reports through `isConstant`, and a
     * non-constant node clears `allConstant`; `isConstant` is false afterwards.
     */
    method VisitNodePtr(e: Expr) returns (e2: Expr, out: Outcome<Bug>)
      requires outer.Valid()
      modifies this, outer`newStatics
      ensures outer.Valid()
      ensures out.Fail? ==> outer.currentModule.None? && out.error == NoCurrentModule
      ensures out.Pass? ==> Rewrote(e, e2, old(outer.newStatics))
      ensures out.Pass? ==>
                (!isConstant && allConstant == (old(allConstant) && Lift(e, Env(), Base(old(outer.newStatics))).isConst))
      decreases e, 2
    {
      isConstant := false;
      e2, out := Visit(e);
      if out.Fail? {
        return;
      }
      if !isConstant {
        allConstant := false;
      }
      isConstant := false;
    }

    /** Dispatches on the node kind; a kind without a rule only has its children walked. */
    method Visit(e: Expr) returns (e2: Expr, out: Outcome<Bug>)
      requires outer.Valid() && !isConstant
      modifies this, outer`newStatics
      ensures outer.Valid()
      ensures out.Fail? ==> outer.currentModule.None? && out.error == NoCurrentModule
      ensures out.Pass? ==> Rewrote(e, e2, old(outer.newStatics))
      ensures out.Pass? ==> (allConstant && isConstant) == (old(allConstant) && Lift(e, Env(), Base(old(outer.newStatics))).isConst)
      decreases e, 1
    {
      match e
      case Literal(_, _) => e2, out := VisitLiteral(e);
      case UnitVariant(_, _) => e2, out := VisitUnitVariant(e);
      case PathValue(_, _, _) => e2, out := VisitPathValue(e);
      case Composite(_, _, _) => e2, out := VisitComposite(e);
      case Unsize(_, _) => e2, out := VisitUnsize(e);
      case Borrow(_, _, _) => e2, out := VisitBorrow(e);
      case Opaque(_, _, _) => e2, out := VisitOpaque(e);
    }

    /** A literal is always constant. */
    method VisitLiteral(e: Expr) returns (e2: Expr, out: Outcome<Bug>)
      requires e.Literal?
      modifies this
      ensures out.Pass? && e2 == e
      ensures isConstant && allConstant == old(allConstant)
    {
      isConstant := true;
      e2, out := e, Pass;
    }

    /** A unit enum variant is always constant. */
    method VisitUnitVariant(e: Expr) returns (e2: Expr, out: Outcome<Bug>)
      requires e.UnitVariant?
      modifies this
      ensures out.Pass? && e2 == e
      ensures isConstant && allConstant == old(allConstant)
    {
      isConstant := true;
      e2, out := e, Pass;
    }

    /** A path is constant when it names a constant or a function and is not still generic. */
    method VisitPathValue(e: Expr) returns (e2: Expr, out: Outcome<Bug>)
      requires e.PathValue? && !isConstant
      modifies this
      ensures out.Pass? && e2 == e
      ensures isConstant == PathIsConstant(Env(), e.path) && allConstant == old(allConstant)
    {
      var v := resolver.getValue(scope, e.path);
      match v {
        case ConstantValue =>
          if !resolver.pathNeedsMonomorph(e.path) {
            isConstant := true;
          }
        case FunctionValue =>
          if !resolver.pathNeedsMonomorph(e.path) {
            isConstant := true;
          }
        case _ =>
      }
      e2, out := e, Pass;
    }

    /**
     * Tuples, tuple variants, array lists, sized arrays, struct literals,
     * fields and casts report the all-constant flag as it stands after their
     * children were visited.
     */
    method VisitComposite(e: Expr) returns (e2: Expr, out: Outcome<Bug>)
      requires e.Composite? && outer.Valid() && !isConstant
      modifies this, outer`newStatics
      ensures outer.Valid()
      ensures out.Fail? ==> outer.currentModule.None? && out.error == NoCurrentModule
      ensures out.Pass? ==> Rewrote(e, e2, old(outer.newStatics))
      ensures out.Pass? ==> isConstant == allConstant == (old(allConstant) && Lift(e, Env(), Base(old(outer.newStatics))).isConst)
      decreases e, 0
    {
      var cs, o := VisitChildren(e.children);
      if o.Fail? {
        return e, o;
      }
      isConstant := allConstant;
      e2, out := Composite(e.ty, e.kind, cs), Pass;
    }

    /** An unsizing coercion reports the flag as it stands after its operand. */
    method VisitUnsize(e: Expr) returns (e2: Expr, out: Outcome<Bug>)
      requires e.Unsize? && outer.Valid() && !isConstant
      modifies this, outer`newStatics
      ensures outer.Valid()
      ensures out.Fail? ==> outer.currentModule.None? && out.error == NoCurrentModule
      ensures out.Pass? ==> Rewrote(e, e2, old(outer.newStatics))
      ensures out.Pass? ==> isConstant == allConstant == (old(allConstant) && Lift(e, Env(), Base(old(outer.newStatics))).isConst)
      decreases e, 0
    {
      var v, o := VisitNodePtr(e.value);
      if o.Fail? {
        return e, o;
      }
      isConstant := allConstant;
      e2, out := Unsize(e.ty, v), Pass;
    }

    /** Any other node kind: its children are walked and it is never constant. */
    method VisitOpaque(e: Expr) returns (e2: Expr, out: Outcome<Bug>)
      requires e.Opaque? && outer.Valid() && !isConstant
      modifies this, outer`newStatics
      ensures outer.Valid()
      ensures out.Fail? ==> outer.currentModule.None? && out.error == NoCurrentModule
      ensures out.Pass? ==> Rewrote(e, e2, old(outer.newStatics))
      ensures out.Pass? ==>
                (!isConstant && allConstant == (old(allConstant) && LiftAll(e.children, Env(), Base(old(outer.newStatics))).allConst))
      decreases e, 0
    {
      var cs, o := VisitChildren(e.children);
      if o.Fail? {
        return e, o;
      }
      e2, out := Opaque(e.ty, e.tag, cs), Pass;
    }

    /**
     * Judges the operand with a fresh all-constant flag, then restores the
     * enclosing one. When the operand was constant and the borrowed value
     * (under at most one `Unsize`) is not generic, the borrow is shared and the
     * type is definitely not interior mutable, the value is moved into a new
     * static and its slot now refers to that static.
     */
    method VisitBorrow(e: Expr) returns (e2: Expr, out: Outcome<Bug>)
      requires e.Borrow? && outer.Valid()
      modifies this, outer`newStatics
      ensures outer.Valid()
      ensures out.Fail? ==> outer.currentModule.None? && out.error == NoCurrentModule
      ensures out.Pass? ==> Rewrote(e, e2, old(outer.newStatics))
      ensures out.Pass? ==> isConstant == Lift(e, Env(), Base(old(outer.newStatics))).isConst
      ensures out.Pass? ==> allConstant == old(allConstant)
      decreases e, 0
    {
      ghost var ns0 := outer.newStatics;
      ghost var env := Env();
      var saved := allConstant;
      allConstant := true;
      var v, o := VisitNodePtr(e.value);
      if o.Fail? {
        return e, o;
      }
      ghost var ns1 := outer.newStatics;
      ghost var v1 := v;
      ghost var promoted := false;
      if allConstant {
        var target := if v.Unsize? then v.value else v;
        if resolver.typeNeedsMonomorph(target.ty) {
          // still generic: interior mutability cannot be decided
        } else if e.bt != Shared {
          // a unique or owned borrow is never promoted
        } else if resolver.interiorMutable(scope, target.ty) != Unequal {
          // could be interior mutable
        } else {
          var state := ExprState(rootState.modulePath, rootState.itemPath, [], None, None, Created);
          state := state.(traits := rootState.traits);
          state := state.(implGenerics := rootState.implGenerics);
          state := state.(itemGenerics := rootState.itemGenerics);
          state := state.(stage := Typecheck);
          var valExpr := ExprRoot(target, state);
          var ty := target.ty;
          var path := outer.NewStatic(ty, valExpr);
          if path.Failure? {
            return e, Fail(path.error);
          }
          var newNode := PathValue(ty, Path(path.value, []), StaticTarget);
          v := if v.Unsize? then Unsize(v.ty, newNode) else newNode;
          isConstant := true;
          assert state == FreshState(rootState);
          BorrowPromoted(e.ty, e.bt, e.value, v1, env, ns0, ns1, outer.newStatics);
          promoted := true;
        }
      }
      if !promoted {
        BorrowKept(e.ty, e.bt, e.value, v1, env, ns0, ns1);
      }
      allConstant := saved;
      e2, out := Borrow(e.ty, e.bt, v), Pass;
    }

    /** Visits the children in order, each through `VisitNodePtr`. */
    method VisitChildren(cs: seq<Expr>) returns (cs2: seq<Expr>, out: Outcome<Bug>)
      requires outer.Valid() && !isConstant
      modifies this, outer`newStatics
      ensures outer.Valid()
      ensures out.Fail? ==> outer.currentModule.None? && out.error == NoCurrentModule
      ensures out.Pass? ==> RewroteAll(cs, cs2, old(outer.newStatics))
      ensures out.Pass? ==>
                (!isConstant && allConstant == (old(allConstant) && LiftAll(cs, Env(), Base(old(outer.newStatics))).allConst))
      decreases cs
    {
      ghost var ns0 := outer.newStatics;
      ghost var f0 := allConstant;
      ghost var env := Env();
      ghost var base := Base(ns0);
      cs2 := [];
      var i := 0;
      assert cs[..0] == [];
      while i < |cs|
        invariant 0 <= i <= |cs|
        invariant outer.Valid() && !isConstant && Env() == env
        invariant RewrittenAll(cs[..i], cs2, env, ns0, outer.newStatics)
        invariant allConstant == (f0 && LiftAll(cs[..i], env, base).allConst)
      {
        ghost var ns := outer.newStatics;
        ghost var flag := allConstant;
        var c, o := VisitNodePtr(cs[i]);
        if o.Fail? {
          return cs2, o;
        }
        ChildStep(cs, i, env, ns0, cs2, ns, c, outer.newStatics);
        cs2 := cs2 + [c];
        i := i + 1;
      }
      assert cs[..|cs|] == cs;
      out := Pass;
    }
  }

  class OuterVisitor {
    /** The crate as given to the pass, where impl source modules are looked up. */
    const crate: Crate
    const resolver: Resolver
    /** The generics the resolver has in scope. */
    var scope: Scope
    /** The module new statics go to; None outside any module. */
    var currentModule: Option<ModPath>
    /** Statics created so far, per module, in creation order. */
    var newStatics: PendingMap

    /**
     * Every pending list is canonical, and statics are only ever staged for
     * modules of the crate: each key of the registry, and the current module
     * when there is one, names a module of `crate`.
     */
    ghost predicate Valid()
      reads this
    {
      && AllCanonical(newStatics)
      && (forall m | m in newStatics :: ModuleAt(crate.root, m).Some?)
      && (currentModule.Some? ==> ModuleAt(crate.root, currentModule.value).Some?)
    }

    constructor (crate: Crate, resolver: Resolver)
      ensures Valid()
      ensures this.crate == crate && this.resolver == resolver
      ensures scope == EmptyScope && currentModule.None? && newStatics == map[]
    {
      this.crate := crate;
      this.resolver := resolver;
      scope := EmptyScope;
      currentModule := None;
      newStatics := map[];
    }

    /**
     * Creates a static in the current module, named after the length of that
     * module's list, and returns its path; without a current module this is a
     * fatal error.
     */
    method NewStatic(ty: TypeRef, value: ExprRoot) returns (r: Result<SimplePath, Bug>)
      requires Valid()
      modifies this`newStatics
      ensures Valid()
      ensures currentModule.None? ==> r == Failure(NoCurrentModule) && newStatics == old(newStatics)
      ensures currentModule.Some? ==>
                var m := currentModule.value;
                var list := PendingIn(old(newStatics), m);
                && r == Success(m + [LiftedName(|list|)])
                && newStatics == old(newStatics)[m := list + [PendingStatic(r.value, NewStaticItem(ty, value))]]
    {
      if currentModule.None? {
        return Failure(NoCurrentModule);
      }
      var m := currentModule.value;
      var list := if m in newStatics then newStatics[m] else [];
      var idx := |list|;
      var name := LiftedName(idx);
      var path := m + [name];
      var newStatic := Static(DefaultLinkage, false, ty, Some(value), None, false);
      StageOne(crate.root, newStatics, m, PendingStatic(path, newStatic));
      newStatics := newStatics[m := list + [PendingStatic(path, newStatic)]];
      r := Success(path);
    }

    /** The registry held `ns0` and only grew since, inside the current module (not at all without one). */
    ghost predicate Grew(ns0: PendingMap)
      reads this`currentModule, this`newStatics
    {
      GrewIn(ns0, newStatics, currentModule)
    }

    /**
     * One classifier run on `root` with `sc` in scope, starting from the
     * registry `ns0`, produced `root2` and the current registry.
     */
    ghost predicate RanOn(root: ExprRoot, root2: ExprRoot, sc: Scope, ns0: PendingMap)
      reads this`currentModule, this`newStatics
    {
      var r := Lift(root.node, Classification.Env(resolver, sc, root.state, currentModule), NextIndex(ns0, currentModule));
      && (currentModule.Some? || r.lifted == [])
      && root2 == ExprRoot(r.expr, root.state)
      && newStatics == Record(ns0, currentModule, r.lifted)
    }

    /** Runs a fresh classifier over one root expression, with new statics going to this visitor. */
    method RunClassifier(root: ExprRoot) returns (root2: ExprRoot, out: Outcome<Bug>)
      requires Valid()
      modifies this`newStatics
      ensures Valid()
      ensures out.Fail? ==> currentModule.None? && out.error == NoCurrentModule
      ensures out.Pass? ==> RanOn(root, root2, scope, old(newStatics)) && Grew(old(newStatics))
    {
      var ev := new ExprVisitorMutate(this, root.state);
      var node, o := ev.VisitRoot(root.node);
      if o.Fail? {
        return root, o;
      }
      root2, out := ExprRoot(node, root.state), Pass;
      RecordGrows(old(newStatics), currentModule,
        Lift(root.node, Classification.Env(resolver, scope, root.state, currentModule), NextIndex(old(newStatics), currentModule)).lifted);
    }

    /** A function's body is classified with the function's own generics in scope. */
    method VisitFunction(f: Function) returns (f2: Function, out: Outcome<Bug>)
      requires Valid()
      modifies this`scope, this`newStatics
      ensures Valid() && scope == old(scope)
      ensures out.Fail? ==> currentModule.None? && out.error == NoCurrentModule
      ensures out.Pass? ==> Grew(old(newStatics)) && SameSignature(f, f2)
      ensures out.Pass? && f.code.None? ==> f2 == f && newStatics == old(newStatics)
      ensures out.Pass? && f.code.Some? ==>
                RanOn(f.code.value, f2.code.value, old(scope).(itemGenerics := Some(f.params)), old(newStatics))
      ensures out.Pass? ==> Run(f2, newStatics) == RunFunction(resolver, scope, currentModule, f, old(newStatics))
    {
      if f.code.None? {
        return f, Pass;
      }
      var saved := scope;
      scope := scope.(itemGenerics := Some(f.params));
      var code, o := RunClassifier(f.code.value);
      scope := saved;
      if o.Fail? {
        return f, o;
      }
      f2, out := f.(code := Some(code)), Pass;
    }

    /** A static's initializer is classified; its type is not visited. */
    method VisitStatic(st: Static) returns (st2: Static, out: Outcome<Bug>)
      requires Valid()
      modifies this`newStatics
      ensures Valid()
      ensures out.Fail? ==> currentModule.None? && out.error == NoCurrentModule
      ensures out.Pass? ==> Grew(old(newStatics)) && st2 == st.(value := st2.value) && st2.value.Some? == st.value.Some?
      ensures out.Pass? && st.value.None? ==> st2 == st && newStatics == old(newStatics)
      ensures out.Pass? && st.value.Some? ==> RanOn(st.value.value, st2.value.value, scope, old(newStatics))
      ensures out.Pass? ==> Run(st2, newStatics) == RunStatic(resolver, scope, currentModule, st, old(newStatics))
    {
      if st.value.None? {
        return st, Pass;
      }
      var v, o := RunClassifier(st.value.value);
      if o.Fail? {
        return st, o;
      }
      st2, out := st.(value := Some(v)), Pass;
    }

    /** A constant's value is classified; its type is not visited. */
    method VisitConstant(c: Constant) returns (c2: Constant, out: Outcome<Bug>)
      requires Valid()
      modifies this`newStatics
      ensures Valid()
      ensures out.Fail? ==> currentModule.None? && out.error == NoCurrentModule
      ensures out.Pass? ==> Grew(old(newStatics)) && c2 == c.(value := c2.value) && c2.value.Some? == c.value.Some?
      ensures out.Pass? && c.value.None? ==> c2 == c && newStatics == old(newStatics)
      ensures out.Pass? && c.value.Some? ==> RanOn(c.value.value, c2.value.value, scope, old(newStatics))
      ensures out.Pass? ==> Run(c2, newStatics) == RunConstant(resolver, scope, currentModule, c, old(newStatics))
    {
      if c.value.None? {
        return c, Pass;
      }
      var v, o := RunClassifier(c.value.value);
      if o.Fail? {
        return c, o;
      }
      c2, out := c.(value := Some(v)), Pass;
    }

    /**
     * The discriminant expressions of a value-only enum are classified with
     * the enum's generics in scope as impl generics; an enum with data
     * variants is not visited at all.
     */
    method VisitEnum(en: Enum) returns (en2: Enum, out: Outcome<Bug>)
      requires Valid()
      modifies this`scope, this`newStatics
      ensures Valid() && scope == old(scope)
      ensures out.Fail? ==> currentModule.None? && out.error == NoCurrentModule
      ensures out.Pass? ==> Run(en2, newStatics) == RunEnum(resolver, scope, currentModule, en, old(newStatics))
      ensures out.Pass? ==> Grew(old(newStatics))
    {
      ghost var ns0 := newStatics;
      if en.data.DataVariants? {
        return en, Pass;
      }
      var saved := scope;
      scope := scope.(implGenerics := Some(en.params));
      var vs, o := VisitVariants(en.data.variants);
      scope := saved;
      if o.Fail? {
        return en, o;
      }
      en2, out := Enum(en.params, ValueVariants(vs)), Pass;
      RunEnumKeeps(resolver, scope, currentModule, en, ns0);
    }

    /** Each variant's discriminant, when it has one, gets a classifier run of its own, in order. */
    method VisitVariants(vs: seq<EnumVariant>) returns (vs2: seq<EnumVariant>, out: Outcome<Bug>)
      requires Valid()
      modifies this`newStatics
      ensures Valid()
      ensures out.Fail? ==> currentModule.None? && out.error == NoCurrentModule
      ensures out.Pass? ==> Run(vs2, newStatics) == RunVariants(resolver, scope, currentModule, vs, old(newStatics))
    {
      ghost var ns0 := newStatics;
      vs2 := [];
      var i := 0;
      while i < |vs|
        invariant 0 <= i <= |vs|
        invariant Valid()
        invariant Run(vs2, newStatics) == RunVariants(resolver, scope, currentModule, vs[..i], ns0)
      {
        RunVariantsStep(resolver, scope, currentModule, vs, i, ns0);
        var v := vs[i];
        if v.expr.Some? {
          var e, o := RunClassifier(v.expr.value);
          if o.Fail? {
            return vs2, o;
          }
          v := v.(expr := Some(e));
        }
        vs2 := vs2 + [v];
        i := i + 1;
      }
      assert vs[..|vs|] == vs;
      out := Pass;
    }

    /**
     * Visits a type. In an array type the element type is visited first, then
     * an unevaluated size expression is classified; other types have their
     * component types visited.
     */
    method VisitType(t: TypeRef) returns (t2: TypeRef, out: Outcome<Bug>)
      requires Valid()
      modifies this`newStatics
      ensures Valid()
      ensures out.Fail? ==> currentModule.None? && out.error == NoCurrentModule
      ensures out.Pass? ==> Run(t2, newStatics) == RunType(resolver, scope, currentModule, t, old(newStatics))
      ensures out.Pass? ==> Grew(old(newStatics))
      decreases t
    {
      ghost var ns0 := newStatics;
      match t {
        case TArray(inner, size) =>
          var inner2, o := VisitType(inner);
          if o.Fail? {
            return t, o;
          }
          if size.Unevaluated? && size.cg.CgUnevaluated? {
            var e, o2 := RunClassifier(size.cg.expr);
            if o2.Fail? {
              return t, o2;
            }
            t2 := TArray(inner2, Unevaluated(CgUnevaluated(e)));
          } else {
            t2 := TArray(inner2, size);
          }
        case TPath(path) =>
          var args, o := VisitTypes(path.args);
          if o.Fail? {
            return t, o;
          }
          t2 := TPath(Path(path.components, args));
        case TTuple(elems) =>
          var elems2, o := VisitTypes(elems);
          if o.Fail? {
            return t, o;
          }
          t2 := TTuple(elems2);
        case TSlice(inner) =>
          var inner2, o := VisitType(inner);
          if o.Fail? {
            return t, o;
          }
          t2 := TSlice(inner2);
        case TBorrow(bt, inner) =>
          var inner2, o := VisitType(inner);
          if o.Fail? {
            return t, o;
          }
          t2 := TBorrow(bt, inner2);
        case TPrimitive(_) =>
          t2 := t;
        case TGeneric(_) =>
          t2 := t;
      }
      out := Pass;
      RunTypeGrows(resolver, scope, currentModule, t, ns0);
    }

    /** The component types of a type, in order. */
    method VisitTypes(ts: seq<TypeRef>) returns (ts2: seq<TypeRef>, out: Outcome<Bug>)
      requires Valid()
      modifies this`newStatics
      ensures Valid()
      ensures out.Fail? ==> currentModule.None? && out.error == NoCurrentModule
      ensures out.Pass? ==> Run(ts2, newStatics) == RunTypes(resolver, scope, currentModule, ts, old(newStatics))
      ensures out.Pass? ==> Grew(old(newStatics))
      decreases ts
    {
      ghost var ns0 := newStatics;
      ts2 := [];
      var i := 0;
      while i < |ts|
        invariant 0 <= i <= |ts|
        invariant Valid()
        invariant Run(ts2, newStatics) == RunTypes(resolver, scope, currentModule, ts[..i], ns0)
      {
        RunTypesStep(resolver, scope, currentModule, ts, i, ns0);
        var t, o := VisitType(ts[i]);
        if o.Fail? {
          return ts2, o;
        }
        ts2 := ts2 + [t];
        i := i + 1;
      }
      assert ts[..|ts|] == ts;
      out := Pass;
      RunTypesGrows(resolver, scope, currentModule, ts, ns0);
    }

    /** The methods of an impl or a trait, in order. */
    method VisitFunctions(fs: seq<Named<Function>>) returns (fs2: seq<Named<Function>>, out: Outcome<Bug>)
      requires Valid()
      modifies this`scope, this`newStatics
      ensures Valid() && scope == old(scope)
      ensures out.Fail? ==> currentModule.None? && out.error == NoCurrentModule
      ensures out.Pass? ==> Grew(old(newStatics)) && SameNames(fs, fs2)
      ensures out.Pass? ==> forall k :: 0 <= k < |fs| ==> SameSignature(fs[k].item, fs2[k].item)
      ensures out.Pass? ==> Run(fs2, newStatics) == RunFunctions(resolver, scope, currentModule, fs, old(newStatics))
    {
      ghost var ns0 := newStatics;
      fs2 := [];
      var i := 0;
      while i < |fs|
        invariant 0 <= i <= |fs|
        invariant Valid() && scope == old(scope)
        invariant Run(fs2, newStatics) == RunFunctions(resolver, scope, currentModule, fs[..i], ns0)
      {
        RunFunctionsStep(resolver, scope, currentModule, fs, i, ns0);
        var f, o := VisitFunction(fs[i].item);
        if o.Fail? {
          return fs2, o;
        }
        fs2 := fs2 + [Named(fs[i].name, f)];
        i := i + 1;
      }
      assert fs[..|fs|] == fs;
      out := Pass;
      RunFunctionsKeeps(resolver, scope, currentModule, fs, ns0);
    }

    method VisitConstants(cs: seq<Named<Constant>>) returns (cs2: seq<Named<Constant>>, out: Outcome<Bug>)
      requires Valid()
      modifies this`newStatics
      ensures Valid()
      ensures out.Fail? ==> currentModule.None? && out.error == NoCurrentModule
      ensures out.Pass? ==> Grew(old(newStatics)) && SameNames(cs, cs2)
      ensures out.Pass? ==> Run(cs2, newStatics) == RunConstants(resolver, scope, currentModule, cs, old(newStatics))
    {
      ghost var ns0 := newStatics;
      cs2 := [];
      var i := 0;
      while i < |cs|
        invariant 0 <= i <= |cs|
        invariant Valid()
        invariant Run(cs2, newStatics) == RunConstants(resolver, scope, currentModule, cs[..i], ns0)
      {
        RunConstantsStep(resolver, scope, currentModule, cs, i, ns0);
        var c, o := VisitConstant(cs[i].item);
        if o.Fail? {
          return cs2, o;
        }
        cs2 := cs2 + [Named(cs[i].name, c)];
        i := i + 1;
      }
      assert cs[..|cs|] == cs;
      out := Pass;
      RunConstantsKeeps(resolver, scope, currentModule, cs, ns0);
    }

    method VisitStatics(ss: seq<Named<Static>>) returns (ss2: seq<Named<Static>>, out: Outcome<Bug>)
      requires Valid()
      modifies this`newStatics
      ensures Valid()
      ensures out.Fail? ==> currentModule.None? && out.error == NoCurrentModule
      ensures out.Pass? ==> Grew(old(newStatics)) && SameNames(ss, ss2)
      ensures out.Pass? ==> Run(ss2, newStatics) == RunStatics(resolver, scope, currentModule, ss, old(newStatics))
    {
      ghost var ns0 := newStatics;
      ss2 := [];
      var i := 0;
      while i < |ss|
        invariant 0 <= i <= |ss|
        invariant Valid()
        invariant Run(ss2, newStatics) == RunStatics(resolver, scope, currentModule, ss[..i], ns0)
      {
        RunStaticsStep(resolver, scope, currentModule, ss, i, ns0);
        var st, o := VisitStatic(ss[i].item);
        if o.Fail? {
          return ss2, o;
        }
        ss2 := ss2 + [Named(ss[i].name, st)];
        i := i + 1;
      }
      assert ss[..|ss|] == ss;
      out := Pass;
      RunStaticsKeeps(resolver, scope, currentModule, ss, ns0);
    }

    /** The associated types of a trait impl. */
    method VisitNamedTypes(ts: seq<Named<TypeRef>>) returns (ts2: seq<Named<TypeRef>>, out: Outcome<Bug>)
      requires Valid()
      modifies this`newStatics
      ensures Valid()
      ensures out.Fail? ==> currentModule.None? && out.error == NoCurrentModule
      ensures out.Pass? ==> Grew(old(newStatics)) && SameNames(ts, ts2)
      ensures out.Pass? ==> Run(ts2, newStatics) == RunNamedTypes(resolver, scope, currentModule, ts, old(newStatics))
    {
      ghost var ns0 := newStatics;
      ts2 := [];
      var i := 0;
      while i < |ts|
        invariant 0 <= i <= |ts|
        invariant Valid()
        invariant Run(ts2, newStatics) == RunNamedTypes(resolver, scope, currentModule, ts[..i], ns0)
      {
        RunNamedTypesStep(resolver, scope, currentModule, ts, i, ns0);
        var t, o := VisitType(ts[i].item);
        if o.Fail? {
          return ts2, o;
        }
        ts2 := ts2 + [Named(ts[i].name, t)];
        i := i + 1;
      }
      assert ts[..|ts|] == ts;
      out := Pass;
      RunNamedTypesKeeps(resolver, scope, currentModule, ts, ns0);
    }

    /** A value item: functions, statics and constants are visited, anything else is left alone. */
    method VisitValueItem(v: Named<VisEnt>) returns (v2: Named<VisEnt>, out: Outcome<Bug>)
      requires Valid()
      modifies this`scope, this`newStatics
      ensures Valid() && scope == old(scope)
      ensures out.Fail? ==> currentModule.None? && out.error == NoCurrentModule
      ensures out.Pass? ==> Grew(old(newStatics)) && v2.name == v.name && v2.item.publicity == v.item.publicity
      ensures out.Pass? && v.item.ent.OtherValue? ==> v2 == v
      ensures out.Pass? ==> Run(v2, newStatics) == RunValueItem(resolver, scope, currentModule, v, old(newStatics))
    {
      var ent := v.item.ent;
      match ent {
        case FunctionItem(f) =>
          var f2, o := VisitFunction(f);
          if o.Fail? {
            return v, o;
          }
          ent := FunctionItem(f2);
        case StaticItem(st) =>
          var st2, o := VisitStatic(st);
          if o.Fail? {
            return v, o;
          }
          ent := StaticItem(st2);
        case ConstantItem(c) =>
          var c2, o := VisitConstant(c);
          if o.Fail? {
            return v, o;
          }
          ent := ConstantItem(c2);
        case OtherValue(_) =>
      }
      v2, out := Named(v.name, VisEnt(v.item.publicity, ent)), Pass;
    }

    /**
     * An item of the type namespace of the module at `p`: a submodule is
     * walked as a module, an enum by `VisitEnum`, a struct's field types, an
     * alias's target type and a trait's methods are visited.
     */
    method VisitTypeItem(p: ModPath, t: Named<TypeItem>) returns (t2: Named<TypeItem>, out: Outcome<Bug>)
      requires Valid() && WellFormed(crate.root)
      requires t.item.ModuleItem? ==> ModuleAt(crate.root, p + [t.name]) == Some(t.item.sub)
      modifies this
      ensures Valid() && scope == old(scope) && currentModule == old(currentModule)
      ensures out.Fail? ==> !t.item.ModuleItem? && currentModule.None? && out.error == NoCurrentModule
      ensures out.Pass? && t.item.ModuleItem? ==> GrowsUnder(old(newStatics), newStatics, p + [t.name])
      ensures out.Pass? && !t.item.ModuleItem? ==> Grew(old(newStatics))
      ensures out.Pass? && t.item.EnumItem? ==>
                t2 == Named(t.name, EnumItem(RunEnum(resolver, scope, currentModule, t.item.enumDef, old(newStatics)).out))
      ensures out.Pass? ==> SameItemLayout(t, t2)
      ensures out.Pass? ==> Run(t2, newStatics) == RunTypeItem(resolver, scope, p, currentModule, t, old(newStatics))
      decreases t, 2
    {
      ghost var ns0 := newStatics;
      match t.item {
        case ModuleItem(sub) =>
          var sub2 := VisitModule(p + [t.name], sub);
          t2 := Named(t.name, ModuleItem(sub2));
        case EnumItem(en) =>
          var en2, o := VisitEnum(en);
          if o.Fail? {
            return t, o;
          }
          t2 := Named(t.name, EnumItem(en2));
        case StructItem(params, fields) =>
          var fields2, o := VisitTypes(fields);
          if o.Fail? {
            return t, o;
          }
          t2 := Named(t.name, StructItem(params, fields2));
        case TypeAlias(params, aliased) =>
          var aliased2, o := VisitType(aliased);
          if o.Fail? {
            return t, o;
          }
          t2 := Named(t.name, TypeAlias(params, aliased2));
        case TraitItem(params, methods) =>
          var methods2, o := VisitFunctions(methods);
          if o.Fail? {
            return t, o;
          }
          t2 := Named(t.name, TraitItem(params, methods2));
      }
      out := Pass;
      RunTypeItemKeeps(resolver, scope, p, currentModule, t, ns0);
    }

    /**
     * Makes the module at `p` current for the walk of its type items and then
     * its value items, and restores the enclosing module afterwards. Inside a
     * module there always is a current module, so no static request fails.
     */
    method VisitModule(p: ModPath, m: Module) returns (m2: Module)
      requires Valid() && WellFormed(crate.root) && ModuleAt(crate.root, p) == Some(m)
      modifies this
      ensures Valid() && scope == old(scope) && currentModule == old(currentModule)
      ensures GrowsUnder(old(newStatics), newStatics, p)
      ensures SameLayout(m, m2)
      ensures Run(m2, newStatics) == RunModule(resolver, scope, p, m, old(newStatics))
      decreases m, 1
    {
      var par := currentModule;
      currentModule := Some(p);
      ghost var ns0 := newStatics;
      var types := VisitTypeItems(p, m);
      var values, o := VisitValueItems(m.valueItems);
      if o.Fail? {
        assert false;
      }
      m2 := Module(values, types);
      currentModule := par;
      RunModuleKeeps(resolver, scope, p, m, ns0);
    }

    /** The type namespace of the module at `p`, which is current, in order. */
    method VisitTypeItems(p: ModPath, m: Module) returns (types: seq<Named<TypeItem>>)
      requires Valid() && WellFormed(crate.root) && ModuleAt(crate.root, p) == Some(m)
      requires currentModule == Some(p)
      modifies this
      ensures Valid() && scope == old(scope) && currentModule == old(currentModule)
      ensures Run(types, newStatics) == RunTypeItems(resolver, scope, p, m.modItems, old(newStatics))
      decreases m, 0
    {
      ghost var ns0 := newStatics;
      types := [];
      var i := 0;
      while i < |m.modItems|
        invariant 0 <= i <= |m.modItems|
        invariant Valid() && currentModule == Some(p) && scope == old(scope)
        invariant Run(types, newStatics) == RunTypeItems(resolver, scope, p, m.modItems[..i], ns0)
      {
        RunTypeItemsStep(resolver, scope, p, m.modItems, i, ns0);
        if m.modItems[i].item.ModuleItem? {
          SubmoduleAt(crate.root, p, m, i);
        }
        var t, o := VisitTypeItem(p, m.modItems[i]);
        if o.Fail? {
          assert false;
        }
        types := types + [t];
        i := i + 1;
      }
      assert m.modItems[..|m.modItems|] == m.modItems;
    }

    /** The value namespace of the current module, in order. */
    method VisitValueItems(vs: seq<Named<VisEnt>>) returns (vs2: seq<Named<VisEnt>>, out: Outcome<Bug>)
      requires Valid()
      modifies this`scope, this`newStatics
      ensures Valid() && scope == old(scope)
      ensures out.Fail? ==> currentModule.None? && out.error == NoCurrentModule
      ensures out.Pass? ==> Run(vs2, newStatics) == RunValueItems(resolver, scope, currentModule, vs, old(newStatics))
    {
      ghost var ns0 := newStatics;
      vs2 := [];
      var i := 0;
      while i < |vs|
        invariant 0 <= i <= |vs|
        invariant Valid() && scope == old(scope)
        invariant Run(vs2, newStatics) == RunValueItems(resolver, scope, currentModule, vs[..i], ns0)
      {
        RunValueItemsStep(resolver, scope, currentModule, vs, i, ns0);
        var v, o := VisitValueItem(vs[i]);
        if o.Fail? {
          return vs2, o;
        }
        vs2 := vs2 + [v];
        i := i + 1;
      }
      assert vs[..|vs|] == vs;
      out := Pass;
    }
    /**
     * Makes the impl's source module current and its generics the impl
     * generics, visits the self type, the methods and the constants, then
     * leaves no module current (the enclosing one is not restored). A source
     * module that does not exist is a fatal error.
     */
    method VisitTypeImpl(impl: TypeImpl) returns (impl2: TypeImpl, out: Outcome<Bug>)
      requires Valid()
      modifies this
      ensures Valid() && scope == old(scope)
      ensures out.Fail? <==> ModuleAt(crate.root, impl.srcModule).None?
      ensures out.Fail? ==> out.error == UnknownModule(impl.srcModule) && currentModule == old(currentModule)
      ensures out.Pass? ==> currentModule.None? && GrowsUnder(old(newStatics), newStatics, impl.srcModule)
      ensures out.Pass? ==> && impl2.params == impl.params && impl2.srcModule == impl.srcModule
                            && SameNames(impl.methods, impl2.methods) && SameNames(impl.constants, impl2.constants)
      ensures out.Pass? ==> TypeImplKept(impl, impl2)
      ensures out.Pass? ==> Run(impl2, newStatics) == RunTypeImpl(resolver, scope, impl, old(newStatics))
    {
      if ModuleAt(crate.root, impl.srcModule).None? {
        return impl, Fail(UnknownModule(impl.srcModule));
      }
      currentModule := Some(impl.srcModule);
      var saved := scope;
      scope := scope.(implGenerics := Some(impl.params));
      ghost var ns0 := newStatics;

      var selfTy, o1 := VisitType(impl.selfTy);
      if o1.Fail? {
        assert false;
      }
      var methods, o2 := VisitFunctions(impl.methods);
      if o2.Fail? {
        assert false;
      }
      var constants, o3 := VisitConstants(impl.constants);
      if o3.Fail? {
        assert false;
      }

      scope := saved;
      currentModule := None;
      impl2 := TypeImpl(impl.params, selfTy, impl.srcModule, methods, constants);
      out := Pass;
      RunTypeImplKeeps(resolver, scope, impl, ns0);
    }

    /**
     * As `VisitTypeImpl`, for a trait impl: the self type, then methods,
     * constants, statics and associated types.
     */
    method VisitTraitImpl(impl: TraitImpl) returns (impl2: TraitImpl, out: Outcome<Bug>)
      requires Valid()
      modifies this
      ensures Valid() && scope == old(scope)
      ensures out.Fail? <==> ModuleAt(crate.root, impl.srcModule).None?
      ensures out.Fail? ==> out.error == UnknownModule(impl.srcModule) && currentModule == old(currentModule)
      ensures out.Pass? ==> currentModule.None? && GrowsUnder(old(newStatics), newStatics, impl.srcModule)
      ensures out.Pass? ==> && impl2.params == impl.params && impl2.traitPath == impl.traitPath
                            && impl2.srcModule == impl.srcModule
                            && SameNames(impl.methods, impl2.methods) && SameNames(impl.constants, impl2.constants)
                            && SameNames(impl.statics, impl2.statics) && SameNames(impl.types, impl2.types)
      ensures out.Pass? ==> TraitImplKept(impl, impl2)
      ensures out.Pass? ==> Run(impl2, newStatics) == RunTraitImpl(resolver, scope, impl, old(newStatics))
    {
      if ModuleAt(crate.root, impl.srcModule).None? {
        return impl, Fail(UnknownModule(impl.srcModule));
      }
      currentModule := Some(impl.srcModule);
      var saved := scope;
      scope := scope.(implGenerics := Some(impl.params));
      ghost var ns0 := newStatics;

      var selfTy, o1 := VisitType(impl.selfTy);
      if o1.Fail? {
        assert false;
      }
      var methods, o2 := VisitFunctions(impl.methods);
      if o2.Fail? {
        assert false;
      }
      var constants, o3 := VisitConstants(impl.constants);
      if o3.Fail? {
        assert false;
      }
      var statics, o4 := VisitStatics(impl.statics);
      if o4.Fail? {
        assert false;
      }
      var types, o5 := VisitNamedTypes(impl.types);
      if o5.Fail? {
        assert false;
      }

      scope := saved;
      currentModule := None;
      impl2 := TraitImpl(impl.params, impl.traitPath, selfTy, impl.srcModule, methods, constants, statics, types);
      out := Pass;
      RunTraitImplKeeps(resolver, scope, impl, ns0);
    }


    /**
     * The type impls of the crate, in order; the first one whose source
     * module is missing stops the walk. Written by recursion on all but the
     * last impl, the shape of `RunTypeImpls`.
     */
    method VisitTypeImpls(impls: seq<TypeImpl>) returns (impls2: seq<TypeImpl>, out: Outcome<Bug>)
      requires Valid()
      modifies this
      ensures Valid() && scope == old(scope)
      ensures out.Fail? ==> && out.error.UnknownModule? && ModuleAt(crate.root, out.error.path).None?
                            && exists k :: 0 <= k < |impls| && impls[k].srcModule == out.error.path
      ensures out.Pass? <==> forall k :: 0 <= k < |impls| ==> ModuleAt(crate.root, impls[k].srcModule).Some?
      ensures out.Pass? ==> Run(impls2, newStatics) == RunTypeImpls(resolver, scope, impls, old(newStatics))
      decreases |impls|
    {
      if impls == [] {
        return [], Pass;
      }
      var init, o := VisitTypeImpls(impls[..|impls| - 1]);
      if o.Fail? {
        return init, o;
      }
      var impl, o2 := VisitTypeImpl(impls[|impls| - 1]);
      if o2.Fail? {
        return init, o2;
      }
      impls2, out := init + [impl], Pass;
    }

    /** As `VisitTypeImpls`, for the trait impls of the crate. */
    method VisitTraitImpls(impls: seq<TraitImpl>) returns (impls2: seq<TraitImpl>, out: Outcome<Bug>)
      requires Valid()
      modifies this
      ensures Valid() && scope == old(scope)
      ensures out.Fail? ==> && out.error.UnknownModule? && ModuleAt(crate.root, out.error.path).None?
                            && exists k :: 0 <= k < |impls| && impls[k].srcModule == out.error.path
      ensures out.Pass? <==> forall k :: 0 <= k < |impls| ==> ModuleAt(crate.root, impls[k].srcModule).Some?
      ensures out.Pass? ==> Run(impls2, newStatics) == RunTraitImpls(resolver, scope, impls, old(newStatics))
      decreases |impls|
    {
      if impls == [] {
        return [], Pass;
      }
      var init, o := VisitTraitImpls(impls[..|impls| - 1]);
      if o.Fail? {
        return init, o;
      }
      var impl, o2 := VisitTraitImpl(impls[|impls| - 1]);
      if o2.Fail? {
        return init, o2;
      }
      impls2, out := init + [impl], Pass;
    }

    /**
     * Walks the root module, then every type impl, then every trait impl,
     * exactly as `RunCrate` describes: the walked module tree has the layout
     * of the crate's, every impl keeps its generics, source module and item
     * names, and the registry only grows.
     */
    method WalkCrate(c: Crate) returns (root: Module, typeImpls: seq<TypeImpl>, traitImpls: seq<TraitImpl>, out: Outcome<Bug>)
      requires Valid() && c == crate && WellFormed(c.root)
      modifies this
      ensures Valid() && scope == old(scope)
      ensures out.Fail? ==> out.error.UnknownModule? && ModuleAt(crate.root, out.error.path).None? && ImplFrom(c, out.error.path)
      ensures out.Pass? <==> ImplModulesExist(c, crate.root)
      ensures out.Pass? ==> SameLayout(c.root, root) && |typeImpls| == |c.typeImpls| && |traitImpls| == |c.traitImpls|
      ensures out.Pass? ==> && (forall k :: 0 <= k < |c.typeImpls| ==> TypeImplKept(c.typeImpls[k], typeImpls[k]))
                            && (forall k :: 0 <= k < |c.traitImpls| ==> TraitImplKept(c.traitImpls[k], traitImpls[k]))
                            && Extends(old(newStatics), newStatics)
      ensures out.Pass? ==> Run(Crate(root, typeImpls, traitImpls), newStatics) == RunCrate(resolver, scope, c, old(newStatics))
    {
      ghost var ns0 := newStatics;
      root := VisitModule([], c.root);
      var o;
      typeImpls, o := VisitTypeImpls(c.typeImpls);
      if o.Fail? {
        return root, typeImpls, [], o;
      }
      traitImpls, out := VisitTraitImpls(c.traitImpls);
      if out.Pass? {
        RunCrateKeeps(resolver, scope, c, ns0);
      }
    }

    /**
     * Walks the crate, then commits the new statics into the walked module
     * tree (`walked`): each one whose name was free ends up, evaluated and
     * compiler-generated, in the module it was created for.
     */
    method VisitCrate(c: Crate, eval: Evaluator) returns (c2: Crate, out: Outcome<Bug>, ghost walked: Module)
      requires Valid() && c == crate && WellFormed(c.root)
      modifies this
      ensures Valid()
      ensures out.Fail? ==> out.error == NewStaticDuringCommit ||
                            (out.error.UnknownModule? && ModuleAt(crate.root, out.error.path).None? && ImplFrom(c, out.error.path))
      ensures ImplModulesExist(c, crate.root) && NeverAllocates(eval) ==> out.Pass?
      ensures out.Pass? ==> ImplModulesExist(c, crate.root)
      ensures out.Pass? ==> |c2.typeImpls| == |c.typeImpls| && |c2.traitImpls| == |c.traitImpls|
      ensures out.Pass? ==> SameLayout(c.root, walked) && WithoutValues(c2.root) == WithoutValues(walked)
      ensures out.Pass? ==> forall m | m in newStatics :: EvaluatePending(newStatics[m], eval).Success?
      ensures out.Pass? ==> forall q :: ValuesAt(c2.root, q) == CommittedValues(walked, newStatics, eval, q)
      ensures out.Pass? ==>
                forall m, i | m in newStatics && 0 <= i < |newStatics[m]| && LiftedNamesFree(c.root, m, |newStatics[m]|) ::
                  FoundCommitted(c2.root, newStatics, eval, m, i)
      ensures out.Pass? ==>
                var w := RunCrate(resolver, old(scope), c, old(newStatics));
                && walked == w.out.root && newStatics == w.ns
                && c2.typeImpls == w.out.typeImpls && c2.traitImpls == w.out.traitImpls
    {
      var root, typeImpls, traitImpls, o := WalkCrate(c);
      walked := root;
      if o.Fail? {
        return c, o, walked;
      }
      var root2, o2 := Commit(root, newStatics, eval);
      if o2.Fail? {
        return c, o2, walked;
      }
      CommitAfterWalk(c.root, walked, root2, newStatics, eval);
      c2, out := Crate(root2, typeImpls, traitImpls), Pass;
    }
  }

  /**
   * Staging one more static for a module of `root`, named after the length of
   * that module's list, keeps every list canonical and every key a module.
   */
  lemma {:induction false} StageOne(root: Module, ns: PendingMap, m: ModPath, p: PendingStatic)
    requires AllCanonical(ns) && forall k | k in ns :: ModuleAt(root, k).Some?
    requires ModuleAt(root, m).Some? && p.path == m + [LiftedName(|PendingIn(ns, m)|)]
    ensures var ns2 := ns[m := PendingIn(ns, m) + [p]];
            AllCanonical(ns2) && forall k | k in ns2 :: ModuleAt(root, k).Some?
  {
    var list := PendingIn(ns, m) + [p];
    assert Canonical(m, list) by {
      forall i | 0 <= i < |list| ensures list[i].path == m + [LiftedName(i)] {
        if i < |list| - 1 {
          assert list[i] == PendingIn(ns, m)[i];
        }
      }
    }
  }

  /**
   * Evaluates every pending static and inserts it, evaluated and marked
   * compiler-generated, into its module's value namespace under its own
   * name with no publicity. Modules are taken in no particular order; an
   * evaluator that asks for a further static is a fatal error.
   */
  method Commit(root: Module, ns: PendingMap, eval: Evaluator) returns (root2: Module, out: Outcome<Bug>)
    ensures out.Pass? <==> forall m | m in ns :: EvaluatePending(ns[m], eval).Success?
    ensures out.Fail? ==> out.error == NewStaticDuringCommit
    ensures out.Pass? ==> forall q :: ValuesAt(root2, q) == CommittedValues(root, ns, eval, q)
    ensures out.Pass? ==> WithoutValues(root2) == WithoutValues(root)
  {
    var todo := ns.Keys;
    ghost var done: set<ModPath> := {};
    root2 := root;
    while todo != {}
      invariant CommitProgress(root, root2, ns, eval, todo, done)
      decreases |todo|
    {
      var m :| m in todo;
      var root3, ok := CommitModule(root2, m, ns[m], eval);
      if !ok {
        return root, Fail(NewStaticDuringCommit);
      }
      CommittedOneMore(root, root2, root3, ns, eval, todo, done, m);
      root2 := root3;
      todo := todo - {m};
      done := done + {m};
    }
    CommittedEverything(root, root2, ns, eval, done);
    out := Pass;
  }

  /**
   * Evaluates the pending statics of the module at `m` in order, inserting
   * each one as soon as it is evaluated; `ok` is false when the evaluator
   * asked for a further static.
   */
  method CommitModule(root: Module, m: ModPath, list: seq<PendingStatic>, eval: Evaluator) returns (root2: Module, ok: bool)
    ensures ok <==> EvaluatePending(list, eval).Success?
    ensures ok ==> PlacedAt(root, root2, m, EvaluatePending(list, eval).value)
    ensures ok ==> WithoutValues(root2) == WithoutValues(root)
  {
    root2 := root;
    var j := 0;
    while j < |list|
      invariant 0 <= j <= |list|
      invariant EvaluatePending(list[..j], eval).Success?
      invariant PlacedAt(root, root2, m, EvaluatePending(list[..j], eval).value)
    {
      var p := list[j];
      var res := eval(p.path, p.item.value, p.item.ty);
      assert list[..j + 1][..j] == list[..j];
      if res.RequestedNewStatic? {
        assert !EvalOf(eval, list[j]).Evaluated?;
        return root, false;
      }
      var st := p.item.(valueRes := Some(res.value), valueGenerated := true);
      var name := LastName(p.path);
      CommitStep(root, root2, m, list, j, eval);
      root2 := InsertAt(root2, m, name, VisEnt(PubNone, StaticItem(st)));
      j := j + 1;
    }
    assert list[..|list|] == list;
    ok := true;
  }

  /**
   * The value namespaces of `root2` are those of `root`, with `ents` inserted
   * at `m` (when `m` names a module); the type namespaces are unchanged.
   */
  ghost predicate PlacedAt(root: Module, root2: Module, m: ModPath, ents: seq<Named<VisEnt>>) {
    && WithoutValues(root2) == WithoutValues(root)
    && forall q :: ValuesAt(root2, q) == if q == m && ValuesAt(root, m).Some? then
                     Some(InsertAll(ValuesAt(root, m).value, ents))
                   else ValuesAt(root, q)
  }

  /**
   * The modules in `done` were committed and the ones in `todo` are still to
   * go: each committed list evaluated, the committed modules hold their
   * statics, and every other namespace is as in `root`.
   */
  ghost predicate CommitProgress(root: Module, root2: Module, ns: PendingMap, eval: Evaluator,
                                 todo: set<ModPath>, done: set<ModPath>) {
    && todo + done == ns.Keys && todo !! done
    && WithoutValues(root2) == WithoutValues(root)
    && (forall m | m in done :: EvaluatePending(ns[m], eval).Success?)
    && forall q :: ValuesAt(root2, q) == if q in done then CommittedValues(root, ns, eval, q) else ValuesAt(root, q)
  }

  /** Committing one more module's list extends the modules already committed. */
  lemma {:induction false} CommittedOneMore(root: Module, root2: Module, root3: Module, ns: PendingMap, eval: Evaluator,
                         todo: set<ModPath>, done: set<ModPath>, m: ModPath)
    requires CommitProgress(root, root2, ns, eval, todo, done)
    requires m in todo && EvaluatePending(ns[m], eval).Success?
    requires PlacedAt(root2, root3, m, EvaluatePending(ns[m], eval).value)
    ensures CommitProgress(root, root3, ns, eval, todo - {m}, done + {m})
  {
    assert ValuesAt(root2, m) == ValuesAt(root, m);
  }

  /** Once no module is left, every list evaluated and every namespace is as `CommittedValues` says. */
  lemma {:induction false} CommittedEverything(root: Module, root2: Module, ns: PendingMap, eval: Evaluator, done: set<ModPath>)
    requires CommitProgress(root, root2, ns, eval, {}, done)
    ensures forall m | m in ns :: EvaluatePending(ns[m], eval).Success?
    ensures forall q :: ValuesAt(root2, q) == CommittedValues(root, ns, eval, q)
    ensures WithoutValues(root2) == WithoutValues(root)
  {
    forall q ensures ValuesAt(root2, q) == CommittedValues(root, ns, eval, q) {
      if q !in ns {
        assert ValuesAt(root2, q) == ValuesAt(root, q);
      }
    }
  }

  /** Inserting the entry of the next pending static extends what was placed so far. */
  lemma {:induction false} CommitStep(root: Module, root2: Module, m: ModPath, list: seq<PendingStatic>, j: nat, eval: Evaluator)
    requires j < |list| && EvalOf(eval, list[j]).Evaluated?
    requires EvaluatePending(list[..j], eval).Success?
    requires PlacedAt(root, root2, m, EvaluatePending(list[..j], eval).value)
    ensures EvaluatePending(list[..j + 1], eval).Success?
    ensures var e := CommittedEntry(list[j], EvalOf(eval, list[j]).value);
            PlacedAt(root, InsertAt(root2, m, e.name, e.item), m, EvaluatePending(list[..j + 1], eval).value)
  {
    var e := CommittedEntry(list[j], EvalOf(eval, list[j]).value);
    var prefix := EvaluatePending(list[..j], eval).value;
    assert list[..j + 1][..j] == list[..j];
    assert EvaluatePending(list[..j + 1], eval).value == prefix + [e];
    assert (prefix + [e])[..|prefix|] == prefix;
    forall q
      ensures ValuesAt(InsertAt(root2, m, e.name, e.item), q)
              == if q == m && ValuesAt(root, m).Some? then Some(InsertAll(ValuesAt(root, m).value, prefix + [e]))
                 else ValuesAt(root, q)
    {
      ValuesAfterInsert(root2, m, q, e.name, e.item);
    }
    InsertAtKeepsTypes(root2, m, e.name, e.item);
  }

  /**
   * Classifying `e` under `env` turned it into `e2` and took the registry from
   * `ns0` to `ns`, with the new statics numbered on from `ns0`'s list.
   */
  ghost predicate Rewritten(e: Expr, e2: Expr, env: Env, ns0: PendingMap, ns: PendingMap) {
    var r := Lift(e, env, NextIndex(ns0, env.current));
    && (env.current.Some? || r.lifted == [])
    && e2 == r.expr
    && ns == Record(ns0, env.current, r.lifted)
  }

  /** As `Rewritten`, for a sequence of children classified in order. */
  ghost predicate RewrittenAll(cs: seq<Expr>, cs2: seq<Expr>, env: Env, ns0: PendingMap, ns: PendingMap) {
    var r := LiftAll(cs, env, NextIndex(ns0, env.current));
    && (env.current.Some? || r.lifted == [])
    && cs2 == r.exprs
    && ns == Record(ns0, env.current, r.lifted)
  }

  /** Rewriting one more child extends the rewrite of the children before it. */
  lemma {:induction false} ChildStep(cs: seq<Expr>, i: nat, env: Env, ns0: PendingMap, cs2: seq<Expr>,
                  ns: PendingMap, c: Expr, ns2: PendingMap)
    requires i < |cs|
    requires RewrittenAll(cs[..i], cs2, env, ns0, ns)
    requires Rewritten(cs[i], c, env, ns, ns2)
    ensures RewrittenAll(cs[..i + 1], cs2 + [c], env, ns0, ns2)
    ensures var base := NextIndex(ns0, env.current);
            LiftAll(cs[..i + 1], env, base).allConst
              == (LiftAll(cs[..i], env, base).allConst && Lift(cs[i], env, NextIndex(ns, env.current)).isConst)
  {
    var base := NextIndex(ns0, env.current);
    var prefix := LiftAll(cs[..i], env, base);
    RecordTwice(ns0, env.current, prefix.lifted, []);
    assert NextIndex(ns, env.current) == base + |prefix.lifted|;
    var last := Lift(cs[i], env, base + |prefix.lifted|);
    LiftAllStep(cs, i, env, base);
    RecordTwice(ns0, env.current, prefix.lifted, last.lifted);
  }

  /**
   * A borrow whose operand was rewritten to `v` and that passes every test is
   * rewritten to refer to the static the registry gained next.
   */
  lemma {:induction false} BorrowPromoted(ty: TypeRef, bt: BorrowType, value: Expr, v: Expr, env: Env,
                       ns0: PendingMap, ns1: PendingMap, ns2: PendingMap)
    requires Rewritten(value, v, env, ns0, ns1)
    requires Lift(value, env, NextIndex(ns0, env.current)).isConst
    requires PassesGates(env, bt, BorrowTarget(v).ty) && env.current.Some?
    requires var m := env.current.value;
             var list := PendingIn(ns1, m);
             var target := BorrowTarget(v);
             ns2 == ns1[m := list + [PendingStatic(m + [LiftedName(|list|)],
                                                   NewStaticItem(target.ty, ExprRoot(target, FreshState(env.state))))]]
    ensures var target := BorrowTarget(v);
            var path := env.current.value + [LiftedName(|PendingIn(ns1, env.current.value)|)];
            var r := Lift(Borrow(ty, bt, value), env, NextIndex(ns0, env.current));
            && Rewritten(Borrow(ty, bt, value), Borrow(ty, bt, ReplaceTarget(v, StaticRef(target.ty, path))), env, ns0, ns2)
            && r.isConst
  {
    var base := NextIndex(ns0, env.current);
    var rv := Lift(value, env, base);
    var m := env.current.value;
    var target := BorrowTarget(v);
    RecordTwice(ns0, env.current, rv.lifted, []);
    assert |PendingIn(ns1, m)| == base + |rv.lifted|;
    var path := LiftedPath(env, base + |rv.lifted|);
    var st := PendingStatic(path, NewStaticItem(target.ty, ExprRoot(target, FreshState(env.state))));
    assert ns2 == Record(ns1, env.current, [st]);
    RecordTwice(ns0, env.current, rv.lifted, [st]);
    assert Lift(Borrow(ty, bt, value), env, base)
        == Lifting(Borrow(ty, bt, ReplaceTarget(v, StaticRef(target.ty, path))), true, rv.lifted + [st]);
  }

  /** A borrow that fails a test keeps its rewritten operand and is not constant. */
  lemma {:induction false} BorrowKept(ty: TypeRef, bt: BorrowType, value: Expr, v: Expr, env: Env, ns0: PendingMap, ns1: PendingMap)
    requires Rewritten(value, v, env, ns0, ns1)
    requires !(Lift(value, env, NextIndex(ns0, env.current)).isConst && PassesGates(env, bt, BorrowTarget(v).ty))
    ensures Rewritten(Borrow(ty, bt, value), Borrow(ty, bt, v), env, ns0, ns1)
    ensures !Lift(Borrow(ty, bt, value), env, NextIndex(ns0, env.current)).isConst
  {
  }

  /** Some impl of `c` names `p` as its source module. */
  predicate ImplFrom(c: Crate, p: ModPath) {
    || (exists k :: 0 <= k < |c.typeImpls| && c.typeImpls[k].srcModule == p)
    || (exists k :: 0 <= k < |c.traitImpls| && c.traitImpls[k].srcModule == p)
  }

  /** Every impl's source module is a module of `root`. */
  predicate ImplModulesExist(c: Crate, root: Module) {
    && (forall k :: 0 <= k < |c.typeImpls| ==> ModuleAt(root, c.typeImpls[k].srcModule).Some?)
    && (forall k :: 0 <= k < |c.traitImpls| ==> ModuleAt(root, c.traitImpls[k].srcModule).Some?)
  }

  /** The evaluator never asks for a further static. */
  ghost predicate NeverAllocates(eval: Evaluator) {
    forall p, v, t :: eval(p, v, t).Evaluated?
  }

  /**
   * The whole pass over a crate: a fresh visitor walks it and commits. It can
   * only fail on an impl whose source module is missing or on an evaluator
   * that asks for a further static; the missing-current-module error of
   * static creation cannot happen.
   */
  method Expand(c: Crate, resolver: Resolver, eval: Evaluator) returns (c2: Crate, out: Outcome<Bug>, ghost pending: PendingMap)
    requires WellFormed(c.root)
    ensures out.Fail? ==> out.error == NewStaticDuringCommit ||
                          (out.error.UnknownModule? && ModuleAt(c.root, out.error.path).None? && ImplFrom(c, out.error.path))
    ensures ImplModulesExist(c, c.root) && NeverAllocates(eval) ==> out.Pass?
    ensures out.Pass? ==> ImplModulesExist(c, c.root)
    ensures out.Pass? ==> |c2.typeImpls| == |c.typeImpls| && |c2.traitImpls| == |c.traitImpls|
    ensures out.Pass? ==> AllCanonical(pending) && forall m | m in pending :: ModuleAt(c.root, m).Some?
    ensures out.Pass? ==>
              forall m, i | m in pending && 0 <= i < |pending[m]| && LiftedNamesFree(c.root, m, |pending[m]|) ::
                FoundCommitted(c2.root, pending, eval, m, i)
    ensures out.Pass? ==>
              var w := RunCrate(resolver, EmptyScope, c, map[]);
              && pending == w.ns
              && c2.typeImpls == w.out.typeImpls && c2.traitImpls == w.out.traitImpls
              && WithoutValues(c2.root) == WithoutValues(w.out.root)
              && forall q :: ValuesAt(c2.root, q) == CommittedValues(w.out.root, pending, eval, q)
  {
    var ov := new OuterVisitor(c, resolver);
    ghost var walked;
    c2, out, walked := ov.VisitCrate(c, eval);
    pending := ov.newStatics;
  }
}
