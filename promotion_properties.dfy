/*
 * What the classifier promises about the statics it requests and the tree it
 * leaves behind: names in allocation order, every promotion gated, only shared
 * borrows promoted, literal trees promoted whole, and a second run promoting
 * nothing.
 */
module PromotionProperties {
  import opened Wrappers
  import opened Hir
  import opened Names
  import opened Classification

  // ---- Names follow the allocation order ----

  /** The i-th requested static is `lifted#(base + i)` in the current module. */
  ghost predicate NamedFrom(lifted: seq<PendingStatic>, env: Env, base: nat) {
    forall i :: 0 <= i < |lifted| ==> lifted[i].path == LiftedPath(env, base + i)
  }

  lemma {:induction false} LiftNames(e: Expr, env: Env, base: nat)
    ensures NamedFrom(Lift(e, env, base).lifted, env, base)
    decreases e
  {
    match e
    case Composite(_, _, cs) => LiftAllNames(cs, env, base);
    case Opaque(_, _, cs) => LiftAllNames(cs, env, base);
    case Unsize(_, v) => LiftNames(v, env, base);
    case Borrow(_, _, v) => LiftNames(v, env, base);
    case _ =>
  }

  lemma {:induction false} LiftAllNames(cs: seq<Expr>, env: Env, base: nat)
    ensures NamedFrom(LiftAll(cs, env, base).lifted, env, base)
    decreases cs
  {
    if cs != [] {
      var init := LiftAll(cs[..|cs| - 1], env, base);
      LiftAllNames(cs[..|cs| - 1], env, base);
      LiftNames(cs[|cs| - 1], env, base + |init.lifted|);
    }
  }

  // ---- Every promotion passed the gates ----

  /**
   * A requested static whose type is not generic and definitely not interior
   * mutable, built as the registry builds it, holding a moved initializer of
   * its own type whose state is a fresh Typecheck copy of the root's.
   */
  ghost predicate Gated(env: Env, p: PendingStatic) {
    && !env.resolver.typeNeedsMonomorph(p.item.ty)
    && env.resolver.interiorMutable(env.scope, p.item.ty) == Unequal
    && p.item.linkage == DefaultLinkage
    && !p.item.isMut
    && p.item.valueRes.None?
    && !p.item.valueGenerated
    && p.item.value.Some?
    && p.item.value.value.node.ty == p.item.ty
    && p.item.value.value.state == FreshState(env.state)
  }

  ghost predicate AllGated(lifted: seq<PendingStatic>, env: Env) {
    forall i :: 0 <= i < |lifted| ==> Gated(env, lifted[i])
  }

  lemma {:induction false} LiftGated(e: Expr, env: Env, base: nat)
    ensures AllGated(Lift(e, env, base).lifted, env)
    decreases e
  {
    match e
    case Composite(_, _, cs) => LiftAllGated(cs, env, base);
    case Opaque(_, _, cs) => LiftAllGated(cs, env, base);
    case Unsize(_, v) => LiftGated(v, env, base);
    case Borrow(_, _, v) => LiftGated(v, env, base);
    case _ =>
  }

  lemma {:induction false} LiftAllGated(cs: seq<Expr>, env: Env, base: nat)
    ensures AllGated(LiftAll(cs, env, base).lifted, env)
    decreases cs
  {
    if cs != [] {
      var init := LiftAll(cs[..|cs| - 1], env, base);
      LiftAllGated(cs[..|cs| - 1], env, base);
      LiftGated(cs[|cs| - 1], env, base + |init.lifted|);
    }
  }

  // ---- The decision at one borrow ----

  /**
   * A borrow is promoted exactly when its operand was constant and the
   * borrowed value (under at most one `Unsize`) passes all three gates. A
   * promoted borrow refers to the static `lifted#(base + n)`, where `n` counts
   * the statics its operand requested; that static is requested last and
   * holds the rewritten borrowed value with a fresh Typecheck state. Otherwise
   * the borrow keeps its rewritten operand, requests nothing of its own and
   * reports non-constant. In particular a unique or owned borrow is never
   * promoted.
   */
  lemma {:induction false} BorrowDecision(ty: TypeRef, bt: BorrowType, v: Expr, env: Env, base: nat)
    ensures var r := Lift(Borrow(ty, bt, v), env, base);
            var rv := Lift(v, env, base);
            var target := BorrowTarget(rv.expr);
            var path := LiftedPath(env, base + |rv.lifted|);
            && (r.isConst <==> rv.isConst && PassesGates(env, bt, BorrowTarget(v).ty))
            && (bt != Shared ==> !r.isConst)
            && (r.isConst ==> r.expr == Borrow(ty, bt, ReplaceTarget(rv.expr, StaticRef(BorrowTarget(v).ty, path))))
            && (r.isConst ==> r.lifted == rv.lifted + [PendingStatic(path, NewStaticItem(BorrowTarget(v).ty, ExprRoot(target, FreshState(env.state))))])
            && (!r.isConst ==> r.expr == Borrow(ty, bt, rv.expr) && r.lifted == rv.lifted)
  {
  }

  // ---- Only shared borrows are promoted ----

  /** The number of shared borrows in a tree. */
  function SharedBorrows(e: Expr): nat
    decreases e
  {
    match e
    case Composite(_, _, cs) => SharedBorrowsAll(cs)
    case Opaque(_, _, cs) => SharedBorrowsAll(cs)
    case Unsize(_, v) => SharedBorrows(v)
    case Borrow(_, bt, v) => (if bt == Shared then 1 else 0) + SharedBorrows(v)
    case _ => 0
  }

  function SharedBorrowsAll(cs: seq<Expr>): nat
    decreases cs
  {
    if cs == [] then 0 else SharedBorrowsAll(cs[..|cs| - 1]) + SharedBorrows(cs[|cs| - 1])
  }

  lemma {:induction false} PromotionsBounded(e: Expr, env: Env, base: nat)
    ensures |Lift(e, env, base).lifted| <= SharedBorrows(e)
    decreases e
  {
    match e
    case Composite(_, _, cs) => PromotionsBoundedAll(cs, env, base);
    case Opaque(_, _, cs) => PromotionsBoundedAll(cs, env, base);
    case Unsize(_, v) => PromotionsBounded(v, env, base);
    case Borrow(_, _, v) => PromotionsBounded(v, env, base);
    case _ =>
  }

  lemma {:induction false} PromotionsBoundedAll(cs: seq<Expr>, env: Env, base: nat)
    ensures |LiftAll(cs, env, base).lifted| <= SharedBorrowsAll(cs)
    decreases cs
  {
    if cs != [] {
      var init := LiftAll(cs[..|cs| - 1], env, base);
      PromotionsBoundedAll(cs[..|cs| - 1], env, base);
      PromotionsBounded(cs[|cs| - 1], env, base + |init.lifted|);
    }
  }

  /** Without a promotion the tree is left exactly as it was. */
  lemma {:induction false} NoPromotionNoChange(e: Expr, env: Env, base: nat)
    ensures Lift(e, env, base).lifted == [] ==> Lift(e, env, base).expr == e
    decreases e
  {
    match e
    case Composite(_, _, cs) => NoPromotionNoChangeAll(cs, env, base);
    case Opaque(_, _, cs) => NoPromotionNoChangeAll(cs, env, base);
    case Unsize(_, v) => NoPromotionNoChange(v, env, base);
    case Borrow(_, _, v) => NoPromotionNoChange(v, env, base);
    case _ =>
  }

  lemma {:induction false} NoPromotionNoChangeAll(cs: seq<Expr>, env: Env, base: nat)
    ensures LiftAll(cs, env, base).lifted == [] ==> LiftAll(cs, env, base).exprs == cs
    decreases cs
  {
    if cs != [] {
      var ri := LiftAll(cs[..|cs| - 1], env, base);
      NoPromotionNoChangeAll(cs[..|cs| - 1], env, base);
      NoPromotionNoChange(cs[|cs| - 1], env, base + |ri.lifted|);
      NoPromotionNoChangeStep(cs, env, base);
    }
  }

  /** The step of NoPromotionNoChangeAll: unchanged leading children and an unchanged last child. */
  lemma {:induction false} NoPromotionNoChangeStep(cs: seq<Expr>, env: Env, base: nat)
    requires cs != []
    requires var ri := LiftAll(cs[..|cs| - 1], env, base);
             ri.lifted == [] ==> ri.exprs == cs[..|cs| - 1]
    requires var ri := LiftAll(cs[..|cs| - 1], env, base);
             var rl := Lift(cs[|cs| - 1], env, base + |ri.lifted|);
             rl.lifted == [] ==> rl.expr == cs[|cs| - 1]
    ensures LiftAll(cs, env, base).lifted == [] ==> LiftAll(cs, env, base).exprs == cs
  {
    var ri := LiftAll(cs[..|cs| - 1], env, base);
    var rl := Lift(cs[|cs| - 1], env, base + |ri.lifted|);
    var r := LiftAll(cs, env, base);
    assert r == Liftings(ri.exprs + [rl.expr], ri.allConst && rl.isConst, ri.lifted + rl.lifted);
    if r.lifted == [] {
      assert |ri.lifted| + |rl.lifted| == 0;
      assert r.exprs == cs[..|cs| - 1] + [cs[|cs| - 1]];
      assert cs[..|cs| - 1] + [cs[|cs| - 1]] == cs;
    }
  }

  /** A tree with no shared borrow (only unique borrows, say) is left unchanged and requests nothing. */
  lemma {:induction false} NoSharedBorrowUnchanged(e: Expr, env: Env, base: nat)
    requires SharedBorrows(e) == 0
    ensures Lift(e, env, base).lifted == []
    ensures Lift(e, env, base).expr == e
  {
    PromotionsBounded(e, env, base);
    NoPromotionNoChange(e, env, base);
  }

  // ---- Literal trees are constant and promoted whole ----

  /** Literals and unit variants combined by tuples, arrays, struct literals, fields, casts and unsizing. */
  predicate LiteralTree(e: Expr)
    decreases e
  {
    match e
    case Literal(_, _) => true
    case UnitVariant(_, _) => true
    case Composite(_, _, cs) => LiteralTrees(cs)
    case Unsize(_, v) => LiteralTree(v)
    case _ => false
  }

  /** Every one of `cs` is a literal tree. */
  predicate LiteralTrees(cs: seq<Expr>)
    decreases cs
  {
    cs == [] || (LiteralTrees(cs[..|cs| - 1]) && LiteralTree(cs[|cs| - 1]))
  }

  lemma {:induction false} LiteralTreeConstant(e: Expr, env: Env, base: nat)
    requires LiteralTree(e)
    ensures Lift(e, env, base) == Lifting(e, true, [])
    decreases e
  {
    match e
    case Composite(_, _, cs) => LiteralTreesConstant(cs, env, base);
    case Unsize(_, v) => LiteralTreeConstant(v, env, base);
    case _ =>
  }

  lemma {:induction false} LiteralTreesConstant(cs: seq<Expr>, env: Env, base: nat)
    requires LiteralTrees(cs)
    ensures LiftAll(cs, env, base) == Liftings(cs, true, [])
    decreases cs
  {
    if cs != [] {
      var init := cs[..|cs| - 1];
      var last := cs[|cs| - 1];
      LiteralTreesConstant(init, env, base);
      LiteralTreeConstant(last, env, base);
      assert cs == init + [last];
    }
  }

  /**
   * A shared borrow of a literal tree whose type passes the gates (`&[1, 2, 3]`)
   * becomes a borrow of the static `lifted#base`, which holds the tree itself.
   */
  lemma {:induction false} LiteralTreePromoted(ty: TypeRef, v: Expr, env: Env, base: nat)
    requires LiteralTree(v)
    requires PassesGates(env, Shared, BorrowTarget(v).ty)
    ensures var target := BorrowTarget(v);
            var path := LiftedPath(env, base);
            Lift(Borrow(ty, Shared, v), env, base)
            == Lifting(Borrow(ty, Shared, ReplaceTarget(v, StaticRef(target.ty, path))), true,
                       [PendingStatic(path, NewStaticItem(target.ty, ExprRoot(target, FreshState(env.state))))])
  {
    LiteralTreeConstant(v, env, base);
  }

  // ---- Running the classifier again promotes nothing ----

  /** The resolver does not report a generated static as a constant or a function. */
  ghost predicate LiftedPathsAreStatics(env: Env) {
    forall i: nat :: !PathIsConstant(env, Path(LiftedPath(env, i), []))
  }

  /** Classifying `e` from `b` requests nothing, changes nothing, and finds it constant only if `c` holds. */
  ghost predicate Idle(e: Expr, c: bool, env: Env, b: nat) {
    var r := Lift(e, env, b);
    r.lifted == [] && r.expr == e && (r.isConst ==> c)
  }

  /** As `Idle`, for a sequence of children. */
  ghost predicate IdleAll(cs: seq<Expr>, c: bool, env: Env, b: nat) {
    var r := LiftAll(cs, env, b);
    r.lifted == [] && r.exprs == cs && (r.allConst ==> c)
  }

  /**
   * Classifying an already rewritten tree again requests no static, changes
   * nothing, and finds no node constant that was not constant the first time.
   */
  lemma {:induction false} SecondRunPromotesNothing(e: Expr, env: Env, base: nat, base2: nat)
    requires LiftedPathsAreStatics(env)
    ensures var r := Lift(e, env, base);
            Idle(r.expr, r.isConst, env, base2)
    decreases e
  {
    match e
    case Composite(ty, kind, cs) =>
      SecondRunPromotesNothingAll(cs, env, base, base2);
      var rs := LiftAll(cs, env, base);
      assert Lift(e, env, base) == Lifting(Composite(ty, kind, rs.exprs), rs.allConst, rs.lifted);
      assert Lift(Composite(ty, kind, rs.exprs), env, base2) == Lifting(Composite(ty, kind, rs.exprs), LiftAll(rs.exprs, env, base2).allConst, []);
    case Opaque(ty, tag, cs) =>
      SecondRunPromotesNothingAll(cs, env, base, base2);
      var rs := LiftAll(cs, env, base);
      assert Lift(e, env, base) == Lifting(Opaque(ty, tag, rs.exprs), false, rs.lifted);
      assert Lift(Opaque(ty, tag, rs.exprs), env, base2) == Lifting(Opaque(ty, tag, rs.exprs), false, []);
    case Unsize(ty, v) =>
      SecondRunPromotesNothing(v, env, base, base2);
      var rv := Lift(v, env, base);
      assert Lift(e, env, base) == Lifting(Unsize(ty, rv.expr), rv.isConst, rv.lifted);
      assert Lift(Unsize(ty, rv.expr), env, base2) == Lifting(Unsize(ty, rv.expr), Lift(rv.expr, env, base2).isConst, []);
    case Borrow(ty, bt, v) =>
      SecondRunPromotesNothing(v, env, base, base2);
      SecondRunBorrow(ty, bt, v, env, base, base2);
    case _ =>
  }

  /** The borrow case of SecondRunPromotesNothing, given the fact for the operand. */
  lemma {:induction false} SecondRunBorrow(ty: TypeRef, bt: BorrowType, v: Expr, env: Env, base: nat, base2: nat)
    requires LiftedPathsAreStatics(env)
    requires var rv := Lift(v, env, base);
             Idle(rv.expr, rv.isConst, env, base2)
    ensures var r := Lift(Borrow(ty, bt, v), env, base);
            Idle(r.expr, r.isConst, env, base2)
  {
    var rv := Lift(v, env, base);
    var target := BorrowTarget(rv.expr);
    if rv.isConst && PassesGates(env, bt, target.ty) {
      var path := LiftedPath(env, base + |rv.lifted|);
      var x := ReplaceTarget(rv.expr, StaticRef(target.ty, path));
      assert Lift(Borrow(ty, bt, v), env, base).expr == Borrow(ty, bt, x);
      PromotedBorrowIdle(ty, bt, rv.expr, path, env, base2);
    } else {
      assert Lift(Borrow(ty, bt, v), env, base) == Lifting(Borrow(ty, bt, rv.expr), false, rv.lifted);
      KeptBorrowIdle(ty, bt, rv.expr, rv.isConst, env, base2);
    }
  }

  /** A borrow that refers to a static which the resolver does not call constant is left alone. */
  lemma {:induction false} PromotedBorrowIdle(ty: TypeRef, bt: BorrowType, w: Expr, path: SimplePath, env: Env, b: nat)
    requires !PathIsConstant(env, Path(path, []))
    ensures Idle(Borrow(ty, bt, ReplaceTarget(w, StaticRef(BorrowTarget(w).ty, path))), true, env, b)
  {
    var sr := StaticRef(BorrowTarget(w).ty, path);
    assert Lift(sr, env, b) == Lifting(sr, false, []);
    var x := ReplaceTarget(w, sr);
    assert Lift(x, env, b) == Lifting(x, false, []);
  }

  /** A borrow whose idle operand does not pass the test again stays as it is and is not constant. */
  lemma {:induction false} KeptBorrowIdle(ty: TypeRef, bt: BorrowType, w: Expr, c: bool, env: Env, b: nat)
    requires Idle(w, c, env, b) && !(c && PassesGates(env, bt, BorrowTarget(w).ty))
    ensures Idle(Borrow(ty, bt, w), false, env, b)
  {
  }

  lemma {:induction false} SecondRunPromotesNothingAll(cs: seq<Expr>, env: Env, base: nat, base2: nat)
    requires LiftedPathsAreStatics(env)
    ensures var r := LiftAll(cs, env, base);
            IdleAll(r.exprs, r.allConst, env, base2)
    decreases cs
  {
    if cs == [] {
      assert LiftAll([], env, base2) == Liftings([], true, []);
    } else {
      var init := cs[..|cs| - 1];
      var last := cs[|cs| - 1];
      var ri := LiftAll(init, env, base);
      var rl := Lift(last, env, base + |ri.lifted|);
      SecondRunPromotesNothingAll(init, env, base, base2);
      SecondRunPromotesNothing(last, env, base + |ri.lifted|, base2);
      assert LiftAll(cs, env, base) == Liftings(ri.exprs + [rl.expr], ri.allConst && rl.isConst, ri.lifted + rl.lifted);
      IdleSnoc(ri.exprs, ri.allConst, rl.expr, rl.isConst, env, base2);
    }
  }

  /** Idle children followed by one more idle child are idle together. */
  lemma {:induction false} IdleSnoc(xs: seq<Expr>, c: bool, x: Expr, d: bool, env: Env, b: nat)
    requires IdleAll(xs, c, env, b) && Idle(x, d, env, b)
    ensures IdleAll(xs + [x], c && d, env, b)
  {
    LiftAllSnoc(xs, x, env, b);
  }
}
