/*
 * What the crate visitor does to the items that hold expressions besides
 * bodies and initializers, as functions: the discriminants of a value enum
 * and the unevaluated array sizes inside types are each handed to a fresh
 * classifier, in walk order, the registry numbering on from one run to the
 * next.
 */
module Walk {
  import opened Wrappers
  import opened Hir
  import opened Classification
  import opened PromotionProperties
  import opened Registry

  /** A rewritten value together with the registry after rewriting it. */
  datatype Run<T> = Run(out: T, ns: PendingMap)

  /**
   * One fresh classifier over `root`, with the generics `sc` in scope and
   * `cur` current, starting from the registry `ns0`.
   */
  function RunRoot(res: Resolver, sc: Scope, cur: Option<ModPath>, root: ExprRoot, ns0: PendingMap): Run<ExprRoot> {
    var r := Lift(root.node, Env(res, sc, root.state, cur), NextIndex(ns0, cur));
    Run(ExprRoot(r.expr, root.state), Record(ns0, cur, r.lifted))
  }

  /** A classifier run only appends, and only to the current module's list. */
  lemma {:induction false} RunRootGrows(res: Resolver, sc: Scope, cur: Option<ModPath>, root: ExprRoot, ns0: PendingMap)
    ensures GrewIn(ns0, RunRoot(res, sc, cur, root, ns0).ns, cur)
  {
    var r := Lift(root.node, Env(res, sc, root.state, cur), NextIndex(ns0, cur));
    if cur.Some? {
      RecordGrows(ns0, cur, r.lifted);
    }
  }

  /** A root without shared borrows is left as it was and requests nothing. */
  lemma {:induction false} RunRootUnchanged(res: Resolver, sc: Scope, cur: Option<ModPath>, root: ExprRoot, ns0: PendingMap)
    requires SharedBorrows(root.node) == 0
    ensures RunRoot(res, sc, cur, root, ns0) == Run(root, ns0)
  {
    NoSharedBorrowUnchanged(root.node, Env(res, sc, root.state, cur), NextIndex(ns0, cur));
  }

  // ---- Enums ----

  /** Each variant's discriminant expression, when it has one, is classified in order. */
  function RunVariants(res: Resolver, sc: Scope, cur: Option<ModPath>, vs: seq<EnumVariant>, ns0: PendingMap): Run<seq<EnumVariant>>
    decreases |vs|
  {
    if vs == [] then Run([], ns0)
    else
      var init := RunVariants(res, sc, cur, vs[..|vs| - 1], ns0);
      var v := vs[|vs| - 1];
      if v.expr.None? then Run(init.out + [v], init.ns)
      else
        var r := RunRoot(res, sc, cur, v.expr.value, init.ns);
        Run(init.out + [v.(expr := Some(r.out))], r.ns)
  }

  /**
   * A value-only enum has its discriminants classified with its own generics
   * as the impl generics; an enum with data variants is left alone.
   */
  function RunEnum(res: Resolver, sc: Scope, cur: Option<ModPath>, en: Enum, ns0: PendingMap): Run<Enum> {
    if en.data.DataVariants? then Run(en, ns0)
    else
      var r := RunVariants(res, sc.(implGenerics := Some(en.params)), cur, en.data.variants, ns0);
      Run(Enum(en.params, ValueVariants(r.out)), r.ns)
  }

  predicate SameVariants(vs: seq<EnumVariant>, ws: seq<EnumVariant>) {
    && |vs| == |ws|
    && forall k :: 0 <= k < |vs| ==> ws[k].name == vs[k].name && ws[k].expr.Some? == vs[k].expr.Some?
  }

  /** The run over `vs[..i + 1]` extends the run over `vs[..i]` by variant `i`. */
  lemma {:induction false} RunVariantsStep(res: Resolver, sc: Scope, cur: Option<ModPath>, vs: seq<EnumVariant>, i: nat, ns0: PendingMap)
    requires i < |vs|
    ensures var init := RunVariants(res, sc, cur, vs[..i], ns0);
            RunVariants(res, sc, cur, vs[..i + 1], ns0)
            == if vs[i].expr.None? then Run(init.out + [vs[i]], init.ns)
               else
                 var r := RunRoot(res, sc, cur, vs[i].expr.value, init.ns);
                 Run(init.out + [vs[i].(expr := Some(r.out))], r.ns)
  {
    assert vs[..i + 1][..i] == vs[..i];
  }

  /**
   * Variants keep their names, order and whether they have a discriminant,
   * and the registry only grows in the current module.
   */
  lemma {:induction false} RunVariantsKeeps(res: Resolver, sc: Scope, cur: Option<ModPath>, vs: seq<EnumVariant>, ns0: PendingMap)
    ensures var r := RunVariants(res, sc, cur, vs, ns0);
            SameVariants(vs, r.out) && GrewIn(ns0, r.ns, cur)
    decreases |vs|
  {
    if vs != [] {
      var init := RunVariants(res, sc, cur, vs[..|vs| - 1], ns0);
      RunVariantsKeeps(res, sc, cur, vs[..|vs| - 1], ns0);
      var v := vs[|vs| - 1];
      if v.expr.Some? {
        RunRootGrows(res, sc, cur, v.expr.value, init.ns);
        GrewInTrans(ns0, init.ns, RunRoot(res, sc, cur, v.expr.value, init.ns).ns, cur);
      }
    }
  }

  /** Discriminants without shared borrows leave the variants and the registry as they were. */
  lemma {:induction false} RunVariantsUnchanged(res: Resolver, sc: Scope, cur: Option<ModPath>, vs: seq<EnumVariant>, ns0: PendingMap)
    requires forall k :: 0 <= k < |vs| && vs[k].expr.Some? ==> SharedBorrows(vs[k].expr.value.node) == 0
    ensures RunVariants(res, sc, cur, vs, ns0) == Run(vs, ns0)
    decreases |vs|
  {
    if vs != [] {
      var init := vs[..|vs| - 1];
      RunVariantsUnchanged(res, sc, cur, init, ns0);
      var v := vs[|vs| - 1];
      if v.expr.Some? {
        RunRootUnchanged(res, sc, cur, v.expr.value, ns0);
      }
      assert init + [v] == vs;
    }
  }

  /**
   * An enum keeps its generics and its variants' names and order; one with
   * data variants is unchanged; the registry only grows in the current module.
   */
  lemma {:induction false} RunEnumKeeps(res: Resolver, sc: Scope, cur: Option<ModPath>, en: Enum, ns0: PendingMap)
    ensures var r := RunEnum(res, sc, cur, en, ns0);
            && r.out.params == en.params
            && r.out.data.ValueVariants? == en.data.ValueVariants?
            && (en.data.DataVariants? ==> r.out == en && r.ns == ns0)
            && (en.data.ValueVariants? ==> SameVariants(en.data.variants, r.out.data.variants))
            && GrewIn(ns0, r.ns, cur)
  {
    if en.data.ValueVariants? {
      RunVariantsKeeps(res, sc.(implGenerics := Some(en.params)), cur, en.data.variants, ns0);
    }
  }

  // ---- Types ----

  /** Whether an array size still to be evaluated occurs anywhere in `t`. */
  predicate HasUnevaluatedSize(t: TypeRef)
    decreases t
  {
    match t
    case TArray(inner, size) => HasUnevaluatedSize(inner) || (size.Unevaluated? && size.cg.CgUnevaluated?)
    case TPath(p) => AnyUnevaluatedSize(p.args)
    case TTuple(elems) => AnyUnevaluatedSize(elems)
    case TSlice(inner) => HasUnevaluatedSize(inner)
    case TBorrow(_, inner) => HasUnevaluatedSize(inner)
    case TPrimitive(_) => false
    case TGeneric(_) => false
  }

  predicate AnyUnevaluatedSize(ts: seq<TypeRef>)
    decreases ts
  {
    exists k :: 0 <= k < |ts| && HasUnevaluatedSize(ts[k])
  }

  /**
   * Walks a type: in an array type the element type first, then an
   * unevaluated size expression is classified; other types have their
   * component types walked in order.
   */
  function RunType(res: Resolver, sc: Scope, cur: Option<ModPath>, t: TypeRef, ns0: PendingMap): Run<TypeRef>
    decreases t
  {
    match t
    case TArray(inner, size) =>
      var ri := RunType(res, sc, cur, inner, ns0);
      if size.Unevaluated? && size.cg.CgUnevaluated? then
        var re := RunRoot(res, sc, cur, size.cg.expr, ri.ns);
        Run(TArray(ri.out, Unevaluated(CgUnevaluated(re.out))), re.ns)
      else Run(TArray(ri.out, size), ri.ns)
    case TPath(path) =>
      var ra := RunTypes(res, sc, cur, path.args, ns0);
      Run(TPath(Path(path.components, ra.out)), ra.ns)
    case TTuple(elems) =>
      var ra := RunTypes(res, sc, cur, elems, ns0);
      Run(TTuple(ra.out), ra.ns)
    case TSlice(inner) =>
      var ri := RunType(res, sc, cur, inner, ns0);
      Run(TSlice(ri.out), ri.ns)
    case TBorrow(bt, inner) =>
      var ri := RunType(res, sc, cur, inner, ns0);
      Run(TBorrow(bt, ri.out), ri.ns)
    case TPrimitive(_) => Run(t, ns0)
    case TGeneric(_) => Run(t, ns0)
  }

  function RunTypes(res: Resolver, sc: Scope, cur: Option<ModPath>, ts: seq<TypeRef>, ns0: PendingMap): Run<seq<TypeRef>>
    decreases ts
  {
    if ts == [] then Run([], ns0)
    else
      var init := RunTypes(res, sc, cur, ts[..|ts| - 1], ns0);
      var last := RunType(res, sc, cur, ts[|ts| - 1], init.ns);
      Run(init.out + [last.out], last.ns)
  }

  /** The run over `ts[..i + 1]` extends the run over `ts[..i]` by type `i`. */
  lemma {:induction false} RunTypesStep(res: Resolver, sc: Scope, cur: Option<ModPath>, ts: seq<TypeRef>, i: nat, ns0: PendingMap)
    requires i < |ts|
    ensures var init := RunTypes(res, sc, cur, ts[..i], ns0);
            var last := RunType(res, sc, cur, ts[i], init.ns);
            RunTypes(res, sc, cur, ts[..i + 1], ns0) == Run(init.out + [last.out], last.ns)
  {
    assert ts[..i + 1][..i] == ts[..i];
  }

  /** Walking a type only appends to the registry, and only to the current module's list. */
  lemma {:induction false} RunTypeGrows(res: Resolver, sc: Scope, cur: Option<ModPath>, t: TypeRef, ns0: PendingMap)
    ensures GrewIn(ns0, RunType(res, sc, cur, t, ns0).ns, cur)
    decreases t
  {
    match t
    case TArray(inner, size) =>
      var ri := RunType(res, sc, cur, inner, ns0);
      RunTypeGrows(res, sc, cur, inner, ns0);
      if size.Unevaluated? && size.cg.CgUnevaluated? {
        RunRootGrows(res, sc, cur, size.cg.expr, ri.ns);
        GrewInTrans(ns0, ri.ns, RunRoot(res, sc, cur, size.cg.expr, ri.ns).ns, cur);
      }
    case TPath(path) => RunTypesGrows(res, sc, cur, path.args, ns0);
    case TTuple(elems) => RunTypesGrows(res, sc, cur, elems, ns0);
    case TSlice(inner) => RunTypeGrows(res, sc, cur, inner, ns0);
    case TBorrow(_, inner) => RunTypeGrows(res, sc, cur, inner, ns0);
    case TPrimitive(_) =>
    case TGeneric(_) =>
  }

  lemma {:induction false} RunTypesGrows(res: Resolver, sc: Scope, cur: Option<ModPath>, ts: seq<TypeRef>, ns0: PendingMap)
    ensures GrewIn(ns0, RunTypes(res, sc, cur, ts, ns0).ns, cur)
    decreases ts
  {
    if ts != [] {
      var init := RunTypes(res, sc, cur, ts[..|ts| - 1], ns0);
      RunTypesGrows(res, sc, cur, ts[..|ts| - 1], ns0);
      RunTypeGrows(res, sc, cur, ts[|ts| - 1], init.ns);
      GrewInTrans(ns0, init.ns, RunType(res, sc, cur, ts[|ts| - 1], init.ns).ns, cur);
    }
  }

  /** A type with no unevaluated array size is returned as it was, and nothing is requested. */
  lemma {:induction false} RunTypeUnchanged(res: Resolver, sc: Scope, cur: Option<ModPath>, t: TypeRef, ns0: PendingMap)
    requires !HasUnevaluatedSize(t)
    ensures RunType(res, sc, cur, t, ns0) == Run(t, ns0)
    decreases t
  {
    match t
    case TArray(inner, size) => RunTypeUnchanged(res, sc, cur, inner, ns0);
    case TPath(path) =>
      RunTypesUnchanged(res, sc, cur, path.args, ns0);
      assert Path(path.components, path.args) == path;
    case TTuple(elems) => RunTypesUnchanged(res, sc, cur, elems, ns0);
    case TSlice(inner) => RunTypeUnchanged(res, sc, cur, inner, ns0);
    case TBorrow(_, inner) => RunTypeUnchanged(res, sc, cur, inner, ns0);
    case TPrimitive(_) =>
    case TGeneric(_) =>
  }

  lemma {:induction false} RunTypesUnchanged(res: Resolver, sc: Scope, cur: Option<ModPath>, ts: seq<TypeRef>, ns0: PendingMap)
    requires !AnyUnevaluatedSize(ts)
    ensures RunTypes(res, sc, cur, ts, ns0) == Run(ts, ns0)
    decreases ts
  {
    if ts != [] {
      var init := ts[..|ts| - 1];
      var last := ts[|ts| - 1];
      assert !AnyUnevaluatedSize(init) by {
        forall k | 0 <= k < |init| ensures !HasUnevaluatedSize(init[k]) {
          assert init[k] == ts[k];
        }
      }
      assert !HasUnevaluatedSize(last);
      RunTypesUnchanged(res, sc, cur, init, ns0);
      RunTypeUnchanged(res, sc, cur, last, ns0);
      assert init + [last] == ts;
    }
  }

  // ---- Items with a body or an initializer ----

  /** `g` is `f` with at most its body rewritten; a body is neither added nor removed. */
  predicate SameSignature(f: Function, g: Function) {
    && g == f.(code := g.code)
    && g.code.Some? == f.code.Some?
    && (f.code.Some? ==> g.code.value.state == f.code.value.state)
  }

  /** A function's body, when it has one, is classified with the function's generics as the item generics. */
  function RunFunction(res: Resolver, sc: Scope, cur: Option<ModPath>, f: Function, ns0: PendingMap): Run<Function> {
    if f.code.None? then Run(f, ns0)
    else
      var r := RunRoot(res, sc.(itemGenerics := Some(f.params)), cur, f.code.value, ns0);
      Run(f.(code := Some(r.out)), r.ns)
  }

  /** A static's initializer, when it has one, is classified; its type is not walked. */
  function RunStatic(res: Resolver, sc: Scope, cur: Option<ModPath>, st: Static, ns0: PendingMap): Run<Static> {
    if st.value.None? then Run(st, ns0)
    else
      var r := RunRoot(res, sc, cur, st.value.value, ns0);
      Run(st.(value := Some(r.out)), r.ns)
  }

  /** A constant's value, when it has one, is classified; its type is not walked. */
  function RunConstant(res: Resolver, sc: Scope, cur: Option<ModPath>, c: Constant, ns0: PendingMap): Run<Constant> {
    if c.value.None? then Run(c, ns0)
    else
      var r := RunRoot(res, sc, cur, c.value.value, ns0);
      Run(c.(value := Some(r.out)), r.ns)
  }

  function RunFunctions(res: Resolver, sc: Scope, cur: Option<ModPath>, fs: seq<Named<Function>>, ns0: PendingMap): Run<seq<Named<Function>>>
    decreases |fs|
  {
    if fs == [] then Run([], ns0)
    else
      var init := RunFunctions(res, sc, cur, fs[..|fs| - 1], ns0);
      var last := RunFunction(res, sc, cur, fs[|fs| - 1].item, init.ns);
      Run(init.out + [Named(fs[|fs| - 1].name, last.out)], last.ns)
  }

  function RunConstants(res: Resolver, sc: Scope, cur: Option<ModPath>, cs: seq<Named<Constant>>, ns0: PendingMap): Run<seq<Named<Constant>>>
    decreases |cs|
  {
    if cs == [] then Run([], ns0)
    else
      var init := RunConstants(res, sc, cur, cs[..|cs| - 1], ns0);
      var last := RunConstant(res, sc, cur, cs[|cs| - 1].item, init.ns);
      Run(init.out + [Named(cs[|cs| - 1].name, last.out)], last.ns)
  }

  function RunStatics(res: Resolver, sc: Scope, cur: Option<ModPath>, ss: seq<Named<Static>>, ns0: PendingMap): Run<seq<Named<Static>>>
    decreases |ss|
  {
    if ss == [] then Run([], ns0)
    else
      var init := RunStatics(res, sc, cur, ss[..|ss| - 1], ns0);
      var last := RunStatic(res, sc, cur, ss[|ss| - 1].item, init.ns);
      Run(init.out + [Named(ss[|ss| - 1].name, last.out)], last.ns)
  }

  /** The associated types of a trait impl, each walked as a type. */
  function RunNamedTypes(res: Resolver, sc: Scope, cur: Option<ModPath>, ts: seq<Named<TypeRef>>, ns0: PendingMap): Run<seq<Named<TypeRef>>>
    decreases |ts|
  {
    if ts == [] then Run([], ns0)
    else
      var init := RunNamedTypes(res, sc, cur, ts[..|ts| - 1], ns0);
      var last := RunType(res, sc, cur, ts[|ts| - 1].item, init.ns);
      Run(init.out + [Named(ts[|ts| - 1].name, last.out)], last.ns)
  }

  lemma {:induction false} RunFunctionsStep(res: Resolver, sc: Scope, cur: Option<ModPath>, fs: seq<Named<Function>>, i: nat, ns0: PendingMap)
    requires i < |fs|
    ensures var init := RunFunctions(res, sc, cur, fs[..i], ns0);
            var last := RunFunction(res, sc, cur, fs[i].item, init.ns);
            RunFunctions(res, sc, cur, fs[..i + 1], ns0) == Run(init.out + [Named(fs[i].name, last.out)], last.ns)
  {
    assert fs[..i + 1][..i] == fs[..i];
  }

  lemma {:induction false} RunConstantsStep(res: Resolver, sc: Scope, cur: Option<ModPath>, cs: seq<Named<Constant>>, i: nat, ns0: PendingMap)
    requires i < |cs|
    ensures var init := RunConstants(res, sc, cur, cs[..i], ns0);
            var last := RunConstant(res, sc, cur, cs[i].item, init.ns);
            RunConstants(res, sc, cur, cs[..i + 1], ns0) == Run(init.out + [Named(cs[i].name, last.out)], last.ns)
  {
    assert cs[..i + 1][..i] == cs[..i];
  }

  lemma {:induction false} RunStaticsStep(res: Resolver, sc: Scope, cur: Option<ModPath>, ss: seq<Named<Static>>, i: nat, ns0: PendingMap)
    requires i < |ss|
    ensures var init := RunStatics(res, sc, cur, ss[..i], ns0);
            var last := RunStatic(res, sc, cur, ss[i].item, init.ns);
            RunStatics(res, sc, cur, ss[..i + 1], ns0) == Run(init.out + [Named(ss[i].name, last.out)], last.ns)
  {
    assert ss[..i + 1][..i] == ss[..i];
  }

  lemma {:induction false} RunNamedTypesStep(res: Resolver, sc: Scope, cur: Option<ModPath>, ts: seq<Named<TypeRef>>, i: nat, ns0: PendingMap)
    requires i < |ts|
    ensures var init := RunNamedTypes(res, sc, cur, ts[..i], ns0);
            var last := RunType(res, sc, cur, ts[i].item, init.ns);
            RunNamedTypes(res, sc, cur, ts[..i + 1], ns0) == Run(init.out + [Named(ts[i].name, last.out)], last.ns)
  {
    assert ts[..i + 1][..i] == ts[..i];
  }

  /** A function keeps its signature, and the registry only grows in the current module. */
  lemma {:induction false} RunFunctionKeeps(res: Resolver, sc: Scope, cur: Option<ModPath>, f: Function, ns0: PendingMap)
    ensures var r := RunFunction(res, sc, cur, f, ns0);
            SameSignature(f, r.out) && GrewIn(ns0, r.ns, cur)
  {
    if f.code.Some? {
      RunRootGrows(res, sc.(itemGenerics := Some(f.params)), cur, f.code.value, ns0);
    }
  }

  /** Methods keep their names, order and signatures; the registry only grows in the current module. */
  lemma {:induction false} RunFunctionsKeeps(res: Resolver, sc: Scope, cur: Option<ModPath>, fs: seq<Named<Function>>, ns0: PendingMap)
    ensures var r := RunFunctions(res, sc, cur, fs, ns0);
            && SameNames(fs, r.out)
            && (forall k :: 0 <= k < |fs| ==> SameSignature(fs[k].item, r.out[k].item))
            && GrewIn(ns0, r.ns, cur)
    decreases |fs|
  {
    if fs != [] {
      var init := RunFunctions(res, sc, cur, fs[..|fs| - 1], ns0);
      RunFunctionsKeeps(res, sc, cur, fs[..|fs| - 1], ns0);
      RunFunctionKeeps(res, sc, cur, fs[|fs| - 1].item, init.ns);
      GrewInTrans(ns0, init.ns, RunFunction(res, sc, cur, fs[|fs| - 1].item, init.ns).ns, cur);
    }
  }

  /** Constants keep their names and order; the registry only grows in the current module. */
  lemma {:induction false} RunConstantsKeeps(res: Resolver, sc: Scope, cur: Option<ModPath>, cs: seq<Named<Constant>>, ns0: PendingMap)
    ensures var r := RunConstants(res, sc, cur, cs, ns0);
            SameNames(cs, r.out) && GrewIn(ns0, r.ns, cur)
    decreases |cs|
  {
    if cs != [] {
      var init := RunConstants(res, sc, cur, cs[..|cs| - 1], ns0);
      RunConstantsKeeps(res, sc, cur, cs[..|cs| - 1], ns0);
      var c := cs[|cs| - 1].item;
      if c.value.Some? {
        RunRootGrows(res, sc, cur, c.value.value, init.ns);
      }
      GrewInTrans(ns0, init.ns, RunConstant(res, sc, cur, c, init.ns).ns, cur);
    }
  }

  /** Statics keep their names and order; the registry only grows in the current module. */
  lemma {:induction false} RunStaticsKeeps(res: Resolver, sc: Scope, cur: Option<ModPath>, ss: seq<Named<Static>>, ns0: PendingMap)
    ensures var r := RunStatics(res, sc, cur, ss, ns0);
            SameNames(ss, r.out) && GrewIn(ns0, r.ns, cur)
    decreases |ss|
  {
    if ss != [] {
      var init := RunStatics(res, sc, cur, ss[..|ss| - 1], ns0);
      RunStaticsKeeps(res, sc, cur, ss[..|ss| - 1], ns0);
      var st := ss[|ss| - 1].item;
      if st.value.Some? {
        RunRootGrows(res, sc, cur, st.value.value, init.ns);
      }
      GrewInTrans(ns0, init.ns, RunStatic(res, sc, cur, st, init.ns).ns, cur);
    }
  }

  /** Associated types keep their names and order; the registry only grows in the current module. */
  lemma {:induction false} RunNamedTypesKeeps(res: Resolver, sc: Scope, cur: Option<ModPath>, ts: seq<Named<TypeRef>>, ns0: PendingMap)
    ensures var r := RunNamedTypes(res, sc, cur, ts, ns0);
            SameNames(ts, r.out) && GrewIn(ns0, r.ns, cur)
    decreases |ts|
  {
    if ts != [] {
      var init := RunNamedTypes(res, sc, cur, ts[..|ts| - 1], ns0);
      RunNamedTypesKeeps(res, sc, cur, ts[..|ts| - 1], ns0);
      RunTypeGrows(res, sc, cur, ts[|ts| - 1].item, init.ns);
      GrewInTrans(ns0, init.ns, RunType(res, sc, cur, ts[|ts| - 1].item, init.ns).ns, cur);
    }
  }

  // ---- Modules ----

  /** A value item: functions, statics and constants are walked; any other value is left alone. */
  function RunValueItem(res: Resolver, sc: Scope, cur: Option<ModPath>, v: Named<VisEnt>, ns0: PendingMap): Run<Named<VisEnt>> {
    match v.item.ent
    case FunctionItem(f) =>
      var r := RunFunction(res, sc, cur, f, ns0);
      Run(Named(v.name, VisEnt(v.item.publicity, FunctionItem(r.out))), r.ns)
    case StaticItem(st) =>
      var r := RunStatic(res, sc, cur, st, ns0);
      Run(Named(v.name, VisEnt(v.item.publicity, StaticItem(r.out))), r.ns)
    case ConstantItem(c) =>
      var r := RunConstant(res, sc, cur, c, ns0);
      Run(Named(v.name, VisEnt(v.item.publicity, ConstantItem(r.out))), r.ns)
    case OtherValue(_) => Run(v, ns0)
  }

  function RunValueItems(res: Resolver, sc: Scope, cur: Option<ModPath>, vs: seq<Named<VisEnt>>, ns0: PendingMap): Run<seq<Named<VisEnt>>>
    decreases |vs|
  {
    if vs == [] then Run([], ns0)
    else
      var init := RunValueItems(res, sc, cur, vs[..|vs| - 1], ns0);
      var last := RunValueItem(res, sc, cur, vs[|vs| - 1], init.ns);
      Run(init.out + [last.out], last.ns)
  }

  /**
   * An item of the type namespace of the module at `p`, with `cur` current:
   * a submodule is walked as the module at `p` extended by its name; an enum,
   * a struct's field types, an alias's target type and a trait's methods are
   * walked with `cur` current.
   */
  function RunTypeItem(res: Resolver, sc: Scope, p: ModPath, cur: Option<ModPath>, t: Named<TypeItem>, ns0: PendingMap): Run<Named<TypeItem>>
    decreases t
  {
    match t.item
    case ModuleItem(sub) =>
      var r := RunModule(res, sc, p + [t.name], sub, ns0);
      Run(Named(t.name, ModuleItem(r.out)), r.ns)
    case EnumItem(en) =>
      var r := RunEnum(res, sc, cur, en, ns0);
      Run(Named(t.name, EnumItem(r.out)), r.ns)
    case StructItem(params, fields) =>
      var r := RunTypes(res, sc, cur, fields, ns0);
      Run(Named(t.name, StructItem(params, r.out)), r.ns)
    case TypeAlias(params, aliased) =>
      var r := RunType(res, sc, cur, aliased, ns0);
      Run(Named(t.name, TypeAlias(params, r.out)), r.ns)
    case TraitItem(params, methods) =>
      var r := RunFunctions(res, sc, cur, methods, ns0);
      Run(Named(t.name, TraitItem(params, r.out)), r.ns)
  }

  /** The type namespace of the module at `p`, in order, with that module current. */
  function RunTypeItems(res: Resolver, sc: Scope, p: ModPath, ts: seq<Named<TypeItem>>, ns0: PendingMap): Run<seq<Named<TypeItem>>>
    decreases ts
  {
    if ts == [] then Run([], ns0)
    else
      var init := RunTypeItems(res, sc, p, ts[..|ts| - 1], ns0);
      var last := RunTypeItem(res, sc, p, Some(p), ts[|ts| - 1], init.ns);
      Run(init.out + [last.out], last.ns)
  }

  /** The module at `p`: its type namespace, then its value namespace, with the module current. */
  function RunModule(res: Resolver, sc: Scope, p: ModPath, m: Module, ns0: PendingMap): Run<Module>
    decreases m
  {
    var types := RunTypeItems(res, sc, p, m.modItems, ns0);
    var values := RunValueItems(res, sc, Some(p), m.valueItems, types.ns);
    Run(Module(values.out, types.out), values.ns)
  }

  lemma {:induction false} RunValueItemsStep(res: Resolver, sc: Scope, cur: Option<ModPath>, vs: seq<Named<VisEnt>>, i: nat, ns0: PendingMap)
    requires i < |vs|
    ensures var init := RunValueItems(res, sc, cur, vs[..i], ns0);
            var last := RunValueItem(res, sc, cur, vs[i], init.ns);
            RunValueItems(res, sc, cur, vs[..i + 1], ns0) == Run(init.out + [last.out], last.ns)
  {
    assert vs[..i + 1][..i] == vs[..i];
  }

  lemma {:induction false} RunTypeItemsStep(res: Resolver, sc: Scope, p: ModPath, ts: seq<Named<TypeItem>>, i: nat, ns0: PendingMap)
    requires i < |ts|
    ensures var init := RunTypeItems(res, sc, p, ts[..i], ns0);
            var last := RunTypeItem(res, sc, p, Some(p), ts[i], init.ns);
            RunTypeItems(res, sc, p, ts[..i + 1], ns0) == Run(init.out + [last.out], last.ns)
  {
    assert ts[..i + 1][..i] == ts[..i];
  }

  /**
   * A value item keeps its name and publicity, an item other than a
   * function, static or constant is unchanged, and the registry only grows
   * in the current module.
   */
  lemma {:induction false} RunValueItemKeeps(res: Resolver, sc: Scope, cur: Option<ModPath>, v: Named<VisEnt>, ns0: PendingMap)
    ensures var r := RunValueItem(res, sc, cur, v, ns0);
            && r.out.name == v.name && r.out.item.publicity == v.item.publicity
            && (v.item.ent.OtherValue? ==> r == Run(v, ns0))
            && GrewIn(ns0, r.ns, cur)
  {
    match v.item.ent
    case FunctionItem(f) => RunFunctionKeeps(res, sc, cur, f, ns0);
    case StaticItem(st) =>
      if st.value.Some? {
        RunRootGrows(res, sc, cur, st.value.value, ns0);
      }
    case ConstantItem(c) =>
      if c.value.Some? {
        RunRootGrows(res, sc, cur, c.value.value, ns0);
      }
    case OtherValue(_) =>
  }

  /** Value items keep their names, order and publicity; the registry only grows in the current module. */
  lemma {:induction false} RunValueItemsKeeps(res: Resolver, sc: Scope, cur: Option<ModPath>, vs: seq<Named<VisEnt>>, ns0: PendingMap)
    ensures var r := RunValueItems(res, sc, cur, vs, ns0);
            && SameNames(vs, r.out)
            && (forall k :: 0 <= k < |vs| ==> r.out[k].item.publicity == vs[k].item.publicity)
            && GrewIn(ns0, r.ns, cur)
    decreases |vs|
  {
    if vs != [] {
      var init := RunValueItems(res, sc, cur, vs[..|vs| - 1], ns0);
      RunValueItemsKeeps(res, sc, cur, vs[..|vs| - 1], ns0);
      RunValueItemKeeps(res, sc, cur, vs[|vs| - 1], init.ns);
      GrewInTrans(ns0, init.ns, RunValueItem(res, sc, cur, vs[|vs| - 1], init.ns).ns, cur);
    }
  }

  /**
   * A type item keeps its name and kind, a submodule its layout; a
   * submodule's statics go under it, any other item's to the current module.
   */
  lemma {:induction false} RunTypeItemKeeps(res: Resolver, sc: Scope, p: ModPath, cur: Option<ModPath>, t: Named<TypeItem>, ns0: PendingMap)
    ensures var r := RunTypeItem(res, sc, p, cur, t, ns0);
            && SameItemLayout(t, r.out)
            && (t.item.ModuleItem? ==> GrowsUnder(ns0, r.ns, p + [t.name]))
            && (!t.item.ModuleItem? ==> GrewIn(ns0, r.ns, cur))
    decreases t
  {
    match t.item
    case ModuleItem(sub) => RunModuleKeeps(res, sc, p + [t.name], sub, ns0);
    case EnumItem(en) => RunEnumKeeps(res, sc, cur, en, ns0);
    case StructItem(_, fields) => RunTypesGrows(res, sc, cur, fields, ns0);
    case TypeAlias(_, aliased) => RunTypeGrows(res, sc, cur, aliased, ns0);
    case TraitItem(_, methods) => RunFunctionsKeeps(res, sc, cur, methods, ns0);
  }

  /** The type namespace of the module at `p` keeps its layout, and statics go under `p`. */
  lemma {:induction false} RunTypeItemsKeeps(res: Resolver, sc: Scope, p: ModPath, ts: seq<Named<TypeItem>>, ns0: PendingMap)
    ensures var r := RunTypeItems(res, sc, p, ts, ns0);
            && |r.out| == |ts|
            && (forall k :: 0 <= k < |ts| ==> SameItemLayout(ts[k], r.out[k]))
            && GrowsUnder(ns0, r.ns, p)
    decreases ts
  {
    if ts != [] {
      var init := RunTypeItems(res, sc, p, ts[..|ts| - 1], ns0);
      var t := ts[|ts| - 1];
      RunTypeItemsKeeps(res, sc, p, ts[..|ts| - 1], ns0);
      RunTypeItemKeeps(res, sc, p, Some(p), t, init.ns);
      var last := RunTypeItem(res, sc, p, Some(p), t, init.ns);
      if t.item.ModuleItem? {
        GrowsUnderWiden(init.ns, last.ns, p + [t.name], p);
      }
      GrewInTrans(ns0, init.ns, last.ns, Some(p));
    }
  }

  /** Walking the module at `p` keeps its layout, and every static it creates goes to `p` or below. */
  lemma {:induction false} RunModuleKeeps(res: Resolver, sc: Scope, p: ModPath, m: Module, ns0: PendingMap)
    ensures var r := RunModule(res, sc, p, m, ns0);
            SameLayout(m, r.out) && GrowsUnder(ns0, r.ns, p)
    decreases m
  {
    var types := RunTypeItems(res, sc, p, m.modItems, ns0);
    RunTypeItemsKeeps(res, sc, p, m.modItems, ns0);
    RunValueItemsKeeps(res, sc, Some(p), m.valueItems, types.ns);
    GrewInTrans(ns0, types.ns, RunValueItems(res, sc, Some(p), m.valueItems, types.ns).ns, Some(p));
  }

  // ---- Impls and the crate ----

  /**
   * A type impl: its source module current and its generics the impl
   * generics, the self type, then the methods, then the constants.
   */
  function RunTypeImpl(res: Resolver, sc: Scope, impl: TypeImpl, ns0: PendingMap): Run<TypeImpl> {
    var cur := Some(impl.srcModule);
    var isc := sc.(implGenerics := Some(impl.params));
    var self := RunType(res, isc, cur, impl.selfTy, ns0);
    var fs := RunFunctions(res, isc, cur, impl.methods, self.ns);
    var cs := RunConstants(res, isc, cur, impl.constants, fs.ns);
    Run(TypeImpl(impl.params, self.out, impl.srcModule, fs.out, cs.out), cs.ns)
  }

  /** As `RunTypeImpl`, then the statics and the associated types. */
  function RunTraitImpl(res: Resolver, sc: Scope, impl: TraitImpl, ns0: PendingMap): Run<TraitImpl> {
    var cur := Some(impl.srcModule);
    var isc := sc.(implGenerics := Some(impl.params));
    var self := RunType(res, isc, cur, impl.selfTy, ns0);
    var fs := RunFunctions(res, isc, cur, impl.methods, self.ns);
    var cs := RunConstants(res, isc, cur, impl.constants, fs.ns);
    var ss := RunStatics(res, isc, cur, impl.statics, cs.ns);
    var ts := RunNamedTypes(res, isc, cur, impl.types, ss.ns);
    Run(TraitImpl(impl.params, impl.traitPath, self.out, impl.srcModule, fs.out, cs.out, ss.out, ts.out), ts.ns)
  }

  function RunTypeImpls(res: Resolver, sc: Scope, impls: seq<TypeImpl>, ns0: PendingMap): Run<seq<TypeImpl>>
    decreases |impls|
  {
    if impls == [] then Run([], ns0)
    else
      var init := RunTypeImpls(res, sc, impls[..|impls| - 1], ns0);
      var last := RunTypeImpl(res, sc, impls[|impls| - 1], init.ns);
      Run(init.out + [last.out], last.ns)
  }

  function RunTraitImpls(res: Resolver, sc: Scope, impls: seq<TraitImpl>, ns0: PendingMap): Run<seq<TraitImpl>>
    decreases |impls|
  {
    if impls == [] then Run([], ns0)
    else
      var init := RunTraitImpls(res, sc, impls[..|impls| - 1], ns0);
      var last := RunTraitImpl(res, sc, impls[|impls| - 1], init.ns);
      Run(init.out + [last.out], last.ns)
  }

  /** The whole walk: the root module, then every type impl, then every trait impl. */
  function RunCrate(res: Resolver, sc: Scope, c: Crate, ns0: PendingMap): Run<Crate> {
    var root := RunModule(res, sc, [], c.root, ns0);
    var ti := RunTypeImpls(res, sc, c.typeImpls, root.ns);
    var tr := RunTraitImpls(res, sc, c.traitImpls, ti.ns);
    Run(Crate(root.out, ti.out, tr.out), tr.ns)
  }

  lemma {:induction false} RunTypeImplsStep(res: Resolver, sc: Scope, impls: seq<TypeImpl>, i: nat, ns0: PendingMap)
    requires i < |impls|
    ensures var init := RunTypeImpls(res, sc, impls[..i], ns0);
            var last := RunTypeImpl(res, sc, impls[i], init.ns);
            RunTypeImpls(res, sc, impls[..i + 1], ns0) == Run(init.out + [last.out], last.ns)
  {
    assert impls[..i + 1][..i] == impls[..i];
  }

  lemma {:induction false} RunTraitImplsStep(res: Resolver, sc: Scope, impls: seq<TraitImpl>, i: nat, ns0: PendingMap)
    requires i < |impls|
    ensures var init := RunTraitImpls(res, sc, impls[..i], ns0);
            var last := RunTraitImpl(res, sc, impls[i], init.ns);
            RunTraitImpls(res, sc, impls[..i + 1], ns0) == Run(init.out + [last.out], last.ns)
  {
    assert impls[..i + 1][..i] == impls[..i];
  }

  /** `b` is the type impl `a` walked: same generics, source module, method signatures and item names. */
  predicate TypeImplKept(a: TypeImpl, b: TypeImpl) {
    && b.params == a.params && b.srcModule == a.srcModule
    && SameNames(a.methods, b.methods)
    && (forall k :: 0 <= k < |a.methods| ==> SameSignature(a.methods[k].item, b.methods[k].item))
    && SameNames(a.constants, b.constants)
  }

  /** As `TypeImplKept`, for a trait impl, which also keeps its trait, statics and associated types. */
  predicate TraitImplKept(a: TraitImpl, b: TraitImpl) {
    && b.params == a.params && b.traitPath == a.traitPath && b.srcModule == a.srcModule
    && SameNames(a.methods, b.methods)
    && (forall k :: 0 <= k < |a.methods| ==> SameSignature(a.methods[k].item, b.methods[k].item))
    && SameNames(a.constants, b.constants)
    && SameNames(a.statics, b.statics)
    && SameNames(a.types, b.types)
  }

  /** A type impl keeps what `TypeImplKept` names, and its statics go to its source module or below. */
  lemma {:induction false} RunTypeImplKeeps(res: Resolver, sc: Scope, impl: TypeImpl, ns0: PendingMap)
    ensures var r := RunTypeImpl(res, sc, impl, ns0);
            TypeImplKept(impl, r.out) && GrowsUnder(ns0, r.ns, impl.srcModule)
  {
    var cur := Some(impl.srcModule);
    var isc := sc.(implGenerics := Some(impl.params));
    var self := RunType(res, isc, cur, impl.selfTy, ns0);
    var fs := RunFunctions(res, isc, cur, impl.methods, self.ns);
    var cs := RunConstants(res, isc, cur, impl.constants, fs.ns);
    RunTypeGrows(res, isc, cur, impl.selfTy, ns0);
    RunFunctionsKeeps(res, isc, cur, impl.methods, self.ns);
    RunConstantsKeeps(res, isc, cur, impl.constants, fs.ns);
    GrewInTrans(ns0, self.ns, fs.ns, cur);
    GrewInTrans(ns0, fs.ns, cs.ns, cur);
  }

  /** A trait impl keeps what `TraitImplKept` names, and its statics go to its source module or below. */
  lemma {:induction false} RunTraitImplKeeps(res: Resolver, sc: Scope, impl: TraitImpl, ns0: PendingMap)
    ensures var r := RunTraitImpl(res, sc, impl, ns0);
            TraitImplKept(impl, r.out) && GrowsUnder(ns0, r.ns, impl.srcModule)
  {
    var cur := Some(impl.srcModule);
    var isc := sc.(implGenerics := Some(impl.params));
    var self := RunType(res, isc, cur, impl.selfTy, ns0);
    var fs := RunFunctions(res, isc, cur, impl.methods, self.ns);
    var cs := RunConstants(res, isc, cur, impl.constants, fs.ns);
    var ss := RunStatics(res, isc, cur, impl.statics, cs.ns);
    var ts := RunNamedTypes(res, isc, cur, impl.types, ss.ns);
    RunTypeGrows(res, isc, cur, impl.selfTy, ns0);
    RunFunctionsKeeps(res, isc, cur, impl.methods, self.ns);
    RunConstantsKeeps(res, isc, cur, impl.constants, fs.ns);
    RunStaticsKeeps(res, isc, cur, impl.statics, cs.ns);
    RunNamedTypesKeeps(res, isc, cur, impl.types, ss.ns);
    GrewInTrans(ns0, self.ns, fs.ns, cur);
    GrewInTrans(ns0, fs.ns, cs.ns, cur);
    GrewInTrans(ns0, cs.ns, ss.ns, cur);
    GrewInTrans(ns0, ss.ns, ts.ns, cur);
  }

  lemma {:induction false} ExtendsTrans(a: PendingMap, b: PendingMap, c: PendingMap)
    requires Extends(a, b) && Extends(b, c)
    ensures Extends(a, c)
  {
    forall m | m in a ensures m in c && a[m] <= c[m] {
      assert a[m] <= b[m] && b[m] <= c[m];
    }
  }

  lemma {:induction false} RunTypeImplsKeeps(res: Resolver, sc: Scope, impls: seq<TypeImpl>, ns0: PendingMap)
    ensures var r := RunTypeImpls(res, sc, impls, ns0);
            && |r.out| == |impls|
            && (forall k :: 0 <= k < |impls| ==> TypeImplKept(impls[k], r.out[k]))
            && Extends(ns0, r.ns)
    decreases |impls|
  {
    if impls != [] {
      var init := RunTypeImpls(res, sc, impls[..|impls| - 1], ns0);
      RunTypeImplsKeeps(res, sc, impls[..|impls| - 1], ns0);
      RunTypeImplKeeps(res, sc, impls[|impls| - 1], init.ns);
      ExtendsTrans(ns0, init.ns, RunTypeImpl(res, sc, impls[|impls| - 1], init.ns).ns);
    }
  }

  lemma {:induction false} RunTraitImplsKeeps(res: Resolver, sc: Scope, impls: seq<TraitImpl>, ns0: PendingMap)
    ensures var r := RunTraitImpls(res, sc, impls, ns0);
            && |r.out| == |impls|
            && (forall k :: 0 <= k < |impls| ==> TraitImplKept(impls[k], r.out[k]))
            && Extends(ns0, r.ns)
    decreases |impls|
  {
    if impls != [] {
      var init := RunTraitImpls(res, sc, impls[..|impls| - 1], ns0);
      RunTraitImplsKeeps(res, sc, impls[..|impls| - 1], ns0);
      RunTraitImplKeeps(res, sc, impls[|impls| - 1], init.ns);
      ExtendsTrans(ns0, init.ns, RunTraitImpl(res, sc, impls[|impls| - 1], init.ns).ns);
    }
  }

  /**
   * The walked crate has the layout of `c`, every impl keeps its
   * generics, source module and item names, and the registry only grows.
   */
  lemma {:induction false} RunCrateKeeps(res: Resolver, sc: Scope, c: Crate, ns0: PendingMap)
    ensures var r := RunCrate(res, sc, c, ns0);
            && SameLayout(c.root, r.out.root)
            && |r.out.typeImpls| == |c.typeImpls|
            && (forall k :: 0 <= k < |c.typeImpls| ==> TypeImplKept(c.typeImpls[k], r.out.typeImpls[k]))
            && |r.out.traitImpls| == |c.traitImpls|
            && (forall k :: 0 <= k < |c.traitImpls| ==> TraitImplKept(c.traitImpls[k], r.out.traitImpls[k]))
            && Extends(ns0, r.ns)
  {
    var root := RunModule(res, sc, [], c.root, ns0);
    var ti := RunTypeImpls(res, sc, c.typeImpls, root.ns);
    RunModuleKeeps(res, sc, [], c.root, ns0);
    RunTypeImplsKeeps(res, sc, c.typeImpls, root.ns);
    RunTraitImplsKeeps(res, sc, c.traitImpls, ti.ns);
    ExtendsTrans(ns0, root.ns, ti.ns);
    ExtendsTrans(ns0, ti.ns, RunTraitImpls(res, sc, c.traitImpls, ti.ns).ns);
  }
}
