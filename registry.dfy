/*
 * The per-module staging area for new statics and what committing it does to
 * the module tree: pending lists keyed by module, their naming invariant, the
 * evaluation of each pending static, and the insertion into the owning
 * module's value namespace.
 */
module Registry {
  import opened Wrappers
  import opened Hir
  import opened Names
  import opened Classification
  import opened PromotionProperties

  type PendingMap = map<ModPath, seq<PendingStatic>>

  /** A module's pending list; a module without an entry has an empty one. */
  function PendingIn(ns: PendingMap, m: ModPath): seq<PendingStatic> {
    if m in ns then ns[m] else []
  }

  /** The index the next static created in `current` will get. */
  function NextIndex(ns: PendingMap, current: Option<ModPath>): nat {
    if current.Some? then |PendingIn(ns, current.value)| else 0
  }

  /** The map after the statics `lifted` were appended, in order, to the current module's list. */
  function Record(ns: PendingMap, current: Option<ModPath>, lifted: seq<PendingStatic>): PendingMap {
    if current.None? || lifted == [] then ns
    else ns[current.value := PendingIn(ns, current.value) + lifted]
  }

  /** Entry `i` of module `m`'s list is the static `m::lifted#i`. */
  ghost predicate Canonical(m: ModPath, list: seq<PendingStatic>) {
    forall i :: 0 <= i < |list| ==> list[i].path == m + [LiftedName(i)]
  }

  ghost predicate AllCanonical(ns: PendingMap) {
    forall m | m in ns :: Canonical(m, ns[m])
  }

  function LastName(p: SimplePath): Ident {
    if p == [] then "" else p[|p| - 1]
  }

  /** Within one module, no two pending statics share a path or a name. */
  lemma {:induction false} CanonicalNamesDistinct(m: ModPath, list: seq<PendingStatic>)
    requires Canonical(m, list)
    ensures forall i, j :: 0 <= i < |list| && 0 <= j < |list| && i != j ==>
              list[i].path != list[j].path && LastName(list[i].path) != LastName(list[j].path)
  {
    forall i, j | 0 <= i < |list| && 0 <= j < |list| && i != j
      ensures LastName(list[i].path) != LastName(list[j].path)
    {
      LiftedNameInjective(i, j);
    }
  }

  /**
   * Appending the statics of one classifier run, numbered from the module's
   * current list length, keeps every list canonical.
   */
  lemma {:induction false} RecordKeepsCanonical(ns: PendingMap, env: Env, lifted: seq<PendingStatic>)
    requires AllCanonical(ns)
    requires env.current.Some? || lifted == []
    requires NamedFrom(lifted, env, NextIndex(ns, env.current))
    ensures AllCanonical(Record(ns, env.current, lifted))
  {
    if env.current.Some? && lifted != [] {
      var m := env.current.value;
      var list := PendingIn(ns, m) + lifted;
      forall i | 0 <= i < |list| ensures list[i].path == m + [LiftedName(i)] {
        if i >= |PendingIn(ns, m)| {
          assert lifted[i - |PendingIn(ns, m)|] == list[i];
        }
      }
    }
  }

  lemma {:induction false} RecordTwice(ns: PendingMap, current: Option<ModPath>, a: seq<PendingStatic>, b: seq<PendingStatic>)
    requires current.Some? || (a == [] && b == [])
    ensures Record(Record(ns, current, a), current, b) == Record(ns, current, a + b)
    ensures NextIndex(Record(ns, current, a), current) == NextIndex(ns, current) + |a|
  {
    if current.Some? {
      var m := current.value;
      if a != [] && b != [] {
        assert PendingIn(ns, m) + a + b == PendingIn(ns, m) + (a + b);
      } else if a == [] {
        assert a + b == b;
      } else {
        assert a + b == a;
      }
    }
  }

  /**
   * From `ns0` to `ns` lists were only appended to, and every list that
   * changed belongs to module `p` or to a module below it.
   */
  ghost predicate GrowsUnder(ns0: PendingMap, ns: PendingMap, p: ModPath) {
    && (forall m | m in ns0 :: m in ns && ns0[m] <= ns[m])
    && (forall m | m in ns && (m !in ns0 || ns[m] != ns0[m]) :: p <= m)
  }

  /** `ns` keeps every list of `ns0` as a prefix of its own. */
  ghost predicate Extends(ns0: PendingMap, ns: PendingMap) {
    forall m | m in ns0 :: m in ns && ns0[m] <= ns[m]
  }

  /** Growth while `current` is the current module: none at all when there is none. */
  ghost predicate GrewIn(ns0: PendingMap, ns: PendingMap, current: Option<ModPath>) {
    if current.Some? then GrowsUnder(ns0, ns, current.value) else ns == ns0
  }

  lemma {:induction false} RecordGrows(ns: PendingMap, current: Option<ModPath>, lifted: seq<PendingStatic>)
    requires current.Some? || lifted == []
    ensures GrewIn(ns, Record(ns, current, lifted), current)
  {
  }

  lemma {:induction false} GrewInTrans(a: PendingMap, b: PendingMap, c: PendingMap, current: Option<ModPath>)
    requires GrewIn(a, b, current) && GrewIn(b, c, current)
    ensures GrewIn(a, c, current)
  {
    if current.Some? {
      forall m | m in a ensures m in c && a[m] <= c[m] {
        assert a[m] <= b[m] && b[m] <= c[m];
      }
    }
  }

  /** Growth below a submodule is growth below its parent. */
  lemma {:induction false} GrowsUnderWiden(a: PendingMap, b: PendingMap, q: ModPath, p: ModPath)
    requires p <= q && GrowsUnder(a, b, q)
    ensures GrowsUnder(a, b, p)
  {
    forall m | m in b && (m !in a || b[m] != a[m]) ensures p <= m {
      assert q <= m;
    }
  }

  // ---- Commit: evaluation ----

  /** A static after commit: its value evaluated and the compiler-generated mark set. */
  function Committed(st: Static, v: EncodedLiteral): Static {
    st.(valueRes := Some(v), valueGenerated := true)
  }

  /** The entry a pending static becomes once evaluated to `v`: its own name, no publicity. */
  function CommittedEntry(p: PendingStatic, v: EncodedLiteral): Named<VisEnt> {
    Named(LastName(p.path), VisEnt(PubNone, StaticItem(Committed(p.item, v))))
  }

  function EvalOf(eval: Evaluator, p: PendingStatic): EvalOutcome {
    eval(p.path, p.item.value, p.item.ty)
  }

  /**
   * Evaluates the pending statics in order. Fails as soon as the evaluator
   * asks for a further static; otherwise gives the entry of each one.
   */
  function EvaluatePending(list: seq<PendingStatic>, eval: Evaluator): (r: Result<seq<Named<VisEnt>>, Bug>)
    ensures r.Success? <==> forall i :: 0 <= i < |list| ==> EvalOf(eval, list[i]).Evaluated?
    ensures r.Failure? ==> r.error == NewStaticDuringCommit
    ensures r.Success? ==> (|r.value| == |list| &&
              forall i :: 0 <= i < |list| ==> r.value[i] == CommittedEntry(list[i], EvalOf(eval, list[i]).value))
    decreases |list|
  {
    if list == [] then Success([])
    else
      var init := EvaluatePending(list[..|list| - 1], eval);
      var last := list[|list| - 1];
      if init.Failure? then init
      else match EvalOf(eval, last)
        case RequestedNewStatic => Failure(NewStaticDuringCommit)
        case Evaluated(v) => Success(init.value + [CommittedEntry(last, v)])
  }

  // ---- Commit: insertion ----

  function NamesIn(vals: seq<Named<VisEnt>>): set<Ident> {
    set k | 0 <= k < |vals| :: vals[k].name
  }

  /**
   * Inserting into a value namespace (`std::map::insert`): an entry already
   * recorded under `name` is kept and `ent` is dropped; otherwise `ent` is
   * found under `name` afterwards. No other name changes what it finds.
   */
  function InsertValue(vals: seq<Named<VisEnt>>, name: Ident, ent: VisEnt): (r: seq<Named<VisEnt>>)
    ensures vals <= r && NamesIn(r) == NamesIn(vals) + {name}
    ensures Lookup(r, name) == if name in NamesIn(vals) then Lookup(vals, name) else Some(ent)
    ensures forall n :: n != name ==> Lookup(r, n) == Lookup(vals, n)
  {
    if name in NamesIn(vals) then vals
    else
      var x := Named(name, ent);
      LookupSnoc(vals, x);
      NamesInSnoc(vals, x);
      vals + [x]
  }

  lemma {:induction false} NamesInTail(vals: seq<Named<VisEnt>>)
    requires vals != []
    ensures NamesIn(vals) == {vals[0].name} + NamesIn(vals[1..])
  {
    forall n | n in NamesIn(vals) ensures n in {vals[0].name} + NamesIn(vals[1..]) {
      var k :| 0 <= k < |vals| && vals[k].name == n;
      if k > 0 {
        assert vals[1..][k - 1].name == n;
      }
    }
    forall n | n in NamesIn(vals[1..]) ensures n in NamesIn(vals) {
      var k :| 0 <= k < |vals[1..]| && vals[1..][k].name == n;
      assert vals[k + 1].name == n;
    }
  }

  lemma {:induction false} NamesInSnoc(vals: seq<Named<VisEnt>>, x: Named<VisEnt>)
    ensures NamesIn(vals + [x]) == NamesIn(vals) + {x.name}
  {
    var xs := vals + [x];
    assert xs[|vals|].name == x.name;
    forall n | n in NamesIn(xs) ensures n in NamesIn(vals) + {x.name} {
      var k :| 0 <= k < |xs| && xs[k].name == n;
      if k < |vals| {
        assert vals[k].name == n;
      }
    }
    forall n | n in NamesIn(vals) ensures n in NamesIn(xs) {
      var k :| 0 <= k < |vals| && vals[k].name == n;
      assert xs[k].name == n;
    }
  }

  /**
   * A name is found exactly when some entry carries it. Looking it up after
   * appending `x`: an earlier entry wins, then `x`.
   */
  lemma {:induction false} LookupSnocAt(vals: seq<Named<VisEnt>>, x: Named<VisEnt>, n: Ident)
    ensures Lookup(vals, n).Some? <==> n in NamesIn(vals)
    ensures Lookup(vals + [x], n)
            == if n in NamesIn(vals) then Lookup(vals, n) else if n == x.name then Some(x.item) else None
    decreases |vals|
  {
    if vals == [] {
      assert [] + [x] == [x];
      assert [x][1..] == [];
    } else {
      NamesInTail(vals);
      assert (vals + [x])[0] == vals[0];
      assert (vals + [x])[1..] == vals[1..] + [x];
      LookupSnocAt(vals[1..], x, n);
    }
  }

  lemma {:induction false} LookupSnoc(vals: seq<Named<VisEnt>>, x: Named<VisEnt>)
    ensures forall n :: (Lookup(vals, n).Some? <==> n in NamesIn(vals))
    ensures forall n :: (Lookup(vals + [x], n)
              == if n in NamesIn(vals) then Lookup(vals, n) else if n == x.name then Some(x.item) else None)
  {
    forall n
      ensures Lookup(vals, n).Some? <==> n in NamesIn(vals)
      ensures Lookup(vals + [x], n)
              == if n in NamesIn(vals) then Lookup(vals, n) else if n == x.name then Some(x.item) else None
    {
      LookupSnocAt(vals, x, n);
    }
  }

  function InsertAll(vals: seq<Named<VisEnt>>, ents: seq<Named<VisEnt>>): seq<Named<VisEnt>>
    decreases |ents|
  {
    if ents == [] then vals
    else
      var last := ents[|ents| - 1];
      InsertValue(InsertAll(vals, ents[..|ents| - 1]), last.name, last.item)
  }

  /** The entry first recorded under `name`. */
  function Lookup(vals: seq<Named<VisEnt>>, name: Ident): Option<VisEnt>
    decreases |vals|
  {
    if vals == [] then None
    else if vals[0].name == name then Some(vals[0].item)
    else Lookup(vals[1..], name)
  }

  /** No two entries share a name. */
  ghost predicate DistinctNames<T>(ents: seq<Named<T>>) {
    forall i, j :: 0 <= i < |ents| && 0 <= j < |ents| && i != j ==> ents[i].name != ents[j].name
  }

  /** `b` has the entries of `a`, in order and under the same names; their contents may differ. */
  predicate SameNames<T>(a: seq<Named<T>>, b: seq<Named<T>>) {
    |a| == |b| && forall k :: 0 <= k < |a| ==> b[k].name == a[k].name
  }

  lemma {:induction false} SameNamesNamesIn(a: seq<Named<VisEnt>>, b: seq<Named<VisEnt>>)
    requires SameNames(a, b)
    ensures NamesIn(a) == NamesIn(b)
  {
    forall n | n in NamesIn(a) ensures n in NamesIn(b) {
      var k :| 0 <= k < |a| && a[k].name == n;
      assert b[k].name == n;
    }
    forall n | n in NamesIn(b) ensures n in NamesIn(a) {
      var k :| 0 <= k < |b| && b[k].name == n;
      assert a[k].name == n;
    }
  }

  /** Entries with fresh, distinct names are all added, in order, after the existing ones. */
  lemma {:induction false} InsertAllFresh(vals: seq<Named<VisEnt>>, ents: seq<Named<VisEnt>>)
    requires DistinctNames(ents)
    requires forall i :: 0 <= i < |ents| ==> ents[i].name !in NamesIn(vals)
    ensures InsertAll(vals, ents) == vals + ents
    decreases |ents|
  {
    if ents != [] {
      var init := ents[..|ents| - 1];
      var last := ents[|ents| - 1];
      InsertAllFresh(vals, init);
      assert last.name !in NamesIn(vals + init);
      assert vals + init + [last] == vals + ents;
    }
  }

  lemma {:induction false} LookupAppend(vals: seq<Named<VisEnt>>, ents: seq<Named<VisEnt>>, i: nat)
    requires i < |ents|
    requires ents[i].name !in NamesIn(vals)
    requires forall j :: 0 <= j < i ==> ents[j].name != ents[i].name
    ensures Lookup(vals + ents, ents[i].name) == Some(ents[i].item)
    decreases |vals| + i
  {
    var name := ents[i].name;
    if vals != [] {
      assert vals[0].name != name;
      assert (vals + ents)[1..] == vals[1..] + ents;
      assert NamesIn(vals[1..]) <= NamesIn(vals) by {
        forall n | n in NamesIn(vals[1..]) ensures n in NamesIn(vals) {
          var k :| 0 <= k < |vals[1..]| && vals[1..][k].name == n;
          assert vals[k + 1].name == n;
        }
      }
      LookupAppend(vals[1..], ents, i);
    } else if i > 0 {
      assert ents[1..][i - 1] == ents[i];
      LookupAppend([], ents[1..], i - 1);
      assert ([] + ents)[1..] == [] + ents[1..];
    }
  }

  /**
   * After a module's canonical list is evaluated and inserted into a value
   * namespace holding none of its names, the static `lifted#i` is found under
   * its name, evaluated, marked compiler-generated and without publicity.
   */
  lemma {:induction false} CommitFindsEveryStatic(m: ModPath, list: seq<PendingStatic>, vals: seq<Named<VisEnt>>, eval: Evaluator, i: nat)
    requires Canonical(m, list)
    requires forall k :: 0 <= k < |list| ==> LiftedName(k) !in NamesIn(vals)
    requires EvaluatePending(list, eval).Success?
    requires i < |list|
    ensures var v := EvalOf(eval, list[i]).value;
            Lookup(InsertAll(vals, EvaluatePending(list, eval).value), LiftedName(i))
            == Some(VisEnt(PubNone, StaticItem(list[i].item.(valueRes := Some(v), valueGenerated := true))))
  {
    var ents := EvaluatePending(list, eval).value;
    forall k | 0 <= k < |ents| ensures ents[k].name == LiftedName(k) {
      assert list[k].path == m + [LiftedName(k)];
    }
    forall a, b | 0 <= a < |ents| && 0 <= b < |ents| && a != b ensures ents[a].name != ents[b].name {
      LiftedNameInjective(a, b);
    }
    InsertAllFresh(vals, ents);
    forall j | 0 <= j < i ensures ents[j].name != ents[i].name {
      LiftedNameInjective(i, j);
    }
    LookupAppend(vals, ents, i);
  }

  // ---- Commit: the module tree ----

  predicate IsSubmodule(t: Named<TypeItem>, name: Ident) {
    t.name == name && t.item.ModuleItem?
  }

  /** The position of the first submodule called `name`. */
  function FindSubmodule(items: seq<Named<TypeItem>>, name: Ident): (r: Option<nat>)
    ensures r.Some? ==> r.value < |items| && IsSubmodule(items[r.value], name)
    ensures r.Some? ==> forall k :: 0 <= k < r.value ==> !IsSubmodule(items[k], name)
    ensures r.None? ==> forall k :: 0 <= k < |items| ==> !IsSubmodule(items[k], name)
    decreases |items|
  {
    if items == [] then None
    else if IsSubmodule(items[0], name) then Some(0)
    else
      var r := FindSubmodule(items[1..], name);
      if r.Some? then Some(r.value + 1) else None
  }

  /** The module at path `p` below `m` (the crate's `get_mod_by_path`), found one component at a time. */
  function ModuleAt(m: Module, p: ModPath): Option<Module>
    decreases p
  {
    if p == [] then Some(m)
    else match FindSubmodule(m.modItems, p[0])
      case None => None
      case Some(k) => ModuleAt(m.modItems[k].item.sub, p[1..])
  }

  /** Walking `p` and then `q` from where `p` led is walking `p + q`. */
  lemma {:induction false} ModuleAtAppend(m: Module, p: ModPath, q: ModPath)
    ensures ModuleAt(m, p + q) == if ModuleAt(m, p).Some? then ModuleAt(ModuleAt(m, p).value, q) else None
    decreases p
  {
    if p == [] {
      assert p + q == q;
    } else {
      assert (p + q)[0] == p[0];
      assert (p + q)[1..] == p[1..] + q;
      match FindSubmodule(m.modItems, p[0])
      case None =>
      case Some(k) => ModuleAtAppend(m.modItems[k].item.sub, p[1..], q);
    }
  }

  /**
   * Every module of the tree has distinct names in each namespace, as the
   * HIR's name-keyed maps guarantee.
   */
  ghost predicate WellFormed(root: Module) {
    forall q | ModuleAt(root, q).Some? ::
      DistinctNames(ModuleAt(root, q).value.modItems) && DistinctNames(ModuleAt(root, q).value.valueItems)
  }

  /** In a well-formed tree, the submodule stored at position `k` of the module at `p` is the module at `p + [name]`. */
  lemma {:induction false} SubmoduleAt(root: Module, p: ModPath, m: Module, k: nat)
    requires WellFormed(root) && ModuleAt(root, p) == Some(m)
    requires k < |m.modItems| && m.modItems[k].item.ModuleItem?
    ensures ModuleAt(root, p + [m.modItems[k].name]) == Some(m.modItems[k].item.sub)
  {
    var n := m.modItems[k].name;
    assert DistinctNames(m.modItems);
    assert IsSubmodule(m.modItems[k], n);
    var r := FindSubmodule(m.modItems, n);
    assert r == Some(k);
    ModuleAtAppend(root, p, [n]);
    assert [n][1..] == [];
  }

  // ---- The layout of a module tree ----

  /**
   * `b` has the layout of `a`: the same value names and type-namespace
   * entries, in order, each submodule with the layout of the one it
   * replaces. Bodies, initializers and types may differ.
   */
  ghost predicate SameLayout(a: Module, b: Module)
    decreases a
  {
    && SameNames(a.valueItems, b.valueItems)
    && |a.modItems| == |b.modItems|
    && forall k :: 0 <= k < |a.modItems| ==> SameItemLayout(a.modItems[k], b.modItems[k])
  }

  ghost predicate SameItemLayout(s: Named<TypeItem>, t: Named<TypeItem>)
    decreases s
  {
    && t.name == s.name
    && SameKind(s.item, t.item)
    && (s.item.ModuleItem? ==> SameLayout(s.item.sub, t.item.sub))
  }

  /** Two type items of the same kind. */
  predicate SameKind(a: TypeItem, b: TypeItem) {
    && a.ModuleItem? == b.ModuleItem?
    && a.EnumItem? == b.EnumItem?
    && a.StructItem? == b.StructItem?
    && a.TypeAlias? == b.TypeAlias?
    && a.TraitItem? == b.TraitItem?
  }

  /** Trees of the same layout have modules at the same paths, of the same layout. */
  lemma {:induction false} LayoutModuleAt(a: Module, b: Module, q: ModPath)
    requires SameLayout(a, b)
    ensures ModuleAt(a, q).Some? <==> ModuleAt(b, q).Some?
    ensures ModuleAt(a, q).Some? ==> SameLayout(ModuleAt(a, q).value, ModuleAt(b, q).value)
    decreases q
  {
    if q != [] {
      forall k | 0 <= k < |a.modItems| ensures IsSubmodule(a.modItems[k], q[0]) == IsSubmodule(b.modItems[k], q[0]) {
        assert SameItemLayout(a.modItems[k], b.modItems[k]);
      }
      FindSubmoduleSame(a.modItems, b.modItems, q[0]);
      match FindSubmodule(a.modItems, q[0])
      case None =>
      case Some(k) =>
        assert SameItemLayout(a.modItems[k], b.modItems[k]);
        LayoutModuleAt(a.modItems[k].item.sub, b.modItems[k].item.sub, q[1..]);
    }
  }

  /** The tree with every value namespace emptied: what commit leaves alone. */
  function WithoutValues(m: Module): Module
    decreases m
  {
    Module([], WithoutValuesIn(m.modItems))
  }

  function WithoutValuesIn(ts: seq<Named<TypeItem>>): (r: seq<Named<TypeItem>>)
    ensures |r| == |ts| && forall k :: 0 <= k < |ts| ==> r[k] == WithoutValuesOf(ts[k])
    decreases ts
  {
    if ts == [] then [] else WithoutValuesIn(ts[..|ts| - 1]) + [WithoutValuesOf(ts[|ts| - 1])]
  }

  function WithoutValuesOf(t: Named<TypeItem>): Named<TypeItem>
    decreases t
  {
    if t.item.ModuleItem? then Named(t.name, ModuleItem(WithoutValues(t.item.sub))) else t
  }

  function ValuesAt(m: Module, p: ModPath): Option<seq<Named<VisEnt>>> {
    var sub := ModuleAt(m, p);
    if sub.Some? then Some(sub.value.valueItems) else None
  }

  /** Inserts `ent` under `name` into the value namespace of the module at `p`; no-op when there is none. */
  function InsertAt(m: Module, p: ModPath, name: Ident, ent: VisEnt): Module
    decreases p
  {
    if p == [] then m.(valueItems := InsertValue(m.valueItems, name, ent))
    else match FindSubmodule(m.modItems, p[0])
      case None => m
      case Some(k) =>
        var t := m.modItems[k];
        m.(modItems := m.modItems[k := Named(t.name, ModuleItem(InsertAt(t.item.sub, p[1..], name, ent)))])
  }

  lemma {:induction false} FindSubmoduleSame(a: seq<Named<TypeItem>>, b: seq<Named<TypeItem>>, name: Ident)
    requires |a| == |b|
    requires forall k :: 0 <= k < |a| ==> IsSubmodule(a[k], name) == IsSubmodule(b[k], name)
    ensures FindSubmodule(a, name) == FindSubmodule(b, name)
    decreases |a|
  {
    if a != [] {
      FindSubmoduleSame(a[1..], b[1..], name);
    }
  }

  /** Inserting a value leaves every type namespace of the tree as it was. */
  lemma {:induction false} InsertAtKeepsTypes(m: Module, p: ModPath, name: Ident, ent: VisEnt)
    ensures WithoutValues(InsertAt(m, p, name, ent)) == WithoutValues(m)
    decreases p
  {
    if p != [] {
      match FindSubmodule(m.modItems, p[0])
      case None =>
      case Some(k) =>
        var t := m.modItems[k];
        InsertAtKeepsTypes(t.item.sub, p[1..], name, ent);
        var items' := InsertAt(m, p, name, ent).modItems;
        assert forall j :: 0 <= j < |items'| ==> WithoutValuesOf(items'[j]) == WithoutValuesOf(m.modItems[j]);
        assert WithoutValuesIn(items') == WithoutValuesIn(m.modItems);
    }
  }

  /**
   * Inserting into one module's value namespace changes that namespace only:
   * every other value namespace, every type namespace, and which paths name
   * a module, stay as they were.
   */
  lemma {:induction false} InsertAtValues(m: Module, p: ModPath, q: ModPath, name: Ident, ent: VisEnt)
    ensures ValuesAt(InsertAt(m, p, name, ent), q)
            == if q == p && ValuesAt(m, p).Some? then Some(InsertValue(ValuesAt(m, p).value, name, ent))
               else ValuesAt(m, q)
    ensures WithoutValues(InsertAt(m, p, name, ent)) == WithoutValues(m)
  {
    ValuesAfterInsert(m, p, q, name, ent);
    InsertAtKeepsTypes(m, p, name, ent);
  }

  /** The value-namespace half of InsertAtValues, by induction on the path. */
  lemma {:induction false} ValuesAfterInsert(m: Module, p: ModPath, q: ModPath, name: Ident, ent: VisEnt)
    ensures ValuesAt(InsertAt(m, p, name, ent), q)
            == if q == p && ValuesAt(m, p).Some? then Some(InsertValue(ValuesAt(m, p).value, name, ent))
               else ValuesAt(m, q)
    decreases p
  {
    var m' := InsertAt(m, p, name, ent);
    if p == [] {
      assert m'.modItems == m.modItems;
    } else {
      match FindSubmodule(m.modItems, p[0])
      case None =>
      case Some(k) =>
        var t := m.modItems[k];
        var t' := Named(t.name, ModuleItem(InsertAt(t.item.sub, p[1..], name, ent)));
        assert m'.modItems == m.modItems[k := t'];
        if q != [] {
          FindSubmoduleSame(m.modItems, m'.modItems, q[0]);
          match FindSubmodule(m.modItems, q[0])
          case None =>
          case Some(j) =>
            if j == k {
              assert q[0] == p[0];
              ValuesAfterInsert(t.item.sub, p[1..], q[1..], name, ent);
              assert q == p <==> q[1..] == p[1..] by {
                assert q == [q[0]] + q[1..];
                assert p == [p[0]] + p[1..];
              }
            } else {
              assert m'.modItems[j] == m.modItems[j];
              assert q[0] != p[0];
            }
        }
    }
  }

  /**
   * The value namespace at `q` once every pending list was evaluated and its
   * entries inserted into its own module: modules without pending statics,
   * and paths naming no module, are left as they were.
   */
  function CommittedValues(root: Module, ns: PendingMap, eval: Evaluator, q: ModPath): Option<seq<Named<VisEnt>>> {
    var before := ValuesAt(root, q);
    if q in ns && before.Some? && EvaluatePending(ns[q], eval).Success? then
      Some(InsertAll(before.value, EvaluatePending(ns[q], eval).value))
    else before
  }

  /**
   * After commit, each pending static of a module that held none of the
   * lifted names is found in that module's value namespace under its own
   * name, evaluated, compiler-generated and without publicity.
   */
  lemma {:induction false} CommitPlacesEveryStatic(root: Module, ns: PendingMap, eval: Evaluator, m: ModPath, i: nat)
    requires AllCanonical(ns) && m in ns && i < |ns[m]|
    requires ValuesAt(root, m).Some?
    requires forall k :: 0 <= k < |ns[m]| ==> LiftedName(k) !in NamesIn(ValuesAt(root, m).value)
    requires EvaluatePending(ns[m], eval).Success?
    ensures var v := EvalOf(eval, ns[m][i]).value;
            var after := CommittedValues(root, ns, eval, m);
            && after.Some?
            && Lookup(after.value, LiftedName(i))
               == Some(VisEnt(PubNone, StaticItem(ns[m][i].item.(valueRes := Some(v), valueGenerated := true))))
  {
    CommitFindsEveryStatic(m, ns[m], ValuesAt(root, m).value, eval, i);
  }

  /** None of the names `lifted#0` … `lifted#(n - 1)` is taken in the value namespace at `m`. */
  ghost predicate LiftedNamesFree(root: Module, m: ModPath, n: nat) {
    ValuesAt(root, m).Some? ==> forall k :: 0 <= k < n ==> LiftedName(k) !in NamesIn(ValuesAt(root, m).value)
  }

  /** Static `i` of module `m`'s list is found in `root2` under `lifted#i`, evaluated, compiler-generated and without publicity. */
  ghost predicate FoundCommitted(root2: Module, ns: PendingMap, eval: Evaluator, m: ModPath, i: nat) {
    && m in ns && i < |ns[m]|
    && EvalOf(eval, ns[m][i]).Evaluated?
    && var after := ValuesAt(root2, m);
       && after.Some?
       && Lookup(after.value, LiftedName(i))
          == Some(VisEnt(PubNone, StaticItem(Committed(ns[m][i].item, EvalOf(eval, ns[m][i]).value))))
  }

  /**
   * Commit over a walked tree with the layout of the crate's tree `root`:
   * every module that received statics exists in the walked tree, so each
   * pending static whose name was free in `root` is found in its module
   * afterwards.
   */
  lemma {:induction false} CommitAfterWalk(root: Module, walked: Module, root2: Module, ns: PendingMap, eval: Evaluator)
    requires AllCanonical(ns)
    requires forall m | m in ns :: ModuleAt(root, m).Some?
    requires SameLayout(root, walked)
    requires forall m | m in ns :: EvaluatePending(ns[m], eval).Success?
    requires forall q :: ValuesAt(root2, q) == CommittedValues(walked, ns, eval, q)
    ensures forall m, i | m in ns && 0 <= i < |ns[m]| && LiftedNamesFree(root, m, |ns[m]|) ::
              FoundCommitted(root2, ns, eval, m, i)
  {
    forall m, i | m in ns && 0 <= i < |ns[m]| && LiftedNamesFree(root, m, |ns[m]|)
      ensures FoundCommitted(root2, ns, eval, m, i)
    {
      LayoutModuleAt(root, walked, m);
      SameNamesNamesIn(ValuesAt(root, m).value, ValuesAt(walked, m).value);
      CommitPlacesEveryStatic(walked, ns, eval, m, i);
      assert ValuesAt(root2, m) == CommittedValues(walked, ns, eval, m);
    }
  }
}
