# Static borrow constants (mrustc HIR expansion pass)

This project models mrustc's `static_borrow_constants` pass. The pass runs on
the typed HIR after type checking. It finds shared borrows of constant
values, such as `&[1, 2, 3]` or `&Foo { a: 1 }`. It moves each such value into
a new compiler-generated static in the enclosing module, named `lifted#N`.
The borrow then refers to that static. The pass has three parts:

- **The classifier, `ExprVisitor_Mutate`.** One instance walks one expression
  tree bottom-up. Two flags, `m_is_constant` and `m_all_constant`, decide which
  nodes are constant. At each eligible `Borrow` the value is promoted: it is
  moved into a new static, and its slot now holds a `PathValue` naming that
  static.
- **The registry.** This is the new-static callback plus `m_new_statics`.
  Statics are staged per module and numbered in creation order. After the
  whole crate has been walked, each one is evaluated and inserted into its
  module.
- **The driver, `OuterVisitor`.** It walks modules, impls, functions, statics,
  constants, value enums and the unevaluated array sizes inside types. It
  tracks the current module and the generics in scope.

The Dafny files:

- `hir.dfy` holds the HIR subset the pass touches, as datatypes:
  - expression nodes, types, items, modules and the crate;
  - the resolver's and the evaluator's behaviour, held as function-valued
    parameters.
- `classification.dfy` holds the meaning of one classifier run, as functions:
  - `Lift` gives, for a node, the rewritten node, whether it counts as
    constant, and the statics it requests, in order.
  - `LiftAll` gives the same for a sequence of children.
- `promotion_properties.dfy` proves what a classifier run guarantees:
  - which borrows are promoted, and the naming and contents of the statics;
  - bounds on the number of promotions;
  - that a run without promotion changes nothing;
  - that a second run over the result promotes nothing.
- `registry.dfy` holds the per-module pending lists and their naming
  invariant, the evaluation of pending statics, and their insertion into the
  module tree.
- `names.dfy` holds the `lifted#N` names and their injectivity.
- `walk.dfy` holds the whole walk as functions (`RunRoot` up to `RunCrate`).
  Each one threads the pending statics from one classifier run to the next,
  in the order the visitor goes. Lemmas beside them state what each walk
  keeps: names, kinds, layout, signatures, and which modules receive
  statics.
- `static_borrow_constants.dfy` holds the pass itself, in imperative form:
  - the class `ExprVisitorMutate`, with its two flags;
  - the class `OuterVisitor`, with the current module, the generics in scope
    and the pending statics;
  - the entry point `Expand`.

  Each method is proved against the functions above.

Modules are identified by their path. mrustc's pass uses `const HIR::Module*`
map keys, and the module pointer and module path fields become one
`currentModule: Option<ModPath>`. Expression trees are values. Where the
pass overwrites a slot in place, a method returns the rewritten subtree
and its caller stores it. Every fatal `BUG`/`ASSERT_BUG` path becomes an
`Outcome.Fail` that is propagated to the caller.

Module namespaces are sequences of named entries. `WellFormed` requires
distinct names in every namespace of every module, as the HIR's maps
guarantee; `Expand` assumes it of the crate it is given. The walk and the
commit work on one crate: the visitor is built for the crate it then visits
(lines 378-379).

Two details of the code are easy to misread, and the model follows the code:

- **Composite flags.** Only a `Borrow` resets the all-constant flag
  (lines 73-74). A composite reports whatever the flag holds once its
  children have been visited (lines 128-161). Whether a borrow's operand is
  judged constant does not depend on this, because the operand's subtree
  starts from the borrow's fresh flag.
- **Current module after an impl.** After a type or trait impl the current
  module is set to null, not restored (lines 279, 291). `VisitTypeImpl` and
  `VisitTraitImpl` say so. Within the items this model walks, no static is
  ever requested while no module is current, and `Expand` proves it. Marker
  impls are outside the model; see "Left out".

## Model

All source paths are under `src/hir_expand/static_borrow_constants.cpp`.

| member | source | states |
|---|---|---|
| Names.Decimal | src/hir_expand/static_borrow_constants.cpp:218 | The index is written as a non-empty run of decimal digits. |
| Names.DecimalRoundTrip | src/hir_expand/static_borrow_constants.cpp:218 | Reading the decimal form back gives the index. |
| Names.DecimalInjective | src/hir_expand/static_borrow_constants.cpp:218 | Two indices have the same decimal form if and only if they are equal. |
| Names.LiftedName | src/hir_expand/static_borrow_constants.cpp:218 | The name is `lifted#` followed by decimal digits. |
| Names.LiftedNameRoundTrip | src/hir_expand/static_borrow_constants.cpp:217-218 | The index can be read back from the generated name. |
| Names.LiftedNameInjective | src/hir_expand/static_borrow_constants.cpp:216-218 | Two statics get the same name if and only if they get the same index, so names within a module are distinct. |
| Classification.Lift | src/hir_expand/static_borrow_constants.cpp:55-190 | Classification keeps each node's type and its `Unsize` wrapper, including the type of the operand under the wrapper. |
| Classification.LiftAll | src/hir_expand/static_borrow_constants.cpp:55-70 | Visiting a node's children yields exactly one rewritten child per child. |
| PromotionProperties.LiftNames | src/hir_expand/static_borrow_constants.cpp:213-228 | The statics requested by one run are, in order, `lifted#base`, `lifted#base+1`, … in the current module. |
| PromotionProperties.LiftAllNames | src/hir_expand/static_borrow_constants.cpp:213-228 | As LiftNames, for a sequence of children visited in order. |
| PromotionProperties.LiftGated | src/hir_expand/static_borrow_constants.cpp:87-121 | Every requested static has a type that needs no monomorphisation and is definitely not interior mutable. It has default linkage, is not `mut`, is not yet evaluated and is not marked generated. Its initializer has the static's type and a state copied from the root with the stage set to Typecheck. |
| PromotionProperties.LiftAllGated | src/hir_expand/static_borrow_constants.cpp:87-121 | As LiftGated, for a sequence of children. |
| PromotionProperties.BorrowDecision | src/hir_expand/static_borrow_constants.cpp:72-125 | A borrow is promoted if and only if its operand was all-constant and the borrowed value (under at most one `Unsize`) passes the three gates in order. A promotion rewrites the slot to refer to `lifted#(base + n)`, where n is the number of statics the operand requested. It appends exactly one static, which holds the rewritten borrowed value with a fresh Typecheck state. Otherwise the borrow keeps its rewritten operand, requests nothing more and is not constant. A unique or owned borrow is never promoted. |
| PromotionProperties.PromotionsBounded | src/hir_expand/static_borrow_constants.cpp:72-125 | A run requests at most as many statics as the tree has shared borrows. |
| PromotionProperties.PromotionsBoundedAll | src/hir_expand/static_borrow_constants.cpp:72-125 | As PromotionsBounded, for a sequence of children. |
| PromotionProperties.NoPromotionNoChange | src/hir_expand/static_borrow_constants.cpp:102-122 | A run that requests no static leaves the tree exactly as it was. |
| PromotionProperties.NoPromotionNoChangeAll | src/hir_expand/static_borrow_constants.cpp:102-122 | As NoPromotionNoChange, for a sequence of children. |
| PromotionProperties.NoSharedBorrowUnchanged | src/hir_expand/static_borrow_constants.cpp:93-96 | A tree without shared borrows is unchanged and requests nothing. |
| PromotionProperties.LiteralTreeConstant | src/hir_expand/static_borrow_constants.cpp:127-170 | A tree of literals and unit variants built with tuples, arrays, struct literals, fields, casts and unsizing is constant and unchanged. |
| PromotionProperties.LiteralTreesConstant | src/hir_expand/static_borrow_constants.cpp:127-170 | As LiteralTreeConstant, for a sequence of children. |
| PromotionProperties.LiteralTreePromoted | src/hir_expand/static_borrow_constants.cpp:72-125 | A shared borrow of such a tree, whose type passes the gates, becomes a borrow of `lifted#base`. That static holds the tree. The borrow is constant. |
| PromotionProperties.SecondRunPromotesNothing | src/hir_expand/static_borrow_constants.cpp:171-190 | When the resolver does not report a generated static as a constant or a function, running the classifier again on the result requests nothing and changes nothing. It also finds no new constant nodes. |
| PromotionProperties.SecondRunBorrow | src/hir_expand/static_borrow_constants.cpp:72-125 | The borrow case of SecondRunPromotesNothing: a borrow that now refers to a static is not promoted again. |
| PromotionProperties.SecondRunPromotesNothingAll | src/hir_expand/static_borrow_constants.cpp:171-190 | As SecondRunPromotesNothing, for a sequence of children. |
| Registry.CanonicalNamesDistinct | src/hir_expand/static_borrow_constants.cpp:216-219 | In a module's pending list, no two statics share a path or a name. |
| Registry.RecordKeepsCanonical | src/hir_expand/static_borrow_constants.cpp:216-227 | Appending one run's statics, numbered from the list length, keeps entry `i` of every list at `module::lifted#i`. |
| Registry.RecordTwice | src/hir_expand/static_borrow_constants.cpp:216-227 | Two appends compose. After an append the next index has grown by its length. |
| Registry.RecordGrows | src/hir_expand/static_borrow_constants.cpp:216-227 | An append only extends the current module's list. |
| Registry.EvaluatePending | src/hir_expand/static_borrow_constants.cpp:240-248 | Evaluating a module's list succeeds if and only if the evaluator evaluates every static. The only failure is a request for a further static. On success, entry `i` is static `i` under its last path component, evaluated, marked generated and with no publicity. |
| Registry.InsertAllFresh | src/hir_expand/static_borrow_constants.cpp:250-253 | Entries with fresh, distinct names are all added. |
| Registry.CommitFindsEveryStatic | src/hir_expand/static_borrow_constants.cpp:240-254 | After a module's canonical list is evaluated and inserted, `lifted#i` is found and holds static `i`, evaluated and marked generated. |
| Registry.FindSubmodule | src/hir_expand/static_borrow_constants.cpp:271 | The lookup finds the first submodule with the given name, or reports that there is none. |
| Registry.ModuleAtAppend | src/hir_expand/static_borrow_constants.cpp:271 | Looking up a module path one component at a time composes: the module at `p + q` is the module at `q` below the module at `p`, and there is none when there is none at `p`. |
| Registry.SubmoduleAt | src/hir_expand/static_borrow_constants.cpp:258-264 | In a well-formed tree, a submodule visited inside the module at `p` is the module at `p` extended by its name. |
| Registry.InsertValue | src/hir_expand/static_borrow_constants.cpp:250-253 | Inserting under a name already taken keeps the existing entry. Otherwise the new entry is found under that name. The old entries stay, in order, and no other name finds anything new. |
| Registry.InsertAtKeepsTypes | src/hir_expand/static_borrow_constants.cpp:250-253 | Inserting a value leaves every type namespace and every submodule of the tree as it was. |
| Registry.InsertAtValues | src/hir_expand/static_borrow_constants.cpp:250-253 | Inserting into the value namespace of the module at `p` changes that namespace as `InsertValue` does. Every other value namespace stays the same. The tree without its value namespaces (`WithoutValues`) stays the same, so no type item and no submodule changes. |
| Registry.CommitPlacesEveryStatic | src/hir_expand/static_borrow_constants.cpp:235-255 | Commit finds each pending static of a module in that module's value namespace. |
| Registry.LayoutModuleAt | src/hir_expand/static_borrow_constants.cpp:236-238 | Two trees of the same layout have modules at the same paths, of the same layout, so a module a static was staged for is still there to receive it. |
| Registry.CommitAfterWalk | src/hir_expand/static_borrow_constants.cpp:232-256 | Committing canonical lists whose keys are modules of the crate into a walked tree of the crate's layout places every pending static `i` in its module as `lifted#i`, evaluated and marked generated, when those names were free there. |
| StaticBorrowConstants.ExprVisitorMutate.constructor | src/hir_expand/static_borrow_constants.cpp:40-47 | A new classifier has both flags clear. It uses the outer visitor's resolver, generics and callback. |
| StaticBorrowConstants.ExprVisitorMutate.VisitRoot | src/hir_expand/static_borrow_constants.cpp:48-54 | Visiting a root rewrites it as `Lift` does and appends the requested statics to the current module's list. Without a current module, the only possible failure is the missing-module bug. |
| StaticBorrowConstants.ExprVisitorMutate.VisitNodePtr | src/hir_expand/static_borrow_constants.cpp:55-70 | Visiting a child slot rewrites it as `Lift` does. The all-constant flag becomes its old value AND the node's constancy, and `isConstant` ends false. |
| StaticBorrowConstants.ExprVisitorMutate.Visit | src/hir_expand/static_borrow_constants.cpp:64 | Dispatch on the node kind gives the `Lift` rewrite. Combined, the two flags report the node's constancy. |
| StaticBorrowConstants.ExprVisitorMutate.VisitLiteral | src/hir_expand/static_borrow_constants.cpp:163-166 | A literal is constant and unchanged. |
| StaticBorrowConstants.ExprVisitorMutate.VisitUnitVariant | src/hir_expand/static_borrow_constants.cpp:167-170 | A unit variant is constant and unchanged. |
| StaticBorrowConstants.ExprVisitorMutate.VisitPathValue | src/hir_expand/static_borrow_constants.cpp:171-190 | A path is constant if and only if it names a constant or a function that needs no monomorphisation. |
| StaticBorrowConstants.ExprVisitorMutate.VisitComposite | src/hir_expand/static_borrow_constants.cpp:127-157 | A composite reports the all-constant flag as it stands after its children. That flag is the old flag AND the `Lift` constancy. |
| StaticBorrowConstants.ExprVisitorMutate.VisitUnsize | src/hir_expand/static_borrow_constants.cpp:158-161 | As VisitComposite, for the single operand. |
| StaticBorrowConstants.ExprVisitorMutate.VisitOpaque | src/hir_expand/static_borrow_constants.cpp:59-67 | A node kind without a rule has its children rewritten and is never constant. |
| StaticBorrowConstants.ExprVisitorMutate.VisitBorrow | src/hir_expand/static_borrow_constants.cpp:72-125 | The borrow is rewritten as `Lift` does, with at most one new static appended. It reports constant exactly when it was promoted. The enclosing all-constant flag is restored. |
| StaticBorrowConstants.ExprVisitorMutate.VisitChildren | src/hir_expand/static_borrow_constants.cpp:55-70 | The children are visited in order and give the `LiftAll` result. The flag becomes the old value AND all children constant. |
| StaticBorrowConstants.ChildStep | src/hir_expand/static_borrow_constants.cpp:55-70 | Rewriting one more child extends the rewrite of the children before it. The results, the all-constant flag and the registry all extend. |
| StaticBorrowConstants.BorrowPromoted | src/hir_expand/static_borrow_constants.cpp:102-122 | A borrow that passes every test is rewritten to refer to the static appended next to the current module's list. It reports constant. |
| StaticBorrowConstants.BorrowKept | src/hir_expand/static_borrow_constants.cpp:76-101 | A borrow that fails a test keeps its rewritten operand, requests no static of its own and is not constant. |
| StaticBorrowConstants.OuterVisitor.constructor | src/hir_expand/static_borrow_constants.cpp:204-209 | A new visitor has no current module, no generics in scope and no pending statics. |
| StaticBorrowConstants.OuterVisitor.NewStatic | src/hir_expand/static_borrow_constants.cpp:211-230 | Without a current module this is the bug. Otherwise the static is appended to the current module's list as `module::lifted#len`, with default linkage and not mut, and that path is returned. Every list stays canonical. |
| StaticBorrowConstants.StageOne | src/hir_expand/static_borrow_constants.cpp:216-227 | Appending a static named after the list length to a module of the crate keeps every list canonical and every key a module of the crate. |
| StaticBorrowConstants.OuterVisitor.RunClassifier | src/hir_expand/static_borrow_constants.cpp:325-326 | A fresh classifier run rewrites the root as `Lift` does, with the visitor's generics and module. The registry only grows, in the current module. |
| StaticBorrowConstants.OuterVisitor.VisitFunction | src/hir_expand/static_borrow_constants.cpp:320-332 | On success the function and the registry are exactly what `RunFunction` gives: a body, if present, is classified with the function's generics as item generics. The scope is restored and the signature is untouched. |
| StaticBorrowConstants.OuterVisitor.VisitStatic | src/hir_expand/static_borrow_constants.cpp:333-339 | On success the static and the registry are exactly what `RunStatic` gives: an initializer, if present, is classified. Nothing else in the static changes. |
| StaticBorrowConstants.OuterVisitor.VisitConstant | src/hir_expand/static_borrow_constants.cpp:340-346 | On success the constant and the registry are exactly what `RunConstant` gives: a value, if present, is classified. Nothing else in the constant changes. |
| Walk.RunRootGrows | src/hir_expand/static_borrow_constants.cpp:216-227 | A classifier run only appends, and only to the current module's list. |
| Walk.RunRootUnchanged | src/hir_expand/static_borrow_constants.cpp:72-125 | A root without shared borrows is left as it was, and the registry is unchanged. |
| Walk.RunVariantsKeeps | src/hir_expand/static_borrow_constants.cpp:351-360 | Walking the variants keeps their names, their order and whether each has a discriminant. The registry only grows in the current module. |
| Walk.RunVariantsUnchanged | src/hir_expand/static_borrow_constants.cpp:355-359 | Discriminants without shared borrows leave the variants and the registry as they were. |
| Walk.RunEnumKeeps | src/hir_expand/static_borrow_constants.cpp:347-362 | An enum keeps its generics, its kind and its variants' names. An enum with data variants is unchanged and requests nothing. The registry only grows in the current module. |
| Walk.RunTypeGrows | src/hir_expand/static_borrow_constants.cpp:299-316 | Walking a type only appends, and only to the current module's list. |
| Walk.RunTypesGrows | src/hir_expand/static_borrow_constants.cpp:313-315 | As RunTypeGrows, for a sequence of component types. |
| Walk.RunTypeUnchanged | src/hir_expand/static_borrow_constants.cpp:299-316 | A type with no unevaluated array size is returned as it was, and nothing is requested. |
| Walk.RunTypesUnchanged | src/hir_expand/static_borrow_constants.cpp:313-315 | As RunTypeUnchanged, for a sequence of component types. |
| Walk.RunFunctionKeeps | src/hir_expand/static_borrow_constants.cpp:320-332 | Walking a function keeps its signature and only rewrites an existing body. The registry only grows in the current module. |
| Walk.RunFunctionsKeeps | src/hir_expand/static_borrow_constants.cpp:320-332 | Walking a list of functions keeps their names, order and signatures. The registry only grows in the current module. |
| Walk.RunConstantsKeeps | src/hir_expand/static_borrow_constants.cpp:340-346 | Walking a list of constants keeps their names and order. The registry only grows in the current module. |
| Walk.RunStaticsKeeps | src/hir_expand/static_borrow_constants.cpp:333-339 | Walking a list of statics keeps their names and order. The registry only grows in the current module. |
| Walk.RunNamedTypesKeeps | src/hir_expand/static_borrow_constants.cpp:299-316 | Walking the associated types keeps their names and order. The registry only grows in the current module. |
| Walk.RunValueItemKeeps | src/hir_expand/static_borrow_constants.cpp:320-346 | A value item keeps its name and publicity. An item other than a function, static or constant is unchanged and requests nothing. The registry only grows in the current module. |
| Walk.RunValueItemsKeeps | src/hir_expand/static_borrow_constants.cpp:258-268 | A value namespace keeps its names, order and publicities. The registry only grows in the current module. |
| Walk.RunTypeItemKeeps | src/hir_expand/static_borrow_constants.cpp:258-268 | A type item keeps its name and kind, and a submodule its layout. A submodule's statics go under it. Any other item's statics go to the current module. |
| Walk.RunTypeItemsKeeps | src/hir_expand/static_borrow_constants.cpp:258-268 | A type namespace keeps its length and each item's layout. Every static goes to the module at `p` or below it. |
| Walk.RunModuleKeeps | src/hir_expand/static_borrow_constants.cpp:258-268 | Walking the module at `p` keeps its layout, and every static it creates goes to `p` or one of its submodules. |
| Walk.RunTypeImplKeeps | src/hir_expand/static_borrow_constants.cpp:269-280 | A type impl keeps its generics, source module, method names and signatures and constant names. Its statics go to its source module or below. |
| Walk.RunTraitImplKeeps | src/hir_expand/static_borrow_constants.cpp:281-292 | A trait impl keeps what a type impl keeps, and also its trait path and the names of its statics and associated types. Its statics go to its source module or below. |
| Walk.RunTypeImplsKeeps | src/hir_expand/static_borrow_constants.cpp:269-280 | The type impls keep their number and each keeps what `TypeImplKept` names. Every pending list only grows (`Extends`). |
| Walk.RunTraitImplsKeeps | src/hir_expand/static_borrow_constants.cpp:281-292 | As RunTypeImplsKeeps, for trait impls and `TraitImplKept`. |
| Walk.RunCrateKeeps | src/hir_expand/static_borrow_constants.cpp:232-233 | The walked crate's root has the crate's layout, both impl lists keep their length, every impl keeps its generics, source module and item names, and every pending list only grows. |
| StaticBorrowConstants.OuterVisitor.VisitEnum | src/hir_expand/static_borrow_constants.cpp:347-362 | On success the enum and the registry are exactly what `RunEnum` gives. A value enum has each discriminant classified by a fresh run with the enum's generics as impl generics. An enum with data variants is untouched. The scope is restored and the registry only grows. |
| StaticBorrowConstants.OuterVisitor.VisitVariants | src/hir_expand/static_borrow_constants.cpp:351-360 | On success the variants and the registry are exactly what `RunVariants` gives: each discriminant is rewritten in order by a fresh classifier run, and the numbering continues from one run to the next. |
| StaticBorrowConstants.OuterVisitor.VisitType | src/hir_expand/static_borrow_constants.cpp:299-316 | On success the type and the registry are exactly what `RunType` gives: in an array type the element type first, then a fresh classifier run on an unevaluated size. Other types have their components walked. The registry only grows. |
| StaticBorrowConstants.OuterVisitor.VisitTypes | src/hir_expand/static_borrow_constants.cpp:313-315 | On success the types and the registry are exactly what `RunTypes` gives: the component types are walked in order. The registry only grows. |
| StaticBorrowConstants.OuterVisitor.VisitFunctions | src/hir_expand/static_borrow_constants.cpp:320-332 | On success the methods and the registry are exactly what `RunFunctions` gives: each method in order, the numbering continuing from one to the next. Methods keep their names and signatures, and the scope is restored. |
| StaticBorrowConstants.OuterVisitor.VisitConstants | src/hir_expand/static_borrow_constants.cpp:340-346 | On success the constants and the registry are exactly what `RunConstants` gives, in order. Constants keep their names. |
| StaticBorrowConstants.OuterVisitor.VisitStatics | src/hir_expand/static_borrow_constants.cpp:333-339 | On success the statics and the registry are exactly what `RunStatics` gives, in order. Statics keep their names. |
| StaticBorrowConstants.OuterVisitor.VisitNamedTypes | src/hir_expand/static_borrow_constants.cpp:299-316 | On success the associated types and the registry are exactly what `RunNamedTypes` gives: each type walked as `RunType` says, in order. They keep their names. |
| StaticBorrowConstants.OuterVisitor.VisitValueItem | src/hir_expand/static_borrow_constants.cpp:320-346 | On success the item and the registry are exactly what `RunValueItem` gives. A value item keeps its name and publicity. Items other than functions, statics and constants are untouched. |
| StaticBorrowConstants.OuterVisitor.VisitTypeItem | src/hir_expand/static_borrow_constants.cpp:258-268 | On success the item and the registry are exactly what `RunTypeItem` gives. A submodule's statics go under that submodule. Other type items add statics only to the current module. The item keeps its name and kind (`SameKind`), and a submodule keeps its layout. The context is unchanged. |
| StaticBorrowConstants.OuterVisitor.VisitModule | src/hir_expand/static_borrow_constants.cpp:258-268 | The module and the registry are exactly what `RunModule` gives: with the module current, its type namespace, then its value namespace. The enclosing current module is restored. Every static created while walking module `p` goes to `p` or one of its submodules, and none fails for lack of a module. The walked module has the layout of the one given (`SameLayout`): the same names in order, the same kinds, and submodules at the same paths. |
| StaticBorrowConstants.OuterVisitor.VisitTypeImpl | src/hir_expand/static_borrow_constants.cpp:269-280 | Fails if and only if the impl's source module does not exist. Otherwise the impl and the registry are exactly what `RunTypeImpl` gives. Statics go to the source module, the impl keeps its generics, source module and item names (`TypeImplKept`), the generics are restored and no module is current afterwards. |
| StaticBorrowConstants.OuterVisitor.VisitTraitImpl | src/hir_expand/static_borrow_constants.cpp:281-292 | As VisitTypeImpl, exactly as `RunTraitImpl` gives, also visiting associated statics and types, and keeping the trait path (`TraitImplKept`). |
| StaticBorrowConstants.OuterVisitor.VisitTypeItems | src/hir_expand/static_borrow_constants.cpp:258-268 | The type namespace of the current module and the registry are exactly what `RunTypeItems` gives: every item in order, none failing. |
| StaticBorrowConstants.OuterVisitor.VisitValueItems | src/hir_expand/static_borrow_constants.cpp:258-268 | On success the value namespace and the registry are exactly what `RunValueItems` gives: every item in order. |
| StaticBorrowConstants.OuterVisitor.VisitTypeImpls | src/hir_expand/static_borrow_constants.cpp:269-280 | The type impls are walked in order. The walk fails exactly when some impl's source module is missing, naming that module. On success the impls and the registry are exactly what `RunTypeImpls` gives. |
| StaticBorrowConstants.OuterVisitor.VisitTraitImpls | src/hir_expand/static_borrow_constants.cpp:281-292 | As VisitTypeImpls, for the trait impls, exactly as `RunTraitImpls` gives. |
| StaticBorrowConstants.OuterVisitor.WalkCrate | src/hir_expand/static_borrow_constants.cpp:232-233 | The walked crate and the registry are exactly what `RunCrate` gives: the root module, then the type impls, then the trait impls. It fails if and only if some impl's source module is missing. The walked root has the crate's layout, every impl keeps its generics, source module and item names, and the registry only grows. |
| StaticBorrowConstants.Commit | src/hir_expand/static_borrow_constants.cpp:235-255 | Succeeds if and only if every pending list evaluates. The only failure is a request for a further static. Each module's value namespace then becomes `CommittedValues`, and the tree without its value namespaces is unchanged. |
| StaticBorrowConstants.CommitModule | src/hir_expand/static_borrow_constants.cpp:240-254 | Succeeds if and only if every static of the list evaluates. Its statics are inserted in order into that module's value namespace, and every other value namespace stays the same. The tree without its value namespaces is unchanged. |
| StaticBorrowConstants.OuterVisitor.VisitCrate | src/hir_expand/static_borrow_constants.cpp:232-256 | The crate is walked as `RunCrate` says, then commit runs. Failure is only a missing impl module or a nested allocation, and success implies every impl's source module exists. The walked tree (`walked`), the impls and the pending statics are those of `RunCrate`. The result is the walked tree committed: each value namespace is `CommittedValues`, and the type namespaces are unchanged. Every pending static `i` of module `m` is then found in `m` as `lifted#i`, evaluated and marked generated, when those names were free in `m`. |
| StaticBorrowConstants.Expand | src/hir_expand/static_borrow_constants.cpp:376-380 | The whole pass fails only on an impl whose source module is missing or on an evaluator that allocates, and succeeds when neither happens. Success implies every impl's source module exists, so a missing one always fails. On success the pending statics and the impls are those of `RunCrate` from an empty scope and an empty registry. The module tree is that walk's tree with each value namespace committed (`CommittedValues`) and its type namespaces unchanged. The pending lists are canonical and keyed by modules of the crate. Each pending static is found in its module as `lifted#i`, evaluated and marked generated, when those names were free. |

## Left out

- StaticBorrowConstants.ExprVisitorMutate.VisitRoot: the contract says failure needs no current module, but not that a root that promotes nothing cannot fail. In mrustc the assertion at src/hir_expand/static_borrow_constants.cpp:214 fires only when a static is added. Every root reached from `Expand` is visited inside a module, so that path is never taken.
- StaticBorrowConstants.OuterVisitor.RunClassifier: the same gap as `VisitRoot`. It does not state that a run promoting nothing succeeds when no module is current.
- Resolver internals are not modelled: `get_value`, `type_is_interior_mutable`, `set_impl_generics`/`set_item_generics`, and `monomorphise_type_needed`/`monomorphise_path_needed`. They are not part of this model, so their answers are function-valued fields of `Resolver` and hold for any behaviour. The generics in scope are a `Scope` value passed to them.
- `HIR::Evaluator::evaluate_constant` is not part of this model. It is a function-valued parameter that either yields an encoded value or asks for a new static.
- `HIR::Visitor` and `ExprVisitorDef` are not part of this model. Their child-walking is written out for the node kinds and items modelled. The order assumed is:
  - the type namespace of a module before its value namespace;
  - the root module, then type impls, then trait impls;
  - within an impl: self type, methods, constants, then statics and associated types.

  The base visitor's loops over the type impls and the trait impls are written as recursion on all but the last impl (`VisitTypeImpls`, `VisitTraitImpls`), which visits them in the same order.
- Marker impls are left out. They are the one place where the missing-module bug (line 214) could fire: after the root module and after every impl no module is current (lines 266, 279, 291), so an array size inside a marker impl's type would be classified without a module (lines 305-309). Whether the base visitor reaches them after the trait impls depends on `HIR::Visitor`, which is not part of this model. Also left out are the type arguments of a trait impl's trait path and const-generic arguments in paths. So are trait definitions' associated constants, statics and types, and the bounds and defaults of generic parameters. Only trait methods are visited.
- Diagnostics are left out: `DEBUG`, `TRACE_FUNCTION_FR`, `typeid(...).name()` and spans.
- The commented-out zero-size check on line 93 is left out. Every non-shared borrow is blocked.
- `HIR_Expand_StaticBorrowConstants_Expr` (lines 366-375) is left out. Its new-static callback is an unimplemented `TODO`.
- The `visit_expr` bug (lines 295-297) is left out. Every expression root in the model is reached through an item visitor that runs the classifier, so that bug is unreachable by construction.
- Pointer-identity map keys, `const_cast` and `RcString` interning are left out. Modules are keyed by path, and names are strings.
- The map iteration order of commit is left unspecified. Modules are taken in an arbitrary order.
- Size and width limits are not modelled: the list index (`size_t`) is an unbounded `nat`.
- Expression node kinds are limited:
  - `ArraySized` keeps its element count as a number.
  - A struct literal's base value is folded into its children.
  - Node kinds with no rule of their own are one `Opaque` kind whose children are still walked.
- In-place slot replacement and aliasing of expression nodes are not captured, because trees are values.
- StaticBorrowConstants.OuterVisitor.VisitCrate: places a pending static under `lifted#i` only when those names were free in its module; otherwise `std::map::insert` keeps the entry already there, which InsertValue states.
- Registry.EvaluatePending: does not see the crate. The evaluator is built over `m_crate` (line 247). Statics are inserted into their module one at a time (line 250). So in mrustc each static is evaluated against a crate that already holds the statics committed before it. That matters when an initializer names an earlier lifted static, as in `&&1`. The model's `Evaluator` is given only the path, the initializer and the type, so it cannot depend on those earlier insertions.
- Some item kinds are left out: unions and extern types. The HIR visitor walks a union's field types, so array sizes inside them are classified in mrustc but not in the model.
- Some type kinds are left out: raw pointers, function pointers, trait objects and closures. `visit_type` (lines 299-316) reaches array sizes inside these through the base visitor; the model's `TypeRef` has no such kinds, so it does not classify those sizes.
