# Incremental state maintenance and predicate algebra of Cozy, in Dafny

Cozy synthesises data structures. When an operation `op` runs, every
stored value derived from the abstract state must be brought up to date.
`cozy/state_maintenance.py` does that symbolically, in these steps:

- `mutate(e, op)` rewrites an expression `e` into one that denotes, before
  `op` runs, the value `e` has after it.
- `bag_delta` computes the elements an update adds to and removes from a
  bag expression. It works with the bag simplifiers `bag_union`,
  `bag_subtract`, `bag_intersection`, `emap`, `efilter` and `flatmap`.
- Those simplifiers rely on conservative shape tests answered in
  three-valued logic (`MAYBE`, `definitely`, `possibly`, `both`,
  `invert`).
- A condition that rewriting cannot decide is handed to the SMT oracle
  through `fork`, and `resolve_forks` re-runs the computation on both
  sides of it.
- `sketch_update` and `_mutate_in_place` generate the code that patches a
  stored value. The code follows the shape of the value's type. Every part
  it cannot compute directly becomes a new synthesis query (a "subgoal").
- `flatten` turns a statement into its list of primitive updates.

`src/predicates.py` is the predicate-tree algebra of the plan-search front
end:

- the trees `Var`, `Bool`, `Compare`, `And`, `Or` and `Not`;
- evaluation, size and comparison listing;
- structural equality and negation normal form.

The model is split into these files:

- `syntax.dfy`: the expression and statement trees, free and bound
  variables, first-order substitution and fresh names.
- `semantics.dfy`: an evaluator. Bags are sequences of values. The bag
  operations and the statements about them count elements as multisets,
  but `==` on two bags compares the sequences in order. An environment
  binds variables to values and holds a heap: a handle is an address, and
  its `val` is the value stored there, so two handles alias exactly when
  their addresses are equal. It also holds a call table: a call evaluates
  its arguments and looks up the result for the function's name and the
  argument values, with the result type's default where there is none.
  Statements are
  executed on environments. An assignment writes through an access path:
  a variable followed by tuple components, record fields and a handle's
  `val`. A `for` loop binds its variable for each element in turn and
  restores it afterwards. Map statements delete or overwrite one key.
- `mutation.dfy`: `mutate`, `_do_assignment`, `_replace_field` and
  `replace_get_value`, with their semantic contract.
- `maybe.dfy`: the three-valued logic.
- `shapes.dfy`: the shape tests, `exists`, `len_of`, `implies`,
  `edistinct`, `equal` and `cond`.
- `forks.dfy`: `fork` and `resolve_forks`. The oracle is a function
  parameter. The `ForkOn` exception becomes a `NeedsSplit` result.
- `bags.dfy`: `bag_union`, `bag_contains`, `bag_subtract` and
  `bag_intersection`.
- `comprehensions.dfy`: `emap`, `efilter` and `flatmap`.
- `flatten.dfy`: `flatten`.
- `delta.dfy`: the structural cases of `bag_delta`.
- `sketch.dfy`: `value_at`, `sketch_update` and `_mutate_in_place`. The
  fresh-name counter and the list of subgoals produced so far are the
  state of a `Session` class, whose methods are proved equal to the
  functional specification `UpdateSketch`. To run a sketch, each call of
  a query it produced is read as that query's return expression (`Link`).
  This is exact, because the call passes the query's free variables
  under their own names. Collections are compared up to order
  (`AgreeAt`).
- `predicates.dfy`: the predicate trees.

A sound oracle is one that calls a formula valid only if the formula holds
in every environment. Every soundness lemma about `fork`, `bag_subtract`,
`bag_intersection`, `flatmap` and `bag_delta` assumes such an oracle.

Where lambdas are involved, the original relies on capture-avoiding
substitution and renaming. The model uses first-order substitution
instead, and states as a precondition that no lambda captures a variable.
Examples are `Hygienic`, `EmapSafe`, `EfilterSafe` and `BV(e) !! FV(v)`.

## Model

| member | source | states |
|---|---|---|
| Mutation.MutateSound | cozy/state_maintenance.py:28-66 | wherever the statement runs and nothing is captured, the mutated expression evaluated before the statement equals the original expression evaluated after it |
| Mutation.MutateNoOp | cozy/state_maintenance.py:30-31 | a no-op and a bare declaration leave the expression unchanged |
| Mutation.MutateSingleCall | cozy/state_maintenance.py:35-40 | `add(x)` / `remove(x)` give exactly the result of `add_all({x})` / `remove_all({x})` |
| Mutation.MutateCallDesugar | cozy/state_maintenance.py:37-42 | every collection update is the assignment `target := target + xs` (or `- xs`) |
| Mutation.CallRhsSound | cozy/state_maintenance.py:38-42 | the desugared right-hand side evaluates to the update the call performs |
| Mutation.MutateUnknownCall | cozy/state_maintenance.py:43-44 | any other method name is an error naming the function |
| Mutation.MutateIfShape | cozy/state_maintenance.py:45-50 | a conditional statement gives `cond ? then : else` of the branches' results, or their common result when they agree |
| Mutation.MutateIfSame | cozy/state_maintenance.py:46-49 | a conditional whose two branches are the same statement gives that branch's result |
| Mutation.MutateSeqAssoc | cozy/state_maintenance.py:52-53 | right-reassociating a left-nested sequence does not change the result |
| Delta.MutateSeqStep | cozy/state_maintenance.py:54 | in a sequence, the second statement is applied to `e` first and the first statement to its result |
| Mutation.MutateDeclHead | cozy/state_maintenance.py:55-61 | a leading declaration substitutes its value for its variable in what the rest of the sequence gives |
| Mutation.MutateBinders | cozy/state_maintenance.py:28-66 | mutation introduces no lambda binders beyond those of the expression and the statement |
| Mutation.DoAssignmentSound | cozy/state_maintenance.py:1230-1244 | the rewritten expression evaluated before `lval = v` equals the expression evaluated after the assignment, for variables, record fields and a handle's `val`, whose write every alias of the handle sees |
| Mutation.ReplaceGetValueSound | cozy/state_maintenance.py:1205-1228 | after rewriting each `h.val` of the pointer's type into `(h == ptr) ? v : h.val`, the expression evaluated before the store equals the original evaluated after storing `v` at the pointer's address |
| Mutation.HandleWriteAliases | cozy/state_maintenance.py:1205-1228 | after `h.val = 5`, `g.val` of the same handle type reads 5 exactly when `g` has `h`'s address, and its old value otherwise |
| Mutation.WritesNoHandleTyped | cozy/state_maintenance.py:28-66 | a statement that writes through no handle meets the handle-typing side condition of `MutateSound` for every expression |
| Mutation.ReplaceFieldSound | cozy/state_maintenance.py:1246-1249 | the rebuilt record is the old record with exactly that field replaced and every other field read from the old record |
| Mutation.ReplaceGetValueUnread | cozy/state_maintenance.py:1205-1228 | an expression that reads no `val` through a handle of the pointer's type is left as it is |
| Mutation.ReplaceGetValueBinders | cozy/state_maintenance.py:1216-1221 | rewriting handle reads introduces no binders beyond those of the expression, the pointer and the new value |
| Bags.BagUnionIdentity | cozy/state_maintenance.py:400-404 | a union with an empty operand gives back the other operand |
| Bags.BagUnionSound | cozy/state_maintenance.py:400-405 | the union's elements are those of `e1` followed by those of `e2` |
| Bags.BagContainsSound | cozy/state_maintenance.py:433-442 | the membership formula holds exactly when `x`'s value is an element of the bag |
| Bags.BagSubtractSound | cozy/state_maintenance.py:444-481 | with a sound fork, a resolved difference has exactly the elements of `e1` less those of `e2`, counted with multiplicity |
| Bags.BagSubtractEmpty | cozy/state_maintenance.py:445-448 | subtracting from, or subtracting, an empty bag gives `e1` |
| Bags.BagSubtractSame | cozy/state_maintenance.py:449-450 | a bag less itself is the empty bag |
| Bags.BagSubtractUnion | cozy/state_maintenance.py:463-464 | `e1 - (a + b)` is `(e1 - a) - b`, split-request included |
| Bags.BagIntersectionSound | cozy/state_maintenance.py:407-426 | with a sound fork, a resolved intersection has exactly the common elements, with multiplicity |
| Comprehensions.EmapSound | cozy/state_maintenance.py:293-309 | the rewritten map holds the images of `e`'s elements under `f`, in order |
| Comprehensions.EfilterSound | cozy/state_maintenance.py:311-326 | the corrected filter keeps exactly the elements `f` accepts, in order |
| Comprehensions.EfilterAsWrittenDropsMap | cozy/state_maintenance.py:319-320 | as written, filtering `map(not, {false})` by the identity returns the unmapped `{false}` |
| Comprehensions.EfilterKeepsMap | cozy/state_maintenance.py:311-326 | the true answer on that input is `{true}` |
| Comprehensions.EfilterExampleCorrected | cozy/state_maintenance.py:319-320 | the corrected rewrite returns `{true}` on that input |
| Comprehensions.FlatmapSound | cozy/state_maintenance.py:371-398 | with a sound fork, a resolved flat-map is the concatenation of the bags `f` yields, in order |
| Comprehensions.FlatmapEmpty | cozy/state_maintenance.py:374-375 | an empty source or an empty body always resolves, to the empty concatenation |
| Flatten.FlattenPrimitive | cozy/state_maintenance.py:487-521 | with either `efilter`, the flattened statement lists only assignments and one-argument `add_all`/`remove_all` calls, one for each update of the original |
| Flatten.FlattenSingleCall | cozy/state_maintenance.py:502-509 | `add(x)` and `remove(x)` flatten as `add_all({x})` and `remove_all({x})` |
| Flatten.PathCondSound | cozy/state_maintenance.py:496-499 | a branch's path condition holds before the update exactly when the outer one does and the branch condition holds after the preceding statements |
| Flatten.CallArgSound | cozy/state_maintenance.py:504-513 | with the corrected `efilter`, a flattened `add_all`/`remove_all` is one call whose argument holds, before the update, the original argument's elements after the preceding statements when the path condition holds, and none otherwise |
| Flatten.FlattenAsWrittenDropsMap | cozy/state_maintenance.py:503-506 | as written, `if c: xs.add_all(map(not, {false}))` flattens to a call adding `{false}` when `c` holds |
| Flatten.FlattenExampleCorrected | cozy/state_maintenance.py:503-506 | with the corrected `efilter`, the same statement flattens to a call adding `{true}` when `c` holds, which is what it adds |
| ThreeValued.Both | cozy/state_maintenance.py:571-576 | `both` is the lesser answer in the truth order false < maybe < true (Kleene conjunction) |
| ThreeValued.Invert | cozy/state_maintenance.py:578-583 | `invert` reverses the truth order (Kleene negation) |
| ThreeValued.DefinitelyPossibly | cozy/state_maintenance.py:561-569 | `definitely(v)` implies `possibly(v)`; MAYBE is possible and not definite; `possibly(v)` iff not `definitely(invert(v))` |
| ThreeValued.KleeneLaws | cozy/state_maintenance.py:571-583 | `both` is commutative with true as unit and false as zero; `invert` is an involution |
| ThreeValued.KleeneSound | cozy/state_maintenance.py:571-583 | from sound answers for `a` and `b`, `both` and `invert` give sound answers for `a and b` and `not a` |
| ThreeValued.KleeneExtendsBoolean | cozy/state_maintenance.py:571-583 | on definite answers `both` and `invert` are Boolean conjunction and negation |
| Shapes.CondSound | cozy/state_maintenance.py:22 | folding a conditional never changes its value |
| Shapes.Equal | cozy/state_maintenance.py:633-638 | two record literals of the same record type give the conjunction of their fields' equality tests, anything else the equality `e1 == e2`; either way the formula is true exactly when the two values are equal |
| Shapes.IsEmpty | cozy/state_maintenance.py:617-626 | `is_empty` never answers a definite no |
| Shapes.IsEmptySound | cozy/state_maintenance.py:617-626 | a definite "empty" is right in every environment |
| Shapes.IsSingletonSound | cozy/state_maintenance.py:608-615 | a definite "singleton" means exactly one element in every environment |
| Shapes.SingletonOrEmptySound | cozy/state_maintenance.py:585-606 | a definite answer means at most one element in every environment |
| Shapes.AreUniqueSound | cozy/state_maintenance.py:362-369 | a definite "unique" means no element occurs twice |
| Shapes.EDistinctSound | cozy/state_maintenance.py:628-631 | the result has the distinct elements of `e`, also when the operator is skipped |
| Shapes.ExistsSound | cozy/state_maintenance.py:643-657 | the formula is true exactly when the bag is non-empty |
| Shapes.LenOfSound | cozy/state_maintenance.py:659-668 | the expression evaluates to the bag's number of elements |
| Shapes.ImpliesSound | cozy/state_maintenance.py:842-851 | the folded implication is true exactly when the implication of its operands is |
| Shapes.ElementOf | cozy/state_maintenance.py:711-718 | `element_of` never answers a definite yes |
| Shapes.SubsetOfSound | cozy/state_maintenance.py:720-741 | a definite "subset" answer means sub-bag in every environment |
| Forks.Fork | cozy/state_maintenance.py:924-946 | a resolved fork returns one of its two branches; a split is only ever requested on an atom |
| Forks.ForkNot | cozy/state_maintenance.py:934-935 | a fork on `not c` is the fork on `c` with the branches swapped |
| Forks.ForkAtom | cozy/state_maintenance.py:941-946 | on an atom: `then` iff the oracle validates `assumptions => c` (or both branches agree and it validates the negation); a split exactly when it validates neither |
| Forks.ForkSound | cozy/state_maintenance.py:924-946 | with a sound oracle and assumptions that hold, a resolved fork has the value of the branch the condition picks |
| Forks.ResolveForksSplit | cozy/state_maintenance.py:951-956 | a split on `c` is answered by `cond(c, run under a and c, run under a and not c)` |
| Forks.ResolveForksSound | cozy/state_maintenance.py:948-956 | if the computation is sound under every assumption, its resolution is sound under the initial assumptions |
| Delta.BagDeltaSound | cozy/state_maintenance.py:959-1132 | the corrected delta removes only elements of `e`, and `e - removed + added` is `e` after the update |
| Delta.BagDeltaMatchesMutate | cozy/state_maintenance.py:885-890 | evaluated before the update, `e - removed + added` has the elements of `mutate(e, s)` |
| Delta.WalkPlus | cozy/state_maintenance.py:1027-1030 | the delta of `a + b` is the pairwise union of the operands' deltas |
| Delta.UnionSound | cozy/state_maintenance.py:1027-1030 | the union case meets the delta contract |
| Delta.WalkMinus | cozy/state_maintenance.py:1032-1040 | the delta of `a - b` is built from the operands' deltas, by the original rule or the corrected one |
| Delta.DiffSound | cozy/state_maintenance.py:1032-1040 | under the sub-bag assumption of the comment, the corrected difference case meets the delta contract |
| Delta.WalkLeaves | cozy/state_maintenance.py:1065-1066 | the empty bag gains and loses nothing; a state variable changes as the expression it holds |
| Delta.CondSoundCase | cozy/state_maintenance.py:1068-1075 | a conditional whose condition the update leaves alone meets the delta contract |
| Delta.VarDeltaForms | cozy/state_maintenance.py:1119-1123 | a variable mutated to `(e - d) + n` gives `(n, d)` as written and `(n, d ∩ e)` corrected; `e + n` gives `(n, empty)` |
| Delta.VarSound | cozy/state_maintenance.py:1114-1128 | the corrected variable case meets the delta contract |
| Delta.SubtractedSound | cozy/state_maintenance.py:1125-1128 | the fallback `(new - e, e - new)` removes only elements of `e` and rebuilds the new value |
| Delta.DiffDeltaAsWrittenWrong | cozy/state_maintenance.py:1032-1040 | on `xs - ys` with `xs.add(x); ys.add(x)`, the original rule reports `{x}` removed from an empty bag and yields `{1}` instead of the empty bag |
| Delta.DiffDeltaCorrected | cozy/state_maintenance.py:1032-1040 | the corrected rule meets the contract on that input |
| Delta.VarDeltaAsWrittenWrong | cozy/state_maintenance.py:1119-1120 | on `xs + ys` with `xs.remove(x); xs.add(x)` and `xs` empty, the original reports `{x}` removed from `xs`, and the union then yields `{1}` instead of `{1, 1}` |
| Delta.VarDeltaCorrected | cozy/state_maintenance.py:1119-1120 | the corrected rule meets the contract on that input |
| Sketch.ValueAtSound | cozy/state_maintenance.py:1407-1419 | the expression `value_at` builds has the value of the lookup `m[k]`, with the type's default for a missing key |
| Sketch.EAllOfSound | cozy/state_maintenance.py:1437-1439 | the conjunction of the assumptions and invariants holds exactly when each of them does |
| Sketch.Outside | cozy/state_maintenance.py:1450-1451 | a query's arguments are exactly its free variables outside the abstract state, each once |
| Sketch.MakeGoalOk | cozy/state_maintenance.py:1445-1453 | the query takes exactly its free variables outside `ctx` and is named by the counter's current value |
| Sketch.SketchUnchanged | cozy/state_maintenance.py:1437-1440 | when the oracle proves the value unchanged, the code is a no-op with no subgoals, and a sound oracle does so only when old and new agree |
| Sketch.UpdateSketch | cozy/state_maintenance.py:1421-1514 | every query generated has distinct fresh names drawn from the counter between its value before and after, takes exactly its free variables outside `ctx`, and assumes at least the caller's assumptions |
| Sketch.BagSketch | cozy/state_maintenance.py:1461-1467 | the collection case's two queries meet the same freshness and argument conditions |
| Sketch.BagSketchShape | cozy/state_maintenance.py:1461-1467 | a collection gets the additions query `new - old` and the deletions query `old - new`, then a loop removing the deletions and a loop adding the additions |
| Sketch.BagSketchCorrect | cozy/state_maintenance.py:1461-1467 | the deletions are part of the old value, and removing them and adding the additions gives the new value |
| Sketch.Parts | cozy/state_maintenance.py:1471-1482 | tuples and records are sketched component by component, in order, with good queries |
| Sketch.MapSketch | cozy/state_maintenance.py:1483-1509 | the map case's queries (dropped keys, value update, changed keys) are good queries of the caller's assumptions |
| Sketch.MapSketchWith | cozy/state_maintenance.py:1491-1509 | the value's queries may assume more; the case's queries as a whole still assume at least the caller's |
| Sketch.AssignSketch | cozy/state_maintenance.py:1510-1512 | any other type is assigned the answer of one good query for the new value |
| Sketch.SketchCorrect | cozy/state_maintenance.py:1428-1432 | when `lval` holds the old value and the root variable is read by nothing else, the code runs with its queries answered, writes only through `lval`, and leaves `lval` holding what the new value held before (collections up to order) |
| Sketch.SketchRuns | cozy/state_maintenance.py:1437-1512 | the same for any list of queries that answers the sketch's subgoals, by induction on the type: unchanged values, collections, tuples, records and assigned values |
| Sketch.UpdateLoop | cozy/state_maintenance.py:1465-1466 | `for v in es: lval.add(v)` (or `remove`) writes only through `lval` and adds the elements of `es` to it (or takes them out), counted with multiplicity |
| Sketch.BagRuns | cozy/state_maintenance.py:1461-1467 | the collection code runs, writes only through `lval`, and takes `old - new` out of the collection and adds `new - old` |
| Sketch.BagCase | cozy/state_maintenance.py:1461-1467 | starting from the old elements, the collection ends up with the new value's elements |
| Sketch.AssignRuns | cozy/state_maintenance.py:1510-1512 | the fallback assignment leaves `lval` equal to the new value and writes only through it |
| Sketch.TupleRuns | cozy/state_maintenance.py:1471-1482 | after the component sketches have run, every component of a tuple or record agrees with the new value's |
| Sketch.Session.NextName | cozy/state_maintenance.py:1448 | a fresh name is the counter's current value under the prefix, and the counter moves on by one |
| Sketch.Session.MakeSubgoal | cozy/state_maintenance.py:1445-1453 | the method builds the query and call `MakeGoal` describes and uses up one counter value |
| Sketch.Session.SketchUpdate | cozy/state_maintenance.py:1421-1514 | the statement, the queries and the counter left behind are exactly those of `UpdateSketch` |
| Sketch.Session.BagUpdate | cozy/state_maintenance.py:1461-1467 | the collection case computes exactly `BagSketch` |
| Sketch.Session.PartsUpdate | cozy/state_maintenance.py:1471-1482 | the loop over components computes exactly `Parts` at the full width |
| Sketch.Session.PartUpdate | cozy/state_maintenance.py:1474-1476 | one more component extends `Parts` by one |
| Sketch.Session.MapUpdate | cozy/state_maintenance.py:1483-1509 | the map case computes exactly `MapSketch` |
| Sketch.Session.MutateInPlace | cozy/state_maintenance.py:1319-1405 | the code is `UpdateSketch` of the mutated expression; its queries are appended to the subgoals and keep all names distinct; a failing `mutate` changes nothing |
| Syntax.FreshNameInjective | cozy/state_maintenance.py:1448 | different counter values give different names |
| Semantics.AssignPath | cozy/state_maintenance.py:1230-1244 | writing through an access path succeeds and rebinds only its root variable |
| Semantics.ReadBack | cozy/state_maintenance.py:1230-1244 | after writing `v` through an access path, the path reads `v` |
| Semantics.Overwrite | cozy/state_maintenance.py:1230-1244 | a second write through the same access path overrides the first |
| Semantics.AssignBind | cozy/state_maintenance.py:1463-1466 | binding a loop variable other than the path's root commutes with writing through the path |
| Semantics.MapPutLookup | cozy/state_maintenance.py:1506-1507 | after `m[k] = v`, key `k` reads `v` and every other key reads what it did before |
| Semantics.MapDeleteLookup | cozy/state_maintenance.py:1493-1494 | after `del m[k]`, key `k` is missing and every other key reads what it did before |
| Syntax.StripFV | cozy/state_maintenance.py:1443 | removing state-variable markers keeps the free variables |
| Semantics.EvalSubst | cozy/state_maintenance.py:1235 | evaluating `e[x := v]` is evaluating `e` with `x` bound to `v`'s value, when nothing is captured |
| Semantics.ApplyToSound | cozy/state_maintenance.py:300 | applying a lambda evaluates its body with the argument bound |
| Semantics.ComposeSound | cozy/state_maintenance.py:304 | a composed lambda evaluates as the two lambdas one after the other |
| Semantics.StripStateVarSound | cozy/state_maintenance.py:1443 | removing state-variable markers does not change the value |
| Predicates.InvertOp | src/predicates.py:65-71 | the inverted operator's comparison is the negation of the original's for every pair of integers |
| Predicates.InvertOpInvolution | src/predicates.py:65-71 | inverting twice gives the operator back, and no operator is its own inverse |
| Predicates.InvertOpNegates | src/predicates.py:104-110 | evaluating a comparison with the inverted operator negates it |
| Predicates.Size | src/predicates.py:111-112 | every size is at least 1; binary nodes are at least 3 and negations at least 2 |
| Predicates.ComparisonsDefined | src/predicates.py:113-114 | `comparisons` is defined exactly when every comparison has variables on both sides, and then lists one pair per comparison |
| Predicates.StructEqIsEquality | src/predicates.py:119-120 | `__eq__` holds exactly when the two trees are equal |
| Predicates.NNFAsWrittenFlipsDoubleNegation | src/predicates.py:184 | as written, `Not(Not(Bool(True)))` of value 1 becomes `Bool(False)` of value 0 |
| Predicates.NegNNFRules | src/predicates.py:178-184 | `Not(p).toNNF()` removes a double negation, applies De Morgan, flips a `Bool`, inverts a comparison and keeps `Not(Var)` |
| Predicates.NNFShape | src/predicates.py:178-184 | both versions produce trees where `Not` sits only directly above a `Var` |
| Predicates.NNFIdentityOnNNF | src/predicates.py:95-96 | a predicate already in negation normal form is left unchanged |
| Predicates.NNFIdempotent | src/predicates.py:129-130 | converting twice is converting once |
| Predicates.NNFPreservesTruth | src/predicates.py:178-188 | the corrected conversion keeps the truth value of a well-formed predicate in every environment, and its negated form negates it |
| Predicates.NNFKeepsComparisons | src/predicates.py:191-192 | both versions keep the list of compared variable pairs, in order |

## Left out

- `cozy/simplification.py`, `cozy/syntax_tools.py`, `cozy/common.py`, `cozy/solver.py` and `cozy/evaluation.py` are not part of this model. The model therefore defines its own pieces:
  - `simplify` is the identity;
  - `alpha_equivalent` is structural equality;
  - `subst` is first-order substitution;
  - `simplify_cond` folds a literal condition and equal branches;
  - `fresh_name` and `fresh_var` are a prefix plus a shared counter, with the prefix `"var"` for variables;
  - `EAll` and `seq` are defined locally.
- The oracle is a function parameter. The solver, `valid`, `minimal_model` and `solver_for` with its cache are left out.
- Mutation.ReplaceGetValueBinders: the renaming of lambda arguments that clash with the pointer or the new value is not modelled. Capture is excluded by the `Hygienic` precondition instead.
- Mutation.DoAssignmentSound: the heap is one address space, and `replace_get_value` guards only the reads through handles of the written handle's type. The write is covered when every `val` the expression reads goes through that type (`ValReadsThrough`, required through `LvalReadsTyped`). This stands in for the typing that keeps handles of different types at different addresses.
- Mutation.MutateSound: the same side condition, for every handle write in the statement, is part of `Hygienic` (`HandleReadsTyped`).
- Delta.BagDeltaSound: covers statements that write through no handle (`WritesNoHandle`).
- Shapes.Equal: two record literals are compared field by field only when they have the same distinct field names in the same order, which is what two literals of one record type have. Any other pair is compared with `==`, where the original would look the names up and fail on a missing one. `simplify` of each conjunct is the identity.
- Mutation.MutateSound: loops (`SForEach`) and map updates are not handled, as in the original, where `mutate` raises `NotImplementedError`. They give an error result.
- `bag_delta`: the flat-map case returns `Unsupported` in the model. So do the map and filter cases, which the original first rewrites into flat-maps (cozy/state_maintenance.py:968-978). The flat-map case computes the body's delta under a fresh bound variable, resolves its forks, and combines `mutate`, `flatmap`, `bag_subtract` and `bag_intersection` of the pieces. Its soundness needs a delta contract for each element the variable ranges over, which the model does not state.
- `bag_delta`: the distinct case returns `Unsupported` because it needs `are_unique` and element counting (`ECountIn`), which the model's expressions do not have. The singleton case and conditionals whose condition changes return `Unsupported` because they go through `better_mutate` and `became_true`/`became_false`, which need the heap structures and the solver.
- Delta.DiffSound: the comment assumes `ys' ⊆ xs`. The model reads this as "each difference subtracts a sub-bag of its left operand", before and after the update.
- `checked_bag_delta`: its check, the `assert_eq` calls after its `return`, is unreachable. That check would demand the exact differences `added == e' - e` and `removed == e - e'`. The model does not promise this exact form. `DeltaOk` states instead the form of the disabled check in `dbg` (cozy/state_maintenance.py:863 and 885-890): the removed elements are part of `e`, and `e - removed + added` is `e` after the update.
- `bag_delta` is wrapped by `dbg`, which prints each delta and raises `ValueError` when the removed expression has more than 100 nodes (cozy/state_maintenance.py:860-861). This applies at every level of the recursion. The model returns the delta whatever its size, and the printing is left out.
- Forks.ResolveForksSound: the original recurses until no split is asked for. `ResolveForks` takes a fuel bound and returns `None` when it runs out.
- Flatten.FlattenPrimitive: the generator is modelled as a sequence. The fresh variable each path filter binds is a parameter `v`. A flag chooses between the `efilter` as written and the corrected one.
- Sketch.SketchCorrect: the result covers collection, tuple, record and assigned types, whose components hold no map. For a map-typed `lval` the model generates the code (`MapSketch`), but does not prove what running it does. A record with duplicate field names and a handle's `val` are not access paths here, so `lval` goes through neither. A query call is read as the query's return expression rather than as a call of synthesised code. The oracle's "unchanged" answer is sound only for order-sensitive equality (see Forks.OracleSound).
- sketch_update: the `skip_stateless_synthesis` and `update_numbers_with_deltas` options default to false. Their branches are therefore not modelled, and a numeric value takes the fallback assignment.
- make_subgoal: the extra assumptions `a` are empty at every call site and are left out. Docstrings are left out too.
- `mutate_in_place` only calls `_mutate_in_place`: its `if False:` branch is dead, and so is the one in `_mutate_in_place`. `extension_handler` is taken to return `None`.
- The type annotations the original attaches with `with_type` are not stored on most nodes. Types are computed by `TypeOf`.
- `better_mutate`, `changed`, `became_bool`, `optimize`, `optimize_lambda`, `repair_EStateVar` and `infer_the_one_passing_element` are not modelled. They need the heap structures or the solver; `infer_the_one_passing_element` is used only in commented-out code.
- `is_filter` and `to_predicate` are left out: they are used only in commented-out code.
- Not modelled: the debugging and printing helpers (`dbg` apart from its size check above, `assert_eq`, `check_valid`, `pprint_value`, `pprint_model`, `differences`, `simplify_white`), and `test` and `run` with their fixtures.
- `src/cost_model.py` is left out. It uses floating point and runs external programs.
- The `toZ3` methods of `src/predicates.py` are left out because they call the Z3 bindings. The `__lt__` orderings and `__hash__` are left out too.
- Forks.OracleSound: `==` on two bags compares their element sequences in order (`BinaryVal`), where Cozy's solver compares bags as multisets. A sound oracle must therefore validate only formulas that hold under the order-sensitive reading, and one that validates `xs + ys == ys + xs` is not sound in the model. ForkSound, ResolveForksSound, BagSubtractSound, BagIntersectionSound, FlatmapSound, BagDeltaSound and SketchCorrect therefore do not cover an oracle that decides bag equalities up to order, as the `EEq(old_value, new_value)` test of `sketch_update` (cozy/state_maintenance.py:1437-1440) asks the solver to. Comparing up to order would require every bag operation, membership test and element comparison to work up to the reordering of nested bags.
- Semantics.Eval: a call is a pure function of its name and argument values, fixed by the environment's call table, and no statement changes it. A called query whose result depends on state it reads, and which an update changes, is not modelled. `mutate` rewrites only the call's arguments too, so the table stands for the queries as the original treats them.
- Predicates: evaluation is over integers, with Python's `True`/`False` as 1/0. A variable missing from the environment reads as 0.

## Findings

| source | as written | input that shows it | evidently intended | confidence | as-written member | corrected member |
|---|---|---|---|---|---|---|
| src/predicates.py:184 | `Not(Not(q)).toNNF()` returns `Not(q).toNNF()`, which removes only one negation | `Not(Not(Bool(True)))` becomes `Bool(False)` | `q.toNNF()`, which keeps the truth value | not executed | Predicates.NNFAsWrittenFlipsDoubleNegation | Predicates.NNFPreservesTruth |
| cozy/state_maintenance.py:1032-1040 | the delta of `a - b` is `(added_a + removed_b, removed_a + added_b)` | `xs = ys = {1}`, `xs.add(1); ys.add(1)`: `{1}` is reported removed from the empty `xs - ys`, and the result `{1}` differs from the true empty bag | cancel the elements common to the two bags | not executed | Delta.DiffDeltaAsWrittenWrong | Delta.DiffDeltaCorrected |
| cozy/state_maintenance.py:1119-1120 | a variable mutated to `(e - d) + n` reports all of `d` removed | `xs = {}`, `ys = {1}`, `xs.remove(1); xs.add(1)` on `xs + ys`: the result is `{1}` instead of `{1, 1}` | report removed only the part of `d` that is in `e` (`d ∩ e`) | not executed | Delta.VarDeltaAsWrittenWrong | Delta.VarDeltaCorrected |
| cozy/state_maintenance.py:319-320 | the filter of a map filters the source by the composed predicate and returns source elements, dropping the map | `efilter(map(not, {false}), identity)` gives `{false}` instead of `{true}` | map the filtered source: `emap(efilter(xs, p∘g), g)` | not executed | Comprehensions.EfilterAsWrittenDropsMap | Comprehensions.EfilterExampleCorrected |
| cozy/state_maintenance.py:503-506 | `flatten` filters an `add_all` argument with the `efilter` above, so an argument that is a map loses the map | `if c: xs.add_all(map(not, {false}))` with `c` true flattens to `xs.add_all` of `{false}`, where the statement adds `{true}` | filter with the corrected `efilter` | not executed | Flatten.FlattenAsWrittenDropsMap | Flatten.FlattenExampleCorrected |
