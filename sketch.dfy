/**
 * `sketch_update` and `_mutate_in_place`: the code that brings a stored
 * value `lval` from `old_value` to `new_value`, laid out by the shape of
 * `lval`'s type, and the synthesis queries (subgoals) that code calls.
 *
 * A collection is patched by a loop removing the answer of a "deletions"
 * query and a loop adding the answer of an "additions" query; tuples and
 * records are patched component by component; a map has its dropped keys
 * deleted and its new or changed keys updated by a recursive sketch of the
 * value; anything else is assigned the answer of one query. The fresh-name
 * counter is shared by every query and variable name, and is the state the
 * `Session` class keeps, together with the list of queries produced so far.
 */
module Sketch {
  import opened Syntax
  import opened Semantics
  import opened Forks
  import opened Mutation

  // ---------------------------------------------------------------------
  // value_at

  /** `value_at(m, k)`: an expression for `m[k]`, looking through map literals and conditionals. */
  function ValueAt(m: Exp, k: Exp): Exp
  {
    match m
    case EMakeMap2(e, f) => ECond(EIn(k, e), ApplyTo(f, k), EDefault(MapValType(TypeOf(m))))
    case ECond(c, t, f) => ECond(c, ValueAt(t, k), ValueAt(f, k))
    case _ => EMapGet(m, k, MapValType(TypeOf(m)))
  }

  /** No lambda of a map literal captures the key, and both arms of a conditional have one value type. */
  predicate LookupSafe(m: Exp, k: Exp)
  {
    match m
    case EMakeMap2(_, f) => BV(f.body) !! FV(k)
    case ECond(_, t, f) => MapValType(TypeOf(t)) == MapValType(TypeOf(f)) && LookupSafe(t, k) && LookupSafe(f, k)
    case _ => true
  }

  /** Looking a key up in a map literal finds the lambda's value when the key is among the literal's keys. */
  lemma {:induction false} MapEntriesLookup(f: Lambda, env: Env, ks: seq<Val>, key: Val, d: Val)
    ensures EntryLookup(MapEntries(f, env, ks), key, d) == if key in ks then EvalLambda(f, env, key) else d
  {
    if ks != [] {
      MapEntriesLookup(f, env, ks[1..], key, d);
      assert ks == [ks[0]] + ks[1..];
    }
  }

  /** The expression `value_at` builds has the value of the lookup `m[k]`. */
  lemma {:induction false} ValueAtSound(m: Exp, k: Exp, env: Env)
    requires LookupSafe(m, k)
    ensures Eval(ValueAt(m, k), env) == MapLookup(Eval(m, env), Eval(k, env), Default(MapValType(TypeOf(m))))
  {
    match m
    case EMakeMap2(e, f) => ValueAtMakeMap(e, f, k, env);
    case ECond(c, t, f) =>
      ValueAtSound(t, k, env);
      ValueAtSound(f, k, env);
      ValueAtCond(c, t, f, k, env);
    case _ => ValueAtGet(m, k, env);
  }

  lemma ValueAtGet(m: Exp, k: Exp, env: Env)
    requires !m.EMakeMap2? && !m.ECond?
    ensures Eval(ValueAt(m, k), env) == MapLookup(Eval(m, env), Eval(k, env), Default(MapValType(TypeOf(m))))
  {
    assert ValueAt(m, k) == EMapGet(m, k, MapValType(TypeOf(m)));
  }

  lemma ValueAtCond(c: Exp, t: Exp, f: Exp, k: Exp, env: Env)
    requires MapValType(TypeOf(t)) == MapValType(TypeOf(f))
    requires Eval(ValueAt(t, k), env) == MapLookup(Eval(t, env), Eval(k, env), Default(MapValType(TypeOf(t))))
    requires Eval(ValueAt(f, k), env) == MapLookup(Eval(f, env), Eval(k, env), Default(MapValType(TypeOf(f))))
    ensures Eval(ValueAt(ECond(c, t, f), k), env)
         == MapLookup(Eval(ECond(c, t, f), env), Eval(k, env), Default(MapValType(TypeOf(ECond(c, t, f)))))
  {
    TypeOfCond(c, t, f);
    LookupCond(c, t, f, k, env, Default(MapValType(TypeOf(t))));
  }

  lemma TypeOfCond(c: Exp, t: Exp, f: Exp)
    ensures TypeOf(ECond(c, t, f)) == TypeOf(t)
  {
  }

  lemma LookupCond(c: Exp, t: Exp, f: Exp, k: Exp, env: Env, d: Val)
    requires Eval(ValueAt(t, k), env) == MapLookup(Eval(t, env), Eval(k, env), d)
    requires Eval(ValueAt(f, k), env) == MapLookup(Eval(f, env), Eval(k, env), d)
    ensures Eval(ValueAt(ECond(c, t, f), k), env) == MapLookup(Eval(ECond(c, t, f), env), Eval(k, env), d)
  {
    assert ValueAt(ECond(c, t, f), k) == ECond(c, ValueAt(t, k), ValueAt(f, k));
  }

  lemma ValueAtMakeMap(e: Exp, f: Lambda, k: Exp, env: Env)
    requires BV(f.body) !! FV(k)
    ensures Eval(ValueAt(EMakeMap2(e, f), k), env)
         == MapLookup(Eval(EMakeMap2(e, f), env), Eval(k, env), Default(MapValType(TypeOf(EMakeMap2(e, f)))))
  {
    var vt := MapValType(TypeOf(EMakeMap2(e, f)));
    ValueAtMakeMapForm(e, f, k);
    LookupMakeMap(e, f, k, env, EDefault(vt));
    EvalDefault(vt, env);
  }

  lemma ValueAtMakeMapForm(e: Exp, f: Lambda, k: Exp)
    ensures ValueAt(EMakeMap2(e, f), k) == ECond(EIn(k, e), ApplyTo(f, k), EDefault(MapValType(TypeOf(EMakeMap2(e, f)))))
  {
  }

  lemma EvalDefault(t: Ty, env: Env)
    ensures Eval(EDefault(t), env) == Default(t)
  {
  }

  lemma LookupMakeMap(e: Exp, f: Lambda, k: Exp, env: Env, b: Exp)
    requires BV(f.body) !! FV(k)
    requires ValueAt(EMakeMap2(e, f), k) == ECond(EIn(k, e), ApplyTo(f, k), b)
    ensures Eval(ValueAt(EMakeMap2(e, f), k), env) == MapLookup(Eval(EMakeMap2(e, f), env), Eval(k, env), Eval(b, env))
  {
    var ks := Dedup(BagOf(Eval(e, env)));
    var key := Eval(k, env);
    assert Eval(EMakeMap2(e, f), env) == VMap(MapEntries(f, env, ks));
    MapEntriesLookup(f, env, ks, key, Eval(b, env));
    ApplyToSound(f, k, env);
    EvalMember(k, e, ApplyTo(f, k), b, env);
  }

  lemma EvalMember(k: Exp, e: Exp, a: Exp, b: Exp, env: Env)
    ensures Eval(ECond(EIn(k, e), a, b), env) == if Eval(k, env) in Dedup(BagOf(Eval(e, env))) then Eval(a, env) else Eval(b, env)
  {
    assert Eval(EIn(k, e), env) == VBool(Eval(k, env) in BagOf(Eval(e, env)));
  }

  // ---------------------------------------------------------------------
  // Queries

  /** `EAll(es)`: the conjunction of `es`, true when there are none. */
  function EAllOf(es: seq<Exp>): Exp
  {
    if es == [] then T else EAll2(es[0], EAllOf(es[1..]))
  }

  /** The conjunction holds exactly when every conjunct does. */
  lemma {:induction false} EAllOfSound(es: seq<Exp>, env: Env)
    ensures Truthy(Eval(EAllOf(es), env)) <==> forall i :: 0 <= i < |es| ==> Truthy(Eval(es[i], env))
  {
    if es != [] {
      EAllOfSound(es[1..], env);
      EAll2Sound(es[0], EAllOf(es[1..]), env);
      assert forall i :: 1 <= i < |es| ==> es[i] == es[1..][i - 1];
    }
  }

  predicate Distinct<A(==)>(s: seq<A>)
  {
    forall i, j :: 0 <= i < j < |s| ==> s[i] != s[j]
  }

  /** The entries of `vs` whose names are not in `ctx`, in order. */
  function Outside(vs: seq<(string, Ty)>, ctx: set<string>): (r: seq<(string, Ty)>)
    ensures forall v :: v in r <==> v in vs && v.0 !in ctx
    ensures Distinct(vs) ==> Distinct(r)
  {
    if vs == [] then []
    else if vs[0].0 in ctx then Outside(vs[1..], ctx)
    else [vs[0]] + Outside(vs[1..], ctx)
  }

  /** A query's arguments: its free variables that are not part of the abstract state `ctx`. */
  function QueryArgs(assumptions: seq<Exp>, ret: Exp, ctx: set<string>): seq<(string, Ty)>
  {
    Outside(QueryFreeVars(assumptions, ret), ctx)
  }

  /** The call of query `q`, passing its arguments as variables. */
  function CallOf(q: Query, ty: Ty): Exp
  {
    ECall(q.name, seq(|q.args|, i requires 0 <= i < |q.args| => EVar(q.args[i].0, q.args[i].1)), ty)
  }

  /** A query takes as arguments exactly its free variables outside `ctx`, each once. */
  ghost predicate ArgsOk(q: Query, ctx: set<string>)
  {
    (forall v :: v in q.args <==> v in QueryFreeVars(q.assumptions, q.ret) && v.0 !in ctx)
    && Distinct(q.args)
  }

  /** Every query has the right arguments and assumes at least `assumptions`. */
  ghost predicate QueriesOk(qs: seq<Query>, ctx: set<string>, assumptions: seq<Exp>)
  {
    forall i :: 0 <= i < |qs| ==> ArgsOk(qs[i], ctx) && assumptions <= qs[i].assumptions
  }

  /** The query is named by the counter at some value in `[lo, hi)`. */
  ghost predicate NamedIn(q: Query, lo: nat, hi: nat)
  {
    exists m: nat :: lo <= m < hi && q.name == FreshName("query", m)
  }

  /** Every query is named by the counter at some value in `[lo, hi)`, and no two share a name. */
  ghost predicate FreshlyNamed(qs: seq<Query>, lo: nat, hi: nat)
  {
    (forall i :: 0 <= i < |qs| ==> NamedIn(qs[i], lo, hi))
    && (forall i, j :: 0 <= i < j < |qs| ==> qs[i].name != qs[j].name)
  }

  datatype Goal = Goal(call: Exp, query: Query)

  /**
   * `make_subgoal(e)` with the counter at `n`: a query `_queryN` returning
   * `e` under the assumptions, and the call to it that takes its place.
   */
  function MakeGoal(e: Exp, ty: Ty, ctx: set<string>, assumptions: seq<Exp>, n: nat): (r: Goal)
    ensures r.query.ret == e && r.query.assumptions == assumptions && r.call == CallOf(r.query, ty)
  {
    var q := Query(FreshName("query", n), QueryArgs(assumptions, e, ctx), assumptions, e);
    Goal(CallOf(q, ty), q)
  }

  /**
   * The query `make_subgoal` builds takes exactly its free variables
   * outside `ctx`, each once, and is named by the counter's value.
   */
  lemma MakeGoalOk(e: Exp, ty: Ty, ctx: set<string>, assumptions: seq<Exp>, n: nat)
    ensures var q := MakeGoal(e, ty, ctx, assumptions, n).query;
      ArgsOk(q, ctx) && FreshlyNamed([q], n, n + 1) && QueriesOk([q], ctx, assumptions)
  {
    var q := MakeGoal(e, ty, ctx, assumptions, n).query;
    assert NamedIn(q, n, n + 1);
  }

  lemma FreshAppend(a: seq<Query>, b: seq<Query>, lo: nat, mid: nat, hi: nat)
    requires lo <= mid <= hi
    requires FreshlyNamed(a, lo, mid) && FreshlyNamed(b, mid, hi)
    ensures FreshlyNamed(a + b, lo, hi)
  {
    var c := a + b;
    forall i | 0 <= i < |c| ensures NamedIn(c[i], lo, hi) {
      if i < |a| {
        assert c[i] == a[i] && NamedIn(a[i], lo, mid);
      } else {
        assert c[i] == b[i - |a|] && NamedIn(b[i - |a|], mid, hi);
      }
    }
    forall i, j | 0 <= i < j < |c| ensures c[i].name != c[j].name {
      if j < |a| {
        assert c[i] == a[i] && c[j] == a[j];
      } else if i >= |a| {
        assert c[i] == b[i - |a|] && c[j] == b[j - |a|];
      } else {
        assert c[i] == a[i] && c[j] == b[j - |a|];
        assert NamedIn(a[i], lo, mid) && NamedIn(b[j - |a|], mid, hi);
        var m1: nat :| lo <= m1 < mid && c[i].name == FreshName("query", m1);
        var m2: nat :| mid <= m2 < hi && c[j].name == FreshName("query", m2);
        FreshNameInjective("query", m1, m2);
      }
    }
  }

  lemma FreshWiden(qs: seq<Query>, lo: nat, hi: nat, lo': nat, hi': nat)
    requires FreshlyNamed(qs, lo, hi) && lo' <= lo && hi <= hi'
    ensures FreshlyNamed(qs, lo', hi')
  {
    forall i | 0 <= i < |qs| ensures NamedIn(qs[i], lo', hi') {
      assert NamedIn(qs[i], lo, hi);
      var m: nat :| lo <= m < hi && qs[i].name == FreshName("query", m);
    }
  }

  lemma QueriesAppend(a: seq<Query>, b: seq<Query>, ctx: set<string>, assumptions: seq<Exp>)
    requires QueriesOk(a, ctx, assumptions) && QueriesOk(b, ctx, assumptions)
    ensures QueriesOk(a + b, ctx, assumptions)
  {
    var c := a + b;
    forall i | 0 <= i < |c| ensures ArgsOk(c[i], ctx) && assumptions <= c[i].assumptions {
      if i < |a| { assert c[i] == a[i]; } else { assert c[i] == b[i - |a|]; }
    }
  }

  /** Queries that assume more than `assumptions + extra` assume more than `assumptions`. */
  lemma QueriesWeaken(qs: seq<Query>, ctx: set<string>, assumptions: seq<Exp>, extra: seq<Exp>)
    requires QueriesOk(qs, ctx, assumptions + extra)
    ensures QueriesOk(qs, ctx, assumptions)
  {
    forall i | 0 <= i < |qs| ensures assumptions <= qs[i].assumptions {
      var a := qs[i].assumptions;
      assert (assumptions + extra)[..|assumptions|] == assumptions;
      assert a[..|assumptions|] == (assumptions + extra)[..|assumptions|];
    }
  }

  // ---------------------------------------------------------------------
  // The update sketch

  datatype Sketched = Sketched(stm: Stm, subgoals: seq<Query>, next: nat)
  datatype Pieces = Pieces(stms: seq<Stm>, subgoals: seq<Query>, next: nat)

  /** The formula the oracle is asked: under the assumptions and invariants, the value does not change. */
  function Unchanged(oldV: Exp, newV: Exp, assumptions: seq<Exp>, invariants: seq<Exp>): Exp
  {
    EImplies(EAllOf(assumptions + invariants), EEq(oldV, newV))
  }

  /** The number of components of a tuple or record type. */
  function Width(t: Ty): nat
  {
    match t
    case TTuple(ts) => |ts|
    case TRecord(fs) => |fs|
    case _ => 0
  }

  /** Component `i` of `x`, whose type is the tuple or record type `t`. */
  function Part(x: Exp, t: Ty, i: nat): Exp
    requires i < Width(t)
  {
    match t
    case TTuple(ts) => ETupleGet(x, i, ts[i])
    case TRecord(fs) => EGetField(x, fs[i].name, fs[i].ty)
    case _ => x
  }

  /**
   * Queries named by the counter between `lo` and `hi`, no two alike, each
   * taking exactly its free variables outside `ctx` and assuming at least
   * the caller's assumptions.
   */
  ghost predicate GoodQueries(qs: seq<Query>, lo: nat, hi: nat, ctx: set<string>, assumptions: seq<Exp>)
  {
    lo <= hi && FreshlyNamed(qs, lo, hi) && QueriesOk(qs, ctx, assumptions)
  }

  /** Two runs of good queries, one after the other, are good queries. */
  lemma GoodAppend(a: seq<Query>, b: seq<Query>, ctx: set<string>, assumptions: seq<Exp>, lo: nat, mid: nat, hi: nat)
    requires GoodQueries(a, lo, mid, ctx, assumptions) && GoodQueries(b, mid, hi, ctx, assumptions)
    ensures GoodQueries(a + b, lo, hi, ctx, assumptions)
  {
    FreshAppend(a, b, lo, mid, hi);
    QueriesAppend(a, b, ctx, assumptions);
  }

  /**
   * `sketch_update(lval, old_value, new_value, ctx, assumptions, invariants)`
   * with the counter at `n`. The queries it asks for are good queries named
   * between `n` and the counter's value afterwards.
   */
  function UpdateSketch(lval: Exp, oldV: Exp, newV: Exp, ctx: set<string>, assumptions: seq<Exp>,
                  invariants: seq<Exp>, valid: Exp -> bool, n: nat): (r: Sketched)
    ensures GoodQueries(r.subgoals, n, r.next, ctx, assumptions)
    decreases TypeOf(lval), Width(TypeOf(lval)) + 2
  {
    if valid(Unchanged(oldV, newV, assumptions, invariants)) then Sketched(SNoOp, [], n)
    else
      var nv := StripStateVar(newV);
      var t := TypeOf(lval);
      if t.TBag? || t.TSet? then
        BagSketch(lval, oldV, nv, ctx, assumptions, n)
      else if t.TTuple? || t.TRecord? then
        var p := Parts(t, lval, oldV, nv, ctx, assumptions, invariants, valid, n, Width(t));
        Sketched(SeqOf(p.stms), p.subgoals, p.next)
      else if t.TMap? then
        MapSketch(lval, t.k, t.v, oldV, nv, ctx, assumptions, invariants, valid, n)
      else
        AssignSketch(lval, nv, ctx, assumptions, n)
  }

  /** Any other type: assign the answer of one query for the new value. */
  function AssignSketch(lval: Exp, nv: Exp, ctx: set<string>, assumptions: seq<Exp>, n: nat): (r: Sketched)
    ensures GoodQueries(r.subgoals, n, r.next, ctx, assumptions)
  {
    MakeGoalOk(nv, TypeOf(nv), ctx, assumptions, n);
    var g := MakeGoal(nv, TypeOf(nv), ctx, assumptions, n);
    Sketched(SAssign(lval, g.call), [g.query], n + 1)
  }

  /**
   * A collection: the additions query `_queryN` (new - old), the deletions
   * query (old - new), then a loop removing the deletions and a loop adding
   * the additions.
   */
  function BagSketch(lval: Exp, oldV: Exp, nv: Exp, ctx: set<string>, assumptions: seq<Exp>, n: nat): (r: Sketched)
    ensures GoodQueries(r.subgoals, n, r.next, ctx, assumptions)
  {
    var t := TypeOf(lval);
    var add := MakeGoal(EBinary(nv, BMinus, oldV), t, ctx, assumptions, n);
    var del := MakeGoal(EBinary(oldV, BMinus, nv), t, ctx, assumptions, n + 1);
    var v := FreshName("var", n + 2);
    var el := ElemType(t);
    BagGood(EBinary(nv, BMinus, oldV), EBinary(oldV, BMinus, nv), t, ctx, assumptions, n);
    Sketched(SeqOf([SForEach(v, el, del.call, SCall(lval, "remove", [EVar(v, el)])),
                    SForEach(v, el, add.call, SCall(lval, "add", [EVar(v, el)]))]),
             [add.query, del.query], n + 3)
  }

  /** The queries of a collection's sketch: the additions', then the deletions'. */
  lemma BagGood(added: Exp, dropped: Exp, ty: Ty, ctx: set<string>, assumptions: seq<Exp>, n: nat)
    ensures GoodQueries([MakeGoal(added, ty, ctx, assumptions, n).query,
                         MakeGoal(dropped, ty, ctx, assumptions, n + 1).query], n, n + 3, ctx, assumptions)
  {
    var add := MakeGoal(added, ty, ctx, assumptions, n).query;
    var del := MakeGoal(dropped, ty, ctx, assumptions, n + 1).query;
    MakeGoalOk(added, ty, ctx, assumptions, n);
    MakeGoalOk(dropped, ty, ctx, assumptions, n + 1);
    FreshWiden([del], n + 1, n + 2, n + 1, n + 3);
    GoodAppend([add], [del], ctx, assumptions, n, n + 1, n + 3);
    assert [add] + [del] == [add, del];
  }

  /** A component's type is smaller than the tuple or record type. */
  lemma PartSmaller(x: Exp, t: Ty, i: nat)
    requires i < Width(t)
    ensures TypeOf(Part(x, t, i)) < t
  {
    assert TypeOf(Part(x, t, i)) == if t.TTuple? then t.ts[i] else t.fields[i].ty;
  }

  /** Components `0 .. k-1` of a tuple or record, sketched in order. */
  function Parts(t: Ty, lval: Exp, oldV: Exp, nv: Exp, ctx: set<string>, assumptions: seq<Exp>,
                 invariants: seq<Exp>, valid: Exp -> bool, n: nat, k: nat): (r: Pieces)
    requires k <= Width(t)
    ensures GoodQueries(r.subgoals, n, r.next, ctx, assumptions)
    decreases t, k
  {
    if k == 0 then Pieces([], [], n)
    else
      var p := Parts(t, lval, oldV, nv, ctx, assumptions, invariants, valid, n, k - 1);
      var s := UpdateSketch(Part(lval, t, k - 1), Part(oldV, t, k - 1), Part(nv, t, k - 1),
                      ctx, assumptions, invariants, valid, p.next);
      GoodAppend(p.subgoals, s.subgoals, ctx, assumptions, n, p.next, s.next);
      Pieces(p.stms + [s.stm], p.subgoals + s.subgoals, s.next)
  }

  /** The keys of `m[k]` that are new, or whose value differs between `oldV` and `nv`. */
  function ChangedKeys(oldV: Exp, nv: Exp, kn: string, kt: Ty): Exp
  {
    var k := EVar(kn, kt);
    EFilter(EMapKeys(nv), Lambda(kn, kt,
      EAny2(ENot(EIn(k, EMapKeys(oldV))), ENot(EEq(ValueAt(oldV, k), ValueAt(nv, k))))))
  }

  /**
   * A map from `kt` to `vt`: fresh key and value variables, the query for
   * the dropped keys, the sketch updating one value, and the query for the
   * new or changed keys; the dropped keys are deleted, then the changed
   * ones updated. The value's queries assume, besides the caller's
   * assumptions, that the key changed and that the value variable holds
   * the old value there.
   */
  function MapSketch(lval: Exp, kt: Ty, vt: Ty, oldV: Exp, nv: Exp, ctx: set<string>, assumptions: seq<Exp>,
                     invariants: seq<Exp>, valid: Exp -> bool, n: nat): (r: Sketched)
    ensures GoodQueries(r.subgoals, n, r.next, ctx, assumptions)
    decreases TMap(kt, vt), 1
  {
    var kn, vn := FreshName("var", n), FreshName("var", n + 1);
    var k := EVar(kn, kt);
    MapSketchWith(lval, kt, vt, kn, vn, EBinary(EMapKeys(oldV), BMinus, EMapKeys(nv)), ChangedKeys(oldV, nv, kn, kt),
                  ValueAt(oldV, k), ValueAt(nv, k), ctx, assumptions, invariants, valid, n)
  }

  /**
   * The map's sketch, given the key and value variables, the dropped and
   * changed keys and the old and new value at the key variable.
   */
  function MapSketchWith(lval: Exp, kt: Ty, vt: Ty, kn: string, vn: string, dropped: Exp, changed: Exp,
                         oldAt: Exp, newAt: Exp, ctx: set<string>, assumptions: seq<Exp>,
                         invariants: seq<Exp>, valid: Exp -> bool, n: nat): (r: Sketched)
    ensures GoodQueries(r.subgoals, n, r.next, ctx, assumptions)
    decreases TMap(kt, vt), 0
  {
    var k, v := EVar(kn, kt), EVar(vn, vt);
    var del := MakeGoal(dropped, TBag(kt), ctx, assumptions, n + 2);
    var more := [EIn(k, changed), EEq(v, oldAt)];
    var s := UpdateSketch(v, oldAt, newAt, ctx, assumptions + more, invariants, valid, n + 3);
    var mod := MakeGoal(changed, TBag(kt), ctx, assumptions, s.next);
    MapGood(dropped, s.subgoals, changed, TBag(kt), ctx, assumptions, more, n, s.next);
    Sketched(SSeq(SForEach(kn, kt, del.call, SMapDel(lval, k)),
                  SForEach(kn, kt, mod.call, SMapUpdate(lval, k, vn, vt, s.stm))),
             [del.query] + s.subgoals + [mod.query], s.next + 1)
  }

  /** The queries of a map's sketch: the dropped keys', the value's, then the changed keys'. */
  lemma MapGood(dropped: Exp, mid: seq<Query>, changed: Exp, ty: Ty, ctx: set<string>, assumptions: seq<Exp>,
                more: seq<Exp>, n: nat, m: nat)
    requires GoodQueries(mid, n + 3, m, ctx, assumptions + more)
    ensures GoodQueries([MakeGoal(dropped, ty, ctx, assumptions, n + 2).query] + mid
                        + [MakeGoal(changed, ty, ctx, assumptions, m).query], n, m + 1, ctx, assumptions)
  {
    var del := MakeGoal(dropped, ty, ctx, assumptions, n + 2).query;
    var mod := MakeGoal(changed, ty, ctx, assumptions, m).query;
    MakeGoalOk(dropped, ty, ctx, assumptions, n + 2);
    MakeGoalOk(changed, ty, ctx, assumptions, m);
    QueriesWeaken(mid, ctx, assumptions, more);
    FreshWiden([del], n + 2, n + 3, n, n + 3);
    GoodAppend([del], mid, ctx, assumptions, n, n + 3, m);
    GoodAppend([del] + mid, [mod], ctx, assumptions, n, m, m + 1);
  }

  // ---------------------------------------------------------------------
  // What a sketch promises

  /**
   * When the oracle proves the value unchanged, the sketch is a no-op with
   * no subgoals; a sound oracle does so only if the old and new values
   * agree wherever the assumptions and invariants hold.
   */
  lemma SketchUnchanged(lval: Exp, oldV: Exp, newV: Exp, ctx: set<string>, assumptions: seq<Exp>,
                        invariants: seq<Exp>, valid: Exp -> bool, n: nat, env: Env)
    requires OracleSound(valid) && valid(Unchanged(oldV, newV, assumptions, invariants))
    requires forall i :: 0 <= i < |assumptions + invariants| ==> Truthy(Eval((assumptions + invariants)[i], env))
    ensures UpdateSketch(lval, oldV, newV, ctx, assumptions, invariants, valid, n) == Sketched(SNoOp, [], n)
    ensures Eval(oldV, env) == Eval(newV, env)
  {
    var hyp := EAllOf(assumptions + invariants);
    EAllOfSound(assumptions + invariants, env);
    assert Truthy(Eval(Unchanged(oldV, newV, assumptions, invariants), env));
    assert Eval(Unchanged(oldV, newV, assumptions, invariants), env) == VBool(!Truthy(Eval(hyp, env)) || Truthy(Eval(EEq(oldV, newV), env)));
    assert Eval(EEq(oldV, newV), env) == VBool(Eval(oldV, env) == Eval(newV, env));
  }

  /**
   * A collection gets the additions query `new - old` and the deletions
   * query `old - new`, a loop removing the deletions and then one adding
   * the additions.
   */
  lemma BagSketchShape(lval: Exp, oldV: Exp, nv: Exp, ctx: set<string>, assumptions: seq<Exp>, n: nat)
    requires IsCollection(TypeOf(lval))
    ensures var r := BagSketch(lval, oldV, nv, ctx, assumptions, n);
      var t, v := TypeOf(lval), FreshName("var", n + 2);
      |r.subgoals| == 2 && r.next == n + 3
      && r.subgoals[0].ret == EBinary(nv, BMinus, oldV) && r.subgoals[1].ret == EBinary(oldV, BMinus, nv)
      && r.stm == SSeq(SForEach(v, ElemType(t), CallOf(r.subgoals[1], t), SCall(lval, "remove", [EVar(v, ElemType(t))])),
                       SForEach(v, ElemType(t), CallOf(r.subgoals[0], t), SCall(lval, "add", [EVar(v, ElemType(t))])))
  {
    var t := TypeOf(lval);
    var add := MakeGoal(EBinary(nv, BMinus, oldV), t, ctx, assumptions, n);
    var del := MakeGoal(EBinary(oldV, BMinus, nv), t, ctx, assumptions, n + 1);
    var v, el := FreshName("var", n + 2), ElemType(t);
    var loops := [SForEach(v, el, del.call, SCall(lval, "remove", [EVar(v, el)])),
                  SForEach(v, el, add.call, SCall(lval, "add", [EVar(v, el)]))];
    assert BagSketch(lval, oldV, nv, ctx, assumptions, n) == Sketched(SeqOf(loops), [add.query, del.query], n + 3);
    SeqOfPair(loops[0], loops[1]);
    assert loops == [loops[0], loops[1]];
  }

  lemma SeqOfPair(a: Stm, b: Stm)
    requires a != SNoOp && b != SNoOp
    ensures SeqOf([a, b]) == SSeq(a, b)
  {
    assert [a, b][1..] == [b];
  }

  /**
   * The deletions a collection's sketch asks for are part of the old
   * value, and removing them and adding the additions gives the new value.
   */
  lemma BagSketchCorrect(lval: Exp, oldV: Exp, newV: Exp, ctx: set<string>, assumptions: seq<Exp>,
                         invariants: seq<Exp>, valid: Exp -> bool, n: nat, env: Env)
    requires IsCollection(TypeOf(lval)) && !valid(Unchanged(oldV, newV, assumptions, invariants))
    ensures var r := UpdateSketch(lval, oldV, newV, ctx, assumptions, invariants, valid, n);
      |r.subgoals| == 2 &&
      var o, w := multiset(BagOf(Eval(oldV, env))), multiset(BagOf(Eval(newV, env)));
      var add, del := multiset(BagOf(Eval(r.subgoals[0].ret, env))), multiset(BagOf(Eval(r.subgoals[1].ret, env)));
      del <= o && o - del + add == w
  {
    var nv := StripStateVar(newV);
    assert UpdateSketch(lval, oldV, newV, ctx, assumptions, invariants, valid, n) == BagSketch(lval, oldV, nv, ctx, assumptions, n);
    BagSketchShape(lval, oldV, nv, ctx, assumptions, n);
    StripStateVarSound(newV, env);
    MinusElems(nv, oldV, env);
    MinusElems(oldV, nv, env);
    BagPatch(multiset(BagOf(Eval(oldV, env))), multiset(BagOf(Eval(newV, env))));
  }

  /** Removing `old - new` from `old` and adding `new - old` gives `new`. */
  lemma BagPatch<A>(o: multiset<A>, w: multiset<A>)
    ensures o - w <= o && o - (o - w) + (w - o) == w
  {
    forall x ensures (o - (o - w) + (w - o))[x] == w[x] {
    }
  }

  // ---------------------------------------------------------------------
  // Running a sketch

  /** The return expression of the first query called `name`, if there is one. */
  function RetOf(qs: seq<Query>, name: string): Option<Exp>
  {
    if qs == [] then None
    else if qs[0].name == name then Some(qs[0].ret)
    else RetOf(qs[1..], name)
  }

  /** A call of one of the queries `qs` stands for that query's return expression. */
  function LinkExp(e: Exp, qs: seq<Query>): Exp
  {
    if e.ECall? && RetOf(qs, e.func).Some? then RetOf(qs, e.func).value else e
  }

  /** The statement with each call of a query of `qs` that computes a value replaced by what the query returns. */
  function Link(s: Stm, qs: seq<Query>): Stm
  {
    match s
    case SAssign(l, rhs) => SAssign(l, LinkExp(rhs, qs))
    case SIf(c, a, b) => SIf(c, Link(a, qs), Link(b, qs))
    case SSeq(a, b) => SSeq(Link(a, qs), Link(b, qs))
    case SForEach(x, xty, iter, body) => SForEach(x, xty, LinkExp(iter, qs), Link(body, qs))
    case SMapUpdate(m, k, x, xty, change) => SMapUpdate(m, k, x, xty, Link(change, qs))
    case _ => s
  }

  /** `qs` answers the name of every query of `sub` with that query's return expression. */
  ghost predicate Answers(qs: seq<Query>, sub: seq<Query>)
  {
    forall i :: 0 <= i < |sub| ==> RetOf(qs, sub[i].name) == Some(sub[i].ret)
  }

  /** Queries with distinct names answer for each of themselves. */
  lemma {:induction false} AnswersSelf(qs: seq<Query>)
    requires forall i, j :: 0 <= i < j < |qs| ==> qs[i].name != qs[j].name
    ensures Answers(qs, qs)
  {
    if qs != [] {
      AnswersSelf(qs[1..]);
      forall i | 0 <= i < |qs| ensures RetOf(qs, qs[i].name) == Some(qs[i].ret) {
        if i > 0 {
          assert qs[i] == qs[1..][i - 1];
          assert qs[0].name != qs[i].name;
        }
      }
    }
  }

  lemma AnswersSplit(qs: seq<Query>, a: seq<Query>, b: seq<Query>)
    requires Answers(qs, a + b)
    ensures Answers(qs, a) && Answers(qs, b)
  {
    forall i | 0 <= i < |a| ensures RetOf(qs, a[i].name) == Some(a[i].ret) {
      assert (a + b)[i] == a[i];
    }
    forall i | 0 <= i < |b| ensures RetOf(qs, b[i].name) == Some(b[i].ret) {
      assert (a + b)[|a| + i] == b[i];
    }
  }

  /** Running `stms` one after the other, with the calls of `qs` linked. */
  function RunAll(stms: seq<Stm>, qs: seq<Query>, env: Env): Option<Env>
  {
    if stms == [] then Some(env)
    else
      match Exec(Link(stms[0], qs), env)
      case None => None
      case Some(env1) => RunAll(stms[1..], qs, env1)
  }

  /** The statement `SeqOf` builds runs its parts in order. */
  lemma {:induction false} ExecSeqOf(stms: seq<Stm>, qs: seq<Query>, env: Env)
    ensures Exec(Link(SeqOf(stms), qs), env) == RunAll(stms, qs, env)
  {
    if stms != [] {
      if stms[0] == SNoOp {
        ExecSeqOf(stms[1..], qs, env);
      } else {
        match Exec(Link(stms[0], qs), env)
        case None =>
        case Some(env1) => ExecSeqOf(stms[1..], qs, env1);
      }
    }
  }

  lemma {:induction false} RunAllSnoc(a: seq<Stm>, b: Stm, qs: seq<Query>, env: Env)
    ensures RunAll(a + [b], qs, env) == match RunAll(a, qs, env) case None => None case Some(e) => Exec(Link(b, qs), e)
  {
    if a == [] {
      assert a + [b] == [b];
    } else {
      assert (a + [b])[0] == a[0] && (a + [b])[1..] == a[1..] + [b];
      match Exec(Link(a[0], qs), env)
      case None =>
      case Some(env1) => RunAllSnoc(a[1..], b, qs, env1);
    }
  }

  lemma RunAllThen(a: seq<Stm>, b: Stm, qs: seq<Query>, env: Env, e1: Env, e2: Env)
    requires RunAll(a, qs, env) == Some(e1) && Exec(Link(b, qs), e1) == Some(e2)
    ensures RunAll(a + [b], qs, env) == Some(e2)
  {
    RunAllSnoc(a, b, qs, env);
  }

  /** The type of component `j` of a tuple or record type. */
  function CompTy(t: Ty, j: nat): (r: Ty)
    requires j < Width(t)
    ensures r < t
  {
    assert t.TTuple? ==> t.ts[j] in t.ts;
    assert t.TRecord? ==> t.fields[j] in t.fields;
    if t.TTuple? then t.ts[j] else t.fields[j].ty
  }

  /** Component `j` of the value `v` of the tuple or record type `t`. */
  function Component(heap: map<int, Val>, t: Ty, v: Val, j: nat): Val
    requires j < Width(t)
  {
    if t.TTuple? then TupleItem(v, j, t.ts[j]) else GetField(heap, v, t.fields[j].name, t.fields[j].ty)
  }

  /** The value `v` of the tuple or record type `t` with component `j` replaced by `w`. */
  function With(heap: map<int, Val>, t: Ty, v: Val, j: nat, w: Val): Val
    requires j < Width(t)
  {
    if t.TTuple? then TupleWith(t.ts, v, j, w) else RecordWith(heap, t.fields, v, t.fields[j].name, w)
  }

  /** Reading a component of `x` reads that component of `x`'s value. */
  lemma EvalPart(x: Exp, t: Ty, j: nat, env: Env)
    requires j < Width(t)
    ensures Eval(Part(x, t, j), env) == Component(env.heap, t, Eval(x, env), j)
    ensures FV(Part(x, t, j)) == FV(x) && TypeOf(Part(x, t, j)) == CompTy(t, j)
  {
    if t.TRecord? {
      FieldRead(x, t.fields[j].name, t.fields[j].ty, env);
    }
  }

  lemma ComponentWith(heap: map<int, Val>, t: Ty, v: Val, i: nat, w: Val, j: nat)
    requires i < Width(t) && j < Width(t) && (t.TRecord? ==> DistinctNames(t.fields))
    ensures Component(heap, t, With(heap, t, v, i, w), j) == if j == i then w else Component(heap, t, v, j)
  {
    if t.TTuple? {
      TupleWithRead(t.ts, v, i, w, j, t.ts[j]);
    } else {
      RecordWithRead(heap, heap, t.fields, v, t.fields[i].name, w, j, t.fields[j].ty);
    }
  }

  /** A component of an access path is an access path from the same variable; writing it rewrites the whole. */
  lemma PartAssign(p: Exp, t: Ty, i: nat, w: Val, env: Env)
    requires IsPath(p) && TypeOf(p) == t && i < Width(t) && (t.TRecord? ==> DistinctNames(t.fields))
    ensures IsPath(Part(p, t, i)) && Root(Part(p, t, i)) == Root(p)
    ensures Assign(Part(p, t, i), w, env) == Assign(p, With(env.heap, t, Eval(p, env), i, w), env)
  {
    if t.TRecord? {
      assert TNames(t.fields)[i] == t.fields[i].name;
    }
  }

  /**
   * The value `a` agrees with `b` at type `t`: collections hold the same
   * elements equally often, in any order; tuples and records agree
   * component by component; values of any other type are equal.
   */
  predicate AgreeAt(heap: map<int, Val>, t: Ty, a: Val, b: Val)
    decreases t
  {
    if IsCollection(t) then multiset(BagOf(a)) == multiset(BagOf(b))
    else if t.TTuple? || t.TRecord? then
      forall j :: 0 <= j < Width(t) ==> AgreeAt(heap, CompTy(t, j), Component(heap, t, a, j), Component(heap, t, b, j))
    else a == b
  }

  /** `env'` is `env`, or `env` after one write through the access path `lval`. */
  ghost predicate WritesAt(lval: Exp, env: Env, env': Env)
  {
    env' == env || exists w :: Assign(lval, w, env) == Some(env')
  }

  /** Writing through an access path keeps the heap and every expression not reading its root variable. */
  lemma WritesKeep(lval: Exp, e: Exp, env: Env, env': Env)
    requires IsPath(lval) && WritesAt(lval, env, env') && Root(lval) !in FV(e)
    ensures env'.heap == env.heap && Eval(e, env') == Eval(e, env)
  {
    if env' != env {
      var w :| Assign(lval, w, env) == Some(env');
      AssignPath(lval, w, env);
      EvalAgree(e, env, env');
    }
  }

  lemma WritesTrans(lval: Exp, e1: Env, e2: Env, e3: Env)
    requires IsPath(lval) && WritesAt(lval, e1, e2) && WritesAt(lval, e2, e3)
    ensures WritesAt(lval, e1, e3)
  {
    if e2 != e1 && e3 != e2 {
      var w1 :| Assign(lval, w1, e1) == Some(e2);
      var w2 :| Assign(lval, w2, e2) == Some(e3);
      Overwrite(lval, w2, w1, e1);
      assert Assign(lval, w2, e1) == Some(e3);
    }
  }

  /** A write through component `i` of `p` is a write through `p` leaving its other components alone. */
  lemma WritesUp(p: Exp, t: Ty, i: nat, e1: Env, e2: Env)
    requires IsPath(p) && TypeOf(p) == t && i < Width(t) && (t.TRecord? ==> DistinctNames(t.fields))
    requires WritesAt(Part(p, t, i), e1, e2)
    ensures WritesAt(p, e1, e2) && e2.heap == e1.heap
    ensures forall j :: 0 <= j < Width(t) && j != i ==>
      Component(e1.heap, t, Eval(p, e2), j) == Component(e1.heap, t, Eval(p, e1), j)
  {
    if e2 != e1 {
      var w :| Assign(Part(p, t, i), w, e1) == Some(e2);
      PartAssign(p, t, i, w, e1);
      var whole := With(e1.heap, t, Eval(p, e1), i, w);
      ReadBack(p, whole, e1);
      AssignPath(p, whole, e1);
      forall j | 0 <= j < Width(t) && j != i
        ensures Component(e1.heap, t, Eval(p, e2), j) == Component(e1.heap, t, Eval(p, e1), j)
      {
        ComponentWith(e1.heap, t, Eval(p, e1), i, w, j);
      }
    }
  }

  lemma MultisetMinus<A>(m: multiset<A>, a: multiset<A>, b: multiset<A>)
    ensures m - a - b == m - (a + b)
  {
    forall x ensures (m - a - b)[x] == (m - (a + b))[x] {
    }
  }

  /**
   * `for v in es: lval.add(v)` (or `lval.remove(v)`) writes only through
   * `lval`, and adds the elements of `es` to the collection there (or takes
   * them out).
   */
  lemma {:induction false} UpdateLoop(lval: Exp, func: string, v: string, el: Ty, es: seq<Val>, env: Env)
    requires IsPath(lval) && v != Root(lval) && (func == "add" || func == "remove")
    ensures var r := ExecLoop(v, es, SCall(lval, func, [EVar(v, el)]), env);
      var m := multiset(BagOf(Eval(lval, env)));
      r.Some? && WritesAt(lval, env, r.value)
      && multiset(BagOf(Eval(lval, r.value))) == (if func == "add" then m + multiset(es) else m - multiset(es))
    decreases |es|
  {
    if es != [] {
      var body := SCall(lval, func, [EVar(v, el)]);
      LoopStep(lval, func, v, el, es[0], env);
      var e1 := Assign(lval, CallResult(UpdateOf(func).value, Eval(lval, env), es[0]), env).value;
      LoopUnfold(v, es, body, env, e1);
      UpdateLoop(lval, func, v, el, es[1..], e1);
      var r := ExecLoop(v, es[1..], body, e1).value;
      WritesTrans(lval, env, e1, r);
      LoopCount(multiset(BagOf(Eval(lval, env))), multiset(BagOf(Eval(lval, e1))), multiset(BagOf(Eval(lval, r))), es, func == "add");
    }
  }

  lemma LoopUnfold(v: string, es: seq<Val>, body: Stm, env: Env, e1: Env)
    requires es != [] && Exec(body, Bind(env, v, es[0])).Some?
    requires Unbind(Exec(body, Bind(env, v, es[0])).value, v, env) == e1
    ensures ExecLoop(v, es, body, env) == ExecLoop(v, es[1..], body, e1)
  {
  }

  lemma LoopCount<A>(m: multiset<A>, m1: multiset<A>, r: multiset<A>, es: seq<A>, adding: bool)
    requires es != []
    requires m1 == if adding then m + multiset{es[0]} else m - multiset{es[0]}
    requires r == if adding then m1 + multiset(es[1..]) else m1 - multiset(es[1..])
    ensures r == if adding then m + multiset(es) else m - multiset(es)
  {
    assert es == [es[0]] + es[1..];
    MultisetMinus(m, multiset{es[0]}, multiset(es[1..]));
  }

  lemma CallStep(lval: Exp, func: string, v: string, el: Ty, x: Val, env: Env)
    requires IsPath(lval) && v != Root(lval) && (func == "add" || func == "remove")
    ensures Exec(SCall(lval, func, [EVar(v, el)]), Bind(env, v, x))
         == Assign(lval, CallResult(UpdateOf(func).value, Eval(lval, env), x), Bind(env, v, x))
  {
    PathFV(lval);
    EvalAgree(lval, env, Bind(env, v, x));
  }

  lemma CallBag(func: string, target: Val, x: Val)
    requires func == "add" || func == "remove"
    ensures multiset(BagOf(CallResult(UpdateOf(func).value, target, x)))
         == if func == "add" then multiset(BagOf(target)) + multiset{x} else multiset(BagOf(target)) - multiset{x}
  {
  }

  /** One iteration of `UpdateLoop`, with the loop variable bound to `x` and then restored. */
  lemma LoopStep(lval: Exp, func: string, v: string, el: Ty, x: Val, env: Env)
    requires IsPath(lval) && v != Root(lval) && (func == "add" || func == "remove")
    ensures var w := CallResult(UpdateOf(func).value, Eval(lval, env), x);
      var m := multiset(BagOf(Eval(lval, env)));
      Assign(lval, w, env).Some?
      && Exec(SCall(lval, func, [EVar(v, el)]), Bind(env, v, x)) == Some(Bind(Assign(lval, w, env).value, v, x))
      && Unbind(Bind(Assign(lval, w, env).value, v, x), v, env) == Assign(lval, w, env).value
      && WritesAt(lval, env, Assign(lval, w, env).value)
      && multiset(BagOf(Eval(lval, Assign(lval, w, env).value))) == (if func == "add" then m + multiset{x} else m - multiset{x})
  {
    var w := CallResult(UpdateOf(func).value, Eval(lval, env), x);
    CallStep(lval, func, v, el, x, env);
    CallBag(func, Eval(lval, env), x);
    AssignBind(lval, w, v, x, env);
    AssignPath(lval, w, env);
    UnbindBind(Assign(lval, w, env).value, v, x, env);
    ReadBack(lval, w, env);
  }

  /**
   * Run with its queries answered, a collection's sketch writes only
   * through `lval`, taking `old - new` out of the collection there and
   * putting `new - old` in.
   */
  lemma BagRuns(lval: Exp, oldV: Exp, nv: Exp, ctx: set<string>, assumptions: seq<Exp>, n: nat, qs: seq<Query>, env: Env)
    requires IsPath(lval) && IsCollection(TypeOf(lval))
    requires Root(lval) !in FV(oldV) + FV(nv) && FreshName("var", n + 2) != Root(lval)
    requires Answers(qs, BagSketch(lval, oldV, nv, ctx, assumptions, n).subgoals)
    ensures var e' := Exec(Link(BagSketch(lval, oldV, nv, ctx, assumptions, n).stm, qs), env);
      var o, w := multiset(BagOf(Eval(oldV, env))), multiset(BagOf(Eval(nv, env)));
      e'.Some? && WritesAt(lval, env, e'.value)
      && multiset(BagOf(Eval(lval, e'.value))) == multiset(BagOf(Eval(lval, env))) - (o - w) + (w - o)
  {
    var dropped, added := EBinary(oldV, BMinus, nv), EBinary(nv, BMinus, oldV);
    BagLinked(lval, oldV, nv, ctx, assumptions, n, qs);
    BagLoops(lval, FreshName("var", n + 2), ElemType(TypeOf(lval)), dropped, added, env);
    MinusElems(oldV, nv, env);
    MinusElems(nv, oldV, env);
  }

  /** With its queries answered, a collection's sketch is a loop over `old - new` and one over `new - old`. */
  lemma BagLinked(lval: Exp, oldV: Exp, nv: Exp, ctx: set<string>, assumptions: seq<Exp>, n: nat, qs: seq<Query>)
    requires IsCollection(TypeOf(lval))
    requires Answers(qs, BagSketch(lval, oldV, nv, ctx, assumptions, n).subgoals)
    ensures var v, el := FreshName("var", n + 2), ElemType(TypeOf(lval));
      Link(BagSketch(lval, oldV, nv, ctx, assumptions, n).stm, qs)
      == SSeq(SForEach(v, el, EBinary(oldV, BMinus, nv), SCall(lval, "remove", [EVar(v, el)])),
              SForEach(v, el, EBinary(nv, BMinus, oldV), SCall(lval, "add", [EVar(v, el)])))
  {
    var r := BagSketch(lval, oldV, nv, ctx, assumptions, n);
    BagSketchShape(lval, oldV, nv, ctx, assumptions, n);
    var t, v := TypeOf(lval), FreshName("var", n + 2);
    var el := ElemType(t);
    LinkLoop(v, el, r.subgoals[1], t, SCall(lval, "remove", [EVar(v, el)]), qs);
    LinkLoop(v, el, r.subgoals[0], t, SCall(lval, "add", [EVar(v, el)]), qs);
  }

  lemma LinkLoop(v: string, el: Ty, q: Query, t: Ty, body: Stm, qs: seq<Query>)
    requires RetOf(qs, q.name) == Some(q.ret) && body.SCall?
    ensures Link(SForEach(v, el, CallOf(q, t), body), qs) == SForEach(v, el, q.ret, body)
  {
  }

  /** A loop removing the elements of `dropped` from `lval`, then one adding those of `added`. */
  lemma BagLoops(lval: Exp, v: string, el: Ty, dropped: Exp, added: Exp, env: Env)
    requires IsPath(lval) && v != Root(lval) && Root(lval) !in FV(added)
    ensures var e' := Exec(SSeq(SForEach(v, el, dropped, SCall(lval, "remove", [EVar(v, el)])),
                                SForEach(v, el, added, SCall(lval, "add", [EVar(v, el)]))), env);
      e'.Some? && WritesAt(lval, env, e'.value)
      && multiset(BagOf(Eval(lval, e'.value)))
         == multiset(BagOf(Eval(lval, env))) - multiset(BagOf(Eval(dropped, env))) + multiset(BagOf(Eval(added, env)))
  {
    var rm, ad := SCall(lval, "remove", [EVar(v, el)]), SCall(lval, "add", [EVar(v, el)]);
    ExecLoops(v, el, dropped, rm, added, ad, env);
    UpdateLoop(lval, "remove", v, el, BagOf(Eval(dropped, env)), env);
    var e1 := ExecLoop(v, BagOf(Eval(dropped, env)), rm, env).value;
    WritesKeep(lval, added, env, e1);
    UpdateLoop(lval, "add", v, el, BagOf(Eval(added, env)), e1);
    var e2 := ExecLoop(v, BagOf(Eval(added, env)), ad, e1).value;
    WritesTrans(lval, env, e1, e2);
  }

  lemma ExecLoops(v: string, el: Ty, a: Exp, s: Stm, b: Exp, t: Stm, env: Env)
    ensures Exec(SSeq(SForEach(v, el, a, s), SForEach(v, el, b, t)), env)
         == match ExecLoop(v, BagOf(Eval(a, env)), s, env)
            case None => None
            case Some(e1) => ExecLoop(v, BagOf(Eval(b, e1)), t, e1)
  {
  }

  /** The type holds no map, and each record type in it has distinct field names. */
  predicate NoMaps(t: Ty)
    decreases t
  {
    if t.TMap? then false
    else if t.TTuple? || t.TRecord? then
      (t.TRecord? ==> DistinctNames(t.fields)) && forall j :: 0 <= j < Width(t) ==> NoMaps(CompTy(t, j))
    else true
  }

  /** Every expression of `es` holds in `env`. */
  predicate AllHold(es: seq<Exp>, env: Env)
  {
    forall i :: 0 <= i < |es| ==> Truthy(Eval(es[i], env))
  }

  lemma AllHoldKeep(es: seq<Exp>, lval: Exp, env: Env, env': Env)
    requires IsPath(lval) && WritesAt(lval, env, env') && Root(lval) !in FVArgs(es) && AllHold(es, env)
    ensures AllHold(es, env')
  {
    forall i | 0 <= i < |es| ensures Truthy(Eval(es[i], env')) {
      FVArgsMember(es, i);
      WritesKeep(lval, es[i], env, env');
    }
  }

  /**
   * What running a sketch assumes: `lval` is an access path whose type
   * holds no map; its root variable is read by neither value, by no
   * assumption and no invariant, and is not a name the counter gives from
   * `n` on; `lval` holds `oldV` (collections up to order); the oracle is
   * sound; and the assumptions and invariants hold.
   */
  ghost predicate SketchHyp(lval: Exp, oldV: Exp, newV: Exp, assumptions: seq<Exp>, invariants: seq<Exp>,
                            valid: Exp -> bool, n: nat, env: Env)
  {
    IsPath(lval) && NoMaps(TypeOf(lval))
    && Root(lval) !in FV(oldV) + FV(newV) + FVArgs(assumptions + invariants)
    && (forall m: nat :: n <= m ==> FreshName("var", m) != Root(lval))
    && AgreeAt(env.heap, TypeOf(lval), Eval(lval, env), Eval(oldV, env))
    && OracleSound(valid) && AllHold(assumptions + invariants, env)
  }

  /**
   * Components `0 .. k-1` of `after` agree with those of `target`, and the
   * remaining ones are still those of `before`.
   */
  predicate PartsDone(heap: map<int, Val>, t: Ty, before: Val, after: Val, target: Val, k: nat)
    requires k <= Width(t)
  {
    (forall j :: 0 <= j < k ==> AgreeAt(heap, CompTy(t, j), Component(heap, t, after, j), Component(heap, t, target, j)))
    && (forall j :: k <= j < Width(t) ==> Component(heap, t, after, j) == Component(heap, t, before, j))
  }

  /**
   * Running a sketch with its queries answered succeeds, writes only
   * through `lval`, and leaves `lval` holding what `newV` held before
   * (collections up to order).
   */
  lemma {:induction false} SketchRuns(lval: Exp, oldV: Exp, newV: Exp, ctx: set<string>, assumptions: seq<Exp>,
                                      invariants: seq<Exp>, valid: Exp -> bool, n: nat, qs: seq<Query>, env: Env)
    requires SketchHyp(lval, oldV, newV, assumptions, invariants, valid, n, env)
    requires Answers(qs, UpdateSketch(lval, oldV, newV, ctx, assumptions, invariants, valid, n).subgoals)
    ensures var e' := Exec(Link(UpdateSketch(lval, oldV, newV, ctx, assumptions, invariants, valid, n).stm, qs), env);
      e'.Some? && WritesAt(lval, env, e'.value) && AgreeAt(env.heap, TypeOf(lval), Eval(lval, e'.value), Eval(newV, env))
    decreases TypeOf(lval), Width(TypeOf(lval)) + 2
  {
    var t, nv := TypeOf(lval), StripStateVar(newV);
    StripStateVarSound(newV, env);
    StripFV(newV);
    if valid(Unchanged(oldV, newV, assumptions, invariants)) {
      SketchUnchanged(lval, oldV, newV, ctx, assumptions, invariants, valid, n, env);
    } else if IsCollection(t) {
      assert UpdateSketch(lval, oldV, newV, ctx, assumptions, invariants, valid, n) == BagSketch(lval, oldV, nv, ctx, assumptions, n);
      BagCase(lval, oldV, newV, ctx, assumptions, n, qs, env);
    } else if t.TTuple? || t.TRecord? {
      TupleRuns(lval, oldV, newV, ctx, assumptions, invariants, valid, n, qs, env);
    } else if !t.TMap? {
      assert UpdateSketch(lval, oldV, newV, ctx, assumptions, invariants, valid, n) == AssignSketch(lval, nv, ctx, assumptions, n);
      AssignRuns(lval, nv, ctx, assumptions, n, qs, env);
    }
  }

  /** The collection case of `SketchRuns`: the collection ends up holding the new value's elements. */
  lemma BagCase(lval: Exp, oldV: Exp, newV: Exp, ctx: set<string>, assumptions: seq<Exp>, n: nat, qs: seq<Query>, env: Env)
    requires IsPath(lval) && IsCollection(TypeOf(lval))
    requires Root(lval) !in FV(oldV) + FV(newV) && FreshName("var", n + 2) != Root(lval)
    requires multiset(BagOf(Eval(lval, env))) == multiset(BagOf(Eval(oldV, env)))
    requires Answers(qs, BagSketch(lval, oldV, StripStateVar(newV), ctx, assumptions, n).subgoals)
    ensures var e' := Exec(Link(BagSketch(lval, oldV, StripStateVar(newV), ctx, assumptions, n).stm, qs), env);
      e'.Some? && WritesAt(lval, env, e'.value) && multiset(BagOf(Eval(lval, e'.value))) == multiset(BagOf(Eval(newV, env)))
  {
    StripStateVarSound(newV, env);
    StripFV(newV);
    BagRuns(lval, oldV, StripStateVar(newV), ctx, assumptions, n, qs, env);
    BagPatch(multiset(BagOf(Eval(oldV, env))), multiset(BagOf(Eval(newV, env))));
  }

  /** The assignment case of `SketchRuns`: `lval` is assigned the new value. */
  lemma AssignRuns(lval: Exp, nv: Exp, ctx: set<string>, assumptions: seq<Exp>, n: nat, qs: seq<Query>, env: Env)
    requires IsPath(lval) && Answers(qs, AssignSketch(lval, nv, ctx, assumptions, n).subgoals)
    ensures var e' := Exec(Link(AssignSketch(lval, nv, ctx, assumptions, n).stm, qs), env);
      e'.Some? && WritesAt(lval, env, e'.value) && Eval(lval, e'.value) == Eval(nv, env)
  {
    var g := MakeGoal(nv, TypeOf(nv), ctx, assumptions, n);
    assert AssignSketch(lval, nv, ctx, assumptions, n) == Sketched(SAssign(lval, g.call), [g.query], n + 1);
    assert AssignSketch(lval, nv, ctx, assumptions, n).subgoals[0] == g.query;
    assert RetOf(qs, g.query.name) == Some(nv);
    assert Link(SAssign(lval, g.call), qs) == SAssign(lval, nv);
    AssignPath(lval, Eval(nv, env), env);
    ReadBack(lval, Eval(nv, env), env);
    assert Assign(lval, Eval(nv, env), env) == Some(Assign(lval, Eval(nv, env), env).value);
  }

  /** The tuple and record case of `SketchRuns`: every component ends up agreeing with the new value's. */
  lemma {:induction false} TupleRuns(lval: Exp, oldV: Exp, newV: Exp, ctx: set<string>, assumptions: seq<Exp>,
                                     invariants: seq<Exp>, valid: Exp -> bool, n: nat, qs: seq<Query>, env: Env)
    requires SketchHyp(lval, oldV, newV, assumptions, invariants, valid, n, env)
    requires TypeOf(lval).TTuple? || TypeOf(lval).TRecord?
    requires !valid(Unchanged(oldV, newV, assumptions, invariants))
    requires Answers(qs, UpdateSketch(lval, oldV, newV, ctx, assumptions, invariants, valid, n).subgoals)
    ensures var e' := Exec(Link(UpdateSketch(lval, oldV, newV, ctx, assumptions, invariants, valid, n).stm, qs), env);
      e'.Some? && WritesAt(lval, env, e'.value) && AgreeAt(env.heap, TypeOf(lval), Eval(lval, e'.value), Eval(newV, env))
    decreases TypeOf(lval), Width(TypeOf(lval)) + 1
  {
    var t, nv := TypeOf(lval), StripStateVar(newV);
    StripStateVarSound(newV, env);
    StripFV(newV);
    var p := Parts(t, lval, oldV, nv, ctx, assumptions, invariants, valid, n, Width(t));
    assert UpdateSketch(lval, oldV, newV, ctx, assumptions, invariants, valid, n) == Sketched(SeqOf(p.stms), p.subgoals, p.next);
    ExecSeqOf(p.stms, qs, env);
    PartsRuns(t, lval, oldV, nv, ctx, assumptions, invariants, valid, n, Width(t), qs, env);
  }

  /** Running the sketches of components `0 .. k-1` in order. */
  lemma {:induction false} PartsRuns(t: Ty, lval: Exp, oldV: Exp, nv: Exp, ctx: set<string>, assumptions: seq<Exp>,
                                     invariants: seq<Exp>, valid: Exp -> bool, n: nat, k: nat, qs: seq<Query>, env: Env)
    requires t == TypeOf(lval) && (t.TTuple? || t.TRecord?) && k <= Width(t)
    requires SketchHyp(lval, oldV, nv, assumptions, invariants, valid, n, env)
    requires Answers(qs, Parts(t, lval, oldV, nv, ctx, assumptions, invariants, valid, n, k).subgoals)
    ensures var r := RunAll(Parts(t, lval, oldV, nv, ctx, assumptions, invariants, valid, n, k).stms, qs, env);
      r.Some? && WritesAt(lval, env, r.value) && PartsDone(env.heap, t, Eval(lval, env), Eval(lval, r.value), Eval(nv, env), k)
    decreases t, k
  {
    if k > 0 {
      var p := Parts(t, lval, oldV, nv, ctx, assumptions, invariants, valid, n, k - 1);
      var s := UpdateSketch(Part(lval, t, k - 1), Part(oldV, t, k - 1), Part(nv, t, k - 1), ctx, assumptions, invariants, valid, p.next);
      PartsUnfold(t, lval, oldV, nv, ctx, assumptions, invariants, valid, n, k);
      AnswersSplit(qs, p.subgoals, s.subgoals);
      PartsRuns(t, lval, oldV, nv, ctx, assumptions, invariants, valid, n, k - 1, qs, env);
      PartNext(t, lval, oldV, nv, ctx, assumptions, invariants, valid, n, k, p.next, qs, env, p.stms);
    }
  }

  /** Running the sketch of component `k-1` after those of components `0 .. k-2`. */
  lemma {:induction false} PartNext(t: Ty, lval: Exp, oldV: Exp, nv: Exp, ctx: set<string>, assumptions: seq<Exp>,
                                    invariants: seq<Exp>, valid: Exp -> bool, n: nat, k: nat, m: nat, qs: seq<Query>,
                                    env: Env, done: seq<Stm>)
    requires t == TypeOf(lval) && (t.TTuple? || t.TRecord?) && 0 < k <= Width(t) && n <= m
    requires SketchHyp(lval, oldV, nv, assumptions, invariants, valid, n, env)
    requires Answers(qs, UpdateSketch(Part(lval, t, k - 1), Part(oldV, t, k - 1), Part(nv, t, k - 1), ctx, assumptions, invariants, valid, m).subgoals)
    requires var e1 := RunAll(done, qs, env);
      e1.Some? && WritesAt(lval, env, e1.value) && PartsDone(env.heap, t, Eval(lval, env), Eval(lval, e1.value), Eval(nv, env), k - 1)
    ensures var s := UpdateSketch(Part(lval, t, k - 1), Part(oldV, t, k - 1), Part(nv, t, k - 1), ctx, assumptions, invariants, valid, m);
      var e2 := RunAll(done + [s.stm], qs, env);
      e2.Some? && WritesAt(lval, env, e2.value) && PartsDone(env.heap, t, Eval(lval, env), Eval(lval, e2.value), Eval(nv, env), k)
    decreases t, k - 1, 1
  {
    var e1 := RunAll(done, qs, env).value;
    PartRun(t, lval, oldV, nv, ctx, assumptions, invariants, valid, n, k, m, qs, env, e1);
    var s := UpdateSketch(Part(lval, t, k - 1), Part(oldV, t, k - 1), Part(nv, t, k - 1), ctx, assumptions, invariants, valid, m);
    var e2 := Exec(Link(s.stm, qs), e1).value;
    RunAllThen(done, s.stm, qs, env, e1, e2);
  }

  lemma {:induction false} PartRun(t: Ty, lval: Exp, oldV: Exp, nv: Exp, ctx: set<string>, assumptions: seq<Exp>,
                                   invariants: seq<Exp>, valid: Exp -> bool, n: nat, k: nat, m: nat, qs: seq<Query>,
                                   env: Env, e1: Env)
    requires t == TypeOf(lval) && (t.TTuple? || t.TRecord?) && 0 < k <= Width(t) && n <= m
    requires SketchHyp(lval, oldV, nv, assumptions, invariants, valid, n, env)
    requires Answers(qs, UpdateSketch(Part(lval, t, k - 1), Part(oldV, t, k - 1), Part(nv, t, k - 1), ctx, assumptions, invariants, valid, m).subgoals)
    requires WritesAt(lval, env, e1) && PartsDone(env.heap, t, Eval(lval, env), Eval(lval, e1), Eval(nv, env), k - 1)
    ensures var s := UpdateSketch(Part(lval, t, k - 1), Part(oldV, t, k - 1), Part(nv, t, k - 1), ctx, assumptions, invariants, valid, m);
      var e2 := Exec(Link(s.stm, qs), e1);
      e2.Some? && WritesAt(lval, env, e2.value) && PartsDone(env.heap, t, Eval(lval, env), Eval(lval, e2.value), Eval(nv, env), k)
    decreases t, k - 1, 0
  {
    assert Component(env.heap, t, Eval(lval, e1), k - 1) == Component(env.heap, t, Eval(lval, env), k - 1);
    PartHyp(t, lval, oldV, nv, assumptions, invariants, valid, n, env, k - 1, m, e1);
    PartSmaller(lval, t, k - 1);
    SketchRuns(Part(lval, t, k - 1), Part(oldV, t, k - 1), Part(nv, t, k - 1), ctx, assumptions, invariants, valid, m, qs, e1);
    var s := UpdateSketch(Part(lval, t, k - 1), Part(oldV, t, k - 1), Part(nv, t, k - 1), ctx, assumptions, invariants, valid, m);
    var e2 := Exec(Link(s.stm, qs), e1).value;
    PartStep(t, lval, nv, k, env, e1, e2);
  }

  lemma PartsUnfold(t: Ty, lval: Exp, oldV: Exp, nv: Exp, ctx: set<string>, assumptions: seq<Exp>,
                    invariants: seq<Exp>, valid: Exp -> bool, n: nat, k: nat)
    requires 0 < k <= Width(t)
    ensures var p := Parts(t, lval, oldV, nv, ctx, assumptions, invariants, valid, n, k - 1);
      var s := UpdateSketch(Part(lval, t, k - 1), Part(oldV, t, k - 1), Part(nv, t, k - 1), ctx, assumptions, invariants, valid, p.next);
      Parts(t, lval, oldV, nv, ctx, assumptions, invariants, valid, n, k) == Pieces(p.stms + [s.stm], p.subgoals + s.subgoals, s.next)
  {
  }

  /** The component sketched next meets the assumptions of `SketchRuns`. */
  lemma PartHyp(t: Ty, lval: Exp, oldV: Exp, nv: Exp, assumptions: seq<Exp>, invariants: seq<Exp>,
                valid: Exp -> bool, n: nat, env: Env, i: nat, m: nat, e1: Env)
    requires SketchHyp(lval, oldV, nv, assumptions, invariants, valid, n, env)
    requires t == TypeOf(lval) && (t.TTuple? || t.TRecord?) && i < Width(t) && n <= m
    requires WritesAt(lval, env, e1)
    requires Component(env.heap, t, Eval(lval, e1), i) == Component(env.heap, t, Eval(lval, env), i)
    ensures SketchHyp(Part(lval, t, i), Part(oldV, t, i), Part(nv, t, i), assumptions, invariants, valid, m, e1)
  {
    PartAssign(lval, t, i, VInt(0), env);
    EvalPart(lval, t, i, e1);
    EvalPart(oldV, t, i, e1);
    EvalPart(nv, t, i, e1);
    WritesKeep(lval, oldV, env, e1);
    AllHoldKeep(assumptions + invariants, lval, env, e1);
  }

  /** After component `k-1` is sketched, components `0 .. k-1` are done and the rest are untouched. */
  lemma PartStep(t: Ty, lval: Exp, nv: Exp, k: nat, env: Env, e1: Env, e2: Env)
    requires IsPath(lval) && t == TypeOf(lval) && (t.TTuple? || t.TRecord?) && 0 < k <= Width(t) && NoMaps(t)
    requires Root(lval) !in FV(nv)
    requires WritesAt(lval, env, e1) && PartsDone(env.heap, t, Eval(lval, env), Eval(lval, e1), Eval(nv, env), k - 1)
    requires WritesAt(Part(lval, t, k - 1), e1, e2)
    requires AgreeAt(e1.heap, TypeOf(Part(lval, t, k - 1)), Eval(Part(lval, t, k - 1), e2), Eval(Part(nv, t, k - 1), e1))
    ensures WritesAt(lval, env, e2) && PartsDone(env.heap, t, Eval(lval, env), Eval(lval, e2), Eval(nv, env), k)
  {
    ComponentStep(t, lval, nv, k - 1, env, e1, e2);
  }

  lemma ComponentStep(t: Ty, lval: Exp, nv: Exp, i: nat, env: Env, e1: Env, e2: Env)
    requires IsPath(lval) && t == TypeOf(lval) && (t.TTuple? || t.TRecord?) && i < Width(t) && NoMaps(t)
    requires Root(lval) !in FV(nv)
    requires WritesAt(lval, env, e1) && PartsDone(env.heap, t, Eval(lval, env), Eval(lval, e1), Eval(nv, env), i)
    requires WritesAt(Part(lval, t, i), e1, e2)
    requires AgreeAt(e1.heap, TypeOf(Part(lval, t, i)), Eval(Part(lval, t, i), e2), Eval(Part(nv, t, i), e1))
    ensures WritesAt(lval, env, e2) && PartsDone(env.heap, t, Eval(lval, env), Eval(lval, e2), Eval(nv, env), i + 1)
  {
    WritesKeep(lval, nv, env, e1);
    WritesUp(lval, t, i, e1, e2);
    WritesTrans(lval, env, e1, e2);
    EvalPart(lval, t, i, e2);
    EvalPart(nv, t, i, e1);
    PartsDoneStep(env.heap, t, Eval(lval, env), Eval(lval, e1), Eval(lval, e2), Eval(nv, env), i);
  }

  lemma PartsDoneStep(heap: map<int, Val>, t: Ty, before: Val, a1: Val, a2: Val, target: Val, i: nat)
    requires i < Width(t) && PartsDone(heap, t, before, a1, target, i)
    requires forall j :: 0 <= j < Width(t) && j != i ==> Component(heap, t, a2, j) == Component(heap, t, a1, j)
    requires AgreeAt(heap, CompTy(t, i), Component(heap, t, a2, i), Component(heap, t, target, i))
    ensures PartsDone(heap, t, before, a2, target, i + 1)
  {
  }

  /**
   * `sketch_update` returns "code that updates the value of lval from
   * old_value to new_value": with lval holding the old value (collections
   * up to order) and every call of a query it produced standing for what
   * that query returns, the code runs, writes nothing but `lval`, and
   * leaves `lval` holding the new value, for collection, tuple, record and
   * assigned types.
   */
  lemma SketchCorrect(lval: Exp, oldV: Exp, newV: Exp, ctx: set<string>, assumptions: seq<Exp>,
                      invariants: seq<Exp>, valid: Exp -> bool, n: nat, env: Env)
    requires SketchHyp(lval, oldV, newV, assumptions, invariants, valid, n, env)
    ensures var r := UpdateSketch(lval, oldV, newV, ctx, assumptions, invariants, valid, n);
      var e' := Exec(Link(r.stm, r.subgoals), env);
      e'.Some? && WritesAt(lval, env, e'.value) && AgreeAt(env.heap, TypeOf(lval), Eval(lval, e'.value), Eval(newV, env))
  {
    var r := UpdateSketch(lval, oldV, newV, ctx, assumptions, invariants, valid, n);
    AnswersSelf(r.subgoals);
    SketchRuns(lval, oldV, newV, ctx, assumptions, invariants, valid, n, r.subgoals, env);
  }

  // ---------------------------------------------------------------------
  // The running state: the fresh-name counter and `subgoals_out`

  class Session {
    /** The counter behind `fresh_name` and `fresh_var`. */
    var counter: nat
    /** `subgoals_out`: every query produced so far, in order. */
    var subgoals: seq<Query>

    /** The queries produced so far have distinct names drawn from the counter. */
    ghost predicate Valid()
      reads this
    {
      FreshlyNamed(subgoals, 0, counter)
    }

    constructor ()
      ensures counter == 0 && subgoals == [] && Valid()
    {
      counter := 0;
      subgoals := [];
    }

    /** `fresh_name(prefix)`: the next name, which moves the counter on. */
    method NextName(prefix: string) returns (name: string)
      modifies this
      ensures name == FreshName(prefix, old(counter))
      ensures counter == old(counter) + 1 && subgoals == old(subgoals)
    {
      name := FreshName(prefix, counter);
      counter := counter + 1;
    }

    /** `make_subgoal(e)` inside `sketch_update`: a fresh query for `e` and the call to it. */
    method MakeSubgoal(e: Exp, ty: Ty, ctx: set<string>, assumptions: seq<Exp>) returns (g: Goal)
      modifies this
      ensures g == MakeGoal(e, ty, ctx, assumptions, old(counter))
      ensures counter == old(counter) + 1 && subgoals == old(subgoals)
    {
      var name := NextName("query");
      var q := Query(name, QueryArgs(assumptions, e, ctx), assumptions, e);
      g := Goal(CallOf(q, ty), q);
    }

    /**
     * `sketch_update(lval, old_value, new_value, ctx, assumptions,
     * invariants)`: the statement and the queries it returns, and the
     * counter it leaves behind, are those of `UpdateSketch`.
     */
    method SketchUpdate(lval: Exp, oldV: Exp, newV: Exp, ctx: set<string>, assumptions: seq<Exp>,
                        invariants: seq<Exp>, valid: Exp -> bool) returns (stm: Stm, sgs: seq<Query>)
      modifies this
      ensures Sketched(stm, sgs, counter) == UpdateSketch(lval, oldV, newV, ctx, assumptions, invariants, valid, old(counter))
      ensures subgoals == old(subgoals)
      decreases TypeOf(lval), Width(TypeOf(lval)) + 2
    {
      if valid(Unchanged(oldV, newV, assumptions, invariants)) {
        return SNoOp, [];
      }
      var nv := StripStateVar(newV);
      var t := TypeOf(lval);
      if t.TBag? || t.TSet? {
        stm, sgs := BagUpdate(lval, oldV, nv, ctx, assumptions);
      } else if t.TTuple? || t.TRecord? {
        var ps;
        ps, sgs := PartsUpdate(t, lval, oldV, nv, ctx, assumptions, invariants, valid);
        stm := SeqOf(ps);
      } else if t.TMap? {
        stm, sgs := MapUpdate(lval, t.k, t.v, oldV, nv, ctx, assumptions, invariants, valid);
      } else {
        var g := MakeSubgoal(nv, TypeOf(nv), ctx, assumptions);
        stm, sgs := SAssign(lval, g.call), [g.query];
      }
    }

    /** The collection case of `sketch_update`, as `BagSketch` states it. */
    method BagUpdate(lval: Exp, oldV: Exp, nv: Exp, ctx: set<string>, assumptions: seq<Exp>)
      returns (stm: Stm, sgs: seq<Query>)
      modifies this
      ensures Sketched(stm, sgs, counter) == BagSketch(lval, oldV, nv, ctx, assumptions, old(counter))
      ensures subgoals == old(subgoals)
    {
      var t := TypeOf(lval);
      var add := MakeSubgoal(EBinary(nv, BMinus, oldV), t, ctx, assumptions);
      var del := MakeSubgoal(EBinary(oldV, BMinus, nv), t, ctx, assumptions);
      var v := NextName("var");
      var el := ElemType(t);
      stm := SeqOf([SForEach(v, el, del.call, SCall(lval, "remove", [EVar(v, el)])),
                    SForEach(v, el, add.call, SCall(lval, "add", [EVar(v, el)]))]);
      sgs := [add.query, del.query];
    }

    /** The tuple and record cases of `sketch_update`: one sketch per component, in order, as `Parts` states it. */
    method PartsUpdate(t: Ty, lval: Exp, oldV: Exp, nv: Exp, ctx: set<string>, assumptions: seq<Exp>,
                       invariants: seq<Exp>, valid: Exp -> bool) returns (stms: seq<Stm>, sgs: seq<Query>)
      modifies this
      ensures Pieces(stms, sgs, counter) == Parts(t, lval, oldV, nv, ctx, assumptions, invariants, valid, old(counter), Width(t))
      ensures subgoals == old(subgoals)
      decreases t, 1
    {
      var n0 := counter;
      stms, sgs := [], [];
      var i := 0;
      while i < Width(t)
        invariant i <= Width(t)
        invariant Pieces(stms, sgs, counter) == Parts(t, lval, oldV, nv, ctx, assumptions, invariants, valid, n0, i)
        invariant subgoals == old(subgoals)
      {
        stms, sgs := PartUpdate(t, lval, oldV, nv, ctx, assumptions, invariants, valid, n0, i, stms, sgs);
        i := i + 1;
      }
    }

    /** One step of `PartsUpdate`: component `i` is sketched after components `0 .. i-1`. */
    method PartUpdate(t: Ty, lval: Exp, oldV: Exp, nv: Exp, ctx: set<string>, assumptions: seq<Exp>,
                      invariants: seq<Exp>, valid: Exp -> bool, n0: nat, i: nat, stms: seq<Stm>, sgs: seq<Query>)
      returns (stms': seq<Stm>, sgs': seq<Query>)
      requires i < Width(t)
      requires Pieces(stms, sgs, counter) == Parts(t, lval, oldV, nv, ctx, assumptions, invariants, valid, n0, i)
      modifies this
      ensures Pieces(stms', sgs', counter) == Parts(t, lval, oldV, nv, ctx, assumptions, invariants, valid, n0, i + 1)
      ensures subgoals == old(subgoals)
      decreases t, 0
    {
      PartSmaller(lval, t, i);
      var s, g := SketchUpdate(Part(lval, t, i), Part(oldV, t, i), Part(nv, t, i), ctx, assumptions, invariants, valid);
      stms', sgs' := stms + [s], sgs + g;
    }

    /** The map case of `sketch_update`, as `MapSketch` states it. */
    method MapUpdate(lval: Exp, kt: Ty, vt: Ty, oldV: Exp, nv: Exp, ctx: set<string>, assumptions: seq<Exp>,
                     invariants: seq<Exp>, valid: Exp -> bool) returns (stm: Stm, sgs: seq<Query>)
      modifies this
      ensures Sketched(stm, sgs, counter) == MapSketch(lval, kt, vt, oldV, nv, ctx, assumptions, invariants, valid, old(counter))
      ensures subgoals == old(subgoals)
      decreases TMap(kt, vt), 1
    {
      var n0 := counter;
      var kn := NextName("var");
      var vn := NextName("var");
      var k, v := EVar(kn, kt), EVar(vn, vt);
      var dropped := EBinary(EMapKeys(oldV), BMinus, EMapKeys(nv));
      var del := MakeSubgoal(dropped, TBag(kt), ctx, assumptions);
      var changed := ChangedKeys(oldV, nv, kn, kt);
      var s, g := SketchUpdate(v, ValueAt(oldV, k), ValueAt(nv, k), ctx,
                               assumptions + [EIn(k, changed), EEq(v, ValueAt(oldV, k))], invariants, valid);
      var mod := MakeSubgoal(changed, TBag(kt), ctx, assumptions);
      stm := SSeq(SForEach(kn, kt, del.call, SMapDel(lval, k)),
                  SForEach(kn, kt, mod.call, SMapUpdate(lval, k, vn, vt, s)));
      sgs := [del.query] + g + [mod.query];
      assert MapSketch(lval, kt, vt, oldV, nv, ctx, assumptions, invariants, valid, n0)
          == MapSketchWith(lval, kt, vt, kn, vn, dropped, changed, ValueAt(oldV, k), ValueAt(nv, k),
                           ctx, assumptions, invariants, valid, n0);
    }

    /**
     * `_mutate_in_place(lval, e, op, abstract_state, assumptions,
     * invariants, subgoals_out)`: the code keeping `lval` equal to `e` when
     * `op` runs, with the sketch's queries appended to `subgoals_out`.
     * When `op`'s effect on `e` cannot be computed nothing changes.
     */
    method MutateInPlace(lval: Exp, e: Exp, op: Stm, abstractState: set<string>, assumptions: seq<Exp>,
                         invariants: seq<Exp>, valid: Exp -> bool) returns (r: Result<Stm>)
      requires Valid()
      modifies this
      ensures Valid()
      ensures Mutate(e, op).Err? ==>
        r == Err(Mutate(e, op).error) && counter == old(counter) && subgoals == old(subgoals)
      ensures Mutate(e, op).Ok? ==>
        var s := UpdateSketch(lval, e, Mutate(e, op).value, abstractState, assumptions, invariants, valid, old(counter));
        r == Ok(s.stm) && counter == s.next && subgoals == old(subgoals) + s.subgoals
    {
      var newE := Mutate(e, op);
      if newE.Err? {
        return Err(newE.error);
      }
      var stm, sgs := SketchUpdate(lval, e, newE.value, abstractState, assumptions, invariants, valid);
      FreshAppend(subgoals, sgs, 0, old(counter), counter);
      subgoals := subgoals + sgs;
      r := Ok(stm);
    }
  }
}
