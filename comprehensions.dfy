/**
 * The simplifiers for comprehensions over bags: `emap` (map a lambda over
 * a bag), `efilter` (keep the elements a predicate accepts) and `flatmap`
 * (concatenate the bags a lambda yields). Each pushes the comprehension
 * through unions, conditionals and singletons and fuses it with an inner
 * map.
 */
module Comprehensions {
  import opened Syntax
  import opened Semantics
  import opened Shapes
  import opened Forks
  import opened Bags

  /**
   * `emap(e, f)`: the bag `f` maps `e` to. The identity gives `e` back; a
   * map of a map composes the two lambdas.
   */
  function Emap(e: Exp, f: Lambda): Exp
    decreases e
  {
    if IsIdentity(f) then e
    else if e.EEmpty? then EEmpty(TypeOf(EMap(e, f)))
    else if e.ESingleton? then ESingleton(ApplyTo(f, e.e))
    else if IsPlus(e) then BagUnion(Emap(e.e1, f), Emap(e.e2, f))
    else if e.EMap? then Emap(e.e, Compose(f, e.f))
    else if e.ECond? then Cond(e.cond, Emap(e.thenE, f), Emap(e.elseE, f))
    else EMap(e, f)
  }

  /** The substitutions `emap` performs capture no variable. */
  predicate EmapSafe(e: Exp, f: Lambda)
    decreases e
  {
    if IsIdentity(f) then true
    else if e.ESingleton? then BV(f.body) !! FV(e.e)
    else if IsPlus(e) then EmapSafe(e.e1, f) && EmapSafe(e.e2, f)
    else if e.EMap? then ComposeSafe(f, e.f) && EmapSafe(e.e, Compose(f, e.f))
    else if e.ECond? then EmapSafe(e.thenE, f) && EmapSafe(e.elseE, f)
    else true
  }

  /** The rewritten map has the elements `f` maps `e`'s elements to, in order. */
  lemma {:induction false} EmapSound(e: Exp, f: Lambda, env: Env)
    requires EmapSafe(e, f)
    ensures BagOf(Eval(Emap(e, f), env)) == MapVals(f, env, BagOf(Eval(e, env)))
    decreases e, 1
  {
    if IsIdentity(f) || !(IsPlus(e) || e.EMap? || e.ECond?) {
      EmapLeaf(e, f, env);
    } else if IsPlus(e) {
      EmapPlus(e, f, env);
    } else if e.EMap? {
      EmapMap(e, f, env);
    } else {
      EmapCond(e, f, env);
    }
  }

  lemma EmapLeaf(e: Exp, f: Lambda, env: Env)
    requires EmapSafe(e, f)
    requires IsIdentity(f) || !(IsPlus(e) || e.EMap? || e.ECond?)
    ensures BagOf(Eval(Emap(e, f), env)) == MapVals(f, env, BagOf(Eval(e, env)))
  {
    if IsIdentity(f) {
      MapValsIdentity(f, env, BagOf(Eval(e, env)));
    } else if e.EEmpty? {
      EmptyElems(e.ty, env);
      EmptyElems(TypeOf(EMap(e, f)), env);
    } else if e.ESingleton? {
      SingletonElems(e.e, env);
      SingletonElems(ApplyTo(f, e.e), env);
      ApplyToSound(f, e.e, env);
    } else {
      assert Emap(e, f) == EMap(e, f);
    }
  }

  lemma {:induction false} EmapPlus(e: Exp, f: Lambda, env: Env)
    requires EmapSafe(e, f) && !IsIdentity(f) && IsPlus(e)
    ensures BagOf(Eval(Emap(e, f), env)) == MapVals(f, env, BagOf(Eval(e, env)))
    decreases e, 0
  {
    var x, y := Emap(e.e1, f), Emap(e.e2, f);
    assert Emap(e, f) == BagUnion(x, y);
    EmapSound(e.e1, f, env);
    EmapSound(e.e2, f, env);
    BagUnionSound(x, y, env);
    PlusElems(e.e1, e.e2, env);
    MapValsAppend(f, env, BagOf(Eval(e.e1, env)), BagOf(Eval(e.e2, env)));
  }

  lemma {:induction false} EmapMap(e: Exp, f: Lambda, env: Env)
    requires EmapSafe(e, f) && !IsIdentity(f) && e.EMap?
    ensures BagOf(Eval(Emap(e, f), env)) == MapVals(f, env, BagOf(Eval(e, env)))
    decreases e, 0
  {
    assert Emap(e, f) == Emap(e.e, Compose(f, e.f));
    EmapSound(e.e, Compose(f, e.f), env);
    MapValsCompose(f, e.f, env, BagOf(Eval(e.e, env)));
  }

  lemma {:induction false} EmapCond(e: Exp, f: Lambda, env: Env)
    requires EmapSafe(e, f) && !IsIdentity(f) && e.ECond?
    ensures BagOf(Eval(Emap(e, f), env)) == MapVals(f, env, BagOf(Eval(e, env)))
    decreases e, 0
  {
    var x, y := Emap(e.thenE, f), Emap(e.elseE, f);
    assert Emap(e, f) == Cond(e.cond, x, y);
    EmapSound(e.thenE, f, env);
    EmapSound(e.elseE, f, env);
    CondSound(e.cond, x, y, env);
  }

  /**
   * `efilter(e, f)` as the original writes it. Its case for a map drops
   * the map: it filters the source bag with the composed predicate and
   * returns the source elements, not their images.
   */
  function EfilterAsWritten(e: Exp, f: Lambda): Exp
    decreases e
  {
    if f.body == T then e
    else if e.EEmpty? then EEmpty(TypeOf(e))
    else if IsPlus(e) then BagUnion(EfilterAsWritten(e.e1, f), EfilterAsWritten(e.e2, f))
    else if e.EMap? then EfilterAsWritten(e.e, Compose(f, e.f))
    else if e.ESingleton? then Cond(ApplyTo(f, e.e), e, EEmpty(TypeOf(e)))
    else EFilter(e, f)
  }

  /** The example that shows the dropped map: the bag `{false}`, mapped by negation, filtered by identity. */
  const ExampleSource: Exp := ESingleton(F)
  const ExampleMap: Lambda := Lambda("x", TBool, ENot(EVar("x", TBool)))
  const ExampleTest: Lambda := Lambda("y", TBool, EVar("y", TBool))

  /** As written, filtering the mapped bag returns the unmapped source element `false`. */
  lemma EfilterAsWrittenDropsMap(env: Env)
    ensures BagOf(Eval(EfilterAsWritten(EMap(ExampleSource, ExampleMap), ExampleTest), env)) == [VBool(false)]
  {
    assert Compose(ExampleTest, ExampleMap) == ExampleMap;
    assert EfilterAsWritten(EMap(ExampleSource, ExampleMap), ExampleTest)
        == ECond(ENot(F), ExampleSource, EEmpty(TBag(TBool)));
  }

  /** The true answer: the mapped bag is `{true}`, and the identity filter keeps it. */
  lemma EfilterKeepsMap(env: Env)
    ensures FilterVals(ExampleTest, env, BagOf(Eval(EMap(ExampleSource, ExampleMap), env))) == [VBool(true)]
  {
    assert EvalLambda(ExampleMap, env, VBool(false)) == VBool(true);
    assert EvalLambda(ExampleTest, env, VBool(true)) == VBool(true);
  }

  /** The corrected rewrite gives the true answer on the example. */
  lemma EfilterExampleCorrected(env: Env)
    ensures BagOf(Eval(Efilter(EMap(ExampleSource, ExampleMap), ExampleTest), env)) == [VBool(true)]
  {
    EfilterKeepsMap(env);
    assert EfilterSafe(EMap(ExampleSource, ExampleMap), ExampleTest);
    EfilterSound(EMap(ExampleSource, ExampleMap), ExampleTest, env);
  }

  /**
   * `efilter(e, f)`: the elements of `e` that `f` accepts. A predicate
   * that is literally true keeps everything; the filter is pushed into
   * unions, singletons become conditionals, and the filter of a map is the
   * map of the source filtered by the composed predicate.
   */
  function Efilter(e: Exp, f: Lambda): Exp
    decreases e
  {
    if f.body == T then e
    else if e.EEmpty? then EEmpty(TypeOf(e))
    else if IsPlus(e) then BagUnion(Efilter(e.e1, f), Efilter(e.e2, f))
    else if e.EMap? then EMap(Efilter(e.e, Compose(f, e.f)), e.f)
    else if e.ESingleton? then Cond(ApplyTo(f, e.e), e, EEmpty(TypeOf(e)))
    else EFilter(e, f)
  }

  /** The substitutions `efilter` performs capture no variable. */
  predicate EfilterSafe(e: Exp, f: Lambda)
    decreases e
  {
    if f.body == T then true
    else if IsPlus(e) then EfilterSafe(e.e1, f) && EfilterSafe(e.e2, f)
    else if e.EMap? then ComposeSafe(f, e.f) && EfilterSafe(e.e, Compose(f, e.f))
    else if e.ESingleton? then BV(f.body) !! FV(e.e)
    else true
  }

  /** The rewritten filter keeps exactly the elements `f` accepts, in order. */
  lemma {:induction false} EfilterSound(e: Exp, f: Lambda, env: Env)
    requires EfilterSafe(e, f)
    ensures BagOf(Eval(Efilter(e, f), env)) == FilterVals(f, env, BagOf(Eval(e, env)))
    decreases e, 1
  {
    if f.body == T {
      FilterValsTrue(f, env, BagOf(Eval(e, env)));
    } else if e.EEmpty? {
      EfilterEmpty(e, f, env);
    } else if IsPlus(e) {
      EfilterPlus(e, f, env);
    } else if e.EMap? {
      EfilterMap(e, f, env);
    } else if e.ESingleton? {
      EfilterSingleton(e, f, env);
    } else {
      EfilterOther(e, f, env);
    }
  }

  lemma EfilterEmpty(e: Exp, f: Lambda, env: Env)
    requires f.body != T && e.EEmpty?
    ensures BagOf(Eval(Efilter(e, f), env)) == FilterVals(f, env, BagOf(Eval(e, env)))
  {
    EmptyElems(e.ty, env);
    EmptyElems(TypeOf(e), env);
  }

  lemma EfilterOther(e: Exp, f: Lambda, env: Env)
    requires f.body != T && !e.EEmpty? && !IsPlus(e) && !e.EMap? && !e.ESingleton?
    ensures BagOf(Eval(Efilter(e, f), env)) == FilterVals(f, env, BagOf(Eval(e, env)))
  {
    assert Efilter(e, f) == EFilter(e, f);
  }

  lemma EfilterSingleton(e: Exp, f: Lambda, env: Env)
    requires EfilterSafe(e, f) && f.body != T && e.ESingleton?
    ensures BagOf(Eval(Efilter(e, f), env)) == FilterVals(f, env, BagOf(Eval(e, env)))
  {
    var v := Eval(e.e, env);
    var test := ApplyTo(f, e.e);
    assert Efilter(e, f) == Cond(test, e, EEmpty(TypeOf(e)));
    CondSound(test, e, EEmpty(TypeOf(e)), env);
    ApplyToSound(f, e.e, env);
    SingletonElems(e.e, env);
    EmptyElems(TypeOf(e), env);
    assert FilterVals(f, env, [v]) == if Truthy(EvalLambda(f, env, v)) then [v] else [];
  }

  lemma {:induction false} EfilterPlus(e: Exp, f: Lambda, env: Env)
    requires EfilterSafe(e, f) && f.body != T && IsPlus(e)
    ensures BagOf(Eval(Efilter(e, f), env)) == FilterVals(f, env, BagOf(Eval(e, env)))
    decreases e, 0
  {
    var x, y := Efilter(e.e1, f), Efilter(e.e2, f);
    assert Efilter(e, f) == BagUnion(x, y);
    EfilterSound(e.e1, f, env);
    EfilterSound(e.e2, f, env);
    BagUnionSound(x, y, env);
    PlusElems(e.e1, e.e2, env);
    FilterValsAppend(f, env, BagOf(Eval(e.e1, env)), BagOf(Eval(e.e2, env)));
  }

  lemma {:induction false} EfilterMap(e: Exp, f: Lambda, env: Env)
    requires EfilterSafe(e, f) && f.body != T && e.EMap?
    ensures BagOf(Eval(Efilter(e, f), env)) == FilterVals(f, env, BagOf(Eval(e, env)))
    decreases e, 0
  {
    var inner := Efilter(e.e, Compose(f, e.f));
    assert Efilter(e, f) == EMap(inner, e.f);
    EfilterSound(e.e, Compose(f, e.f), env);
    FilterMapCommute(f, e.f, env, BagOf(Eval(e.e, env)));
  }

  /** `f`'s body is the singleton of its own argument: `f` maps each element to the bag holding just it. */
  predicate IsSingletonOfArg(f: Lambda) { f.body.ESingleton? && f.body.e.EVar? && f.body.e.id == f.x }

  /**
   * `flatmap(e, f)`: the concatenation of the bags `f` yields for `e`'s
   * elements. A conditional body of a singleton's image, and a
   * conditional source, are resolved by the fork.
   */
  function Flatmap(fork: ForkFn, e: Exp, f: Lambda): Forked<Exp>
    decreases e
  {
    if IsSingletonOfArg(f) then Resolved(e)
    else if e.EEmpty? || f.body.EEmpty? then Resolved(EEmpty(TypeOf(f.body)))
    else if e.ESingleton? then
      var res := ApplyTo(f, e.e);
      if res.ECond? then fork(res.cond, res.thenE, res.elseE) else Resolved(res)
    else if IsPlus(e) then
      match Flatmap(fork, e.e1, f)
      case NeedsSplit(k) => NeedsSplit(k)
      case Resolved(x) =>
        match Flatmap(fork, e.e2, f)
        case NeedsSplit(k) => NeedsSplit(k)
        case Resolved(y) => Resolved(BagUnion(x, y))
    else if e.ECond? then
      match Flatmap(fork, e.thenE, f)
      case NeedsSplit(k) => NeedsSplit(k)
      case Resolved(x) =>
        match Flatmap(fork, e.elseE, f)
        case NeedsSplit(k) => NeedsSplit(k)
        case Resolved(y) => fork(e.cond, x, y)
    else Resolved(EFlatMap(e, f))
  }

  ghost predicate FlatmapOk(fork: ForkFn, e: Exp, f: Lambda, env: Env)
    requires Flatmap(fork, e, f).Resolved?
  {
    BagOf(Eval(Flatmap(fork, e, f).value, env)) == FlatMapVals(f, env, BagOf(Eval(e, env)))
  }

  /** With a sound fork, a resolved flat-map has exactly the concatenated images, in order. */
  lemma {:induction false} FlatmapSound(fork: ForkFn, e: Exp, f: Lambda, env: Env)
    requires ForkSoundIn(fork, env) && BV(f.body) !! FV(e) && Flatmap(fork, e, f).Resolved?
    ensures FlatmapOk(fork, e, f, env)
    decreases e, 1
  {
    if IsSingletonOfArg(f) {
      FlatMapValsSingleton(f, env, BagOf(Eval(e, env)));
    } else if e.EEmpty? || f.body.EEmpty? {
      FlatmapEmpty(fork, e, f, env);
    } else if e.ESingleton? {
      FlatmapSingleton(fork, e, f, env);
    } else if IsPlus(e) {
      FlatmapPlus(fork, e, f, env);
    } else if e.ECond? {
      FlatmapCond(fork, e, f, env);
    } else {
      assert Flatmap(fork, e, f) == Resolved(EFlatMap(e, f));
    }
  }

  lemma FlatmapEmpty(fork: ForkFn, e: Exp, f: Lambda, env: Env)
    requires !IsSingletonOfArg(f) && (e.EEmpty? || f.body.EEmpty?)
    ensures Flatmap(fork, e, f).Resolved? && FlatmapOk(fork, e, f, env)
  {
    EmptyElems(TypeOf(f.body), env);
    if e.EEmpty? {
      EmptyElems(e.ty, env);
    } else {
      FlatMapValsEmpty(f, env, BagOf(Eval(e, env)));
    }
  }

  lemma FlatmapSingleton(fork: ForkFn, e: Exp, f: Lambda, env: Env)
    requires ForkSoundIn(fork, env) && BV(f.body) !! FV(e) && Flatmap(fork, e, f).Resolved?
    requires !IsSingletonOfArg(f) && !e.EEmpty? && !f.body.EEmpty? && e.ESingleton?
    ensures FlatmapOk(fork, e, f, env)
  {
    var res := ApplyTo(f, e.e);
    ApplyToSound(f, e.e, env);
    SingletonElems(e.e, env);
    var v := EvalLambda(f, env, Eval(e.e, env));
    assert FlatMapVals(f, env, [Eval(e.e, env)]) == BagOf(v) + FlatMapVals(f, env, []);
    if res.ECond? {
      assert Flatmap(fork, e, f) == fork(res.cond, res.thenE, res.elseE);
    }
  }

  lemma {:induction false} FlatmapPlus(fork: ForkFn, e: Exp, f: Lambda, env: Env)
    requires ForkSoundIn(fork, env) && BV(f.body) !! FV(e) && Flatmap(fork, e, f).Resolved?
    requires !IsSingletonOfArg(f) && !e.EEmpty? && !f.body.EEmpty? && IsPlus(e)
    ensures FlatmapOk(fork, e, f, env)
    decreases e, 0
  {
    var x, y := Flatmap(fork, e.e1, f).value, Flatmap(fork, e.e2, f).value;
    assert Flatmap(fork, e, f) == Resolved(BagUnion(x, y));
    FlatmapSound(fork, e.e1, f, env);
    FlatmapSound(fork, e.e2, f, env);
    BagUnionSound(x, y, env);
    PlusElems(e.e1, e.e2, env);
    FlatMapValsAppend(f, env, BagOf(Eval(e.e1, env)), BagOf(Eval(e.e2, env)));
  }

  lemma {:induction false} FlatmapCond(fork: ForkFn, e: Exp, f: Lambda, env: Env)
    requires ForkSoundIn(fork, env) && BV(f.body) !! FV(e) && Flatmap(fork, e, f).Resolved?
    requires !IsSingletonOfArg(f) && !e.EEmpty? && !f.body.EEmpty? && !e.ESingleton? && !IsPlus(e) && e.ECond?
    ensures FlatmapOk(fork, e, f, env)
    decreases e, 0
  {
    var x, y := Flatmap(fork, e.thenE, f).value, Flatmap(fork, e.elseE, f).value;
    assert Flatmap(fork, e, f) == fork(e.cond, x, y);
    FlatmapSound(fork, e.thenE, f, env);
    FlatmapSound(fork, e.elseE, f, env);
  }
}
