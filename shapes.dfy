/**
 * Conservative shape tests on bag expressions (empty? a singleton? at
 * most one element? free of duplicates? a subset of another?) answered in
 * three-valued logic, and the small expression builders that use them:
 * `exists`, `len_of`, `implies`, `edistinct`, `equal` and `cond`.
 */
module Shapes {
  import opened Syntax
  import opened Semantics
  import opened ThreeValued

  const ZERO: Exp := ENum(0)
  const ONE: Exp := ENum(1)

  /** `cond(c, t, f)`: a conditional, folded when the choice is evident. */
  function Cond(c: Exp, t: Exp, f: Exp): (r: Exp)
    ensures r == t || r == f || r == ECond(c, t, f)
  {
    if c == T then t
    else if c == F then f
    else if t == f then t
    else ECond(c, t, f)
  }

  /** Folding a conditional never changes its value. */
  lemma CondSound(c: Exp, t: Exp, f: Exp, env: Env)
    ensures Eval(Cond(c, t, f), env) == if Truthy(Eval(c, env)) then Eval(t, env) else Eval(f, env)
  {
    if c == T || c == F {
      CondConstant(c, t, f, env);
    } else {
      CondOther(c, t, f, env);
    }
  }

  /** A literal condition picks its branch. */
  lemma CondConstant(c: Exp, t: Exp, f: Exp, env: Env)
    requires c == T || c == F
    ensures Eval(Cond(c, t, f), env) == if Truthy(Eval(c, env)) then Eval(t, env) else Eval(f, env)
  {
    if c == T {
      assert Truthy(Eval(c, env));
    } else {
      assert !Truthy(Eval(c, env));
    }
  }

  /** Any other condition is kept, unless both branches are the same. */
  lemma CondOther(c: Exp, t: Exp, f: Exp, env: Env)
    requires c != T && c != F
    ensures Eval(Cond(c, t, f), env) == if Truthy(Eval(c, env)) then Eval(t, env) else Eval(f, env)
  {
    if t != f {
      assert Cond(c, t, f) == ECond(c, t, f);
    }
  }

  /** The field names of a record literal, in order. */
  function FieldNames(fs: seq<Field>): seq<string>
  {
    seq(|fs|, i requires 0 <= i < |fs| => fs[i].name)
  }

  /** Two record literals of the same record type: the same distinct names, in the same order. */
  predicate SameRecordShape(fs1: seq<Field>, fs2: seq<Field>)
  {
    FieldNames(fs1) == FieldNames(fs2)
    && forall i, j :: 0 <= i < j < |fs1| ==> fs1[i].name != fs1[j].name
  }

  /**
   * `equal(e1, e2)`: the equality test between two expressions. Two record
   * literals of the same type are compared field by field, as the
   * conjunction of the fields' own equality tests.
   */
  function Equal(e1: Exp, e2: Exp): (r: Exp)
    ensures forall env :: Eval(r, env) == VBool(Eval(e1, env) == Eval(e2, env))
    ensures e1.EMakeRecord? && e2.EMakeRecord? && SameRecordShape(e1.fields, e2.fields) ==>
      r == EqualFields(e1.fields, e2.fields)
    ensures !(e1.EMakeRecord? && e2.EMakeRecord? && SameRecordShape(e1.fields, e2.fields)) ==>
      r == EEq(e1, e2)
    decreases Size(e1), 0
  {
    if e1.EMakeRecord? && e2.EMakeRecord? && SameRecordShape(e1.fields, e2.fields) then
      var r := EqualFields(e1.fields, e2.fields);
      forall env ensures Eval(r, env) == VBool(Eval(e1, env) == Eval(e2, env)) {
        RecordEquality(e1.fields, e2.fields, env);
      }
      r
    else
      EEq(e1, e2)
  }

  /** The conjunction of the field-wise equality tests, in field order. */
  function EqualFields(fs1: seq<Field>, fs2: seq<Field>): (r: Exp)
    requires |fs1| == |fs2|
    ensures forall env :: Eval(r, env) == VBool(FieldsAgree(fs1, fs2, env))
    decreases SizeFields(fs1), 1
  {
    if fs1 == [] then T
    else
      var a := Equal(fs1[0].val, fs2[0].val);
      var b := EqualFields(fs1[1..], fs2[1..]);
      forall env ensures Eval(EAll2(a, b), env) == VBool(FieldsAgree(fs1, fs2, env)) {
        FieldsSplit(fs1, fs2, env);
        EAll2Bool(a, b, env);
      }
      EAll2(a, b)
  }

  /** Corresponding fields of two field sequences have equal values. */
  predicate FieldsAgree(fs1: seq<Field>, fs2: seq<Field>, env: Env)
    requires |fs1| == |fs2|
  {
    forall i :: 0 <= i < |fs1| ==> Eval(fs1[i].val, env) == Eval(fs2[i].val, env)
  }

  /** The conjunction of two formulas that denote booleans denotes their conjunction. */
  lemma EAll2Bool(a: Exp, b: Exp, env: Env)
    requires Eval(a, env).VBool? && Eval(b, env).VBool?
    ensures Eval(EAll2(a, b), env) == VBool(Eval(a, env).b && Eval(b, env).b)
  {
    if a == T {
      TrueRead(env);
      assert EAll2(a, b) == b;
    } else if b == T {
      TrueRead(env);
      assert EAll2(a, b) == a;
    } else {
      AndRead(a, b, env);
    }
  }

  lemma AndRead(a: Exp, b: Exp, env: Env)
    requires Eval(a, env).VBool? && Eval(b, env).VBool?
    requires a != T && b != T
    ensures Eval(EAll2(a, b), env) == VBool(Eval(a, env).b && Eval(b, env).b)
  {
    assert EAll2(a, b) == EBinary(a, BAnd, b);
    EvalBinary(a, BAnd, b, env);
  }

  lemma TrueRead(env: Env)
    ensures Eval(T, env) == VBool(true)
  {
  }

  /** Record literals with the same names in the same order are equal exactly when their fields are. */
  lemma RecordEquality(fs1: seq<Field>, fs2: seq<Field>, env: Env)
    requires SameRecordShape(fs1, fs2)
    ensures Eval(EMakeRecord(fs1), env) == Eval(EMakeRecord(fs2), env) <==> FieldsAgree(fs1, fs2, env)
  {
    var v1, v2 := Eval(EMakeRecord(fs1), env), Eval(EMakeRecord(fs2), env);
    assert |fs1| == |FieldNames(fs1)| == |FieldNames(fs2)| == |fs2|;
    if forall i :: 0 <= i < |fs1| ==> Eval(fs1[i].val, env) == Eval(fs2[i].val, env) {
      forall i | 0 <= i < |fs1| ensures v1.fields[i] == v2.fields[i] {
        assert FieldNames(fs1)[i] == FieldNames(fs2)[i];
      }
      assert v1.fields == v2.fields;
    }
    if v1 == v2 {
      forall i | 0 <= i < |fs1| ensures Eval(fs1[i].val, env) == Eval(fs2[i].val, env) {
        assert v1.fields[i] == v2.fields[i];
      }
    }
  }

  /** A field sequence agrees everywhere when its head and its tail do. */
  lemma FieldsSplit(fs1: seq<Field>, fs2: seq<Field>, env: Env)
    requires |fs1| == |fs2| > 0
    ensures FieldsAgree(fs1, fs2, env) <==>
      Eval(fs1[0].val, env) == Eval(fs2[0].val, env) && FieldsAgree(fs1[1..], fs2[1..], env)
  {
    if Eval(fs1[0].val, env) == Eval(fs2[0].val, env)
      && forall i :: 0 <= i < |fs1| - 1 ==> Eval(fs1[1..][i].val, env) == Eval(fs2[1..][i].val, env)
    {
      forall i | 0 <= i < |fs1| ensures Eval(fs1[i].val, env) == Eval(fs2[i].val, env) {
        if i > 0 {
          assert fs1[1..][i - 1] == fs1[i] && fs2[1..][i - 1] == fs2[i];
        }
      }
    }
  }

  predicate IsIdentity(l: Lambda) { l.body.EVar? && l.body.id == l.x }

  /** `is_empty(e)`: true only for evidently empty bags; it never answers false. */
  function IsEmpty(e: Exp): (r: Tri)
    ensures r != TFalse
  {
    match e
    case EEmpty(_) => TTrue
    case EMap(a, _) => IsEmpty(a)
    case EFilter(a, _) => IsEmpty(a)
    case EUnary(UDistinct, a) => IsEmpty(a)
    case _ => Maybe
  }

  /** `is_singleton(e)`: true only for evident one-element bags; never false. */
  function IsSingleton(e: Exp): (r: Tri)
    ensures r != TFalse
  {
    match e
    case ESingleton(_) => TTrue
    case EMap(a, _) => IsSingleton(a)
    case EUnary(UDistinct, a) => IsSingleton(a)
    case _ => Maybe
  }

  /** `singleton_or_empty(e)`: whether `e` has at most one element. */
  function SingletonOrEmpty(e: Exp): Tri
  {
    match e
    case EEmpty(_) => TTrue
    case ESingleton(_) => TTrue
    case EStateVar(a) => SingletonOrEmpty(a)
    case EMap(a, _) => SingletonOrEmpty(a)
    case EFilter(a, _) => SingletonOrEmpty(a)
    case EFlatMap(a, l) => Both(SingletonOrEmpty(a), SingletonOrEmpty(l.body))
    case EUnary(UDistinct, a) => SingletonOrEmpty(a)
    case ECond(_, t, f) =>
      var tc, fc := SingletonOrEmpty(t), SingletonOrEmpty(f);
      if Definitely(tc) && Definitely(fc) then TTrue
      else if Possibly(tc) || Possibly(fc) then Maybe
      else TFalse
    case _ => Maybe
  }

  /** `are_unique(xs)`: whether `xs` evidently has no duplicates; never false. */
  function AreUnique(e: Exp): (r: Tri)
    ensures r != TFalse
  {
    match e
    case EEmpty(_) => TTrue
    case ESingleton(_) => TTrue
    case EUnary(UDistinct, _) => TTrue
    case _ => Maybe
  }

  lemma {:induction false} IsEmptySound(e: Exp, env: Env)
    requires IsEmpty(e) == TTrue
    ensures BagOf(Eval(e, env)) == []
  {
    match e
    case EEmpty(_) =>
    case EMap(a, _) => IsEmptySound(a, env);
    case EFilter(a, _) => IsEmptySound(a, env);
    case EUnary(UDistinct, a) => IsEmptySound(a, env);
  }

  lemma {:induction false} IsSingletonSound(e: Exp, env: Env)
    requires IsSingleton(e) == TTrue
    ensures |BagOf(Eval(e, env))| == 1
  {
    match e
    case ESingleton(_) =>
    case EMap(a, _) => IsSingletonSound(a, env);
    case EUnary(UDistinct, a) =>
      IsSingletonSound(a, env);
      DedupSmall(BagOf(Eval(a, env)));
  }

  lemma {:induction false} SingletonOrEmptySound(e: Exp, env: Env)
    requires SingletonOrEmpty(e) == TTrue
    ensures |BagOf(Eval(e, env))| <= 1
  {
    match e
    case EEmpty(_) =>
    case ESingleton(_) =>
    case EStateVar(a) => SingletonOrEmptySound(a, env);
    case EMap(a, _) => SingletonOrEmptySound(a, env);
    case EFilter(a, _) => SingletonOrEmptySound(a, env);
    case EFlatMap(a, l) =>
      SingletonOrEmptySound(a, env);
      var s := BagOf(Eval(a, env));
      if |s| == 1 {
        SingletonOrEmptySound(l.body, Bind(env, l.x, s[0]));
        assert FlatMapVals(l, env, s) == BagOf(EvalLambda(l, env, s[0])) + FlatMapVals(l, env, []);
      }
    case EUnary(UDistinct, a) =>
      SingletonOrEmptySound(a, env);
      DedupSmall(BagOf(Eval(a, env)));
    case ECond(_, t, f) => SingletonOrEmptySound(t, env); SingletonOrEmptySound(f, env);
  }

  lemma AreUniqueSound(e: Exp, env: Env)
    requires AreUnique(e) == TTrue
    ensures NoDup(BagOf(Eval(e, env)))
  {
  }

  /** `edistinct(e)`: the distinct elements of `e`, skipping the operator when at most one exists. */
  function EDistinct(e: Exp): Exp
  {
    if Definitely(SingletonOrEmpty(e)) then e else EUnary(UDistinct, e)
  }

  lemma EDistinctSound(e: Exp, env: Env)
    ensures BagOf(Eval(EDistinct(e), env)) == Dedup(BagOf(Eval(e, env)))
  {
    if Definitely(SingletonOrEmpty(e)) {
      SingletonOrEmptySound(e, env);
      DedupSmall(BagOf(Eval(e, env)));
    }
  }

  /**
   * `exists(e)`: a formula that is true exactly when `e` is non-empty.
   * The source asserts that `e` has a collection type; `None` is that
   * assertion failing.
   */
  function ExistsExp(e: Exp): Option<Exp>
  {
    if !IsCollection(TypeOf(e)) then None
    else if Definitely(IsEmpty(e)) then Some(F)
    else if Definitely(IsSingleton(e)) then Some(T)
    else if e.EBinary? && e.bop == BPlus then
      match (ExistsExp(e.e1), ExistsExp(e.e2))
      case (Some(a), Some(b)) => Some(EAny2(a, b))
      case _ => None
    else if e.ECond? then
      match (ExistsExp(e.thenE), ExistsExp(e.elseE))
      case (Some(a), Some(b)) => Some(Cond(e.cond, a, b))
      case _ => None
    else Some(EUnary(UExists, e))
  }

  lemma {:induction false} ExistsSound(e: Exp, env: Env)
    requires ExistsExp(e).Some?
    ensures Eval(ExistsExp(e).value, env) == VBool(|BagOf(Eval(e, env))| > 0)
  {
    if Definitely(IsEmpty(e)) {
      IsEmptySound(e, env);
    } else if Definitely(IsSingleton(e)) {
      IsSingletonSound(e, env);
    } else if e.EBinary? && e.bop == BPlus {
      var a, b := ExistsExp(e.e1).value, ExistsExp(e.e2).value;
      ExistsSound(e.e1, env);
      ExistsSound(e.e2, env);
      assert ExistsExp(e).value == EAny2(a, b);
      ExistsPlusStep(e.e1, e.e2, a, b, env);
    } else if e.ECond? {
      var a, b := ExistsExp(e.thenE).value, ExistsExp(e.elseE).value;
      ExistsSound(e.thenE, env);
      ExistsSound(e.elseE, env);
      assert ExistsExp(e).value == Cond(e.cond, a, b);
      ExistsCondStep(e.cond, e.thenE, e.elseE, a, b, env);
    } else {
      assert ExistsExp(e).value == EUnary(UExists, e);
    }
  }

  lemma ExistsCondStep(c: Exp, e1: Exp, e2: Exp, a: Exp, b: Exp, env: Env)
    requires Eval(a, env) == VBool(|BagOf(Eval(e1, env))| > 0)
    requires Eval(b, env) == VBool(|BagOf(Eval(e2, env))| > 0)
    ensures Eval(Cond(c, a, b), env) == VBool(|BagOf(Eval(ECond(c, e1, e2), env))| > 0)
  {
    CondSound(c, a, b, env);
  }

  lemma ExistsPlusStep(e1: Exp, e2: Exp, a: Exp, b: Exp, env: Env)
    requires Eval(a, env) == VBool(|BagOf(Eval(e1, env))| > 0)
    requires Eval(b, env) == VBool(|BagOf(Eval(e2, env))| > 0)
    ensures Eval(EAny2(a, b), env) == VBool(|BagOf(Eval(EBinary(e1, BPlus, e2), env))| > 0)
  {
    var v1, v2 := Eval(e1, env), Eval(e2, env);
    BagOfAdd(v1, v2);
    EvalBinary(e1, BPlus, e2, env);
    AnyOfBools(a, b, env);
  }

  /** The disjunction of two formulas that evaluate to booleans. */
  lemma AnyOfBools(a: Exp, b: Exp, env: Env)
    requires Eval(a, env).VBool? && Eval(b, env).VBool?
    ensures Eval(EAny2(a, b), env) == VBool(Truthy(Eval(a, env)) || Truthy(Eval(b, env)))
  {
    if a == F || b == F {
      AnyOfFalse(a, b, env);
    } else {
      AnyOfOr(a, b, env);
    }
  }

  lemma AnyOfOr(a: Exp, b: Exp, env: Env)
    requires a != F && b != F
    ensures Eval(EAny2(a, b), env) == VBool(Truthy(Eval(a, env)) || Truthy(Eval(b, env)))
  {
    assert EAny2(a, b) == EBinary(a, BOr, b);
    EvalBinary(a, BOr, b, env);
  }

  lemma AnyOfFalse(a: Exp, b: Exp, env: Env)
    requires Eval(a, env).VBool? && Eval(b, env).VBool?
    requires a == F || b == F
    ensures Eval(EAny2(a, b), env) == VBool(Truthy(Eval(a, env)) || Truthy(Eval(b, env)))
  {
    if a == F {
      assert !Truthy(Eval(a, env));
    } else {
      assert !Truthy(Eval(b, env));
    }
  }

  /** `len_of(e)`: an expression for the number of elements of `e`. */
  function LenOf(e: Exp): Option<Exp>
  {
    if Definitely(SingletonOrEmpty(e)) then
      match ExistsExp(e)
      case Some(x) => Some(Cond(x, ONE, ZERO))
      case None => None
    else if e.EMap? then LenOf(e.e)
    else if e.ECond? then
      match (LenOf(e.thenE), LenOf(e.elseE))
      case (Some(a), Some(b)) => Some(Cond(e.cond, a, b))
      case _ => None
    else Some(EUnary(ULength, e))
  }

  lemma {:induction false} LenOfSound(e: Exp, env: Env)
    requires LenOf(e).Some?
    ensures Eval(LenOf(e).value, env) == VInt(|BagOf(Eval(e, env))|)
  {
    if Definitely(SingletonOrEmpty(e)) {
      LenOfSmall(e, env);
    } else if e.EMap? {
      LenOfSound(e.e, env);
    } else if e.ECond? {
      LenOfSound(e.thenE, env);
      LenOfSound(e.elseE, env);
      CondSound(e.cond, LenOf(e.thenE).value, LenOf(e.elseE).value, env);
    }
  }

  /** A bag with at most one element has length 1 exactly when it exists. */
  lemma LenOfSmall(e: Exp, env: Env)
    requires Definitely(SingletonOrEmpty(e)) && LenOf(e).Some?
    ensures Eval(LenOf(e).value, env) == VInt(|BagOf(Eval(e, env))|)
  {
    SingletonOrEmptySound(e, env);
    ExistsSound(e, env);
    CondSound(ExistsExp(e).value, ONE, ZERO, env);
  }

  /** `implies(e1, e2)`: an implication, folded when either side is a literal. */
  function Implies(e1: Exp, e2: Exp): Exp
  {
    if e1 == T then e2
    else if e1 == F then T
    else if e2 == T then T
    else if e2 == F then ENot(e1)
    else EImplies(e1, e2)
  }

  lemma ImpliesSound(e1: Exp, e2: Exp, env: Env)
    ensures Truthy(Eval(Implies(e1, e2), env)) <==> (Truthy(Eval(e1, env)) ==> Truthy(Eval(e2, env)))
  {
    if e1 == T || e1 == F {
      ImpliesLiteralLeft(e1, e2, env);
    } else if e2 == T || e2 == F {
      ImpliesLiteralRight(e1, e2, env);
    } else {
      assert Implies(e1, e2) == EImplies(e1, e2);
      assert Eval(EImplies(e1, e2), env) == VBool(!Truthy(Eval(e1, env)) || Truthy(Eval(e2, env)));
    }
  }

  lemma ImpliesLiteralLeft(e1: Exp, e2: Exp, env: Env)
    requires e1 == T || e1 == F
    ensures Truthy(Eval(Implies(e1, e2), env)) <==> (Truthy(Eval(e1, env)) ==> Truthy(Eval(e2, env)))
  {
    if e1 == F {
      assert !Truthy(Eval(e1, env));
    }
  }

  lemma ImpliesLiteralRight(e1: Exp, e2: Exp, env: Env)
    requires e1 != T && e1 != F && (e2 == T || e2 == F)
    ensures Truthy(Eval(Implies(e1, e2), env)) <==> (Truthy(Eval(e1, env)) ==> Truthy(Eval(e2, env)))
  {
    if e2 == T {
      assert Truthy(Eval(e2, env));
    } else {
      assert Eval(ENot(e1), env) == VBool(!Truthy(Eval(e1, env)));
    }
  }

  /**
   * `element_of(x, xs)`: whether `x` is evidently in `xs`. It can only
   * ever answer false or MAYBE: a `the` element is "in" only when
   * `invert(is_empty(...))` is true, which never happens.
   */
  function ElementOf(x: Exp, xs: Exp): (r: Tri)
    ensures r != TTrue
    decreases Size(x) + Size(xs), 1
  {
    if xs.EFilter? then ElementOf(x, xs.e)
    else if xs.EEmpty? then TFalse
    else if x.EUnary? && x.uop == UThe then Both(SubsetOf(x.e, xs), Invert(IsEmpty(x.e)))
    else Maybe
  }

  /** `subset_of(xs, ys)`: whether `xs` is evidently a sub-bag of `ys`. */
  function SubsetOf(xs: Exp, ys: Exp): Tri
    decreases Size(xs) + Size(ys), 0
  {
    if xs == ys then TTrue
    else if xs.EEmpty? then TTrue
    else if xs.ECond? then
      var s1, s2 := SubsetOf(xs.thenE, ys), SubsetOf(xs.elseE, ys);
      if Definitely(s1) && Definitely(s2) then TTrue
      else if Possibly(s1) && Possibly(s2) then Maybe
      else TFalse
    else if xs.ESingleton? then ElementOf(xs.e, ys)
    else if xs.EFilter? then SubsetOf(xs.e, ys)
    else if xs.EMap? && IsIdentity(xs.f) then SubsetOf(xs.e, ys)
    else if ys.EMap? && IsIdentity(ys.f) then SubsetOf(xs, ys.e)
    else Maybe
  }

  /** A definite "subset" answer is right in every environment. */
  lemma {:induction false} SubsetOfSound(xs: Exp, ys: Exp, env: Env)
    requires SubsetOf(xs, ys) == TTrue
    ensures multiset(BagOf(Eval(xs, env))) <= multiset(BagOf(Eval(ys, env)))
    decreases Size(xs) + Size(ys), 1
  {
    if xs == ys {
    } else if xs.EEmpty? {
    } else if xs.ECond? {
      SubsetOfSound(xs.thenE, ys, env);
      SubsetOfSound(xs.elseE, ys, env);
    } else {
      SubsetOfSoundRest(xs, ys, env);
    }
  }

  /** The cases of `SubsetOfSound` that look through a filter or an identity map. */
  lemma {:induction false} SubsetOfSoundRest(xs: Exp, ys: Exp, env: Env)
    requires SubsetOf(xs, ys) == TTrue && xs != ys && !xs.EEmpty? && !xs.ECond?
    ensures multiset(BagOf(Eval(xs, env))) <= multiset(BagOf(Eval(ys, env)))
    decreases Size(xs) + Size(ys), 0
  {
    if xs.ESingleton? {
      assert false;
    } else if xs.EFilter? {
      SubsetOfSound(xs.e, ys, env);
      FilterValsSubBag(xs.f, env, BagOf(Eval(xs.e, env)));
    } else if xs.EMap? && IsIdentity(xs.f) {
      SubsetOfSound(xs.e, ys, env);
      MapValsIdentity(xs.f, env, BagOf(Eval(xs.e, env)));
    } else if ys.EMap? && IsIdentity(ys.f) {
      SubsetOfSound(xs, ys.e, env);
      MapValsIdentity(ys.f, env, BagOf(Eval(ys.e, env)));
    }
  }
}
