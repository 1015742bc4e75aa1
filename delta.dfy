/**
 * `bag_delta(e, s)`: for a bag expression `e` and an update `s`, the bag of
 * elements `s` adds to `e` and the bag it removes, so that maintaining `e`
 * needs only those two bags. Modelled on the structural cases: state
 * variables, unions, differences, the empty bag, conditionals whose
 * condition the update leaves alone, and variables.
 *
 * The intended contract is the one the disabled run-time check states:
 * the removed elements are among `e`'s, and `e - removed + added` has the
 * elements of `mutate(e, s)`. Two cases of the original break it; the
 * walk below takes a flag that selects either the original rules or the
 * corrected ones, and the soundness theorem is proved for the corrected.
 */
module Delta {
  import opened Syntax
  import opened Semantics
  import opened Forks
  import opened Shapes
  import opened Bags
  import opened Mutation

  /**
   * What `bag_delta` produces: the added and removed bags, the condition of
   * a `fork` the caller must split on, or an error.
   */
  datatype DeltaResult = Found(added: Exp, removed: Exp) | Split(cond: Exp) | Failed(err: Error)

  /** The delta of `a + b`: the two deltas united pairwise. */
  function UnionDelta(a: DeltaResult, b: DeltaResult): DeltaResult
  {
    if !a.Found? then a
    else if !b.Found? then b
    else Found(BagUnion(a.added, b.added), BagUnion(a.removed, b.removed))
  }

  /** The delta of `a - b` as the original writes it: `(added_a + removed_b, removed_a + added_b)`. */
  function DiffDeltaAsWritten(a: DeltaResult, b: DeltaResult): DeltaResult
  {
    if !a.Found? then a
    else if !b.Found? then b
    else Found(BagUnion(a.added, b.removed), BagUnion(a.removed, b.added))
  }

  /**
   * The delta of `a - b`, corrected: the same two bags with their common
   * elements cancelled, so that an element added to both operands is
   * reported neither added nor removed.
   */
  function DiffDelta(a: DeltaResult, b: DeltaResult): DeltaResult
  {
    if !a.Found? then a
    else if !b.Found? then b
    else
      var up := BagUnion(a.added, b.removed);
      var down := BagUnion(a.removed, b.added);
      Found(EBinary(up, BMinus, down), EBinary(down, BMinus, up))
  }

  /** The delta of a conditional whose condition the update does not change. */
  function CondDelta(c: Exp, a: DeltaResult, b: DeltaResult): DeltaResult
  {
    if !a.Found? then a
    else if !b.Found? then b
    else Found(Cond(c, a.added, b.added), Cond(c, a.removed, b.removed))
  }

  /** `new - e` and `e - new` by `bag_subtract`, the variable case's fallback. */
  function Subtracted(fork: ForkFn, e: Exp, m: Exp): DeltaResult
    requires ForkPicks(fork)
  {
    match BagSubtract(fork, m, e)
    case NeedsSplit(k) => Split(k)
    case Resolved(up) =>
      match BagSubtract(fork, e, m)
      case NeedsSplit(k) => Split(k)
      case Resolved(down) => Found(up, down)
  }

  /** A mutated form `(e - d) + n`. */
  predicate RemoveThenAdd(e: Exp, m: Exp)
  {
    m.EBinary? && m.bop == BPlus && m.e1.EBinary? && m.e1.bop == BMinus && m.e1.e1 == e
  }

  /**
   * The delta of a variable `e` whose mutated form is `m`. A form
   * `(e - d) + n` gives `n` added; the original reports `d` removed, the
   * corrected rule only the part of `d` that is in `e`. A form `e + n`
   * gives `n` added and nothing removed. Any other form falls back to the
   * two differences.
   */
  function VarDelta(fork: ForkFn, e: Exp, m: Exp, corrected: bool): DeltaResult
    requires ForkPicks(fork)
  {
    if RemoveThenAdd(e, m) then
      Found(m.e2, if corrected then EBinary(m.e1.e2, BIntersect, e) else m.e1.e2)
    else if m.EBinary? && m.bop == BPlus && m.e1 == e then Found(m.e2, EEmpty(TypeOf(e)))
    else Subtracted(fork, e, m)
  }

  /** The case analysis of `bag_delta`, with the original rules or the corrected ones. */
  function Walk(fork: ForkFn, e: Exp, s: Stm, corrected: bool): DeltaResult
    requires ForkPicks(fork)
    decreases e
  {
    match e
    case EStateVar(x) => Walk(fork, x, s, corrected)
    case EMap(_, _) => Failed(Unsupported)
    case EFilter(_, _) => Failed(Unsupported)
    case EFlatMap(_, _) => Failed(Unsupported)
    case EBinary(a, BPlus, b) => UnionDelta(Walk(fork, a, s, corrected), Walk(fork, b, s, corrected))
    case EBinary(a, BMinus, b) =>
      var da, db := Walk(fork, a, s, corrected), Walk(fork, b, s, corrected);
      if corrected then DiffDelta(da, db) else DiffDeltaAsWritten(da, db)
    case EUnary(UDistinct, _) => Failed(Unsupported)
    case ESingleton(_) => Failed(Unsupported)
    case EEmpty(_) => Found(EEmpty(TypeOf(e)), EEmpty(TypeOf(e)))
    case ECond(c, t, f) =>
      (match Mutate(c, s)
       case Err(err) => Failed(err)
       case Ok(c') =>
         if c' == c then CondDelta(c, Walk(fork, t, s, corrected), Walk(fork, f, s, corrected))
         else Failed(Unsupported))
    case EVar(_, _) =>
      (match Mutate(e, s)
       case Err(err) => Failed(err)
       case Ok(m) => VarDelta(fork, e, m, corrected))
    case _ => Failed(Unsupported)
  }

  /** `bag_delta` as the original writes it. */
  function BagDeltaAsWritten(fork: ForkFn, e: Exp, s: Stm): DeltaResult
    requires ForkPicks(fork)
  {
    Walk(fork, e, s, false)
  }

  /** `bag_delta` with the difference and variable cases corrected. */
  function BagDelta(fork: ForkFn, e: Exp, s: Stm): DeltaResult
    requires ForkPicks(fork)
  {
    Walk(fork, e, s, true)
  }

  // ---------------------------------------------------------------------
  // The intended contract

  /**
   * A delta is right for `e` between the environments before and after
   * the update: what it removes is in `e`, and taking it away and adding
   * what it adds gives `e`'s contents afterwards.
   */
  ghost predicate DeltaOk(e: Exp, d: DeltaResult, env: Env, env': Env)
    requires d.Found?
  {
    Contents(d.removed, env) <= Contents(e, env)
    && Contents(e, env) - Contents(d.removed, env) + Contents(d.added, env) == Contents(e, env')
  }

  /**
   * What the soundness theorem assumes of `e`: every difference in it
   * subtracts a sub-bag of its left operand, before and after the update
   * (the assumption the original states in a comment), and no lambda in a
   * variable's mutated form binds one of its free variables.
   */
  ghost predicate DeltaHyp(e: Exp, s: Stm, env: Env, env': Env)
    decreases e
  {
    match e
    case EStateVar(x) => DeltaHyp(x, s, env, env')
    case EBinary(a, op, b) =>
      DeltaHyp(a, s, env, env') && DeltaHyp(b, s, env, env')
      && (op == BMinus ==> Contents(b, env) <= Contents(a, env) && Contents(b, env') <= Contents(a, env'))
    case ECond(_, t, f) => DeltaHyp(t, s, env, env') && DeltaHyp(f, s, env, env')
    case EVar(_, _) => Mutate(e, s).Ok? ==> Apart(Mutate(e, s).value, e) && Apart(e, Mutate(e, s).value)
    case _ => true
  }

  /** Everything the soundness theorem and its cases assume. */
  ghost predicate SoundHyp(fork: ForkFn, e: Exp, s: Stm, env: Env)
  {
    ForkPicks(fork) && ForkSoundIn(fork, env) && Exec(s, env).Some? && Hygienic(e, s) && WritesNoHandle(s)
    && DeltaHyp(e, s, env, Exec(s, env).value) && BagDelta(fork, e, s).Found?
  }

  /**
   * The corrected `bag_delta` meets the intended contract on every input
   * it resolves.
   */
  lemma {:induction false} BagDeltaSound(fork: ForkFn, e: Exp, s: Stm, env: Env)
    requires SoundHyp(fork, e, s, env)
    ensures DeltaOk(e, BagDelta(fork, e, s), env, Exec(s, env).value)
    decreases e, 1
  {
    match e
    case EStateVar(x) =>
      SoundPart(fork, x, e, s, env);
      BagDeltaSound(fork, x, s, env);
    case EBinary(a, op, b) =>
      if op == BPlus {
        UnionSound(fork, e, s, env);
      } else {
        DiffSound(fork, e, s, env);
      }
    case EEmpty(t) =>
      EmptyElems(t, env);
      EmptyElems(t, Exec(s, env).value);
    case ECond(_, _, _) => CondSoundCase(fork, e, s, env);
    case EVar(_, _) => VarSound(fork, e, s, env);
    case _ => assert false;
  }

  /** The hypotheses pass to an operand. */
  lemma SoundPart(fork: ForkFn, a: Exp, e: Exp, s: Stm, env: Env)
    requires SoundHyp(fork, e, s, env)
    requires BV(a) <= BV(e) && DeltaHyp(a, s, env, Exec(s, env).value) && BagDelta(fork, a, s).Found?
    ensures SoundHyp(fork, a, s, env)
  {
    WritesNoHandleTyped(a, s);
  }

  lemma UnionAlgebra(a: multiset<Val>, b: multiset<Val>, da: multiset<Val>, db: multiset<Val>, na: multiset<Val>, nb: multiset<Val>)
    requires da <= a && db <= b
    ensures da + db <= a + b
    ensures a + b - (da + db) + (na + nb) == (a - da + na) + (b - db + nb)
  {
    assert forall x :: (a + b - (da + db) + (na + nb))[x] == ((a - da + na) + (b - db + nb))[x];
  }

  lemma {:induction false} UnionSound(fork: ForkFn, e: Exp, s: Stm, env: Env)
    requires SoundHyp(fork, e, s, env) && IsPlus(e)
    ensures DeltaOk(e, BagDelta(fork, e, s), env, Exec(s, env).value)
    decreases e, 0
  {
    var env' := Exec(s, env).value;
    var a, b := e.e1, e.e2;
    var da, db := BagDelta(fork, a, s), BagDelta(fork, b, s);
    assert BagDelta(fork, e, s) == UnionDelta(da, db);
    SoundPart(fork, a, e, s, env);
    SoundPart(fork, b, e, s, env);
    BagDeltaSound(fork, a, s, env);
    BagDeltaSound(fork, b, s, env);
    BagUnionSound(da.added, db.added, env);
    BagUnionSound(da.removed, db.removed, env);
    PlusElems(a, b, env);
    PlusElems(a, b, env');
    UnionAlgebra(Contents(a, env), Contents(b, env), Contents(da.removed, env), Contents(db.removed, env),
      Contents(da.added, env), Contents(db.added, env));
  }

  /**
   * Under the sub-bag assumptions, `a - b` changes by the difference of
   * `added_a + removed_b` and `removed_a + added_b`, whichever way it goes.
   */
  lemma DiffAlgebra(a: multiset<Val>, b: multiset<Val>, a': multiset<Val>, b': multiset<Val>,
                    da: multiset<Val>, db: multiset<Val>, na: multiset<Val>, nb: multiset<Val>)
    requires da <= a && db <= b && b <= a && b' <= a'
    requires a - da + na == a' && b - db + nb == b'
    ensures (da + nb) - (na + db) <= a - b
    ensures a - b - ((da + nb) - (na + db)) + ((na + db) - (da + nb)) == a' - b'
  {
    forall x
      ensures ((da + nb) - (na + db))[x] <= (a - b)[x]
      ensures (a - b - ((da + nb) - (na + db)) + ((na + db) - (da + nb)))[x] == (a' - b')[x]
    {
      assert a'[x] == a[x] - da[x] + na[x];
      assert b'[x] == b[x] - db[x] + nb[x];
    }
  }

  lemma {:induction false} DiffSound(fork: ForkFn, e: Exp, s: Stm, env: Env)
    requires SoundHyp(fork, e, s, env) && e.EBinary? && e.bop != BPlus
    ensures DeltaOk(e, BagDelta(fork, e, s), env, Exec(s, env).value)
    decreases e, 0
  {
    var env' := Exec(s, env).value;
    var a, b := e.e1, e.e2;
    assert e.bop == BMinus;
    var da, db := BagDelta(fork, a, s), BagDelta(fork, b, s);
    assert BagDelta(fork, e, s) == DiffDelta(da, db);
    SoundPart(fork, a, e, s, env);
    SoundPart(fork, b, e, s, env);
    BagDeltaSound(fork, a, s, env);
    BagDeltaSound(fork, b, s, env);
    var up := BagUnion(da.added, db.removed);
    var down := BagUnion(da.removed, db.added);
    BagUnionSound(da.added, db.removed, env);
    BagUnionSound(da.removed, db.added, env);
    MinusElems(up, down, env);
    MinusElems(down, up, env);
    MinusElems(a, b, env);
    MinusElems(a, b, env');
    DiffAlgebra(Contents(a, env), Contents(b, env), Contents(a, env'), Contents(b, env'),
      Contents(da.removed, env), Contents(db.removed, env), Contents(da.added, env), Contents(db.added, env));
  }

  lemma {:induction false} CondSoundCase(fork: ForkFn, e: Exp, s: Stm, env: Env)
    requires SoundHyp(fork, e, s, env) && e.ECond?
    ensures DeltaOk(e, BagDelta(fork, e, s), env, Exec(s, env).value)
    decreases e, 0
  {
    var env' := Exec(s, env).value;
    var c, t, f := e.cond, e.thenE, e.elseE;
    assert Mutate(c, s) == Ok(c);
    var dt, df := BagDelta(fork, t, s), BagDelta(fork, f, s);
    assert BagDelta(fork, e, s) == CondDelta(c, dt, df);
    assert Hygienic(c, s) by { assert BV(c) <= BV(e); WritesNoHandleTyped(c, s); }
    MutateSound(c, s, env);
    CondSound(c, dt.added, df.added, env);
    CondSound(c, dt.removed, df.removed, env);
    if Truthy(Eval(c, env)) {
      SoundPart(fork, t, e, s, env);
      BagDeltaSound(fork, t, s, env);
    } else {
      SoundPart(fork, f, e, s, env);
      BagDeltaSound(fork, f, s, env);
    }
  }

  lemma VarAlgebra(e: multiset<Val>, m: multiset<Val>)
    ensures e - (e - m) <= e
    ensures e - (e - m) + (m - e) == m
  {
    assert forall x :: (e - (e - m) + (m - e))[x] == m[x];
  }

  lemma PatternAlgebra(e: multiset<Val>, d: multiset<Val>)
    ensures d * e <= e
    ensures e - d * e == e - d
  {
    assert forall x :: (e - d * e)[x] == (e - d)[x];
  }

  lemma {:induction false} VarSound(fork: ForkFn, e: Exp, s: Stm, env: Env)
    requires SoundHyp(fork, e, s, env) && e.EVar?
    ensures DeltaOk(e, BagDelta(fork, e, s), env, Exec(s, env).value)
    decreases e, 0
  {
    var m := Mutate(e, s).value;
    assert BagDelta(fork, e, s) == VarDelta(fork, e, m, true);
    MutateSound(e, s, env);
    VarDeltaSound(fork, e, m, env, Exec(s, env).value);
  }

  /** The variable case, given that `m` evaluates before the update as `e` does after it. */
  lemma VarDeltaSound(fork: ForkFn, e: Exp, m: Exp, env: Env, env': Env)
    requires ForkPicks(fork) && ForkSoundIn(fork, env) && Apart(m, e) && Apart(e, m)
    requires VarDelta(fork, e, m, true).Found? && Eval(m, env) == Eval(e, env')
    ensures DeltaOk(e, VarDelta(fork, e, m, true), env, env')
  {
    var d := VarDelta(fork, e, m, true);
    assert Contents(m, env) == Contents(e, env');
    if RemoveThenAdd(e, m) {
      assert d == Found(m.e2, EBinary(m.e1.e2, BIntersect, e));
      PatternSound(e, m, env);
    } else {
      VarDeltaRest(fork, e, m, env, env');
    }
  }

  /** The variable case when the new value is not `(e - x) + y`. */
  lemma VarDeltaRest(fork: ForkFn, e: Exp, m: Exp, env: Env, env': Env)
    requires ForkPicks(fork) && ForkSoundIn(fork, env) && Apart(m, e) && Apart(e, m)
    requires VarDelta(fork, e, m, true).Found? && Eval(m, env) == Eval(e, env')
    requires !RemoveThenAdd(e, m)
    ensures DeltaOk(e, VarDelta(fork, e, m, true), env, env')
  {
    var d := VarDelta(fork, e, m, true);
    assert Contents(m, env) == Contents(e, env');
    if m.EBinary? && m.bop == BPlus && m.e1 == e {
      assert d == Found(m.e2, EEmpty(TypeOf(e)));
      AddOnlySound(e, m, env);
    } else {
      assert d == Subtracted(fork, e, m);
      SubtractedSound(fork, e, m, env);
    }
  }

  lemma AddOnlySound(e: Exp, m: Exp, env: Env)
    requires m.EBinary? && m.bop == BPlus && m.e1 == e
    ensures Contents(EEmpty(TypeOf(e)), env) <= Contents(e, env)
    ensures Contents(e, env) - Contents(EEmpty(TypeOf(e)), env) + Contents(m.e2, env) == Contents(m, env)
  {
    PlusElems(e, m.e2, env);
    EmptyElems(TypeOf(e), env);
  }

  /** The fallback: `new - e` added and `e - new` removed. */
  lemma SubtractedSound(fork: ForkFn, e: Exp, m: Exp, env: Env)
    requires ForkPicks(fork) && ForkSoundIn(fork, env) && Apart(m, e) && Apart(e, m)
    requires Subtracted(fork, e, m).Found?
    ensures var d := Subtracted(fork, e, m);
      Contents(d.removed, env) <= Contents(e, env)
      && Contents(e, env) - Contents(d.removed, env) + Contents(d.added, env) == Contents(m, env)
  {
    BagSubtractSound(fork, m, e, env);
    BagSubtractSound(fork, e, m, env);
    VarAlgebra(Contents(e, env), Contents(m, env));
  }

  lemma PatternSound(e: Exp, m: Exp, env: Env)
    requires RemoveThenAdd(e, m)
    ensures var r := EBinary(m.e1.e2, BIntersect, e);
      Contents(r, env) <= Contents(e, env)
      && Contents(e, env) - Contents(r, env) + Contents(m.e2, env) == Contents(m, env)
  {
    PlusElems(m.e1, m.e2, env);
    MinusElems(e, m.e1.e2, env);
    InterElems(m.e1.e2, e, env);
    PatternAlgebra(Contents(e, env), Contents(m.e1.e2, env));
  }

  /**
   * The corrected delta agrees with `mutate`: evaluated before the update,
   * `e - removed + added` has the elements of `mutate(e, s)`.
   */
  lemma BagDeltaMatchesMutate(fork: ForkFn, e: Exp, s: Stm, env: Env)
    requires SoundHyp(fork, e, s, env) && Mutate(e, s).Ok?
    ensures var d := BagDelta(fork, e, s);
      Contents(e, env) - Contents(d.removed, env) + Contents(d.added, env) == Contents(Mutate(e, s).value, env)
  {
    BagDeltaSound(fork, e, s, env);
    MutateSound(e, s, env);
  }

  // ---------------------------------------------------------------------
  // Two inputs on which the original rules break the contract

  /** The steps of the walk and of `mutate` the examples below take. */
  lemma WalkVar(fork: ForkFn, e: Exp, s: Stm, corrected: bool)
    requires ForkPicks(fork) && e.EVar? && Mutate(e, s).Ok?
    ensures Walk(fork, e, s, corrected) == VarDelta(fork, e, Mutate(e, s).value, corrected)
  {
  }

  lemma WalkPlus(fork: ForkFn, a: Exp, b: Exp, s: Stm, corrected: bool)
    requires ForkPicks(fork)
    ensures Walk(fork, EBinary(a, BPlus, b), s, corrected) == UnionDelta(Walk(fork, a, s, corrected), Walk(fork, b, s, corrected))
  {
  }

  lemma WalkMinus(fork: ForkFn, a: Exp, b: Exp, s: Stm, corrected: bool)
    requires ForkPicks(fork)
    ensures var da, db := Walk(fork, a, s, corrected), Walk(fork, b, s, corrected);
      Walk(fork, EBinary(a, BMinus, b), s, corrected) == if corrected then DiffDelta(da, db) else DiffDeltaAsWritten(da, db)
  {
  }

  /** The empty bag gains and loses nothing; a state variable changes as the expression it holds. */
  lemma WalkLeaves(fork: ForkFn, t: Ty, x: Exp, s: Stm, corrected: bool)
    requires ForkPicks(fork)
    ensures Walk(fork, EEmpty(t), s, corrected) == Found(EEmpty(t), EEmpty(t))
    ensures Walk(fork, EStateVar(x), s, corrected) == Walk(fork, x, s, corrected)
  {
  }

  /**
   * A variable whose mutated form is `(e - d) + n` has `n` added and, as
   * written, `d` removed (corrected: `d ∩ e`); a form `e + n` has `n` added
   * and nothing removed.
   */
  lemma VarDeltaForms(fork: ForkFn, e: Exp, d: Exp, n: Exp)
    requires ForkPicks(fork) && e.EVar?
    ensures VarDelta(fork, e, EBinary(EBinary(e, BMinus, d), BPlus, n), false) == Found(n, d)
    ensures VarDelta(fork, e, EBinary(EBinary(e, BMinus, d), BPlus, n), true) == Found(n, EBinary(d, BIntersect, e))
    ensures VarDelta(fork, e, EBinary(e, BPlus, n), false) == Found(n, EEmpty(TypeOf(e)))
    ensures VarDelta(fork, e, EBinary(e, BPlus, n), true) == Found(n, EEmpty(TypeOf(e)))
  {
  }

  lemma MutateSeqStep(e: Exp, s1: Stm, s2: Stm)
    requires !s1.SSeq? && !s1.SDecl? && Mutate(e, s2).Ok?
    ensures Mutate(e, SSeq(s1, s2)) == Mutate(Mutate(e, s2).value, s1)
  {
  }

  lemma MutateCallVar(e: Exp, x: string, ty: Ty, func: string, op: UpdateOp, a: Exp)
    requires UpdateOf(func) == Some(op)
    ensures Mutate(e, SCall(EVar(x, ty), func, [a])) == Ok(Subst(e, x, CallRhs(EVar(x, ty), op, a)))
  {
    MutateCallDesugar(e, EVar(x, ty), func, [a]);
  }

  lemma ExecCallVar(x: string, ty: Ty, func: string, op: UpdateOp, a: Exp, env: Env)
    requires UpdateOf(func) == Some(op)
    ensures Exec(SCall(EVar(x, ty), func, [a]), env) == Some(Bind(env, x, CallResult(op, Eval(EVar(x, ty), env), Eval(a, env))))
  {
    var v := CallResult(op, Eval(EVar(x, ty), env), Eval([a][0], env));
    assert Exec(SCall(EVar(x, ty), func, [a]), env) == Assign(EVar(x, ty), v, env);
  }

  /** Two calls whose parts bind nothing are hygienic for an expression that binds nothing. */
  lemma TwoCallsHygienic(e: Exp, c1: Stm, c2: Stm)
    requires c1.SCall? && c2.SCall? && |c1.args| == 1 && |c2.args| == 1
    requires BV(e) == {} && BV(c1.target) == {} && BV(c1.args[0]) == {} && BV(c2.target) == {} && BV(c2.args[0]) == {}
    requires c1.target.EVar? && c2.target.EVar?
    ensures Hygienic(e, SSeq(c1, c2)) && WritesNoHandle(SSeq(c1, c2))
  {
    WritesNoHandleTyped(e, SSeq(c1, c2));
    assert BVArgs(c1.args) == {} by { assert c1.args[1..] == []; }
    assert BVArgs(c2.args) == {} by { assert c2.args[1..] == []; }
    assert BVStm(SSeq(c1, c2)) == {};
  }

  const XS: Exp := EVar("xs", TBag(TInt))
  const YS: Exp := EVar("ys", TBag(TInt))
  const X: Exp := EVar("x", TInt)
  const Empty: Exp := EEmpty(TBag(TInt))
  const One: multiset<Val> := multiset{VInt(1)}
  const Two: multiset<Val> := multiset{VInt(1), VInt(1)}

  lemma VarContents(x: string, ty: Ty, env: Env)
    requires x in env.vars
    ensures Contents(EVar(x, ty), env) == multiset(BagOf(env.vars[x]))
  {
  }

  // xs - ys, under xs.add(x); ys.add(x)

  /** `xs - ys` with `xs` and `ys` both `{1}`, to which `xs.add(x); ys.add(x)` adds `x = 1` on both sides. */
  const DiffExample: Exp := EBinary(XS, BMinus, YS)
  const AddToBoth: Stm := SSeq(SCall(XS, "add", [X]), SCall(YS, "add", [X]))
  const BothOne: Env := Env(map["xs" := VBag([VInt(1)]), "ys" := VBag([VInt(1)]), "x" := VInt(1)], map[], map[])
  const BothTwo: Env := Env(map["xs" := VBag([VInt(1), VInt(1)]), "ys" := VBag([VInt(1), VInt(1)]), "x" := VInt(1)], map[], map[])

  lemma AddToBothMutatesLeft()
    ensures Mutate(XS, AddToBoth) == Ok(EBinary(XS, BPlus, ESingleton(X)))
  {
    UpdateNames();
    MutateCallVar(XS, "ys", TBag(TInt), "add", OpAdd, X);
    assert CallRhs(YS, OpAdd, X) == EBinary(YS, BPlus, ESingleton(X));
    MutateSeqStep(XS, SCall(XS, "add", [X]), SCall(YS, "add", [X]));
    MutateCallVar(XS, "xs", TBag(TInt), "add", OpAdd, X);
    assert CallRhs(XS, OpAdd, X) == EBinary(XS, BPlus, ESingleton(X));
  }

  lemma AddToBothMutatesRight()
    ensures Mutate(YS, AddToBoth) == Ok(EBinary(YS, BPlus, ESingleton(X)))
  {
    UpdateNames();
    var ysPlus := EBinary(YS, BPlus, ESingleton(X));
    MutateCallVar(YS, "ys", TBag(TInt), "add", OpAdd, X);
    assert CallRhs(YS, OpAdd, X) == ysPlus;
    MutateSeqStep(YS, SCall(XS, "add", [X]), SCall(YS, "add", [X]));
    MutateCallVar(ysPlus, "xs", TBag(TInt), "add", OpAdd, X);
    assert Subst(ysPlus, "xs", CallRhs(XS, OpAdd, X)) == ysPlus;
  }

  lemma AddToBothRuns()
    ensures Exec(AddToBoth, BothOne) == Some(BothTwo)
  {
    UpdateNames();
    var two := VBag([VInt(1), VInt(1)]);
    var one := Bind(BothOne, "xs", two);
    ExecCallVar("xs", TBag(TInt), "add", OpAdd, X, BothOne);
    assert CallResult(OpAdd, VBag([VInt(1)]), VInt(1)) == two;
    ExecCallVar("ys", TBag(TInt), "add", OpAdd, X, one);
    assert Bind(one, "ys", two) == BothTwo;
  }

  lemma BothOneValues()
    ensures Contents(XS, BothOne) == One && Contents(YS, BothOne) == One
  {
    VarContents("xs", TBag(TInt), BothOne);
    VarContents("ys", TBag(TInt), BothOne);
  }

  lemma BothTwoValues()
    ensures Contents(XS, BothTwo) == Two && Contents(YS, BothTwo) == Two
  {
    VarContents("xs", TBag(TInt), BothTwo);
    VarContents("ys", TBag(TInt), BothTwo);
  }

  lemma DiffExampleContents()
    ensures Contents(DiffExample, BothOne) == multiset{} && Contents(DiffExample, BothTwo) == multiset{}
  {
    MinusElems(XS, YS, BothOne);
    BothOneValues();
    DiffContentsAfter();
  }

  lemma DiffContentsAfter()
    ensures Contents(DiffExample, BothTwo) == multiset{}
  {
    MinusElems(XS, YS, BothTwo);
    BothTwoValues();
  }

  lemma DiffExampleWalk(fork: ForkFn, corrected: bool)
    requires ForkPicks(fork)
    ensures Walk(fork, XS, AddToBoth, corrected) == Found(ESingleton(X), Empty)
    ensures Walk(fork, YS, AddToBoth, corrected) == Found(ESingleton(X), Empty)
  {
    AddToBothMutatesLeft();
    AddToBothMutatesRight();
    WalkVar(fork, XS, AddToBoth, corrected);
    WalkVar(fork, YS, AddToBoth, corrected);
  }

  /**
   * On that input the original difference rule reports `{x}` both added
   * and removed: the removed element is not in `xs - ys`, which is empty,
   * and `{} - {1} + {1}` is `{1}` while `xs - ys` stays empty.
   */
  lemma DiffDeltaAsWrittenWrong(fork: ForkFn)
    requires ForkPicks(fork)
    ensures BagDeltaAsWritten(fork, DiffExample, AddToBoth) == Found(ESingleton(X), ESingleton(X))
    ensures !(Contents(ESingleton(X), BothOne) <= Contents(DiffExample, BothOne))
    ensures Contents(DiffExample, BothOne) - Contents(ESingleton(X), BothOne) + Contents(ESingleton(X), BothOne)
      != Contents(DiffExample, BothTwo)
  {
    DiffExampleWalk(fork, false);
    WalkMinus(fork, XS, YS, AddToBoth, false);
    DiffExampleContents();
    SingletonElems(X, BothOne);
  }

  lemma DiffExampleHyp()
    ensures DeltaHyp(DiffExample, AddToBoth, BothOne, BothTwo)
  {
    AddToBothMutatesLeft();
    AddToBothMutatesRight();
    BothOneValues();
    BothTwoValues();
  }

  lemma DiffExampleHygienic()
    ensures Hygienic(DiffExample, AddToBoth) && WritesNoHandle(AddToBoth)
  {
    TwoCallsHygienic(DiffExample, SCall(XS, "add", [X]), SCall(YS, "add", [X]));
  }

  lemma DiffExampleFound(fork: ForkFn)
    requires ForkPicks(fork)
    ensures BagDelta(fork, DiffExample, AddToBoth).Found?
  {
    DiffExampleWalk(fork, true);
    WalkMinus(fork, XS, YS, AddToBoth, true);
  }

  lemma DiffExampleSoundHyp(fork: ForkFn)
    requires ForkPicks(fork) && ForkSoundIn(fork, BothOne)
    ensures SoundHyp(fork, DiffExample, AddToBoth, BothOne)
  {
    AddToBothRuns();
    DiffExampleFound(fork);
    DiffExampleHyp();
    DiffExampleHygienic();
  }

  /** The corrected difference rule meets the contract on the same input. */
  lemma DiffDeltaCorrected(fork: ForkFn)
    requires ForkPicks(fork) && ForkSoundIn(fork, BothOne)
    ensures BagDelta(fork, DiffExample, AddToBoth).Found?
    ensures DeltaOk(DiffExample, BagDelta(fork, DiffExample, AddToBoth), BothOne, BothTwo)
  {
    DiffExampleSoundHyp(fork);
    AddToBothRuns();
    BagDeltaSound(fork, DiffExample, AddToBoth, BothOne);
  }

  // xs + ys, under xs.remove(x); xs.add(x)

  /**
   * `xs + ys` with `xs` empty and `ys` `{1}`, under `xs.remove(x); xs.add(x)`
   * for `x = 1`: removing from an empty bag does nothing, so `xs` ends as `{1}`.
   */
  const UnionExample: Exp := EBinary(XS, BPlus, YS)
  const RemoveAdd: Stm := SSeq(SCall(XS, "remove", [X]), SCall(XS, "add", [X]))
  const LeftEmpty: Env := Env(map["xs" := VBag([]), "ys" := VBag([VInt(1)]), "x" := VInt(1)], map[], map[])
  const LeftOne: Env := Env(map["xs" := VBag([VInt(1)]), "ys" := VBag([VInt(1)]), "x" := VInt(1)], map[], map[])

  lemma RemoveAddMutatesLeft()
    ensures Mutate(XS, RemoveAdd) == Ok(EBinary(EBinary(XS, BMinus, ESingleton(X)), BPlus, ESingleton(X)))
  {
    UpdateNames();
    var xsPlus := EBinary(XS, BPlus, ESingleton(X));
    MutateCallVar(XS, "xs", TBag(TInt), "add", OpAdd, X);
    assert CallRhs(XS, OpAdd, X) == xsPlus;
    MutateSeqStep(XS, SCall(XS, "remove", [X]), SCall(XS, "add", [X]));
    MutateCallVar(xsPlus, "xs", TBag(TInt), "remove", OpRemove, X);
    assert CallRhs(XS, OpRemove, X) == EBinary(XS, BMinus, ESingleton(X));
  }

  lemma RemoveAddMutatesRight()
    ensures Mutate(YS, RemoveAdd) == Ok(YS)
  {
    UpdateNames();
    MutateCallVar(YS, "xs", TBag(TInt), "add", OpAdd, X);
    MutateSeqStep(YS, SCall(XS, "remove", [X]), SCall(XS, "add", [X]));
    MutateCallVar(YS, "xs", TBag(TInt), "remove", OpRemove, X);
  }

  lemma RemoveAddRuns()
    ensures Exec(RemoveAdd, LeftEmpty) == Some(LeftOne)
  {
    UpdateNames();
    ExecCallVar("xs", TBag(TInt), "remove", OpRemove, X, LeftEmpty);
    assert Diff([], [VInt(1)]) == [];
    assert CallResult(OpRemove, VBag([]), VInt(1)) == VBag([]);
    assert Bind(LeftEmpty, "xs", VBag([])) == LeftEmpty;
    ExecCallVar("xs", TBag(TInt), "add", OpAdd, X, LeftEmpty);
    assert CallResult(OpAdd, VBag([]), VInt(1)) == VBag([VInt(1)]);
    assert Bind(LeftEmpty, "xs", VBag([VInt(1)])) == LeftOne;
  }

  lemma LeftEmptyValues()
    ensures Contents(XS, LeftEmpty) == multiset{} && Contents(YS, LeftEmpty) == One
  {
    VarContents("xs", TBag(TInt), LeftEmpty);
    VarContents("ys", TBag(TInt), LeftEmpty);
  }

  lemma LeftOneValues()
    ensures Contents(XS, LeftOne) == One && Contents(YS, LeftOne) == One
  {
    VarContents("xs", TBag(TInt), LeftOne);
    VarContents("ys", TBag(TInt), LeftOne);
  }

  lemma UnionExampleContents()
    ensures Contents(UnionExample, LeftEmpty) == One && Contents(UnionExample, LeftOne) == Two
  {
    UnionContentsBefore();
    UnionContentsAfter();
  }

  lemma UnionContentsBefore()
    ensures Contents(UnionExample, LeftEmpty) == One
  {
    LeftEmptyValues();
    PlusElems(XS, YS, LeftEmpty);
    assert multiset(BagOf(Eval(XS, LeftEmpty)) + BagOf(Eval(YS, LeftEmpty))) == multiset{} + One;
  }

  lemma UnionContentsAfter()
    ensures Contents(UnionExample, LeftOne) == Two
  {
    LeftOneValues();
    PlusElems(XS, YS, LeftOne);
    assert multiset(BagOf(Eval(XS, LeftOne)) + BagOf(Eval(YS, LeftOne))) == One + One;
  }

  lemma UnionExampleWalk(fork: ForkFn, corrected: bool)
    requires ForkPicks(fork)
    ensures Walk(fork, XS, RemoveAdd, corrected)
      == Found(ESingleton(X), if corrected then EBinary(ESingleton(X), BIntersect, XS) else ESingleton(X))
    ensures Walk(fork, YS, RemoveAdd, corrected) == Found(Empty, Empty)
  {
    RemoveAddMutatesLeft();
    RemoveAddMutatesRight();
    WalkVar(fork, XS, RemoveAdd, corrected);
    WalkVar(fork, YS, RemoveAdd, corrected);
    assert BagSubtract(fork, YS, YS) == Resolved(Empty);
  }

  /**
   * On that input the original variable rule reports `{x}` removed from
   * `xs`, which does not hold it, and the union rule then makes
   * `{1} - {1} + {1}` of `xs + ys`, which in fact becomes `{1, 1}`.
   */
  lemma VarDeltaAsWrittenWrong(fork: ForkFn)
    requires ForkPicks(fork)
    ensures BagDeltaAsWritten(fork, UnionExample, RemoveAdd) == Found(ESingleton(X), ESingleton(X))
    ensures Contents(UnionExample, LeftEmpty) - Contents(ESingleton(X), LeftEmpty) + Contents(ESingleton(X), LeftEmpty)
      != Contents(UnionExample, LeftOne)
  {
    UnionExampleWalk(fork, false);
    WalkPlus(fork, XS, YS, RemoveAdd, false);
    UnionExampleContents();
    SingletonElems(X, LeftEmpty);
  }

  lemma UnionExampleHyp()
    ensures DeltaHyp(UnionExample, RemoveAdd, LeftEmpty, LeftOne)
  {
    RemoveAddMutatesLeft();
    RemoveAddMutatesRight();
  }

  lemma UnionExampleHygienic()
    ensures Hygienic(UnionExample, RemoveAdd) && WritesNoHandle(RemoveAdd)
  {
    TwoCallsHygienic(UnionExample, SCall(XS, "remove", [X]), SCall(XS, "add", [X]));
  }

  lemma UnionExampleFound(fork: ForkFn)
    requires ForkPicks(fork)
    ensures BagDelta(fork, UnionExample, RemoveAdd).Found?
  {
    UnionExampleWalk(fork, true);
    WalkPlus(fork, XS, YS, RemoveAdd, true);
  }

  lemma UnionExampleSoundHyp(fork: ForkFn)
    requires ForkPicks(fork) && ForkSoundIn(fork, LeftEmpty)
    ensures SoundHyp(fork, UnionExample, RemoveAdd, LeftEmpty)
  {
    RemoveAddRuns();
    UnionExampleFound(fork);
    UnionExampleHyp();
    UnionExampleHygienic();
  }

  /** The corrected variable rule meets the contract on the same input. */
  lemma VarDeltaCorrected(fork: ForkFn)
    requires ForkPicks(fork) && ForkSoundIn(fork, LeftEmpty)
    ensures BagDelta(fork, UnionExample, RemoveAdd).Found?
    ensures DeltaOk(UnionExample, BagDelta(fork, UnionExample, RemoveAdd), LeftEmpty, LeftOne)
  {
    UnionExampleSoundHyp(fork);
    RemoveAddRuns();
    BagDeltaSound(fork, UnionExample, RemoveAdd, LeftEmpty);
  }
}
