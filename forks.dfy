/**
 * Case splits on a condition the simplifiers cannot decide by rewriting.
 * `fork` asks the validity oracle whether the assumptions settle the
 * condition; when they do not, the original raises `ForkOn(c)` and
 * `resolve_forks` re-runs the whole computation once under `c` and once
 * under `not c`. Here the exception is the `NeedsSplit` result, and the
 * oracle is a function parameter.
 */
module Forks {
  import opened Syntax
  import opened Semantics
  import opened Shapes

  /** A computation's outcome: a value, or the condition it must split on. */
  datatype Forked<T> = Resolved(value: T) | NeedsSplit(cond: Exp)

  /** The oracle only calls formulas valid that hold in every environment. */
  ghost predicate OracleSound(valid: Exp -> bool)
  {
    forall f: Exp, env: Env :: valid(f) ==> Truthy(Eval(f, env))
  }

  /** A condition `fork` asks the oracle about instead of decomposing it. */
  predicate IsAtom(c: Exp)
  {
    !(c.EBinary? && (c.bop == BAnd || c.bop == BOr)) && !(c.EUnary? && c.uop == UNot) && !c.ECond?
  }

  /**
   * `fork(assumptions, c, t, e)`: `t` when the assumptions imply `c`,
   * `e` when they imply `not c`. Conjunctions, disjunctions, negations and
   * conditionals are decomposed first; the inner forks are computed before
   * the outer one, as Python evaluates the arguments first.
   */
  function Fork(valid: Exp -> bool, a: Exp, c: Exp, t: Exp, e: Exp): (r: Forked<Exp>)
    ensures r.Resolved? ==> r.value == t || r.value == e
    ensures r.NeedsSplit? ==> IsAtom(r.cond)
    decreases c
  {
    if c.EBinary? && c.bop == BAnd then
      match Fork(valid, a, c.e2, t, e)
      case NeedsSplit(k) => NeedsSplit(k)
      case Resolved(inner) => Fork(valid, a, c.e1, inner, e)
    else if c.EBinary? && c.bop == BOr then
      match Fork(valid, a, c.e2, t, e)
      case NeedsSplit(k) => NeedsSplit(k)
      case Resolved(inner) => Fork(valid, a, c.e1, t, inner)
    else if c.EUnary? && c.uop == UNot then
      Fork(valid, a, c.e, e, t)
    else if c.ECond? then
      match Fork(valid, a, c.thenE, t, e)
      case NeedsSplit(k) => NeedsSplit(k)
      case Resolved(x) =>
        match Fork(valid, a, c.elseE, t, e)
        case NeedsSplit(k) => NeedsSplit(k)
        case Resolved(y) => Fork(valid, a, c.cond, x, y)
    else if valid(EImplies(a, c)) then Resolved(t)
    else if valid(EImplies(a, ENot(c))) then Resolved(e)
    else NeedsSplit(c)
  }

  /** A fork on `not c` is the fork on `c` with the branches swapped. */
  lemma ForkNot(valid: Exp -> bool, a: Exp, c: Exp, t: Exp, e: Exp)
    ensures Fork(valid, a, ENot(c), t, e) == Fork(valid, a, c, e, t)
  {
  }

  /** On an atom the oracle decides, implication first, and otherwise the split is requested. */
  lemma ForkAtom(valid: Exp -> bool, a: Exp, c: Exp, t: Exp, e: Exp)
    requires IsAtom(c)
    ensures Fork(valid, a, c, t, e) == Resolved(t) <==> valid(EImplies(a, c)) || (t == e && valid(EImplies(a, ENot(c))))
    ensures Fork(valid, a, c, t, e) == NeedsSplit(c) <==> !valid(EImplies(a, c)) && !valid(EImplies(a, ENot(c)))
  {
  }

  /**
   * A resolved fork picks the branch the condition picks, in every
   * environment where the assumptions hold.
   */
  lemma {:induction false} ForkSound(valid: Exp -> bool, a: Exp, c: Exp, t: Exp, e: Exp, env: Env)
    requires OracleSound(valid)
    requires Truthy(Eval(a, env))
    requires Fork(valid, a, c, t, e).Resolved?
    ensures Eval(Fork(valid, a, c, t, e).value, env) == if Truthy(Eval(c, env)) then Eval(t, env) else Eval(e, env)
    decreases c, 1
  {
    if c.EBinary? && c.bop == BAnd {
      ForkSoundAnd(valid, a, c, t, e, env);
    } else if c.EBinary? && c.bop == BOr {
      ForkSoundOr(valid, a, c, t, e, env);
    } else if c.EUnary? && c.uop == UNot {
      ForkSound(valid, a, c.e, e, t, env);
      assert Eval(c, env) == VBool(!Truthy(Eval(c.e, env)));
    } else if c.ECond? {
      ForkSoundCond(valid, a, c, t, e, env);
    } else {
      OracleStep(valid, a, c, env);
    }
  }

  lemma {:induction false} ForkSoundAnd(valid: Exp -> bool, a: Exp, c: Exp, t: Exp, e: Exp, env: Env)
    requires OracleSound(valid)
    requires Truthy(Eval(a, env))
    requires c.EBinary? && c.bop == BAnd
    requires Fork(valid, a, c, t, e).Resolved?
    ensures Eval(Fork(valid, a, c, t, e).value, env) == if Truthy(Eval(c, env)) then Eval(t, env) else Eval(e, env)
    decreases c, 0
  {
    ForkSound(valid, a, c.e2, t, e, env);
    ForkSound(valid, a, c.e1, Fork(valid, a, c.e2, t, e).value, e, env);
  }

  lemma {:induction false} ForkSoundOr(valid: Exp -> bool, a: Exp, c: Exp, t: Exp, e: Exp, env: Env)
    requires OracleSound(valid)
    requires Truthy(Eval(a, env))
    requires c.EBinary? && c.bop == BOr
    requires Fork(valid, a, c, t, e).Resolved?
    ensures Eval(Fork(valid, a, c, t, e).value, env) == if Truthy(Eval(c, env)) then Eval(t, env) else Eval(e, env)
    decreases c, 0
  {
    ForkSound(valid, a, c.e2, t, e, env);
    ForkSound(valid, a, c.e1, t, Fork(valid, a, c.e2, t, e).value, env);
  }

  lemma {:induction false} ForkSoundCond(valid: Exp -> bool, a: Exp, c: Exp, t: Exp, e: Exp, env: Env)
    requires OracleSound(valid)
    requires Truthy(Eval(a, env))
    requires c.ECond?
    requires Fork(valid, a, c, t, e).Resolved?
    ensures Eval(Fork(valid, a, c, t, e).value, env) == if Truthy(Eval(c, env)) then Eval(t, env) else Eval(e, env)
    decreases c, 0
  {
    var x := Fork(valid, a, c.thenE, t, e).value;
    var y := Fork(valid, a, c.elseE, t, e).value;
    ForkSound(valid, a, c.thenE, t, e, env);
    ForkSound(valid, a, c.elseE, t, e, env);
    ForkSound(valid, a, c.cond, x, y, env);
  }

  /** What a sound oracle's two answers about an atom say in one environment. */
  lemma OracleStep(valid: Exp -> bool, a: Exp, c: Exp, env: Env)
    requires OracleSound(valid)
    requires Truthy(Eval(a, env))
    ensures valid(EImplies(a, c)) ==> Truthy(Eval(c, env))
    ensures valid(EImplies(a, ENot(c))) ==> !Truthy(Eval(c, env))
  {
    var i1, i2 := EImplies(a, c), EImplies(a, ENot(c));
    assert Eval(i1, env) == VBool(!Truthy(Eval(a, env)) || Truthy(Eval(c, env)));
    assert Eval(i2, env) == VBool(!Truthy(Eval(a, env)) || Truthy(Eval(ENot(c), env)));
    assert valid(i1) ==> Truthy(Eval(i1, env));
    assert valid(i2) ==> Truthy(Eval(i2, env));
  }

  /**
   * `fork` under fixed assumptions, as the simplifiers that take
   * `(context, assumptions)` use it: a function of the condition and the
   * two branches.
   */
  function ForkUnder(valid: Exp -> bool, a: Exp): (Exp, Exp, Exp) -> Forked<Exp>
  {
    (c, t, e) => Fork(valid, a, c, t, e)
  }

  /** A fork function answers with one of its two branches. */
  ghost predicate ForkPicks(fork: (Exp, Exp, Exp) -> Forked<Exp>)
  {
    forall c: Exp, t: Exp, e: Exp :: fork(c, t, e).Resolved? ==> fork(c, t, e).value == t || fork(c, t, e).value == e
  }

  /** In `env`, a fork function answers with the branch the condition picks. */
  ghost predicate ForkSoundIn(fork: (Exp, Exp, Exp) -> Forked<Exp>, env: Env)
  {
    forall c: Exp, t: Exp, e: Exp :: fork(c, t, e).Resolved? ==>
      Eval(fork(c, t, e).value, env) == if Truthy(Eval(c, env)) then Eval(t, env) else Eval(e, env)
  }

  lemma ForkUnderPicks(valid: Exp -> bool, a: Exp)
    ensures ForkPicks(ForkUnder(valid, a))
  {
  }

  /** With a sound oracle, forking under assumptions that hold is sound. */
  lemma ForkUnderSound(valid: Exp -> bool, a: Exp, env: Env)
    requires OracleSound(valid) && Truthy(Eval(a, env))
    ensures ForkSoundIn(ForkUnder(valid, a), env)
  {
    forall c: Exp, t: Exp, e: Exp | Fork(valid, a, c, t, e).Resolved?
      ensures Eval(Fork(valid, a, c, t, e).value, env) == if Truthy(Eval(c, env)) then Eval(t, env) else Eval(e, env)
    {
      ForkSound(valid, a, c, t, e, env);
    }
  }

  /** A conjunction built by `EAll2` holds exactly when both operands do. */
  lemma EAll2Sound(a: Exp, b: Exp, env: Env)
    ensures Truthy(Eval(EAll2(a, b), env)) <==> Truthy(Eval(a, env)) && Truthy(Eval(b, env))
  {
    if a != T && b != T {
      assert Eval(EAll2(a, b), env) == VBool(Truthy(Eval(a, env)) && Truthy(Eval(b, env)));
    }
  }

  /**
   * `resolve_forks(assumptions, func)`: run `func` and, each time it asks
   * to split on `c`, run it again under `assumptions and c` and under
   * `assumptions and not c`, joining the answers with `cond`. The original
   * recurses until no split is asked for; `fuel` bounds the depth and
   * `None` says it ran out. `ResolveWith` is the same recursion with the
   * conjunction and the join passed in; `ResolveForks` fixes them.
   */
  function ResolveWith(a: Exp, func: Exp -> Forked<Exp>, fuel: nat,
                       conj: (Exp, Exp) -> Exp, join: (Exp, Exp, Exp) -> Exp): (r: Option<Exp>)
    ensures func(a).Resolved? ==> r == Some(func(a).value)
    decreases fuel
  {
    match func(a)
    case Resolved(v) => Some(v)
    case NeedsSplit(c) =>
      if fuel == 0 then None
      else
        var x, y := ResolveWith(conj(a, c), func, fuel - 1, conj, join), ResolveWith(conj(a, ENot(c)), func, fuel - 1, conj, join);
        if x.Some? && y.Some? then Some(join(c, x.value, y.value)) else None
  }

  function ResolveForks(a: Exp, func: Exp -> Forked<Exp>, fuel: nat): Option<Exp>
  {
    ResolveWith(a, func, fuel, (x, y) => EAll2(x, y), (c, x, y) => Cond(c, x, y))
  }

  /** A split is answered by a `cond` over the two re-runs, under `a and c` and `a and not c`. */
  lemma ResolveForksSplit(a: Exp, func: Exp -> Forked<Exp>, fuel: nat)
    requires func(a).NeedsSplit? && fuel > 0
    ensures var c := func(a).cond;
      var x, y := ResolveForks(EAll2(a, c), func, fuel - 1), ResolveForks(EAll2(a, ENot(c)), func, fuel - 1);
      ResolveForks(a, func, fuel) == if x.Some? && y.Some? then Some(Cond(c, x.value, y.value)) else None
  {
  }

  /**
   * An interpretation of formulas and expressions in one environment:
   * `holds` says which formulas are true, `value` gives each expression's
   * value. It is faithful to a conjunction and a join when they mean what
   * they say.
   */
  ghost predicate Faithful(holds: Exp -> bool, value: Exp -> Val, conj: (Exp, Exp) -> Exp, join: (Exp, Exp, Exp) -> Exp)
  {
    && (forall x: Exp, y: Exp :: holds(conj(x, y)) == (holds(x) && holds(y)))
    && (forall x: Exp :: holds(ENot(x)) == !holds(x))
    && (forall c: Exp, x: Exp, y: Exp :: value(join(c, x, y)) == if holds(c) then value(x) else value(y))
  }

  /** `func` computes `want` soundly: when it resolves under assumptions that hold, its answer has value `want`. */
  ghost predicate SoundFor(func: Exp -> Forked<Exp>, holds: Exp -> bool, value: Exp -> Val, want: Val)
  {
    forall a: Exp :: func(a).Resolved? && holds(a) ==> value(func(a).value) == want
  }

  /** Resolution is sound in any faithful interpretation. */
  lemma {:induction false} ResolveWithSound(a: Exp, func: Exp -> Forked<Exp>, fuel: nat,
                                            conj: (Exp, Exp) -> Exp, join: (Exp, Exp, Exp) -> Exp,
                                            holds: Exp -> bool, value: Exp -> Val, want: Val)
    requires Faithful(holds, value, conj, join) && SoundFor(func, holds, value, want)
    requires ResolveWith(a, func, fuel, conj, join).Some? && holds(a)
    ensures value(ResolveWith(a, func, fuel, conj, join).value) == want
    decreases fuel
  {
    if func(a).NeedsSplit? {
      var c := func(a).cond;
      if holds(c) {
        ResolveWithSound(conj(a, c), func, fuel - 1, conj, join, holds, value, want);
      } else {
        ResolveWithSound(conj(a, ENot(c)), func, fuel - 1, conj, join, holds, value, want);
      }
    }
  }

  /** Evaluation in one environment is faithful to `EAll2` and `cond`. */
  lemma EvalFaithful(env: Env)
    ensures Faithful(x => Truthy(Eval(x, env)), x => Eval(x, env), (x, y) => EAll2(x, y), (c, x, y) => Cond(c, x, y))
  {
    forall x: Exp, y: Exp ensures Truthy(Eval(EAll2(x, y), env)) == (Truthy(Eval(x, env)) && Truthy(Eval(y, env))) {
      EAll2Sound(x, y, env);
    }
    forall x: Exp ensures Truthy(Eval(ENot(x), env)) == !Truthy(Eval(x, env)) {
      assert Eval(ENot(x), env) == VBool(!Truthy(Eval(x, env)));
    }
    forall c: Exp, x: Exp, y: Exp ensures Eval(Cond(c, x, y), env) == if Truthy(Eval(c, env)) then Eval(x, env) else Eval(y, env) {
      CondSound(c, x, y, env);
    }
  }

  /**
   * Resolving the forks of a computation that is sound under every
   * assumption gives a sound answer under the initial assumptions.
   */
  lemma ResolveForksSound(a: Exp, func: Exp -> Forked<Exp>, fuel: nat, want: Val, env: Env)
    requires forall b: Exp :: func(b).Resolved? && Truthy(Eval(b, env)) ==> Eval(func(b).value, env) == want
    requires ResolveForks(a, func, fuel).Some?
    requires Truthy(Eval(a, env))
    ensures Eval(ResolveForks(a, func, fuel).value, env) == want
  {
    EvalFaithful(env);
    ResolveWithSound(a, func, fuel, (x, y) => EAll2(x, y), (c, x, y) => Cond(c, x, y), x => Truthy(Eval(x, env)), x => Eval(x, env), want);
  }
}
