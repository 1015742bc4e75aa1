/**
 * The bag-expression simplifiers: union, membership, difference and
 * intersection of bag expressions, folded where the operands' shapes make
 * the answer evident. Difference and intersection decide conditionals
 * with `fork`, so they return `Forked` results.
 */
module Bags {
  import opened Syntax
  import opened Semantics
  import opened Shapes
  import opened ThreeValued
  import opened Forks

  /** The contents of a bag expression, as a multiset, in one environment. */
  ghost function Contents(e: Exp, env: Env): multiset<Val>
  {
    multiset(BagOf(Eval(e, env)))
  }

  /** `bag_union(e1, e2)`: `e1 + e2`, dropping an evidently empty operand. */
  function BagUnion(e1: Exp, e2: Exp): (r: Exp)
    ensures BV(r) <= BV(e1) + BV(e2)
  {
    if e1.EEmpty? then e2
    else if e2.EEmpty? then e1
    else EBinary(e1, BPlus, e2)
  }

  /** An empty operand of a union gives back the other one. */
  lemma BagUnionIdentity(e1: Exp, e2: Exp)
    ensures e1.EEmpty? ==> BagUnion(e1, e2) == e2
    ensures !e1.EEmpty? && e2.EEmpty? ==> BagUnion(e1, e2) == e1
  {
  }

  /** The union's elements are those of `e1` followed by those of `e2`. */
  lemma BagUnionSound(e1: Exp, e2: Exp, env: Env)
    ensures BagOf(Eval(BagUnion(e1, e2), env)) == BagOf(Eval(e1, env)) + BagOf(Eval(e2, env))
  {
    if e1.EEmpty? {
      EmptyElems(e1.ty, env);
    } else if e2.EEmpty? {
      EmptyElems(e2.ty, env);
    } else {
      PlusElems(e1, e2, env);
    }
  }

  /**
   * `bag_contains(bag, x)`: a formula saying that `x` is in `bag`. The
   * first case of the original, for an `x` that `element_of` finds evidently
   * in the bag, can never be taken.
   */
  function BagContains(bag: Exp, x: Exp): (r: Exp)
  {
    if Definitely(ElementOf(x, bag)) then T
    else if bag.EFilter? then EAll2(BagContains(bag.e, x), ApplyTo(bag.f, x))
    else if bag.ESingleton? then Equal(bag.e, x)
    else EIn(x, bag)
  }

  /** The formula holds exactly when `x`'s value is an element of the bag. */
  lemma {:induction false} BagContainsSound(bag: Exp, x: Exp, env: Env)
    requires BV(bag) !! FV(x)
    ensures Truthy(Eval(BagContains(bag, x), env)) <==> Eval(x, env) in BagOf(Eval(bag, env))
    decreases bag, 1
  {
    if Definitely(ElementOf(x, bag)) {
      assert false;
    } else if bag.EFilter? {
      BagContainsFilter(bag, x, env);
    } else {
      BagContainsLeaf(bag, x, env);
    }
  }

  lemma BagContainsLeaf(bag: Exp, x: Exp, env: Env)
    requires !bag.EFilter? && !Definitely(ElementOf(x, bag))
    ensures Truthy(Eval(BagContains(bag, x), env)) <==> Eval(x, env) in BagOf(Eval(bag, env))
  {
    if bag.ESingleton? {
      SingletonElems(bag.e, env);
    } else {
      var u, w := Eval(x, env), Eval(bag, env);
      assert BagContains(bag, x) == EIn(x, bag);
      assert Eval(EIn(x, bag), env) == VBool(u in BagOf(w));
    }
  }

  lemma {:induction false} BagContainsFilter(bag: Exp, x: Exp, env: Env)
    requires BV(bag) !! FV(x)
    requires bag.EFilter? && !Definitely(ElementOf(x, bag))
    ensures Truthy(Eval(BagContains(bag, x), env)) <==> Eval(x, env) in BagOf(Eval(bag, env))
    decreases bag, 0
  {
    var inner, test := BagContains(bag.e, x), ApplyTo(bag.f, x);
    var u, s := Eval(x, env), BagOf(Eval(bag.e, env));
    assert BagContains(bag, x) == EAll2(inner, test);
    assert BagOf(Eval(bag, env)) == FilterVals(bag.f, env, s);
    BagContainsSound(bag.e, x, env);
    ApplyToSound(bag.f, x, env);
    EAll2Sound(inner, test, env);
    FilterValsMember(bag.f, env, s, u);
  }

  /**
   * No variable free in the subtracted bag is bound by a lambda in either
   * operand, so the `apply_to` inside `bag_contains` captures nothing.
   */
  predicate Apart(e1: Exp, e2: Exp)
  {
    (BV(e1) + BV(e2)) !! FV(e2)
  }

  /** A fork function, `fork` under the caller's assumptions. */
  type ForkFn = (Exp, Exp, Exp) -> Forked<Exp>

  /**
   * `bag_subtract(assumptions, e1, e2)`: `e1 - e2`, with the cases the
   * original folds, in its order. Conditionals on either side are decided
   * by `fork`; a union on the right is subtracted one operand at a time.
   */
  function BagSubtract(fork: ForkFn, e1: Exp, e2: Exp): (r: Forked<Exp>)
    requires ForkPicks(fork)
    ensures r.Resolved? ==> BV(r.value) <= BV(e1) + BV(e2)
    decreases e2, e1
  {
    if e1.EEmpty? then Resolved(e1)
    else if e2.EEmpty? then Resolved(e1)
    else if e1 == e2 then Resolved(EEmpty(TypeOf(e1)))
    else if e2.ECond? then
      match BagSubtract(fork, e1, e2.thenE)
      case NeedsSplit(k) => NeedsSplit(k)
      case Resolved(x) =>
        match BagSubtract(fork, e1, e2.elseE)
        case NeedsSplit(k) => NeedsSplit(k)
        case Resolved(y) => fork(e2.cond, x, y)
    else if e1.ECond? then
      match BagSubtract(fork, e1.thenE, e2)
      case NeedsSplit(k) => NeedsSplit(k)
      case Resolved(x) =>
        match BagSubtract(fork, e1.elseE, e2)
        case NeedsSplit(k) => NeedsSplit(k)
        case Resolved(y) => fork(e1.cond, x, y)
    else if IsPlus(e2) then
      match BagSubtract(fork, e1, e2.e1)
      case NeedsSplit(k) => NeedsSplit(k)
      case Resolved(rest) => BagSubtract(fork, rest, e2.e2)
    else if e1.EBinary? && e1.bop == BMinus && e1.e1 == e2 then Resolved(EEmpty(TypeOf(e1)))
    else if e2.EBinary? && e2.bop == BMinus && e2.e1 == e1 && e2.e2.ESingleton? then
      fork(BagContains(e1, e2.e2.e), e2.e2, EEmpty(TypeOf(e1)))
    else if e1.ESingleton? && e2.ESingleton? then
      fork(Equal(e1.e, e2.e), EEmpty(TypeOf(e1)), e1)
    else Resolved(EBinary(e1, BMinus, e2))
  }

  /** The pre- and post-conditions every case of the soundness proof shares. */
  ghost predicate SubtractHyp(fork: ForkFn, e1: Exp, e2: Exp, env: Env)
  {
    ForkPicks(fork) && ForkSoundIn(fork, env) && Apart(e1, e2) && BagSubtract(fork, e1, e2).Resolved?
  }

  ghost predicate SubtractOk(fork: ForkFn, e1: Exp, e2: Exp, env: Env)
    requires ForkPicks(fork)
    requires BagSubtract(fork, e1, e2).Resolved?
  {
    Contents(BagSubtract(fork, e1, e2).value, env) == Contents(e1, env) - Contents(e2, env)
  }

  /**
   * With a sound fork, a resolved difference has exactly the elements of
   * `e1` less those of `e2`, counted with multiplicity.
   */
  lemma {:induction false} BagSubtractSound(fork: ForkFn, e1: Exp, e2: Exp, env: Env)
    requires SubtractHyp(fork, e1, e2, env)
    ensures SubtractOk(fork, e1, e2, env)
    decreases e2, e1, 1
  {
    if e1.EEmpty? || e2.EEmpty? || e1 == e2 {
      SubtractTrivial(fork, e1, e2, env);
    } else if e2.ECond? {
      SubtractCondRight(fork, e1, e2, env);
    } else if e1.ECond? {
      SubtractCondLeft(fork, e1, e2, env);
    } else if IsPlus(e2) {
      SubtractPlus(fork, e1, e2, env);
    } else if e1.EBinary? && e1.bop == BMinus && e1.e1 == e2 {
      SubtractCancel(fork, e1, e2, env);
    } else if e2.EBinary? && e2.bop == BMinus && e2.e1 == e1 && e2.e2.ESingleton? {
      SubtractComplement(fork, e1, e2, env);
    } else if e1.ESingleton? && e2.ESingleton? {
      SubtractSingletons(fork, e1, e2, env);
    } else {
      MinusElems(e1, e2, env);
    }
  }

  lemma SubtractTrivial(fork: ForkFn, e1: Exp, e2: Exp, env: Env)
    requires SubtractHyp(fork, e1, e2, env)
    requires e1.EEmpty? || e2.EEmpty? || e1 == e2
    ensures SubtractOk(fork, e1, e2, env)
  {
    if e1.EEmpty? {
      EmptyElems(e1.ty, env);
    } else if e2.EEmpty? {
      EmptyElems(e2.ty, env);
    } else {
      EmptyElems(TypeOf(e1), env);
    }
  }

  lemma {:induction false} SubtractCondRight(fork: ForkFn, e1: Exp, e2: Exp, env: Env)
    requires SubtractHyp(fork, e1, e2, env)
    requires !e1.EEmpty? && !e2.EEmpty? && e1 != e2 && e2.ECond?
    ensures SubtractOk(fork, e1, e2, env)
    decreases e2, e1, 0
  {
    var x := BagSubtract(fork, e1, e2.thenE).value;
    var y := BagSubtract(fork, e1, e2.elseE).value;
    BagSubtractSound(fork, e1, e2.thenE, env);
    BagSubtractSound(fork, e1, e2.elseE, env);
    assert BagSubtract(fork, e1, e2) == fork(e2.cond, x, y);
  }

  lemma {:induction false} SubtractCondLeft(fork: ForkFn, e1: Exp, e2: Exp, env: Env)
    requires SubtractHyp(fork, e1, e2, env)
    requires !e1.EEmpty? && !e2.EEmpty? && e1 != e2 && !e2.ECond? && e1.ECond?
    ensures SubtractOk(fork, e1, e2, env)
    decreases e2, e1, 0
  {
    var x := BagSubtract(fork, e1.thenE, e2).value;
    var y := BagSubtract(fork, e1.elseE, e2).value;
    BagSubtractSound(fork, e1.thenE, e2, env);
    BagSubtractSound(fork, e1.elseE, e2, env);
    assert BagSubtract(fork, e1, e2) == fork(e1.cond, x, y);
  }

  lemma {:induction false} SubtractPlus(fork: ForkFn, e1: Exp, e2: Exp, env: Env)
    requires SubtractHyp(fork, e1, e2, env)
    requires !e1.EEmpty? && !e2.EEmpty? && e1 != e2 && !e2.ECond? && !e1.ECond?
    requires IsPlus(e2)
    ensures SubtractOk(fork, e1, e2, env)
    decreases e2, e1, 0
  {
    var rest := BagSubtract(fork, e1, e2.e1).value;
    assert BV(e2.e1) + BV(e2.e2) == BV(e2) && FV(e2.e1) + FV(e2.e2) == FV(e2);
    BagSubtractSound(fork, e1, e2.e1, env);
    BagSubtractSound(fork, rest, e2.e2, env);
    PlusElems(e2.e1, e2.e2, env);
    SubtractTwice(Contents(e1, env), Contents(e2.e1, env), Contents(e2.e2, env));
  }

  lemma SubtractTwice(a: multiset<Val>, b: multiset<Val>, c: multiset<Val>)
    ensures a - b - c == a - (b + c)
  {
  }

  lemma SubtractCancel(fork: ForkFn, e1: Exp, e2: Exp, env: Env)
    requires SubtractHyp(fork, e1, e2, env)
    requires !e1.EEmpty? && !e2.EEmpty? && e1 != e2 && !e2.ECond? && !e1.ECond?
    requires !IsPlus(e2)
    requires e1.EBinary? && e1.bop == BMinus && e1.e1 == e2
    ensures SubtractOk(fork, e1, e2, env)
  {
    EmptyElems(TypeOf(e1), env);
    MinusElems(e1.e1, e1.e2, env);
  }

  lemma SubtractComplement(fork: ForkFn, e1: Exp, e2: Exp, env: Env)
    requires SubtractHyp(fork, e1, e2, env)
    requires !e1.EEmpty? && !e2.EEmpty? && e1 != e2 && !e2.ECond? && !e1.ECond?
    requires !(e1.EBinary? && e1.bop == BMinus && e1.e1 == e2)
    requires e2.EBinary? && e2.bop == BMinus && e2.e1 == e1 && e2.e2.ESingleton?
    ensures SubtractOk(fork, e1, e2, env)
  {
    var x := e2.e2.e;
    assert FV(x) <= FV(e2);
    BagContainsSound(e1, x, env);
    EmptyElems(TypeOf(e1), env);
    SingletonElems(x, env);
    MinusElems(e1, e2.e2, env);
  }

  lemma SubtractSingletons(fork: ForkFn, e1: Exp, e2: Exp, env: Env)
    requires SubtractHyp(fork, e1, e2, env)
    requires !e1.EEmpty? && !e2.EEmpty? && e1 != e2 && !e2.ECond? && !e1.ECond?
    requires !e2.EBinary? && !e1.EBinary?
    requires e1.ESingleton? && e2.ESingleton?
    ensures SubtractOk(fork, e1, e2, env)
  {
    EmptyElems(TypeOf(e1), env);
    SingletonElems(e1.e, env);
    SingletonElems(e2.e, env);
  }

  /** Subtracting from or subtracting an empty bag gives `e1` back. */
  lemma BagSubtractEmpty(fork: ForkFn, e1: Exp, e2: Exp)
    requires ForkPicks(fork)
    requires e1.EEmpty? || e2.EEmpty?
    ensures BagSubtract(fork, e1, e2) == Resolved(e1)
  {
  }

  /** A bag less itself is empty. */
  lemma BagSubtractSame(fork: ForkFn, e: Exp)
    requires ForkPicks(fork)
    requires !e.EEmpty?
    ensures BagSubtract(fork, e, e) == Resolved(EEmpty(TypeOf(e)))
  {
  }

  /** Subtracting a union subtracts its operands one after the other. */
  lemma BagSubtractUnion(fork: ForkFn, e1: Exp, x: Exp, y: Exp)
    requires ForkPicks(fork)
    requires !e1.EEmpty? && !e1.ECond? && e1 != EBinary(x, BPlus, y)
    ensures var first := BagSubtract(fork, e1, x);
      BagSubtract(fork, e1, EBinary(x, BPlus, y)) == if first.Resolved? then BagSubtract(fork, first.value, y) else first
  {
    var e2 := EBinary(x, BPlus, y);
    assert !e2.EEmpty? && !e2.ECond? && IsPlus(e2);
  }

  /**
   * `bag_intersection(assumptions, e1, e2)`: the common elements of two
   * bags, folding empty operands and singletons and deciding conditionals
   * with `fork`.
   */
  function BagIntersection(fork: ForkFn, e1: Exp, e2: Exp): Forked<Exp>
    decreases e1, e2
  {
    if e1.EEmpty? then Resolved(e1)
    else if e2.EEmpty? then Resolved(e2)
    else if e1.ECond? then
      match BagIntersection(fork, e1.thenE, e2)
      case NeedsSplit(k) => NeedsSplit(k)
      case Resolved(x) =>
        match BagIntersection(fork, e1.elseE, e2)
        case NeedsSplit(k) => NeedsSplit(k)
        case Resolved(y) => fork(e1.cond, x, y)
    else if e2.ECond? then
      match BagIntersection(fork, e1, e2.thenE)
      case NeedsSplit(k) => NeedsSplit(k)
      case Resolved(x) =>
        match BagIntersection(fork, e1, e2.elseE)
        case NeedsSplit(k) => NeedsSplit(k)
        case Resolved(y) => fork(e2.cond, x, y)
    else if e1.ESingleton? && e2.ESingleton? then
      fork(Equal(e1.e, e2.e), e1, EEmpty(TypeOf(e1)))
    else Resolved(EBinary(e1, BIntersect, e2))
  }

  ghost predicate IntersectOk(fork: ForkFn, e1: Exp, e2: Exp, env: Env)
    requires BagIntersection(fork, e1, e2).Resolved?
  {
    Contents(BagIntersection(fork, e1, e2).value, env) == Contents(e1, env) * Contents(e2, env)
  }

  /** With a sound fork, a resolved intersection has exactly the common elements, with multiplicity. */
  lemma {:induction false} BagIntersectionSound(fork: ForkFn, e1: Exp, e2: Exp, env: Env)
    requires ForkSoundIn(fork, env) && BagIntersection(fork, e1, e2).Resolved?
    ensures IntersectOk(fork, e1, e2, env)
    decreases e1, e2, 1
  {
    if e1.EEmpty? {
      EmptyElems(e1.ty, env);
    } else if e2.EEmpty? {
      EmptyElems(e2.ty, env);
    } else if e1.ECond? || e2.ECond? {
      IntersectCond(fork, e1, e2, env);
    } else if e1.ESingleton? && e2.ESingleton? {
      EmptyElems(TypeOf(e1), env);
      SingletonElems(e1.e, env);
      SingletonElems(e2.e, env);
    } else {
      InterElems(e1, e2, env);
    }
  }

  lemma {:induction false} IntersectCond(fork: ForkFn, e1: Exp, e2: Exp, env: Env)
    requires ForkSoundIn(fork, env) && BagIntersection(fork, e1, e2).Resolved?
    requires !e1.EEmpty? && !e2.EEmpty? && (e1.ECond? || e2.ECond?)
    ensures IntersectOk(fork, e1, e2, env)
    decreases e1, e2, 0
  {
    if e1.ECond? {
      BagIntersectionSound(fork, e1.thenE, e2, env);
      BagIntersectionSound(fork, e1.elseE, e2, env);
    } else {
      BagIntersectionSound(fork, e1, e2.thenE, env);
      BagIntersectionSound(fork, e1, e2.elseE, env);
    }
  }
}
