/** Predicate trees of the plan-search front end (src/predicates.py).

    A predicate is an immutable tree over integer-valued variables. Python's
    `bool` is a subclass of `int` (`True == 1`, `False == 0`), so every value a
    predicate evaluates to is modelled as an `int`, with booleans as 0 and 1
    and truthiness as "non-zero". `a and b` and `a or b` return one of their
    operands, exactly as Python's short-circuit operators do.
 */
module Predicates {
  import opened Syntax

  /** The six comparison operators (src/predicates.py:57-63). */
  datatype Op = Eq | Ne | Gt | Ge | Lt | Le

  datatype Pred =
    | Var(name: string)
    | Bool(val: bool)
    | Compare(lhs: Pred, op: Op, rhs: Pred)
    | And(lhs: Pred, rhs: Pred)
    | Or(lhs: Pred, rhs: Pred)
    | Not(p: Pred)

  type Env = map<string, int>

  /** The operator whose comparison is the negation of `op`. */
  function InvertOp(op: Op): (r: Op)
    ensures forall a: int, b: int :: Holds(r, a, b) == !Holds(op, a, b)
  {
    match op
    case Eq => Ne
    case Ne => Eq
    case Lt => Ge
    case Le => Gt
    case Gt => Le
    case Ge => Lt
  }

  lemma InvertOpInvolution(op: Op)
    ensures InvertOp(InvertOp(op)) == op
    ensures InvertOp(op) != op
  {
  }

  /** Inverting an operator negates the comparison for every pair of integers. */
  lemma InvertOpNegates(op: Op, a: int, b: int)
    ensures Holds(InvertOp(op), a, b) == !Holds(op, a, b)
  {
  }

  predicate Holds(op: Op, a: int, b: int) {
    match op
    case Eq => a == b
    case Ne => a != b
    case Ge => a >= b
    case Gt => a > b
    case Le => a <= b
    case Lt => a < b
  }

  function B2I(b: bool): int { if b then 1 else 0 }

  predicate Truthy(v: int) { v != 0 }

  /** `eval`: a missing variable reads as 0. */
  function Eval(p: Pred, env: Env): int {
    match p
    case Var(name) => if name in env then env[name] else 0
    case Bool(b) => B2I(b)
    case Compare(l, op, r) => B2I(Holds(op, Eval(l, env), Eval(r, env)))
    case And(l, r) => var a := Eval(l, env); if !Truthy(a) then a else Eval(r, env)
    case Or(l, r) => var a := Eval(l, env); if Truthy(a) then a else Eval(r, env)
    case Not(q) => B2I(!Truthy(Eval(q, env)))
  }

  /** `size`: leaves weigh 1, every inner node 1 plus its children. */
  function Size(p: Pred): (r: int)
    ensures r >= 1
    ensures p.Compare? || p.And? || p.Or? ==> r >= 3
    ensures p.Not? ==> r >= 2
  {
    match p
    case Var(_) => 1
    case Bool(_) => 1
    case Compare(l, _, r) => 1 + Size(l) + Size(r)
    case And(l, r) => 1 + Size(l) + Size(r)
    case Or(l, r) => 1 + Size(l) + Size(r)
    case Not(q) => 1 + Size(q)
  }

  /** `comparisons`: the (lhs.name, rhs.name) pairs of every comparison, left to
      right. A comparison whose operand is not a variable has no `name`, which
      Python reports as an attribute error; that is `None` here. */
  function Comparisons(p: Pred): Option<seq<(string, string)>> {
    match p
    case Var(_) => Some([])
    case Bool(_) => Some([])
    case Compare(l, _, r) =>
      if l.Var? && r.Var? then Some([(l.name, r.name)]) else None
    case And(l, r) => Concat(Comparisons(l), Comparisons(r))
    case Or(l, r) => Concat(Comparisons(l), Comparisons(r))
    case Not(q) => Comparisons(q)
  }

  function Concat<T>(a: Option<seq<T>>, b: Option<seq<T>>): Option<seq<T>> {
    if a.Some? && b.Some? then Some(a.value + b.value) else None
  }

  /** Every comparison has plain variables on both sides: the shape on which
      `comparisons` is defined. */
  predicate WellFormed(p: Pred) {
    match p
    case Var(_) => true
    case Bool(_) => true
    case Compare(l, _, r) => l.Var? && r.Var?
    case And(l, r) => WellFormed(l) && WellFormed(r)
    case Or(l, r) => WellFormed(l) && WellFormed(r)
    case Not(q) => WellFormed(q)
  }

  function CountCompares(p: Pred): nat {
    match p
    case Var(_) => 0
    case Bool(_) => 0
    case Compare(l, _, r) => 1 + CountCompares(l) + CountCompares(r)
    case And(l, r) => CountCompares(l) + CountCompares(r)
    case Or(l, r) => CountCompares(l) + CountCompares(r)
    case Not(q) => CountCompares(q)
  }

  /** `comparisons` is defined exactly on well-formed predicates and then lists
      one pair per comparison node. */
  lemma {:induction false} ComparisonsDefined(p: Pred)
    ensures Comparisons(p).Some? <==> WellFormed(p)
    ensures Comparisons(p).Some? ==> |Comparisons(p).value| == CountCompares(p)
  {
    match p
    case Var(_) =>
    case Bool(_) =>
    case Compare(l, _, r) =>
    case And(l, r) => ComparisonsDefined(l); ComparisonsDefined(r);
    case Or(l, r) => ComparisonsDefined(l); ComparisonsDefined(r);
    case Not(q) => ComparisonsDefined(q);
  }

  /** `__eq__` as written: same class and equal fields, recursively. As in
      Python, the fields are compared as `other.f == self.f`. */
  predicate StructEq(p: Pred, q: Pred)
    decreases Size(p) + Size(q)
  {
    match p
    case Var(n) => q.Var? && q.name == n
    case Bool(b) => q.Bool? && q.val == b
    case Compare(l, op, r) => q.Compare? && StructEq(q.lhs, l) && q.op == op && StructEq(q.rhs, r)
    case And(l, r) => q.And? && StructEq(q.lhs, l) && StructEq(q.rhs, r)
    case Or(l, r) => q.Or? && StructEq(q.lhs, l) && StructEq(q.rhs, r)
    case Not(x) => q.Not? && StructEq(q.p, x)
  }

  /** The Python equality is exactly structural equality of the trees. */
  lemma {:induction false} StructEqIsEquality(p: Pred, q: Pred)
    ensures StructEq(p, q) <==> p == q
    decreases Size(p) + Size(q)
  {
    match p
    case Var(_) =>
    case Bool(_) =>
    case Compare(l, _, r) =>
      if q.Compare? { StructEqIsEquality(q.lhs, l); StructEqIsEquality(q.rhs, r); }
    case And(l, r) =>
      if q.And? { StructEqIsEquality(q.lhs, l); StructEqIsEquality(q.rhs, r); }
    case Or(l, r) =>
      if q.Or? { StructEqIsEquality(q.lhs, l); StructEqIsEquality(q.rhs, r); }
    case Not(x) =>
      if q.Not? { StructEqIsEquality(q.p, x); }
  }

  /** Negation normal form: `Not` occurs only directly above a `Var`. */
  predicate IsNNF(p: Pred) {
    match p
    case Var(_) => true
    case Bool(_) => true
    case Compare(l, _, r) => IsNNF(l) && IsNNF(r)
    case And(l, r) => IsNNF(l) && IsNNF(r)
    case Or(l, r) => IsNNF(l) && IsNNF(r)
    case Not(q) => q.Var?
  }

  /** `toNNF` as written. For a double negation `Not(Not(q))` it returns
      `Not(q).toNNF()`, so only one of the two negations is dropped. */
  function ToNNFAsWritten(p: Pred): Pred
    decreases p, 1
  {
    match p
    case Var(_) => p
    case Bool(_) => p
    case Compare(l, op, r) => Compare(ToNNFAsWritten(l), op, ToNNFAsWritten(r))
    case And(l, r) => And(ToNNFAsWritten(l), ToNNFAsWritten(r))
    case Or(l, r) => Or(ToNNFAsWritten(l), ToNNFAsWritten(r))
    case Not(q) => NegNNFAsWritten(q)
  }

  /** `Not(q).toNNF()` as written. */
  function NegNNFAsWritten(q: Pred): Pred
    decreases q, 0
  {
    match q
    case Var(_) => Not(q)
    case Bool(b) => Bool(!b)
    case Compare(l, op, r) => Compare(ToNNFAsWritten(l), InvertOp(op), ToNNFAsWritten(r))
    case And(l, r) => Or(NegNNFAsWritten(l), NegNNFAsWritten(r))
    case Or(l, r) => And(NegNNFAsWritten(l), NegNNFAsWritten(r))
    case Not(x) => NegNNFAsWritten(x)
  }

  /** The double-negation rule of the code above turns a true predicate into a
      false one. */
  lemma NNFAsWrittenFlipsDoubleNegation()
    ensures ToNNFAsWritten(Not(Not(Bool(true)))) == Bool(false)
    ensures Eval(Not(Not(Bool(true))), map[]) == 1
    ensures Eval(ToNNFAsWritten(Not(Not(Bool(true)))), map[]) == 0
  {
  }

  /** `toNNF` with the double-negation rule corrected to `q.toNNF()`. */
  function ToNNF(p: Pred): Pred
    decreases p, 1
  {
    match p
    case Var(_) => p
    case Bool(_) => p
    case Compare(l, op, r) => Compare(ToNNF(l), op, ToNNF(r))
    case And(l, r) => And(ToNNF(l), ToNNF(r))
    case Or(l, r) => Or(ToNNF(l), ToNNF(r))
    case Not(q) => NegNNF(q)
  }

  /** `Not(q).toNNF()`, corrected. */
  function NegNNF(q: Pred): Pred
    decreases q, 0
  {
    match q
    case Var(_) => Not(q)
    case Bool(b) => Bool(!b)
    case Compare(l, op, r) => Compare(ToNNF(l), InvertOp(op), ToNNF(r))
    case And(l, r) => Or(NegNNF(l), NegNNF(r))
    case Or(l, r) => And(NegNNF(l), NegNNF(r))
    case Not(x) => ToNNF(x)
  }

  /** The operand-by-operand rules of `Not(p).toNNF()`. */
  lemma NegNNFRules(p: Pred, q: Pred, name: string, b: bool, op: Op)
    ensures ToNNF(Not(Not(p))) == ToNNF(p)
    ensures ToNNF(Not(And(p, q))) == Or(ToNNF(Not(p)), ToNNF(Not(q)))
    ensures ToNNF(Not(Or(p, q))) == And(ToNNF(Not(p)), ToNNF(Not(q)))
    ensures ToNNF(Not(Bool(b))) == Bool(!b)
    ensures ToNNF(Not(Compare(p, op, q))) == Compare(ToNNF(p), InvertOp(op), ToNNF(q))
    ensures ToNNF(Not(Var(name))) == Not(Var(name))
  {
  }

  /** Both versions produce negation normal form. */
  lemma {:induction false} NNFShape(p: Pred)
    ensures IsNNF(ToNNF(p)) && IsNNF(NegNNF(p))
    ensures IsNNF(ToNNFAsWritten(p)) && IsNNF(NegNNFAsWritten(p))
  {
    match p
    case Var(_) =>
    case Bool(_) =>
    case Compare(l, _, r) => NNFShape(l); NNFShape(r);
    case And(l, r) => NNFShape(l); NNFShape(r);
    case Or(l, r) => NNFShape(l); NNFShape(r);
    case Not(q) => NNFShape(q);
  }

  /** A predicate already in negation normal form is left unchanged, so the
      conversion is idempotent. */
  lemma {:induction false} NNFIdentityOnNNF(p: Pred)
    requires IsNNF(p)
    ensures ToNNF(p) == p
  {
    match p
    case Var(_) =>
    case Bool(_) =>
    case Compare(l, _, r) => NNFIdentityOnNNF(l); NNFIdentityOnNNF(r);
    case And(l, r) => NNFIdentityOnNNF(l); NNFIdentityOnNNF(r);
    case Or(l, r) => NNFIdentityOnNNF(l); NNFIdentityOnNNF(r);
    case Not(q) =>
  }

  lemma NNFIdempotent(p: Pred)
    ensures ToNNF(ToNNF(p)) == ToNNF(p)
  {
    NNFShape(p);
    NNFIdentityOnNNF(ToNNF(p));
  }

  /** The corrected conversion keeps the truth value of a well-formed predicate
      in every environment, and its negated form has the opposite truth value. */
  lemma {:induction false} NNFPreservesTruth(p: Pred, env: Env)
    requires WellFormed(p)
    ensures Truthy(Eval(ToNNF(p), env)) == Truthy(Eval(p, env))
    ensures Truthy(Eval(NegNNF(p), env)) == !Truthy(Eval(p, env))
  {
    match p
    case Var(_) =>
    case Bool(_) =>
    case Compare(l, op, r) =>
      InvertOpNegates(op, Eval(l, env), Eval(r, env));
    case And(l, r) => NNFPreservesTruth(l, env); NNFPreservesTruth(r, env);
    case Or(l, r) => NNFPreservesTruth(l, env); NNFPreservesTruth(r, env);
    case Not(q) => NNFPreservesTruth(q, env);
  }

  /** Both conversions keep the list of compared variable pairs, in order. */
  lemma {:induction false} NNFKeepsComparisons(p: Pred)
    requires WellFormed(p)
    ensures Comparisons(ToNNF(p)) == Comparisons(p)
    ensures Comparisons(NegNNF(p)) == Comparisons(p)
    ensures Comparisons(ToNNFAsWritten(p)) == Comparisons(p)
    ensures Comparisons(NegNNFAsWritten(p)) == Comparisons(p)
  {
    match p
    case Var(_) =>
    case Bool(_) =>
    case Compare(l, _, r) =>
    case And(l, r) => NNFKeepsComparisons(l); NNFKeepsComparisons(r);
    case Or(l, r) => NNFKeepsComparisons(l); NNFKeepsComparisons(r);
    case Not(q) => NNFKeepsComparisons(q);
  }
}
