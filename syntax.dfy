/**
 * The abstract syntax that the state-maintenance code of cozy rewrites:
 * types, expressions, lambdas, statements and synthesis queries, together
 * with the syntactic operations it relies on (static types, free and bound
 * variables, first-order substitution, lambda application and composition).
 */
module Syntax {

  datatype Option<T> = None | Some(value: T)

  /** Why a rewrite could not be carried out (the exceptions the source raises). */
  datatype Error =
    | UnknownFunc(name: string)
    | NotAnLvalue
    | NotARecord
    | HandleFieldNotVal
    | MissingArgument
    | NotACollection
    | Unsupported

  datatype Result<T> = Ok(value: T) | Err(error: Error)

  datatype Ty =
    | TInt
    | TBool
    | TString
    | TNative(nname: string)
    | TBag(elem: Ty)
    | TSet(elem: Ty)
    | TTuple(ts: seq<Ty>)
    | TRecord(fields: seq<TField>)
    | THandle(hname: string, valTy: Ty)
    | TMap(k: Ty, v: Ty)

  datatype TField = TField(name: string, ty: Ty)

  predicate IsCollection(t: Ty) { t.TBag? || t.TSet? }

  /** The element type `t.t` of a collection type. */
  function ElemType(t: Ty): Ty
  {
    match t
    case TBag(el) => el
    case TSet(el) => el
    case _ => TInt
  }

  function MapKeyType(t: Ty): Ty { if t.TMap? then t.k else TInt }
  function MapValType(t: Ty): Ty { if t.TMap? then t.v else TInt }

  datatype UOp = UNot | UExists | UDistinct | ULength | UThe

  datatype BOp =
    | BPlus | BMinus | BIntersect
    | BAnd | BOr | BImplies
    | BEq | BNe | BLt | BLe | BGt | BGe | BIn

  datatype Exp =
    | EVar(id: string, ty: Ty)
    | ENum(n: int)
    | EBool(b: bool)
    | EEmpty(ty: Ty)
    | ESingleton(e: Exp)
    | EUnary(uop: UOp, e: Exp)
    | EBinary(e1: Exp, bop: BOp, e2: Exp)
    | ECond(cond: Exp, thenE: Exp, elseE: Exp)
    | EGetField(e: Exp, field: string, ty: Ty)
    | EMakeRecord(fields: seq<Field>)
    | ETupleGet(e: Exp, index: nat, ty: Ty)
    | ECall(func: string, args: seq<Exp>, ty: Ty)
    | EMap(e: Exp, f: Lambda)
    | EFilter(e: Exp, f: Lambda)
    | EFlatMap(e: Exp, f: Lambda)
    | EMakeMap2(e: Exp, f: Lambda)
    | EMapGet(e: Exp, key: Exp, ty: Ty)
    | EMapKeys(e: Exp)
    | EStateVar(e: Exp)
      /** The default value of a type, as `construct_value` builds it. */
    | EDefault(ty: Ty)

  datatype Field = Field(name: string, val: Exp)

  datatype Lambda = Lambda(x: string, xty: Ty, body: Exp)

  const T: Exp := EBool(true)
  const F: Exp := EBool(false)

  function ENot(e: Exp): Exp { EUnary(UNot, e) }
  function EEq(a: Exp, b: Exp): Exp { EBinary(a, BEq, b) }
  function EIn(x: Exp, xs: Exp): Exp { EBinary(x, BIn, xs) }
  function EImplies(a: Exp, b: Exp): Exp { EBinary(a, BImplies, b) }

  /** A bag union `a + b`. */
  predicate IsPlus(e: Exp) { e.EBinary? && e.bop == BPlus }

  /** Conjunction of two formulas, dropping a literal true operand. */
  function EAll2(a: Exp, b: Exp): (r: Exp)
    ensures a == T ==> r == b
    ensures a != T && b == T ==> r == a
  {
    if a == T then b else if b == T then a else EBinary(a, BAnd, b)
  }

  /** Disjunction of two formulas, dropping a literal false operand. */
  function EAny2(a: Exp, b: Exp): (r: Exp)
    ensures a == F ==> r == b
    ensures a != F && b == F ==> r == a
  {
    if a == F then b else if b == F then a else EBinary(a, BOr, b)
  }

  /** The variable a lambda binds, as an expression. */
  function ArgVar(l: Lambda): Exp { EVar(l.x, l.xty) }

  /** The static type of an expression, computed from its annotations. */
  function TypeOf(e: Exp): Ty
  {
    match e
    case EVar(_, ty) => ty
    case ENum(_) => TInt
    case EBool(_) => TBool
    case EEmpty(ty) => ty
    case ESingleton(x) => TBag(TypeOf(x))
    case EUnary(op, x) =>
      (match op
       case UNot => TBool
       case UExists => TBool
       case ULength => TInt
       case UDistinct => TypeOf(x)
       case UThe => ElemType(TypeOf(x)))
    case EBinary(a, op, _) =>
      if op == BPlus || op == BMinus || op == BIntersect then TypeOf(a) else TBool
    case ECond(_, t, _) => TypeOf(t)
    case EGetField(_, _, ty) => ty
    case EMakeRecord(fs) =>
      TRecord(seq(|fs|, i requires 0 <= i < |fs| => TField(fs[i].name, TypeOf(fs[i].val))))
    case ETupleGet(_, _, ty) => ty
    case ECall(_, _, ty) => ty
    case EMap(x, l) =>
      if TypeOf(x).TSet? then TSet(TypeOf(l.body)) else TBag(TypeOf(l.body))
    case EFilter(x, _) => TypeOf(x)
    case EFlatMap(_, l) => TypeOf(l.body)
    case EMakeMap2(x, l) => TMap(ElemType(TypeOf(x)), TypeOf(l.body))
    case EMapGet(_, _, ty) => ty
    case EMapKeys(m) => TSet(MapKeyType(TypeOf(m)))
    case EStateVar(x) => TypeOf(x)
    case EDefault(ty) => ty
  }

  // ---------------------------------------------------------------------
  // Free and bound variables

  /** Names of the variables that occur free in `e`. */
  function FV(e: Exp): set<string>
  {
    match e
    case EVar(x, _) => {x}
    case ENum(_) => {}
    case EBool(_) => {}
    case EEmpty(_) => {}
    case ESingleton(x) => FV(x)
    case EUnary(_, x) => FV(x)
    case EBinary(a, _, b) => FV(a) + FV(b)
    case ECond(c, t, f) => FV(c) + FV(t) + FV(f)
    case EGetField(x, _, _) => FV(x)
    case EMakeRecord(fs) => FVFields(fs)
    case ETupleGet(x, _, _) => FV(x)
    case ECall(_, args, _) => FVArgs(args)
    case EMap(x, l) => FV(x) + FVLambda(l)
    case EFilter(x, l) => FV(x) + FVLambda(l)
    case EFlatMap(x, l) => FV(x) + FVLambda(l)
    case EMakeMap2(x, l) => FV(x) + FVLambda(l)
    case EMapGet(m, k, _) => FV(m) + FV(k)
    case EMapKeys(m) => FV(m)
    case EStateVar(x) => FV(x)
    case EDefault(_) => {}
  }

  function FVLambda(l: Lambda): set<string> { FV(l.body) - {l.x} }

  function FVArgs(s: seq<Exp>): set<string>
  {
    if s == [] then {} else FV(s[0]) + FVArgs(s[1..])
  }

  function FVFields(s: seq<Field>): set<string>
  {
    if s == [] then {} else FV(s[0].val) + FVFields(s[1..])
  }

  /** Names that some lambda inside `e` binds. */
  function BV(e: Exp): set<string>
  {
    match e
    case EVar(_, _) => {}
    case ENum(_) => {}
    case EBool(_) => {}
    case EEmpty(_) => {}
    case ESingleton(x) => BV(x)
    case EUnary(_, x) => BV(x)
    case EBinary(a, _, b) => BV(a) + BV(b)
    case ECond(c, t, f) => BV(c) + BV(t) + BV(f)
    case EGetField(x, _, _) => BV(x)
    case EMakeRecord(fs) => BVFields(fs)
    case ETupleGet(x, _, _) => BV(x)
    case ECall(_, args, _) => BVArgs(args)
    case EMap(x, l) => BV(x) + BVLambda(l)
    case EFilter(x, l) => BV(x) + BVLambda(l)
    case EFlatMap(x, l) => BV(x) + BVLambda(l)
    case EMakeMap2(x, l) => BV(x) + BVLambda(l)
    case EMapGet(m, k, _) => BV(m) + BV(k)
    case EMapKeys(m) => BV(m)
    case EStateVar(x) => BV(x)
    case EDefault(_) => {}
  }

  function BVLambda(l: Lambda): set<string> { {l.x} + BV(l.body) }

  function BVArgs(s: seq<Exp>): set<string>
  {
    if s == [] then {} else BV(s[0]) + BVArgs(s[1..])
  }

  function BVFields(s: seq<Field>): set<string>
  {
    if s == [] then {} else BV(s[0].val) + BVFields(s[1..])
  }

  lemma {:induction false} FVFieldsMember(s: seq<Field>, i: nat)
    requires i < |s|
    ensures FV(s[i].val) <= FVFields(s)
    ensures BV(s[i].val) <= BVFields(s)
  {
    if i > 0 {
      FVFieldsMember(s[1..], i - 1);
    }
  }

  lemma {:induction false} FVArgsMember(s: seq<Exp>, i: nat)
    requires i < |s|
    ensures FV(s[i]) <= FVArgs(s)
    ensures BV(s[i]) <= BVArgs(s)
  {
    if i > 0 {
      FVArgsMember(s[1..], i - 1);
    }
  }

  /**
   * The free variables of `e` with their types, in order of first
   * occurrence from left to right and without repetition.
   */
  function FreeVars(e: Exp): (r: seq<(string, Ty)>)
    ensures forall i, j :: 0 <= i < j < |r| ==> r[i] != r[j]
  {
    Dedup(Occurrences(e))
  }

  /** Every free occurrence of a variable, left to right. */
  function Occurrences(e: Exp): seq<(string, Ty)>
  {
    match e
    case EVar(x, ty) => [(x, ty)]
    case ENum(_) => []
    case EBool(_) => []
    case EEmpty(_) => []
    case ESingleton(x) => Occurrences(x)
    case EUnary(_, x) => Occurrences(x)
    case EBinary(a, _, b) => Occurrences(a) + Occurrences(b)
    case ECond(c, t, f) => Occurrences(c) + Occurrences(t) + Occurrences(f)
    case EGetField(x, _, _) => Occurrences(x)
    case EMakeRecord(fs) => OccurrencesFields(fs)
    case ETupleGet(x, _, _) => Occurrences(x)
    case ECall(_, args, _) => OccurrencesArgs(args)
    case EMap(x, l) => Occurrences(x) + OccurrencesLambda(l)
    case EFilter(x, l) => Occurrences(x) + OccurrencesLambda(l)
    case EFlatMap(x, l) => Occurrences(x) + OccurrencesLambda(l)
    case EMakeMap2(x, l) => Occurrences(x) + OccurrencesLambda(l)
    case EMapGet(m, k, _) => Occurrences(m) + Occurrences(k)
    case EMapKeys(m) => Occurrences(m)
    case EStateVar(x) => Occurrences(x)
    case EDefault(_) => []
  }

  function OccurrencesLambda(l: Lambda): seq<(string, Ty)>
  {
    Without(Occurrences(l.body), l.x)
  }

  function OccurrencesArgs(s: seq<Exp>): seq<(string, Ty)>
  {
    if s == [] then [] else Occurrences(s[0]) + OccurrencesArgs(s[1..])
  }

  function OccurrencesFields(s: seq<Field>): seq<(string, Ty)>
  {
    if s == [] then [] else Occurrences(s[0].val) + OccurrencesFields(s[1..])
  }

  /** The entries of `s` whose name is not `x`. */
  function Without(s: seq<(string, Ty)>, x: string): (r: seq<(string, Ty)>)
    ensures forall v :: v in r <==> v in s && v.0 != x
  {
    if s == [] then []
    else if s[0].0 == x then Without(s[1..], x)
    else [s[0]] + Without(s[1..], x)
  }

  /** The first occurrence of every element of `s`, in order. */
  function Dedup<A(==, !new)>(s: seq<A>): (r: seq<A>)
    ensures forall v :: v in r <==> v in s
    ensures forall i, j :: 0 <= i < j < |r| ==> r[i] != r[j]
  {
    if s == [] then []
    else
      var rest := Dedup(s[..|s| - 1]);
      if s[|s| - 1] in rest then rest else rest + [s[|s| - 1]]
  }

  function Names(s: seq<(string, Ty)>): set<string>
  {
    set v | v in s :: v.0
  }

  /** The typed free variables name exactly the free variables. */
  lemma {:induction false} FreeVarsNames(e: Exp)
    ensures Names(FreeVars(e)) == FV(e)
  {
    OccurrencesNames(e);
  }

  lemma {:induction false} OccurrencesNames(e: Exp)
    ensures Names(Occurrences(e)) == FV(e)
  {
    match e
    case EVar(_, _) =>
    case ENum(_) =>
    case EBool(_) =>
    case EEmpty(_) =>
    case ESingleton(x) => OccurrencesNames(x);
    case EUnary(_, x) => OccurrencesNames(x);
    case EBinary(a, _, b) =>
      OccurrencesNames(a); OccurrencesNames(b); NamesAppend(Occurrences(a), Occurrences(b));
    case ECond(c, t, f) =>
      OccurrencesNames(c); OccurrencesNames(t); OccurrencesNames(f);
      NamesAppend(Occurrences(c), Occurrences(t));
      NamesAppend(Occurrences(c) + Occurrences(t), Occurrences(f));
    case EGetField(x, _, _) => OccurrencesNames(x);
    case EMakeRecord(fs) => OccurrencesFieldsNames(fs);
    case ETupleGet(x, _, _) => OccurrencesNames(x);
    case ECall(_, args, _) => OccurrencesArgsNames(args);
    case EMap(x, l) => OccurrencesNames(x); OccurrencesLambdaNames(l); NamesAppend(Occurrences(x), OccurrencesLambda(l));
    case EFilter(x, l) => OccurrencesNames(x); OccurrencesLambdaNames(l); NamesAppend(Occurrences(x), OccurrencesLambda(l));
    case EFlatMap(x, l) => OccurrencesNames(x); OccurrencesLambdaNames(l); NamesAppend(Occurrences(x), OccurrencesLambda(l));
    case EMakeMap2(x, l) => OccurrencesNames(x); OccurrencesLambdaNames(l); NamesAppend(Occurrences(x), OccurrencesLambda(l));
    case EMapGet(m, k, _) => OccurrencesNames(m); OccurrencesNames(k); NamesAppend(Occurrences(m), Occurrences(k));
    case EMapKeys(m) => OccurrencesNames(m);
    case EStateVar(x) => OccurrencesNames(x);
    case EDefault(_) =>
  }

  lemma {:induction false} OccurrencesLambdaNames(l: Lambda)
    ensures Names(OccurrencesLambda(l)) == FVLambda(l)
  {
    OccurrencesNames(l.body);
  }

  lemma {:induction false} OccurrencesArgsNames(s: seq<Exp>)
    ensures Names(OccurrencesArgs(s)) == FVArgs(s)
  {
    if s != [] {
      OccurrencesNames(s[0]);
      OccurrencesArgsNames(s[1..]);
      NamesAppend(Occurrences(s[0]), OccurrencesArgs(s[1..]));
    }
  }

  lemma {:induction false} OccurrencesFieldsNames(s: seq<Field>)
    ensures Names(OccurrencesFields(s)) == FVFields(s)
  {
    if s != [] {
      OccurrencesNames(s[0].val);
      OccurrencesFieldsNames(s[1..]);
      NamesAppend(Occurrences(s[0].val), OccurrencesFields(s[1..]));
    }
  }

  lemma NamesAppend(a: seq<(string, Ty)>, b: seq<(string, Ty)>)
    ensures Names(a + b) == Names(a) + Names(b)
  {
  }

  // ---------------------------------------------------------------------
  // Substitution

  /**
   * `e` with every free occurrence of the variable named `x` replaced by
   * `v`. Like the source's `subst`, a variable is matched by name, and
   * a lambda binding `x` shadows it. The substitution does not rename
   * binders; where capture matters the lemmas demand that no binder of
   * `e` is free in `v`.
   */
  function Subst(e: Exp, x: string, v: Exp): Exp
  {
    match e
    case EVar(y, _) => if y == x then v else e
    case ENum(_) => e
    case EBool(_) => e
    case EEmpty(_) => e
    case ESingleton(a) => ESingleton(Subst(a, x, v))
    case EUnary(op, a) => EUnary(op, Subst(a, x, v))
    case EBinary(a, op, b) => EBinary(Subst(a, x, v), op, Subst(b, x, v))
    case ECond(c, t, f) => ECond(Subst(c, x, v), Subst(t, x, v), Subst(f, x, v))
    case EGetField(a, f, ty) => EGetField(Subst(a, x, v), f, ty)
    case EMakeRecord(fs) => EMakeRecord(SubstFields(fs, x, v))
    case ETupleGet(a, i, ty) => ETupleGet(Subst(a, x, v), i, ty)
    case ECall(g, args, ty) => ECall(g, SubstArgs(args, x, v), ty)
    case EMap(a, l) => EMap(Subst(a, x, v), SubstLambda(l, x, v))
    case EFilter(a, l) => EFilter(Subst(a, x, v), SubstLambda(l, x, v))
    case EFlatMap(a, l) => EFlatMap(Subst(a, x, v), SubstLambda(l, x, v))
    case EMakeMap2(a, l) => EMakeMap2(Subst(a, x, v), SubstLambda(l, x, v))
    case EMapGet(m, k, ty) => EMapGet(Subst(m, x, v), Subst(k, x, v), ty)
    case EMapKeys(m) => EMapKeys(Subst(m, x, v))
    case EStateVar(a) => EStateVar(Subst(a, x, v))
    case EDefault(_) => e
  }

  function SubstLambda(l: Lambda, x: string, v: Exp): Lambda
  {
    if l.x == x then l else Lambda(l.x, l.xty, Subst(l.body, x, v))
  }

  function SubstArgs(s: seq<Exp>, x: string, v: Exp): (r: seq<Exp>)
    ensures |r| == |s|
    ensures forall i :: 0 <= i < |s| ==> r[i] == Subst(s[i], x, v)
  {
    if s == [] then [] else [Subst(s[0], x, v)] + SubstArgs(s[1..], x, v)
  }

  function SubstFields(s: seq<Field>, x: string, v: Exp): (r: seq<Field>)
    ensures |r| == |s|
    ensures forall i :: 0 <= i < |s| ==> r[i] == Field(s[i].name, Subst(s[i].val, x, v))
  {
    if s == [] then []
    else [Field(s[0].name, Subst(s[0].val, x, v))] + SubstFields(s[1..], x, v)
  }

  /** `l.apply_to(arg)`: the body of `l` with its argument replaced by `arg`. */
  function ApplyTo(l: Lambda, arg: Exp): Exp { Subst(l.body, l.x, arg) }

  /** `compose(f, g)`: the lambda `x => f(g(x))`, binding `g`'s argument. */
  function Compose(f: Lambda, g: Lambda): Lambda
  {
    Lambda(g.x, g.xty, ApplyTo(f, g.body))
  }

  /** Composing `f` after `g` captures nothing: `g`'s body meets no binder of `f`, and `f` does not use `g`'s argument. */
  predicate ComposeSafe(f: Lambda, g: Lambda)
  {
    BV(f.body) !! FV(g.body) && g.x !in FVLambda(f)
  }

  /** Substituting for a variable that is not free changes nothing. */
  lemma {:induction false} SubstNotFree(e: Exp, x: string, v: Exp)
    requires x !in FV(e)
    ensures Subst(e, x, v) == e
  {
    match e
    case EVar(_, _) =>
    case ENum(_) =>
    case EBool(_) =>
    case EEmpty(_) =>
    case ESingleton(a) => SubstNotFree(a, x, v);
    case EUnary(_, a) => SubstNotFree(a, x, v);
    case EBinary(a, _, b) => SubstNotFree(a, x, v); SubstNotFree(b, x, v);
    case ECond(c, t, f) => SubstNotFree(c, x, v); SubstNotFree(t, x, v); SubstNotFree(f, x, v);
    case EGetField(a, _, _) => SubstNotFree(a, x, v);
    case EMakeRecord(fs) => SubstFieldsNotFree(fs, x, v);
    case ETupleGet(a, _, _) => SubstNotFree(a, x, v);
    case ECall(_, args, _) => SubstArgsNotFree(args, x, v);
    case EMap(a, l) => SubstNotFree(a, x, v); SubstLambdaNotFree(l, x, v);
    case EFilter(a, l) => SubstNotFree(a, x, v); SubstLambdaNotFree(l, x, v);
    case EFlatMap(a, l) => SubstNotFree(a, x, v); SubstLambdaNotFree(l, x, v);
    case EMakeMap2(a, l) => SubstNotFree(a, x, v); SubstLambdaNotFree(l, x, v);
    case EMapGet(m, k, _) => SubstNotFree(m, x, v); SubstNotFree(k, x, v);
    case EMapKeys(m) => SubstNotFree(m, x, v);
    case EStateVar(a) => SubstNotFree(a, x, v);
    case EDefault(_) =>
  }

  lemma {:induction false} SubstLambdaNotFree(l: Lambda, x: string, v: Exp)
    requires x !in FVLambda(l)
    ensures SubstLambda(l, x, v) == l
  {
    if l.x != x {
      SubstNotFree(l.body, x, v);
    }
  }

  lemma {:induction false} SubstArgsNotFree(s: seq<Exp>, x: string, v: Exp)
    requires x !in FVArgs(s)
    ensures SubstArgs(s, x, v) == s
  {
    if s != [] {
      SubstNotFree(s[0], x, v);
      SubstArgsNotFree(s[1..], x, v);
    }
  }

  lemma {:induction false} SubstFieldsNotFree(s: seq<Field>, x: string, v: Exp)
    requires x !in FVFields(s)
    ensures SubstFields(s, x, v) == s
  {
    if s != [] {
      SubstNotFree(s[0].val, x, v);
      SubstFieldsNotFree(s[1..], x, v);
    }
  }

  /** Substitution frees only the variables of `e` other than `x` and those of `v`. */
  lemma {:induction false} SubstFV(e: Exp, x: string, v: Exp)
    ensures FV(Subst(e, x, v)) <= (FV(e) - {x}) + FV(v)
    decreases e, 1
  {
    if e.EMap? || e.EFilter? || e.EFlatMap? || e.EMakeMap2? {
      SubstFVBinder(e, x, v);
    } else if e.EMakeRecord? || e.ECall? {
      SubstFVSeqs(e, x, v);
    } else if e.ETupleGet? || e.EMapGet? || e.EMapKeys? {
      SubstFVCompound(e, x, v);
    } else {
      match e
      case EVar(_, _) =>
      case ENum(_) =>
      case EBool(_) =>
      case EEmpty(_) =>
      case ESingleton(a) => SubstFV(a, x, v);
      case EUnary(_, a) => SubstFV(a, x, v);
      case EBinary(a, _, b) => SubstFV(a, x, v); SubstFV(b, x, v);
      case ECond(c, t, f) => SubstFV(c, x, v); SubstFV(t, x, v); SubstFV(f, x, v);
      case EGetField(a, _, _) => SubstFV(a, x, v);
      case EStateVar(a) => SubstFV(a, x, v);
      case EDefault(_) =>
      case _ =>
    }
  }

  /** The cases of `SubstFV` for records and calls. */
  lemma {:induction false} SubstFVSeqs(e: Exp, x: string, v: Exp)
    requires e.EMakeRecord? || e.ECall?
    ensures FV(Subst(e, x, v)) <= (FV(e) - {x}) + FV(v)
    decreases e, 0
  {
    match e
    case EMakeRecord(fs) => SubstFieldsFV(fs, x, v);
    case ECall(_, args, _) => SubstArgsFV(args, x, v);
    case _ =>
  }


  /** The cases of `SubstFV` for tuples and maps. */
  lemma {:induction false} SubstFVCompound(e: Exp, x: string, v: Exp)
    requires e.ETupleGet? || e.EMapGet? || e.EMapKeys?
    ensures FV(Subst(e, x, v)) <= (FV(e) - {x}) + FV(v)
    decreases e, 0
  {
    match e
    case ETupleGet(a, _, _) => SubstFV(a, x, v);
    case EMapGet(m, k, _) => SubstFV(m, x, v); SubstFV(k, x, v);
    case EMapKeys(m) => SubstFV(m, x, v);
    case _ =>
  }

  /** The cases of `SubstFV` for the binding forms. */
  lemma {:induction false} SubstFVBinder(e: Exp, x: string, v: Exp)
    requires e.EMap? || e.EFilter? || e.EFlatMap? || e.EMakeMap2?
    ensures FV(Subst(e, x, v)) <= (FV(e) - {x}) + FV(v)
    decreases e, 0
  {
    match e
    case EMap(a, l) => SubstFV(a, x, v); SubstLambdaFV(l, x, v);
    case EFilter(a, l) => SubstFV(a, x, v); SubstLambdaFV(l, x, v);
    case EFlatMap(a, l) => SubstFV(a, x, v); SubstLambdaFV(l, x, v);
    case EMakeMap2(a, l) => SubstFV(a, x, v); SubstLambdaFV(l, x, v);
    case _ =>
  }

  lemma {:induction false} SubstLambdaFV(l: Lambda, x: string, v: Exp)
    ensures FVLambda(SubstLambda(l, x, v)) <= (FVLambda(l) - {x}) + FV(v)
  {
    if l.x != x {
      SubstFV(l.body, x, v);
    }
  }

  lemma {:induction false} SubstArgsFV(s: seq<Exp>, x: string, v: Exp)
    ensures FVArgs(SubstArgs(s, x, v)) <= (FVArgs(s) - {x}) + FV(v)
  {
    if s != [] {
      SubstFV(s[0], x, v);
      SubstArgsFV(s[1..], x, v);
    }
  }

  lemma {:induction false} SubstFieldsFV(s: seq<Field>, x: string, v: Exp)
    ensures FVFields(SubstFields(s, x, v)) <= (FVFields(s) - {x}) + FV(v)
  {
    if s != [] {
      SubstFV(s[0].val, x, v);
      SubstFieldsFV(s[1..], x, v);
    }
  }

  /** Substitution introduces no binders beyond those of `e` and `v`. */
  lemma {:induction false} SubstBV(e: Exp, x: string, v: Exp)
    ensures BV(Subst(e, x, v)) <= BV(e) + BV(v)
    decreases e, 1
  {
    if e.EMap? || e.EFilter? || e.EFlatMap? || e.EMakeMap2? {
      SubstBVBinder(e, x, v);
    } else if e.EMakeRecord? || e.ECall? {
      SubstBVSeqs(e, x, v);
    } else if e.ETupleGet? || e.EMapGet? || e.EMapKeys? {
      SubstBVCompound(e, x, v);
    } else {
      match e
      case EVar(_, _) =>
      case ENum(_) =>
      case EBool(_) =>
      case EEmpty(_) =>
      case ESingleton(a) => SubstBV(a, x, v);
      case EUnary(_, a) => SubstBV(a, x, v);
      case EBinary(a, _, b) => SubstBV(a, x, v); SubstBV(b, x, v);
      case ECond(c, t, f) => SubstBV(c, x, v); SubstBV(t, x, v); SubstBV(f, x, v);
      case EGetField(a, _, _) => SubstBV(a, x, v);
      case EStateVar(a) => SubstBV(a, x, v);
      case EDefault(_) =>
      case _ =>
    }
  }

  /** The cases of `SubstBV` for records and calls. */
  lemma {:induction false} SubstBVSeqs(e: Exp, x: string, v: Exp)
    requires e.EMakeRecord? || e.ECall?
    ensures BV(Subst(e, x, v)) <= BV(e) + BV(v)
    decreases e, 0
  {
    match e
    case EMakeRecord(fs) => SubstFieldsBV(fs, x, v);
    case ECall(_, args, _) => SubstArgsBV(args, x, v);
    case _ =>
  }


  /** The cases of `SubstBV` for tuples and maps. */
  lemma {:induction false} SubstBVCompound(e: Exp, x: string, v: Exp)
    requires e.ETupleGet? || e.EMapGet? || e.EMapKeys?
    ensures BV(Subst(e, x, v)) <= BV(e) + BV(v)
    decreases e, 0
  {
    match e
    case ETupleGet(a, _, _) => SubstBV(a, x, v);
    case EMapGet(m, k, _) => SubstBV(m, x, v); SubstBV(k, x, v);
    case EMapKeys(m) => SubstBV(m, x, v);
    case _ =>
  }

  /** The cases of `SubstBV` for the binding forms. */
  lemma {:induction false} SubstBVBinder(e: Exp, x: string, v: Exp)
    requires e.EMap? || e.EFilter? || e.EFlatMap? || e.EMakeMap2?
    ensures BV(Subst(e, x, v)) <= BV(e) + BV(v)
    decreases e, 0
  {
    match e
    case EMap(a, l) => SubstBV(a, x, v); SubstLambdaBV(l, x, v);
    case EFilter(a, l) => SubstBV(a, x, v); SubstLambdaBV(l, x, v);
    case EFlatMap(a, l) => SubstBV(a, x, v); SubstLambdaBV(l, x, v);
    case EMakeMap2(a, l) => SubstBV(a, x, v); SubstLambdaBV(l, x, v);
    case _ =>
  }

  lemma {:induction false} SubstLambdaBV(l: Lambda, x: string, v: Exp)
    ensures BVLambda(SubstLambda(l, x, v)) <= BVLambda(l) + BV(v)
  {
    if l.x != x {
      SubstBV(l.body, x, v);
    }
  }

  lemma {:induction false} SubstArgsBV(s: seq<Exp>, x: string, v: Exp)
    ensures BVArgs(SubstArgs(s, x, v)) <= BVArgs(s) + BV(v)
  {
    if s != [] {
      SubstBV(s[0], x, v);
      SubstArgsBV(s[1..], x, v);
    }
  }

  lemma {:induction false} SubstFieldsBV(s: seq<Field>, x: string, v: Exp)
    ensures BVFields(SubstFields(s, x, v)) <= BVFields(s) + BV(v)
  {
    if s != [] {
      SubstBV(s[0].val, x, v);
      SubstFieldsBV(s[1..], x, v);
    }
  }

  /** The number of nodes of an expression. */
  function Size(e: Exp): nat
  {
    match e
    case EVar(_, _) => 1
    case ENum(_) => 1
    case EBool(_) => 1
    case EEmpty(_) => 1
    case ESingleton(x) => 1 + Size(x)
    case EUnary(_, x) => 1 + Size(x)
    case EBinary(a, _, b) => 1 + Size(a) + Size(b)
    case ECond(c, t, f) => 1 + Size(c) + Size(t) + Size(f)
    case EGetField(x, _, _) => 1 + Size(x)
    case EMakeRecord(fs) => 1 + SizeFields(fs)
    case ETupleGet(x, _, _) => 1 + Size(x)
    case ECall(_, args, _) => 1 + SizeArgs(args)
    case EMap(x, l) => 1 + Size(x) + Size(l.body)
    case EFilter(x, l) => 1 + Size(x) + Size(l.body)
    case EFlatMap(x, l) => 1 + Size(x) + Size(l.body)
    case EMakeMap2(x, l) => 1 + Size(x) + Size(l.body)
    case EMapGet(m, k, _) => 1 + Size(m) + Size(k)
    case EMapKeys(m) => 1 + Size(m)
    case EStateVar(x) => 1 + Size(x)
    case EDefault(_) => 1
  }

  function SizeArgs(s: seq<Exp>): nat
  {
    if s == [] then 0 else Size(s[0]) + SizeArgs(s[1..])
  }

  function SizeFields(s: seq<Field>): nat
  {
    if s == [] then 0 else Size(s[0].val) + SizeFields(s[1..])
  }

  /** Renaming a variable to another variable keeps the size. */
  lemma {:induction false} RenameSize(e: Exp, x: string, y: Exp)
    requires y.EVar?
    ensures Size(Subst(e, x, y)) == Size(e)
    decreases e, 1
  {
    if e.EMap? || e.EFilter? || e.EFlatMap? || e.EMakeMap2? {
      RenameSizeBinder(e, x, y);
    } else if e.EMakeRecord? || e.ETupleGet? || e.ECall? || e.EMapGet? || e.EMapKeys? {
      RenameSizeCompound(e, x, y);
    } else {
      match e
      case EVar(_, _) =>
      case ENum(_) =>
      case EBool(_) =>
      case EEmpty(_) =>
      case ESingleton(a) => RenameSize(a, x, y);
      case EUnary(_, a) => RenameSize(a, x, y);
      case EBinary(a, _, b) => RenameSize(a, x, y); RenameSize(b, x, y);
      case ECond(c, t, f) => RenameSize(c, x, y); RenameSize(t, x, y); RenameSize(f, x, y);
      case EGetField(a, _, _) => RenameSize(a, x, y);
      case EStateVar(a) => RenameSize(a, x, y);
      case EDefault(_) =>
      case _ =>
    }
  }

  /** The cases of `RenameSize` for records, tuples, calls and maps. */
  lemma {:induction false} RenameSizeCompound(e: Exp, x: string, y: Exp)
    requires y.EVar?
    requires e.EMakeRecord? || e.ETupleGet? || e.ECall? || e.EMapGet? || e.EMapKeys?
    ensures Size(Subst(e, x, y)) == Size(e)
    decreases e, 0
  {
    match e
    case EMakeRecord(fs) => RenameSizeFields(fs, x, y);
    case ETupleGet(a, _, _) => RenameSize(a, x, y);
    case ECall(_, args, _) => RenameSizeArgs(args, x, y);
    case EMapGet(m, k, _) => RenameSize(m, x, y); RenameSize(k, x, y);
    case EMapKeys(m) => RenameSize(m, x, y);
    case _ =>
  }

  /** The cases of `RenameSize` for the binding forms. */
  lemma {:induction false} RenameSizeBinder(e: Exp, x: string, y: Exp)
    requires y.EVar?
    requires e.EMap? || e.EFilter? || e.EFlatMap? || e.EMakeMap2?
    ensures Size(Subst(e, x, y)) == Size(e)
    decreases e, 0
  {
    match e
    case EMap(a, l) => RenameSize(a, x, y); if l.x != x { RenameSize(l.body, x, y); }
    case EFilter(a, l) => RenameSize(a, x, y); if l.x != x { RenameSize(l.body, x, y); }
    case EFlatMap(a, l) => RenameSize(a, x, y); if l.x != x { RenameSize(l.body, x, y); }
    case EMakeMap2(a, l) => RenameSize(a, x, y); if l.x != x { RenameSize(l.body, x, y); }
    case _ =>
  }

  lemma {:induction false} RenameSizeArgs(s: seq<Exp>, x: string, y: Exp)
    requires y.EVar?
    ensures SizeArgs(SubstArgs(s, x, y)) == SizeArgs(s)
  {
    if s != [] {
      RenameSize(s[0], x, y);
      RenameSizeArgs(s[1..], x, y);
    }
  }

  lemma {:induction false} RenameSizeFields(s: seq<Field>, x: string, y: Exp)
    requires y.EVar?
    ensures SizeFields(SubstFields(s, x, y)) == SizeFields(s)
  {
    if s != [] {
      RenameSize(s[0].val, x, y);
      RenameSizeFields(s[1..], x, y);
    }
  }

  /** `strip_EStateVar`: `e` with every state-variable marker removed. */
  function StripStateVar(e: Exp): Exp
  {
    match e
    case EVar(_, _) => e
    case ENum(_) => e
    case EBool(_) => e
    case EEmpty(_) => e
    case ESingleton(a) => ESingleton(StripStateVar(a))
    case EUnary(op, a) => EUnary(op, StripStateVar(a))
    case EBinary(a, op, b) => EBinary(StripStateVar(a), op, StripStateVar(b))
    case ECond(c, t, f) => ECond(StripStateVar(c), StripStateVar(t), StripStateVar(f))
    case EGetField(a, f, ty) => EGetField(StripStateVar(a), f, ty)
    case EMakeRecord(fs) => EMakeRecord(StripFields(fs))
    case ETupleGet(a, i, ty) => ETupleGet(StripStateVar(a), i, ty)
    case ECall(g, args, ty) => ECall(g, StripArgs(args), ty)
    case EMap(a, l) => EMap(StripStateVar(a), StripLambda(l))
    case EFilter(a, l) => EFilter(StripStateVar(a), StripLambda(l))
    case EFlatMap(a, l) => EFlatMap(StripStateVar(a), StripLambda(l))
    case EMakeMap2(a, l) => EMakeMap2(StripStateVar(a), StripLambda(l))
    case EMapGet(m, k, ty) => EMapGet(StripStateVar(m), StripStateVar(k), ty)
    case EMapKeys(m) => EMapKeys(StripStateVar(m))
    case EStateVar(a) => StripStateVar(a)
    case EDefault(_) => e
  }

  function StripLambda(l: Lambda): Lambda { Lambda(l.x, l.xty, StripStateVar(l.body)) }

  function StripArgs(s: seq<Exp>): (r: seq<Exp>)
    ensures |r| == |s|
    ensures forall i :: 0 <= i < |s| ==> r[i] == StripStateVar(s[i])
  {
    if s == [] then [] else [StripStateVar(s[0])] + StripArgs(s[1..])
  }

  function StripFields(s: seq<Field>): (r: seq<Field>)
    ensures |r| == |s|
    ensures forall i :: 0 <= i < |s| ==> r[i] == Field(s[i].name, StripStateVar(s[i].val))
  {
    if s == [] then [] else [Field(s[0].name, StripStateVar(s[0].val))] + StripFields(s[1..])
  }

  /** Removing state-variable markers keeps the free variables. */
  lemma {:induction false} StripFV(e: Exp)
    ensures FV(StripStateVar(e)) == FV(e)
    decreases e, 1
  {
    if e.EMap? || e.EFilter? || e.EFlatMap? || e.EMakeMap2? {
      StripFVBinder(e);
    } else if e.EMakeRecord? || e.ECall? {
      StripFVSeqs(e);
    } else {
      match e
      case EVar(_, _) =>
      case ENum(_) =>
      case EBool(_) =>
      case EEmpty(_) =>
      case ESingleton(a) => StripFV(a);
      case EUnary(_, a) => StripFV(a);
      case EBinary(a, _, b) => StripFV(a); StripFV(b);
      case ECond(c, t, f) => StripFV(c); StripFV(t); StripFV(f);
      case EGetField(a, _, _) => StripFV(a);
      case ETupleGet(a, _, _) => StripFV(a);
      case EMapGet(m, k, _) => StripFV(m); StripFV(k);
      case EMapKeys(m) => StripFV(m);
      case EStateVar(a) => StripFV(a);
      case EDefault(_) =>
    }
  }

  lemma {:induction false} StripFVSeqs(e: Exp)
    requires e.EMakeRecord? || e.ECall?
    ensures FV(StripStateVar(e)) == FV(e)
    decreases e, 0
  {
    match e
    case EMakeRecord(fs) => StripFieldsFV(fs);
    case ECall(_, args, _) => StripArgsFV(args);
  }

  lemma {:induction false} StripFVBinder(e: Exp)
    requires e.EMap? || e.EFilter? || e.EFlatMap? || e.EMakeMap2?
    ensures FV(StripStateVar(e)) == FV(e)
    decreases e, 0
  {
    match e
    case EMap(a, l) => StripFV(a); StripFV(l.body);
    case EFilter(a, l) => StripFV(a); StripFV(l.body);
    case EFlatMap(a, l) => StripFV(a); StripFV(l.body);
    case EMakeMap2(a, l) => StripFV(a); StripFV(l.body);
  }

  lemma {:induction false} StripArgsFV(s: seq<Exp>)
    ensures FVArgs(StripArgs(s)) == FVArgs(s)
  {
    if s != [] {
      StripFV(s[0]);
      StripArgsFV(s[1..]);
      assert StripArgs(s)[1..] == StripArgs(s[1..]);
    }
  }

  lemma {:induction false} StripFieldsFV(s: seq<Field>)
    ensures FVFields(StripFields(s)) == FVFields(s)
  {
    if s != [] {
      StripFV(s[0].val);
      StripFieldsFV(s[1..]);
      assert StripFields(s)[1..] == StripFields(s[1..]);
    }
  }

  // ---------------------------------------------------------------------
  // Statements and queries

  datatype Stm =
    | SNoOp
    | SAssign(lhs: Exp, rhs: Exp)
    | SCall(target: Exp, func: string, args: seq<Exp>)
    | SIf(cond: Exp, thenS: Stm, elseS: Stm)
    | SSeq(s1: Stm, s2: Stm)
    | SDecl(id: string, val: Exp)
    | SForEach(x: string, xty: Ty, iter: Exp, body: Stm)
    | SMapDel(m: Exp, key: Exp)
    | SMapUpdate(m: Exp, key: Exp, valVar: string, valTy: Ty, change: Stm)

  /** The update methods of a collection, which `mutate` desugars into assignments. */
  datatype UpdateOp = OpAdd | OpAddAll | OpRemove | OpRemoveAll

  /** The update method a call names, if any. */
  function UpdateOf(func: string): Option<UpdateOp>
  {
    if func == "add" then Some(OpAdd)
    else if func == "add_all" then Some(OpAddAll)
    else if func == "remove" then Some(OpRemove)
    else if func == "remove_all" then Some(OpRemoveAll)
    else None
  }

  /** The method names, told apart: each names its own update. */
  lemma UpdateNames()
    ensures UpdateOf("add") == Some(OpAdd) && UpdateOf("add_all") == Some(OpAddAll)
    ensures UpdateOf("remove") == Some(OpRemove) && UpdateOf("remove_all") == Some(OpRemoveAll)
  {
    assert |"add"| == 3 && |"remove"| == 6 && |"add_all"| == 7 && |"remove_all"| == 10;
  }

  /** `seq(stms)`: the statements in order, without no-ops, as one statement. */
  function SeqOf(stms: seq<Stm>): (r: Stm)
    ensures r == SNoOp <==> forall i :: 0 <= i < |stms| ==> stms[i] == SNoOp
  {
    if stms == [] then SNoOp
    else if stms[0] == SNoOp then SeqOf(stms[1..])
    else
      var rest := SeqOf(stms[1..]);
      if rest == SNoOp then stms[0] else SSeq(stms[0], rest)
  }

  /** A synthesis query: a name, its arguments, what it may assume, what it returns. */
  datatype Query = Query(name: string, args: seq<(string, Ty)>, assumptions: seq<Exp>, ret: Exp)

  /** The typed free variables of a query's assumptions and return expression. */
  function QueryFreeVars(assumptions: seq<Exp>, ret: Exp): (r: seq<(string, Ty)>)
    ensures forall i, j :: 0 <= i < j < |r| ==> r[i] != r[j]
  {
    Dedup(OccurrencesArgs(assumptions) + Occurrences(ret))
  }

  // ---------------------------------------------------------------------
  // Fresh names

  /** The decimal numeral of `n`. */
  function NatToString(n: nat): (r: string)
    ensures |r| >= 1
    ensures n >= 10 ==> |r| >= 2
    decreases n
  {
    if n < 10 then [Digit(n)] else NatToString(n / 10) + [Digit(n % 10)]
  }

  function Digit(d: nat): char
    requires d < 10
  {
    "0123456789"[d]
  }

  lemma {:induction false} NatToStringInjective(a: nat, b: nat)
    requires NatToString(a) == NatToString(b)
    ensures a == b
    decreases a
  {
    var sa, sb := NatToString(a), NatToString(b);
    if a < 10 && b < 10 {
      assert Digit(a) == sa[0] == sb[0] == Digit(b);
    } else if a >= 10 && b >= 10 {
      assert sa[|sa| - 1] == Digit(a % 10) && sb[|sb| - 1] == Digit(b % 10);
      assert sa[..|sa| - 1] == NatToString(a / 10);
      assert sb[..|sb| - 1] == NatToString(b / 10);
      NatToStringInjective(a / 10, b / 10);
    }
  }

  /** `fresh_name(prefix)` when the shared counter stands at `n`. */
  function FreshName(prefix: string, n: nat): string
  {
    "_" + prefix + NatToString(n)
  }

  /** Different counter values give different names. */
  lemma FreshNameInjective(prefix: string, a: nat, b: nat)
    ensures FreshName(prefix, a) == FreshName(prefix, b) <==> a == b
  {
    if FreshName(prefix, a) == FreshName(prefix, b) {
      var k := |"_" + prefix|;
      assert NatToString(a) == FreshName(prefix, a)[k..];
      assert NatToString(b) == FreshName(prefix, b)[k..];
      NatToStringInjective(a, b);
    }
  }
}
