/**
 * `flatten(s, so_far, pc)`: a statement as the list of its primitive
 * updates, each one rewritten so that it can be run against the state
 * before `s`. An assignment's right-hand side is mutated by the statements
 * that precede it; a collection update's argument is mutated likewise and
 * filtered by the path condition under which it happens.
 *
 * The original is a generator; its output is modelled as a sequence, and
 * the fresh variable each path filter binds is passed in as `v`. The flag
 * `corrected` chooses the `efilter` the calls are filtered with: the one
 * as written, which drops a map it filters through, or the corrected one.
 */
module Flatten {
  import opened Syntax
  import opened Semantics
  import opened Forks
  import opened Comprehensions
  import opened Mutation

  /** The element type of a collection type, which a path filter's variable takes. */
  function ElemOf(t: Ty): Option<Ty>
  {
    if t.TBag? || t.TSet? then Some(t.elem) else None
  }

  /** The filter keeping the elements of an update's argument when the path condition holds. */
  function PathFilter(v: string, ty: Ty, pc: Exp): Lambda
  {
    Lambda(v, ty, pc)
  }

  /** The `efilter` flatten filters a collection update's argument with. */
  function FilterBy(corrected: bool, e: Exp, f: Lambda): Exp
  {
    if corrected then Efilter(e, f) else EfilterAsWritten(e, f)
  }

  function Flatten(s: Stm, soFar: Stm, pc: Exp, v: string, corrected: bool): Result<seq<Stm>>
    decreases Weight(s)
  {
    match s
    case SNoOp => Ok([])
    case SDecl(_, _) => Ok([])
    case SSeq(s1, s2) =>
      (match Flatten(s1, soFar, pc, v, corrected)
       case Err(err) => Err(err)
       case Ok(a) =>
         match Flatten(s2, SSeq(soFar, s1), pc, v, corrected)
         case Err(err) => Err(err)
         case Ok(b) => Ok(a + b))
    case SIf(c, t, f) =>
      (match Mutate(c, soFar)
       case Err(err) => Err(err)
       case Ok(cond) =>
         match Flatten(t, soFar, EAll2(pc, cond), v, corrected)
         case Err(err) => Err(err)
         case Ok(a) =>
           match Flatten(f, soFar, EAll2(pc, ENot(cond)), v, corrected)
           case Err(err) => Err(err)
           case Ok(b) => Ok(a + b))
    case SCall(target, func, args) =>
      UpdateNames();
      (match UpdateOf(func)
       case None => Err(UnknownFunc(func))
       case Some(OpAdd) =>
         if args == [] then Err(MissingArgument)
         else Flatten(SCall(target, "add_all", [ESingleton(args[0])]), soFar, pc, v, corrected)
       case Some(OpRemove) =>
         if args == [] then Err(MissingArgument)
         else Flatten(SCall(target, "remove_all", [ESingleton(args[0])]), soFar, pc, v, corrected)
       case Some(_) =>
         if ElemOf(TypeOf(target)).None? then Err(NotACollection)
         else if args == [] then Err(MissingArgument)
         else
           match Mutate(args[0], soFar)
           case Err(err) => Err(err)
           case Ok(m) => Ok([SCall(target, func, [FilterBy(corrected, m, PathFilter(v, ElemOf(TypeOf(target)).value, pc))])]))
    case SAssign(lhs, rhs) =>
      (match Mutate(rhs, soFar)
       case Err(err) => Err(err)
       case Ok(m) => Ok([SAssign(lhs, m)]))
    case _ => Err(Unsupported)
  }

  /** A primitive update: an assignment, or an `add_all`/`remove_all` call with one argument. */
  predicate Primitive(s: Stm)
  {
    s.SAssign? || (s.SCall? && UpdateOf(s.func) in {Some(OpAddAll), Some(OpRemoveAll)} && |s.args| == 1)
  }

  /** The number of updates in a statement: its calls and assignments. */
  function Updates(s: Stm): nat
  {
    match s
    case SCall(_, _, _) => 1
    case SAssign(_, _) => 1
    case SSeq(a, b) => Updates(a) + Updates(b)
    case SIf(_, a, b) => Updates(a) + Updates(b)
    case _ => 0
  }

  /**
   * A flattened statement is a list of primitive updates, one for each
   * update of the original, in order.
   */
  lemma {:induction false} FlattenPrimitive(s: Stm, soFar: Stm, pc: Exp, v: string, corrected: bool)
    requires Flatten(s, soFar, pc, v, corrected).Ok?
    ensures forall i :: 0 <= i < |Flatten(s, soFar, pc, v, corrected).value| ==> Primitive(Flatten(s, soFar, pc, v, corrected).value[i])
    ensures |Flatten(s, soFar, pc, v, corrected).value| == Updates(s)
    decreases Weight(s)
  {
    UpdateNames();
    match s
    case SNoOp =>
    case SDecl(_, _) =>
    case SSeq(s1, s2) =>
      FlattenPrimitive(s1, soFar, pc, v, corrected);
      FlattenPrimitive(s2, SSeq(soFar, s1), pc, v, corrected);
    case SIf(c, t, f) =>
      var cond := Mutate(c, soFar).value;
      FlattenPrimitive(t, soFar, EAll2(pc, cond), v, corrected);
      FlattenPrimitive(f, soFar, EAll2(pc, ENot(cond)), v, corrected);
    case SCall(target, func, args) =>
      FlattenCallPrimitive(target, func, args, soFar, pc, v, corrected);
    case SAssign(_, _) =>
  }

  lemma FlattenCallPrimitive(target: Exp, func: string, args: seq<Exp>, soFar: Stm, pc: Exp, v: string, corrected: bool)
    requires Flatten(SCall(target, func, args), soFar, pc, v, corrected).Ok?
    ensures var r := Flatten(SCall(target, func, args), soFar, pc, v, corrected).value;
      |r| == 1 && Primitive(r[0])
  {
    if UpdateOf(func) == Some(OpAdd) || UpdateOf(func) == Some(OpRemove) {
      FlattenSinglePrimitive(target, func, args, soFar, pc, v, corrected);
    } else {
      FlattenBulkPrimitive(target, func, args, soFar, pc, v, corrected);
    }
  }

  lemma FlattenSinglePrimitive(target: Exp, func: string, args: seq<Exp>, soFar: Stm, pc: Exp, v: string, corrected: bool)
    requires UpdateOf(func) == Some(OpAdd) || UpdateOf(func) == Some(OpRemove)
    requires Flatten(SCall(target, func, args), soFar, pc, v, corrected).Ok?
    ensures var r := Flatten(SCall(target, func, args), soFar, pc, v, corrected).value;
      |r| == 1 && Primitive(r[0])
  {
    UpdateNames();
    assert args != [];
    var bulk := if UpdateOf(func) == Some(OpAdd) then "add_all" else "remove_all";
    var call := SCall(target, bulk, [ESingleton(args[0])]);
    FlattenSingleStep(target, func, args, soFar, pc, v, corrected);
    FlattenBulkPrimitive(target, bulk, [ESingleton(args[0])], soFar, pc, v, corrected);
  }

  /** One unfolding of flatten on `add(x)` or `remove(x)`. */
  lemma FlattenSingleStep(target: Exp, func: string, args: seq<Exp>, soFar: Stm, pc: Exp, v: string, corrected: bool)
    requires UpdateOf(func) == Some(OpAdd) || UpdateOf(func) == Some(OpRemove)
    requires args != []
    ensures Flatten(SCall(target, func, args), soFar, pc, v, corrected)
         == Flatten(SCall(target, if UpdateOf(func) == Some(OpAdd) then "add_all" else "remove_all", [ESingleton(args[0])]), soFar, pc, v, corrected)
  {
  }

  lemma FlattenBulkPrimitive(target: Exp, func: string, args: seq<Exp>, soFar: Stm, pc: Exp, v: string, corrected: bool)
    requires UpdateOf(func) != Some(OpAdd) && UpdateOf(func) != Some(OpRemove)
    requires Flatten(SCall(target, func, args), soFar, pc, v, corrected).Ok?
    ensures var r := Flatten(SCall(target, func, args), soFar, pc, v, corrected).value;
      |r| == 1 && Primitive(r[0])
  {
    var m := Mutate(args[0], soFar).value;
    var ty := ElemOf(TypeOf(target)).value;
    assert Flatten(SCall(target, func, args), soFar, pc, v, corrected) == Ok([SCall(target, func, [FilterBy(corrected, m, PathFilter(v, ty, pc))])]);
  }

  /** `add(x)` and `remove(x)` flatten as `add_all({x})` and `remove_all({x})`. */
  lemma FlattenSingleCall(target: Exp, x: Exp, rest: seq<Exp>, soFar: Stm, pc: Exp, v: string, corrected: bool)
    ensures Flatten(SCall(target, "add", [x] + rest), soFar, pc, v, corrected)
         == Flatten(SCall(target, "add_all", [ESingleton(x)]), soFar, pc, v, corrected)
    ensures Flatten(SCall(target, "remove", [x] + rest), soFar, pc, v, corrected)
         == Flatten(SCall(target, "remove_all", [ESingleton(x)]), soFar, pc, v, corrected)
  {
    UpdateNames();
  }

  // ---------------------------------------------------------------------
  // What the rewritten parts mean

  /** A filter whose body ignores its variable keeps everything or nothing. */
  lemma {:induction false} FilterValsConstant(l: Lambda, env: Env, s: seq<Val>)
    requires l.x !in FV(l.body)
    ensures FilterVals(l, env, s) == if Truthy(Eval(l.body, env)) then s else []
  {
    if s != [] {
      FilterValsConstant(l, env, s[1..]);
      EvalUpdateNotFree(l.body, env, l.x, s[0]);
      assert s == [s[0]] + s[1..];
    }
  }

  /**
   * A path condition built by flatten holds before the update exactly when
   * the enclosing path condition does and the branch's condition holds in
   * the state the preceding statements reach.
   */
  lemma PathCondSound(pc: Exp, c: Exp, soFar: Stm, env: Env)
    requires Mutate(c, soFar).Ok? && Exec(soFar, env).Some? && Hygienic(c, soFar)
    ensures Truthy(Eval(EAll2(pc, Mutate(c, soFar).value), env))
        <==> Truthy(Eval(pc, env)) && Truthy(Eval(c, Exec(soFar, env).value))
    ensures Truthy(Eval(EAll2(pc, ENot(Mutate(c, soFar).value)), env))
        <==> Truthy(Eval(pc, env)) && !Truthy(Eval(c, Exec(soFar, env).value))
  {
    var cond := Mutate(c, soFar).value;
    MutateSound(c, soFar, env);
    EAll2Sound(pc, cond, env);
    EAll2Sound(pc, ENot(cond), env);
  }

  /**
   * With the corrected `efilter`, the argument of a flattened
   * `add_all`/`remove_all`, evaluated before the update, holds the elements
   * the original argument has in the state the preceding statements reach
   * when the path condition holds, and none otherwise.
   */
  lemma CallArgSound(target: Exp, func: string, a: Exp, soFar: Stm, v: string, pc: Exp, env: Env)
    requires UpdateOf(func) == Some(OpAddAll) || UpdateOf(func) == Some(OpRemoveAll)
    requires ElemOf(TypeOf(target)).Some? && Mutate(a, soFar).Ok?
    requires Exec(soFar, env).Some? && Hygienic(a, soFar)
    requires v !in FV(pc) && EfilterSafe(Mutate(a, soFar).value, PathFilter(v, ElemOf(TypeOf(target)).value, pc))
    ensures Flatten(SCall(target, func, [a]), soFar, pc, v, true).Ok?
    ensures var r := Flatten(SCall(target, func, [a]), soFar, pc, v, true).value;
      r == [SCall(target, func, r[0].args)] && |r[0].args| == 1
      && BagOf(Eval(r[0].args[0], env)) == if Truthy(Eval(pc, env)) then BagOf(Eval(a, Exec(soFar, env).value)) else []
  {
    var m := Mutate(a, soFar).value;
    var f := PathFilter(v, ElemOf(TypeOf(target)).value, pc);
    assert Flatten(SCall(target, func, [a]), soFar, pc, v, true) == Ok([SCall(target, func, [Efilter(m, f)])]);
    EfilterSound(m, f, env);
    FilterValsConstant(f, env, BagOf(Eval(m, env)));
    MutateSound(a, soFar, env);
  }

  // ---------------------------------------------------------------------
  // Flatten inherits the as-written efilter's loss of a map

  const ExampleTarget: Exp := EVar("xs", TBag(TBool))
  const ExampleCond: Exp := EVar("c", TBool)

  /** `if c: xs.add_all(map(not, {false}))`, run from the start of the update with no path condition. */
  const ExampleUpdate: Stm := SIf(ExampleCond, SCall(ExampleTarget, "add_all", [EMap(ExampleSource, ExampleMap)]), SNoOp)

  /** The example flattens as its one call under the path condition `c`. */
  lemma FlattenExampleStep(v: string, corrected: bool)
    ensures Flatten(ExampleUpdate, SNoOp, T, v, corrected)
         == Flatten(SCall(ExampleTarget, "add_all", [EMap(ExampleSource, ExampleMap)]), SNoOp, ExampleCond, v, corrected)
  {
    var call := SCall(ExampleTarget, "add_all", [EMap(ExampleSource, ExampleMap)]);
    assert Mutate(ExampleCond, SNoOp) == Ok(ExampleCond) && EAll2(T, ExampleCond) == ExampleCond;
    assert Flatten(SNoOp, SNoOp, EAll2(T, ENot(ExampleCond)), v, corrected) == Ok([]);
    match Flatten(call, SNoOp, ExampleCond, v, corrected)
    case Err(_) =>
    case Ok(a) => assert a + [] == a;
  }

  /**
   * As written, flattening the example under `c` adds the unmapped
   * `{false}`, though the statement adds `{true}` when `c` holds.
   */
  lemma FlattenAsWrittenDropsMap(v: string, env: Env)
    requires Truthy(Eval(ExampleCond, env)) && v != "c"
    ensures Flatten(ExampleUpdate, SNoOp, T, v, false).Ok?
    ensures var r := Flatten(ExampleUpdate, SNoOp, T, v, false).value;
      |r| == 1 && r[0].SCall? && |r[0].args| == 1 && BagOf(Eval(r[0].args[0], env)) == [VBool(false)]
  {
    UpdateNames();
    var f := PathFilter(v, TBool, ExampleCond);
    assert Subst(ExampleCond, v, ExampleMap.body) == ExampleCond;
    assert Compose(f, ExampleMap) == Lambda("x", TBool, ExampleCond);
    var arg := ECond(ExampleCond, ExampleSource, EEmpty(TBag(TBool)));
    assert EfilterAsWritten(EMap(ExampleSource, ExampleMap), f) == arg;
    assert Flatten(SCall(ExampleTarget, "add_all", [EMap(ExampleSource, ExampleMap)]), SNoOp, ExampleCond, v, false)
        == Ok([SCall(ExampleTarget, "add_all", [arg])]);
    FlattenExampleStep(v, false);
  }

  /** With the corrected `efilter`, the same update adds `{true}` when `c` holds. */
  lemma FlattenExampleCorrected(v: string, env: Env)
    requires Truthy(Eval(ExampleCond, env)) && v != "c"
    ensures Flatten(ExampleUpdate, SNoOp, T, v, true).Ok?
    ensures var r := Flatten(ExampleUpdate, SNoOp, T, v, true).value;
      |r| == 1 && r[0].SCall? && |r[0].args| == 1 && BagOf(Eval(r[0].args[0], env)) == [VBool(true)]
  {
    UpdateNames();
    var a := EMap(ExampleSource, ExampleMap);
    FlattenExampleStep(v, true);
    ExampleSafe(v);
    CallArgSound(ExampleTarget, "add_all", a, SNoOp, v, ExampleCond, env);
    assert Exec(SNoOp, env) == Some(env);
    ExampleMapped(env);
  }

  /** The example's argument meets the conditions under which flatten is sound. */
  lemma ExampleSafe(v: string)
    requires v != "c"
    ensures Hygienic(EMap(ExampleSource, ExampleMap), SNoOp)
    ensures EfilterSafe(EMap(ExampleSource, ExampleMap), PathFilter(v, TBool, ExampleCond))
  {
    var f := PathFilter(v, TBool, ExampleCond);
    assert Subst(ExampleCond, v, ExampleMap.body) == ExampleCond;
    assert Compose(f, ExampleMap) == Lambda("x", TBool, ExampleCond);
    assert FV(ExampleCond) == {"c"} && BV(ExampleCond) == {};
    assert FVLambda(f) <= {"c"} && FV(ExampleMap.body) == {"x"};
    assert ComposeSafe(f, ExampleMap);
    assert EfilterSafe(ExampleSource, Compose(f, ExampleMap));
  }

  /** The example's argument is `{true}`. */
  lemma ExampleMapped(env: Env)
    ensures BagOf(Eval(EMap(ExampleSource, ExampleMap), env)) == [VBool(true)]
  {
    assert EvalLambda(ExampleMap, env, VBool(false)) == VBool(true);
  }
}
