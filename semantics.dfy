/**
 * A reference semantics for the syntax: values, the evaluation of
 * expressions in an environment, and the execution of the update
 * statements that state maintenance rewrites. Bags are lists of values.
 * The bag operations and the soundness statements about them treat a bag
 * as the multiset of its elements, but `==` on two bag values compares
 * the lists, in order.
 */
module Semantics {
  import opened Syntax

  datatype Val =
    | VInt(i: int)
    | VBool(b: bool)
    | VBag(elems: seq<Val>)
    | VTuple(items: seq<Val>)
    | VRecord(fields: seq<VField>)
    | VHandle(addr: int)
    | VMap(entries: seq<VEntry>)

  datatype VField = VField(name: string, val: Val)
  datatype VEntry = VEntry(key: Val, val: Val)

  /**
   * The state an expression is evaluated in: the values of the variables,
   * the heap holding the value each handle address points to, and the
   * results of the functions an expression may call, by name and argument
   * values. Two handles alias exactly when their addresses are equal. No
   * statement changes the call table.
   */
  datatype Env = Env(vars: map<string, Val>, heap: map<int, Val>, calls: map<(string, seq<Val>), Val>)

  /** The environment with `x` bound to `v`, and the heap unchanged. */
  function Bind(env: Env, x: string, v: Val): Env
  {
    Env(env.vars[x := v], env.heap, env.calls)
  }

  /** The environment after `w` is stored at address `a`: every handle with that address reads `w`. */
  function Store(env: Env, a: int, w: Val): Env
  {
    Env(env.vars, env.heap[a := w], env.calls)
  }

  /** The result of calling `g` on `args`, or the default of the result type where the table has none. */
  function CallValue(calls: map<(string, seq<Val>), Val>, g: string, args: seq<Val>, ty: Ty): Val
  {
    if (g, args) in calls then calls[(g, args)] else Default(ty)
  }

  /** The value a handle points to, or the default of its value type if the heap has none. */
  function Deref(heap: map<int, Val>, a: int, ty: Ty): Val
  {
    if a in heap then heap[a] else Default(ty)
  }

  /** The value `construct_value` builds for a type. */
  function Default(t: Ty): Val
  {
    match t
    case TInt => VInt(0)
    case TBool => VBool(false)
    case TString => VInt(0)
    case TNative(_) => VInt(0)
    case TBag(_) => VBag([])
    case TSet(_) => VBag([])
    case TTuple(ts) => VTuple(seq(|ts|, i requires 0 <= i < |ts| => Default(ts[i])))
    case TRecord(fs) => VRecord(seq(|fs|, i requires 0 <= i < |fs| => VField(fs[i].name, Default(fs[i].ty))))
    case THandle(_, _) => VHandle(0)
    case TMap(_, _) => VMap([])
  }

  /** Python truthiness of the values a condition can take. */
  predicate Truthy(v: Val)
  {
    match v
    case VBool(b) => b
    case VInt(n) => n != 0
    case _ => false
  }

  function BagOf(v: Val): seq<Val> { if v.VBag? then v.elems else [] }

  function IntOf(v: Val): int
  {
    match v
    case VInt(n) => n
    case VBool(b) => if b then 1 else 0
    case _ => 0
  }

  // ---------------------------------------------------------------------
  // Bags as lists

  /** `s` without the first occurrence of `x`. */
  function RemoveOne(s: seq<Val>, x: Val): (r: seq<Val>)
    ensures multiset(r) == multiset(s) - multiset{x}
  {
    if s == [] then []
    else if s[0] == x then
      assert s == [s[0]] + s[1..];
      s[1..]
    else
      assert s == [s[0]] + s[1..];
      [s[0]] + RemoveOne(s[1..], x)
  }

  /** Bag difference, keeping the order of `s`. */
  function Diff(s: seq<Val>, t: seq<Val>): (r: seq<Val>)
    ensures multiset(r) == multiset(s) - multiset(t)
  {
    if s == [] then []
    else
      assert s == [s[0]] + s[1..];
      if s[0] in t then Diff(s[1..], RemoveOne(t, s[0]))
      else [s[0]] + Diff(s[1..], t)
  }

  /** Bag intersection, keeping the order of `s`. */
  function Inter(s: seq<Val>, t: seq<Val>): (r: seq<Val>)
    ensures multiset(r) == multiset(s) * multiset(t)
  {
    if s == [] then []
    else
      assert s == [s[0]] + s[1..];
      if s[0] in t then [s[0]] + Inter(s[1..], RemoveOne(t, s[0]))
      else Inter(s[1..], t)
  }

  function Add(a: Val, b: Val): Val
  {
    if a.VInt? && b.VInt? then VInt(a.i + b.i) else VBag(BagOf(a) + BagOf(b))
  }

  function Sub(a: Val, b: Val): Val
  {
    if a.VInt? && b.VInt? then VInt(a.i - b.i) else VBag(Diff(BagOf(a), BagOf(b)))
  }

  function UnaryVal(op: UOp, v: Val): Val
  {
    match op
    case UNot => VBool(!Truthy(v))
    case UExists => VBool(|BagOf(v)| > 0)
    case ULength => VInt(|BagOf(v)|)
    case UDistinct => VBag(Dedup(BagOf(v)))
    case UThe => if |BagOf(v)| > 0 then BagOf(v)[0] else VInt(0)
  }

  function BinaryVal(op: BOp, a: Val, b: Val): Val
  {
    match op
    case BPlus => Add(a, b)
    case BMinus => Sub(a, b)
    case BIntersect => VBag(Inter(BagOf(a), BagOf(b)))
    case BAnd => VBool(Truthy(a) && Truthy(b))
    case BOr => VBool(Truthy(a) || Truthy(b))
    case BImplies => VBool(!Truthy(a) || Truthy(b))
    case BEq => VBool(a == b)
    case BNe => VBool(a != b)
    case BLt => VBool(IntOf(a) < IntOf(b))
    case BLe => VBool(IntOf(a) <= IntOf(b))
    case BGt => VBool(IntOf(a) > IntOf(b))
    case BGe => VBool(IntOf(a) >= IntOf(b))
    case BIn => VBool(a in BagOf(b))
  }

  function FieldLookup(fs: seq<VField>, f: string, d: Val): Val
  {
    if fs == [] then d else if fs[0].name == f then fs[0].val else FieldLookup(fs[1..], f, d)
  }

  /** Reading field `f`; a handle's only field is `val`, the value stored at its address. */
  function GetField(heap: map<int, Val>, v: Val, f: string, ty: Ty): Val
  {
    match v
    case VRecord(fs) => FieldLookup(fs, f, Default(ty))
    case VHandle(a) => if f == "val" then Deref(heap, a, ty) else Default(ty)
    case _ => Default(ty)
  }

  function EntryLookup(es: seq<VEntry>, k: Val, d: Val): Val
  {
    if es == [] then d else if es[0].key == k then es[0].val else EntryLookup(es[1..], k, d)
  }

  /** Component `i` of a tuple; the type's default where there is none. */
  function TupleItem(v: Val, i: nat, ty: Ty): Val
  {
    if v.VTuple? && i < |v.items| then v.items[i] else Default(ty)
  }

  function MapLookup(m: Val, k: Val, d: Val): Val
  {
    if m.VMap? then EntryLookup(m.entries, k, d) else d
  }

  function MapKeys(m: Val): seq<Val>
  {
    if m.VMap? then seq(|m.entries|, i requires 0 <= i < |m.entries| => m.entries[i].key) else []
  }

  // ---------------------------------------------------------------------
  // Evaluation

  function Eval(e: Exp, env: Env): Val
    decreases e, 0
  {
    match e
    case EVar(x, ty) => if x in env.vars then env.vars[x] else Default(ty)
    case ENum(n) => VInt(n)
    case EBool(b) => VBool(b)
    case EEmpty(_) => VBag([])
    case ESingleton(a) => VBag([Eval(a, env)])
    case EUnary(op, a) => UnaryVal(op, Eval(a, env))
    case EBinary(a, op, b) => BinaryVal(op, Eval(a, env), Eval(b, env))
    case ECond(c, t, f) => if Truthy(Eval(c, env)) then Eval(t, env) else Eval(f, env)
    case EGetField(a, f, ty) =>
      GetField(env.heap, Eval(a, env), f, ty)
    case EMakeRecord(fs) =>
      VRecord(seq(|fs|, i requires 0 <= i < |fs| => VField(fs[i].name, Eval(fs[i].val, env))))
    case ETupleGet(a, i, ty) => TupleItem(Eval(a, env), i, ty)
    case ECall(g, args, ty) =>
      CallValue(env.calls, g, EvalArgs(args, env), ty)
    case EMap(a, l) => VBag(MapVals(l, env, BagOf(Eval(a, env))))
    case EFilter(a, l) => VBag(FilterVals(l, env, BagOf(Eval(a, env))))
    case EFlatMap(a, l) => VBag(FlatMapVals(l, env, BagOf(Eval(a, env))))
    case EMakeMap2(a, l) =>
      var ks := Dedup(BagOf(Eval(a, env)));
      VMap(MapEntries(l, env, ks))
    case EMapGet(m, k, ty) => MapLookup(Eval(m, env), Eval(k, env), Default(ty))
    case EMapKeys(m) => VBag(MapKeys(Eval(m, env)))
    case EStateVar(a) => Eval(a, env)
    case EDefault(ty) => Default(ty)
  }

  /** The values of a call's arguments, in order. */
  function EvalArgs(args: seq<Exp>, env: Env): (r: seq<Val>)
    ensures |r| == |args|
    decreases args
  {
    if args == [] then [] else [Eval(args[0], env)] + EvalArgs(args[1..], env)
  }

  /** The value of a lambda's body with its argument bound to `y`. */
  function EvalLambda(l: Lambda, env: Env, y: Val): Val
    decreases l.body, 1
  {
    Eval(l.body, Bind(env, l.x, y))
  }

  function MapVals(l: Lambda, env: Env, s: seq<Val>): (r: seq<Val>)
    ensures |r| == |s|
    decreases l.body, 2, |s|
  {
    if s == [] then [] else [EvalLambda(l, env, s[0])] + MapVals(l, env, s[1..])
  }

  function FilterVals(l: Lambda, env: Env, s: seq<Val>): (r: seq<Val>)
    ensures |r| <= |s|
    decreases l.body, 2, |s|
  {
    if s == [] then []
    else if Truthy(EvalLambda(l, env, s[0])) then [s[0]] + FilterVals(l, env, s[1..])
    else FilterVals(l, env, s[1..])
  }

  /** The entries of a map literal: each key with the lambda's value at it. */
  function MapEntries(l: Lambda, env: Env, ks: seq<Val>): seq<VEntry>
    decreases l.body, 2, |ks|
  {
    if ks == [] then [] else [VEntry(ks[0], EvalLambda(l, env, ks[0]))] + MapEntries(l, env, ks[1..])
  }

  function FlatMapVals(l: Lambda, env: Env, s: seq<Val>): seq<Val>
    decreases l.body, 2, |s|
  {
    if s == [] then [] else BagOf(EvalLambda(l, env, s[0])) + FlatMapVals(l, env, s[1..])
  }

  // ---------------------------------------------------------------------
  // Execution

  /** The record `prev` of type `tfs` with field `f` replaced by `v`. */
  function RecordWith(heap: map<int, Val>, tfs: seq<TField>, prev: Val, f: string, v: Val): Val
  {
    VRecord(seq(|tfs|, i requires 0 <= i < |tfs| =>
      VField(tfs[i].name, if tfs[i].name == f then v else GetField(heap, prev, tfs[i].name, tfs[i].ty))))
  }

  /** The tuple `prev` of component types `ts` with component `i` replaced by `v`. */
  function TupleWith(ts: seq<Ty>, prev: Val, i: nat, v: Val): Val
  {
    VTuple(seq(|ts|, k requires 0 <= k < |ts| => if k == i then v else TupleItem(prev, k, ts[k])))
  }

  /** The entries of a map other than the one for key `k`. */
  function EntriesWithout(es: seq<VEntry>, k: Val): seq<VEntry>
  {
    if es == [] then []
    else if es[0].key == k then EntriesWithout(es[1..], k)
    else [es[0]] + EntriesWithout(es[1..], k)
  }

  /** `del m[k]`. */
  function MapDelete(m: Val, k: Val): Val
  {
    if m.VMap? then VMap(EntriesWithout(m.entries, k)) else m
  }

  /** `m[k] = v`. */
  function MapPut(m: Val, k: Val, v: Val): Val
  {
    VMap([VEntry(k, v)] + if m.VMap? then EntriesWithout(m.entries, k) else [])
  }

  /** Dropping the entries for `k` leaves every other key's entry as it was. */
  lemma {:induction false} EntriesWithoutLookup(es: seq<VEntry>, k: Val, k': Val, d: Val)
    ensures EntryLookup(EntriesWithout(es, k), k', d) == if k' == k then d else EntryLookup(es, k', d)
  {
    if es != [] {
      EntriesWithoutLookup(es[1..], k, k', d);
    }
  }

  /** After `m[k] = v`, key `k` reads `v` and every other key what it read before. */
  lemma MapPutLookup(m: Val, k: Val, v: Val, k': Val, d: Val)
    ensures MapLookup(MapPut(m, k, v), k', d) == if k' == k then v else MapLookup(m, k', d)
  {
    var rest := if m.VMap? then EntriesWithout(m.entries, k) else [];
    var es := [VEntry(k, v)] + rest;
    assert MapPut(m, k, v) == VMap(es);
    assert es[0] == VEntry(k, v) && es[1..] == rest;
    assert EntryLookup(es, k', d) == if k' == k then v else EntryLookup(rest, k', d);
    if m.VMap? {
      EntriesWithoutLookup(m.entries, k, k', d);
    }
  }

  /** After `del m[k]`, key `k` is missing and every other key reads what it read before. */
  lemma MapDeleteLookup(m: Val, k: Val, k': Val, d: Val)
    ensures MapLookup(MapDelete(m, k), k', d) == if k' == k then d else MapLookup(m, k', d)
  {
    if m.VMap? {
      EntriesWithoutLookup(m.entries, k, k', d);
    }
  }


  /** A field read is the field of the record or handle the subexpression denotes. */
  lemma FieldRead(a: Exp, f: string, ty: Ty, env: Env)
    ensures Eval(EGetField(a, f, ty), env) == GetField(env.heap, Eval(a, env), f, ty)
  {
  }

  /** After a store, a handle with the stored address reads the stored value; every other read is unchanged. */
  lemma GetFieldStore(heap: map<int, Val>, a: int, w: Val, h: Val, f: string, ty: Ty)
    ensures GetField(heap[a := w], h, f, ty) == if h == VHandle(a) && f == "val" then w else GetField(heap, h, f, ty)
  {
  }

  /**
   * Storing `v` into the lvalue `lval`. Writing a handle's `val` stores `v`
   * at the handle's address, which every alias of the handle then reads.
   */
  function Assign(lval: Exp, v: Val, env: Env): Option<Env>
    decreases lval
  {
    match lval
    case EVar(x, _) => Some(Bind(env, x, v))
    case EGetField(r, f, _) =>
      if TypeOf(r).THandle? then
        var h := Eval(r, env);
        if f == "val" && h.VHandle? then Some(Store(env, h.addr, v)) else None
      else if TypeOf(r).TRecord? then Assign(r, RecordWith(env.heap, TypeOf(r).fields, Eval(r, env), f, v), env)
      else None
    case ETupleGet(r, i, _) =>
      if TypeOf(r).TTuple? && i < |TypeOf(r).ts| then Assign(r, TupleWith(TypeOf(r).ts, Eval(r, env), i, v), env)
      else None
    case _ => None
  }

  /** The value of a collection after one of its update methods. */
  function CallResult(op: UpdateOp, target: Val, arg: Val): Val
  {
    match op
    case OpAdd => Add(target, VBag([arg]))
    case OpAddAll => Add(target, arg)
    case OpRemove => Sub(target, VBag([arg]))
    case OpRemoveAll => Sub(target, arg)
  }

  /** Running an update statement; `None` where the statement has no modelled meaning. */
  function Exec(s: Stm, env: Env): Option<Env>
    decreases s, 0
  {
    match s
    case SNoOp => Some(env)
    case SAssign(lhs, rhs) => Assign(lhs, Eval(rhs, env), env)
    case SCall(target, func, args) =>
      if UpdateOf(func).Some? && |args| > 0 then
        Assign(target, CallResult(UpdateOf(func).value, Eval(target, env), Eval(args[0], env)), env)
      else None
    case SIf(c, t, f) => if Truthy(Eval(c, env)) then Exec(t, env) else Exec(f, env)
    case SSeq(a, b) =>
      (match Exec(a, env)
       case None => None
       case Some(env1) => Exec(b, env1))
    case SDecl(x, v) => Some(Bind(env, x, Eval(v, env)))
    case SForEach(x, _, iter, body) => ExecLoop(x, BagOf(Eval(iter, env)), body, env)
    case SMapDel(m, k) => Assign(m, MapDelete(Eval(m, env), Eval(k, env)), env)
    case SMapUpdate(m, k, x, xty, change) =>
      var key := Eval(k, env);
      (match Exec(change, Bind(env, x, MapLookup(Eval(m, env), key, Default(xty))))
       case None => None
       case Some(env1) =>
         var w := if x in env1.vars then env1.vars[x] else Default(xty);
         Assign(m, MapPut(Eval(m, env1), key, w), Unbind(env1, x, env)))
  }

  /**
   * The iterations of `for x in es: body`, each with `x` bound to the next
   * element; `x` is local to the iteration.
   */
  function ExecLoop(x: string, es: seq<Val>, body: Stm, env: Env): Option<Env>
    decreases body, 1, |es|
  {
    if es == [] then Some(env)
    else
      match Exec(body, Bind(env, x, es[0]))
      case None => None
      case Some(env1) => ExecLoop(x, es[1..], body, Unbind(env1, x, env))
  }

  /** `after` with `x` bound as it is in `before`. */
  function Unbind(after: Env, x: string, before: Env): Env
  {
    if x in before.vars then Bind(after, x, before.vars[x]) else Env(after.vars - {x}, after.heap, after.calls)
  }

  // ---------------------------------------------------------------------
  // Access paths: a variable, then tuple components and record fields

  function TNames(tfs: seq<TField>): seq<string>
  {
    seq(|tfs|, i requires 0 <= i < |tfs| => tfs[i].name)
  }

  predicate DistinctNames(tfs: seq<TField>)
  {
    forall i, j :: 0 <= i < j < |tfs| ==> tfs[i].name != tfs[j].name
  }

  /**
   * An lvalue reaching into a variable through tuple components and the
   * fields of records with distinct field names, each step within its type.
   */
  predicate IsPath(e: Exp)
  {
    match e
    case EVar(_, _) => true
    case ETupleGet(r, i, _) => TypeOf(r).TTuple? && i < |TypeOf(r).ts| && IsPath(r)
    case EGetField(r, f, _) =>
      TypeOf(r).TRecord? && DistinctNames(TypeOf(r).fields) && f in TNames(TypeOf(r).fields) && IsPath(r)
    case _ => false
  }

  /** The variable an access path starts from. */
  function Root(e: Exp): string
    requires IsPath(e)
  {
    match e
    case EVar(x, _) => x
    case ETupleGet(r, _, _) => Root(r)
    case EGetField(r, _, _) => Root(r)
  }

  /** `env'` is `env` with (only) the variable `x` rebound. */
  predicate OnlyRoot(env: Env, env': Env, x: string)
  {
    x in env'.vars && env' == Bind(env, x, env'.vars[x])
  }

  /** An access path reads exactly its root variable. */
  lemma {:induction false} PathFV(e: Exp)
    requires IsPath(e)
    ensures FV(e) == {Root(e)}
  {
    match e
    case EVar(_, _) =>
    case ETupleGet(r, _, _) => PathFV(r);
    case EGetField(r, _, _) => PathFV(r);
  }

  lemma {:induction false} FieldLookupAt(fs: seq<VField>, f: string, d: Val, j: nat)
    requires j < |fs| && fs[j].name == f
    requires forall i :: 0 <= i < j ==> fs[i].name != f
    ensures FieldLookup(fs, f, d) == fs[j].val
  {
    if j > 0 {
      assert fs[0].name != f;
      FieldLookupAt(fs[1..], f, d, j - 1);
    }
  }

  /** Field `k` of a rebuilt record: the new value if it is the replaced field, the old one otherwise. */
  lemma RecordWithRead(heap: map<int, Val>, heap': map<int, Val>, tfs: seq<TField>, prev: Val, f: string, v: Val, k: nat, ty: Ty)
    requires DistinctNames(tfs) && k < |tfs|
    requires tfs[k].name != f ==> ty == tfs[k].ty
    ensures GetField(heap', RecordWith(heap, tfs, prev, f, v), tfs[k].name, ty)
         == if tfs[k].name == f then v else GetField(heap, prev, tfs[k].name, ty)
  {
    var fs := RecordWith(heap, tfs, prev, f, v).fields;
    FieldLookupAt(fs, tfs[k].name, Default(ty), k);
  }

  /** Component `k` of a rebuilt tuple: the new value if it is the replaced component, the old one otherwise. */
  lemma TupleWithRead(ts: seq<Ty>, prev: Val, i: nat, v: Val, k: nat, ty: Ty)
    requires k < |ts| && (k != i ==> ty == ts[k])
    ensures TupleItem(TupleWith(ts, prev, i, v), k, ty) == if k == i then v else TupleItem(prev, k, ty)
  {
  }

  /** Writing through an access path always succeeds and rebinds only the root variable. */
  lemma {:induction false} AssignPath(e: Exp, v: Val, env: Env)
    requires IsPath(e)
    ensures Assign(e, v, env).Some? && OnlyRoot(env, Assign(e, v, env).value, Root(e))
  {
    match e
    case EVar(_, _) =>
    case ETupleGet(r, i, _) => AssignPath(r, TupleWith(TypeOf(r).ts, Eval(r, env), i, v), env);
    case EGetField(r, f, _) => AssignPath(r, RecordWith(env.heap, TypeOf(r).fields, Eval(r, env), f, v), env);
  }

  /** After writing `v` through an access path, the path reads `v`. */
  lemma {:induction false} ReadBack(e: Exp, v: Val, env: Env)
    requires IsPath(e)
    ensures Assign(e, v, env).Some? && Eval(e, Assign(e, v, env).value) == v
  {
    AssignPath(e, v, env);
    match e
    case EVar(_, _) =>
    case ETupleGet(r, i, ty) =>
      var w := TupleWith(TypeOf(r).ts, Eval(r, env), i, v);
      ReadBack(r, w, env);
      TupleWithRead(TypeOf(r).ts, Eval(r, env), i, v, i, ty);
    case EGetField(r, f, ty) =>
      var tfs := TypeOf(r).fields;
      var w := RecordWith(env.heap, tfs, Eval(r, env), f, v);
      ReadBack(r, w, env);
      var k :| 0 <= k < |tfs| && TNames(tfs)[k] == f;
      AssignPath(r, w, env);
      RecordWithRead(env.heap, Assign(r, w, env).value.heap, tfs, Eval(r, env), f, v, k, ty);
  }

  /** A second write through the same access path overrides the first. */
  lemma {:induction false} Overwrite(e: Exp, a: Val, b: Val, env: Env)
    requires IsPath(e)
    ensures Assign(e, b, env).Some? && Assign(e, a, Assign(e, b, env).value) == Assign(e, a, env)
  {
    AssignPath(e, b, env);
    match e
    case EVar(x, _) =>
      assert env.vars[x := b][x := a] == env.vars[x := a];
    case ETupleGet(r, i, _) =>
      var ts, env2 := TypeOf(r).ts, Assign(e, b, env).value;
      var wb := TupleWith(ts, Eval(r, env), i, b);
      ReadBack(r, wb, env);
      TupleWithTwice(ts, Eval(r, env), i, a, b);
      Overwrite(r, TupleWith(ts, Eval(r, env), i, a), wb, env);
    case EGetField(r, f, _) =>
      var tfs, env2 := TypeOf(r).fields, Assign(e, b, env).value;
      var wb := RecordWith(env.heap, tfs, Eval(r, env), f, b);
      ReadBack(r, wb, env);
      AssignPath(r, wb, env);
      RecordWithTwice(env.heap, tfs, Eval(r, env), f, a, b);
      Overwrite(r, RecordWith(env.heap, tfs, Eval(r, env), f, a), wb, env);
  }

  lemma TupleWithTwice(ts: seq<Ty>, prev: Val, i: nat, a: Val, b: Val)
    ensures TupleWith(ts, TupleWith(ts, prev, i, b), i, a) == TupleWith(ts, prev, i, a)
  {
    var l, r := TupleWith(ts, TupleWith(ts, prev, i, b), i, a), TupleWith(ts, prev, i, a);
    forall k | 0 <= k < |ts| ensures l.items[k] == r.items[k] {
      TupleWithRead(ts, prev, i, b, k, ts[k]);
    }
  }

  lemma RecordWithTwice(heap: map<int, Val>, tfs: seq<TField>, prev: Val, f: string, a: Val, b: Val)
    requires DistinctNames(tfs)
    ensures RecordWith(heap, tfs, RecordWith(heap, tfs, prev, f, b), f, a) == RecordWith(heap, tfs, prev, f, a)
  {
    var l, r := RecordWith(heap, tfs, RecordWith(heap, tfs, prev, f, b), f, a), RecordWith(heap, tfs, prev, f, a);
    forall k | 0 <= k < |tfs| ensures l.fields[k] == r.fields[k] {
      RecordWithRead(heap, heap, tfs, prev, f, b, k, tfs[k].ty);
    }
  }

  /** Binding a variable the path does not start from commutes with writing through the path. */
  lemma {:induction false} AssignBind(e: Exp, v: Val, x: string, y: Val, env: Env)
    requires IsPath(e) && x != Root(e)
    ensures Assign(e, v, env).Some? && Assign(e, v, Bind(env, x, y)) == Some(Bind(Assign(e, v, env).value, x, y))
  {
    AssignPath(e, v, env);
    match e
    case EVar(z, _) =>
      assert env.vars[x := y][z := v] == env.vars[z := v][x := y];
    case ETupleGet(r, i, _) =>
      PathFV(r);
      EvalAgree(r, env, Bind(env, x, y));
      AssignBind(r, TupleWith(TypeOf(r).ts, Eval(r, env), i, v), x, y, env);
    case EGetField(r, f, _) =>
      PathFV(r);
      EvalAgree(r, env, Bind(env, x, y));
      AssignBind(r, RecordWith(env.heap, TypeOf(r).fields, Eval(r, env), f, v), x, y, env);
  }

  /** Restoring a loop variable after an iteration that left it alone otherwise. */
  lemma UnbindBind(e: Env, x: string, y: Val, before: Env)
    requires x in e.vars <==> x in before.vars
    requires x in before.vars ==> e.vars[x] == before.vars[x]
    ensures Unbind(Bind(e, x, y), x, before) == e
  {
    if x in before.vars {
      assert e.vars[x := y][x := before.vars[x]] == e.vars;
    } else {
      assert e.vars[x := y] - {x} == e.vars;
    }
  }

  // ---------------------------------------------------------------------
  // Congruence: equal parts give equal values

  lemma {:induction false} MapValsCongruence(l: Lambda, env1: Env, l': Lambda, env2: Env, s: seq<Val>)
    requires forall y :: EvalLambda(l, env1, y) == EvalLambda(l', env2, y)
    ensures MapVals(l, env1, s) == MapVals(l', env2, s)
    ensures FilterVals(l, env1, s) == FilterVals(l', env2, s)
    ensures FlatMapVals(l, env1, s) == FlatMapVals(l', env2, s)
    ensures MapEntries(l, env1, s) == MapEntries(l', env2, s)
  {
    if s != [] {
      MapValsCongruence(l, env1, l', env2, s[1..]);
    }
  }

  lemma MapCongruence(a: Exp, l: Lambda, env1: Env, a': Exp, l': Lambda, env2: Env)
    requires Eval(a, env1) == Eval(a', env2)
    requires forall y :: EvalLambda(l, env1, y) == EvalLambda(l', env2, y)
    ensures Eval(EMap(a, l), env1) == Eval(EMap(a', l'), env2)
    ensures Eval(EFilter(a, l), env1) == Eval(EFilter(a', l'), env2)
    ensures Eval(EFlatMap(a, l), env1) == Eval(EFlatMap(a', l'), env2)
  {
    MapValsCongruence(l, env1, l', env2, BagOf(Eval(a, env1)));
    MapRead(a, l, env1);
    MapRead(a', l', env2);
    FilterRead(a, l, env1);
    FilterRead(a', l', env2);
    FlatMapRead(a, l, env1);
    FlatMapRead(a', l', env2);
  }

  lemma MapRead(a: Exp, l: Lambda, env: Env)
    ensures Eval(EMap(a, l), env) == VBag(MapVals(l, env, BagOf(Eval(a, env))))
  {
  }

  lemma FilterRead(a: Exp, l: Lambda, env: Env)
    ensures Eval(EFilter(a, l), env) == VBag(FilterVals(l, env, BagOf(Eval(a, env))))
  {
  }

  lemma FlatMapRead(a: Exp, l: Lambda, env: Env)
    ensures Eval(EFlatMap(a, l), env) == VBag(FlatMapVals(l, env, BagOf(Eval(a, env))))
  {
  }

  lemma MakeMapCongruence(a: Exp, l: Lambda, env1: Env, a': Exp, l': Lambda, env2: Env)
    requires Eval(a, env1) == Eval(a', env2)
    requires forall y :: EvalLambda(l, env1, y) == EvalLambda(l', env2, y)
    ensures Eval(EMakeMap2(a, l), env1) == Eval(EMakeMap2(a', l'), env2)
  {
    MapValsCongruence(l, env1, l', env2, Dedup(BagOf(Eval(a, env1))));
  }

  lemma RecordCongruence(fs: seq<Field>, env1: Env, fs': seq<Field>, env2: Env)
    requires |fs| == |fs'|
    requires forall i :: 0 <= i < |fs| ==> fs[i].name == fs'[i].name
    requires forall i :: 0 <= i < |fs| ==> Eval(fs[i].val, env1) == Eval(fs'[i].val, env2)
    ensures Eval(EMakeRecord(fs), env1) == Eval(EMakeRecord(fs'), env2)
  {
  }

  lemma CallCongruence(g: string, args: seq<Exp>, env1: Env, args': seq<Exp>, env2: Env, ty: Ty)
    requires |args| == |args'| && env1.calls == env2.calls
    requires forall i :: 0 <= i < |args| ==> Eval(args[i], env1) == Eval(args'[i], env2)
    ensures Eval(ECall(g, args, ty), env1) == Eval(ECall(g, args', ty), env2)
  {
    forall i | 0 <= i < |args|
      ensures EvalArgs(args, env1)[i] == EvalArgs(args', env2)[i]
    {
      EvalArgsAt(args, env1, i);
      EvalArgsAt(args', env2, i);
    }
    assert EvalArgs(args, env1) == EvalArgs(args', env2);
  }

  lemma {:induction false} EvalArgsAt(args: seq<Exp>, env: Env, i: nat)
    requires i < |args|
    ensures EvalArgs(args, env)[i] == Eval(args[i], env)
  {
    if i > 0 {
      EvalArgsAt(args[1..], env, i - 1);
    }
  }


  // ---------------------------------------------------------------------
  // Evaluation depends only on the free variables

  predicate AgreeOn(env1: Env, env2: Env, xs: set<string>)
  {
    env1.heap == env2.heap && env1.calls == env2.calls
    && forall x | x in xs :: (x in env1.vars <==> x in env2.vars) && (x in env1.vars ==> env1.vars[x] == env2.vars[x])
  }

  /** The value of `e` depends only on its free variables. */
  lemma {:induction false} EvalAgree(e: Exp, env1: Env, env2: Env)
    requires AgreeOn(env1, env2, FV(e))
    ensures Eval(e, env1) == Eval(e, env2)
    decreases e, 2
  {
    if e.EMap? || e.EFilter? || e.EFlatMap? || e.EMakeMap2? {
      EvalAgreeBinder(e, env1, env2);
    } else if e.EMakeRecord? {
      forall i | 0 <= i < |e.fields| ensures Eval(e.fields[i].val, env1) == Eval(e.fields[i].val, env2) {
        FVFieldsMember(e.fields, i);
        EvalAgree(e.fields[i].val, env1, env2);
      }
      RecordCongruence(e.fields, env1, e.fields, env2);
    } else if e.ESingleton? || e.EUnary? || e.EBinary? || e.ECond? || e.EGetField? {
      EvalAgreeOperator(e, env1, env2);
    } else {
      EvalAgreeAccess(e, env1, env2);
    }
  }

  lemma {:induction false} EvalAgreeOperator(e: Exp, env1: Env, env2: Env)
    requires e.ESingleton? || e.EUnary? || e.EBinary? || e.ECond? || e.EGetField?
    requires AgreeOn(env1, env2, FV(e))
    ensures Eval(e, env1) == Eval(e, env2)
    decreases e, 1
  {
    match e
    case ESingleton(a) => EvalAgree(a, env1, env2);
    case EUnary(_, a) => EvalAgree(a, env1, env2);
    case EBinary(a, _, b) => EvalAgree(a, env1, env2); EvalAgree(b, env1, env2);
    case ECond(c, t, f) => EvalAgree(c, env1, env2); EvalAgree(t, env1, env2); EvalAgree(f, env1, env2);
    case EGetField(a, _, _) => EvalAgree(a, env1, env2);
  }

  lemma {:induction false} EvalAgreeAccess(e: Exp, env1: Env, env2: Env)
    requires !(e.EMap? || e.EFilter? || e.EFlatMap? || e.EMakeMap2? || e.EMakeRecord?)
    requires !(e.ESingleton? || e.EUnary? || e.EBinary? || e.ECond? || e.EGetField?)
    requires AgreeOn(env1, env2, FV(e))
    ensures Eval(e, env1) == Eval(e, env2)
    decreases e, 1
  {
    match e
    case EVar(_, _) =>
    case ENum(_) =>
    case EBool(_) =>
    case EEmpty(_) =>
    case ETupleGet(a, _, _) => EvalAgree(a, env1, env2);
    case ECall(g, args, ty) =>
      forall i | 0 <= i < |args| ensures Eval(args[i], env1) == Eval(args[i], env2) {
        FVArgsMember(args, i);
        EvalAgree(args[i], env1, env2);
      }
      CallCongruence(g, args, env1, args, env2, ty);
    case EMapGet(m, k, _) => EvalAgree(m, env1, env2); EvalAgree(k, env1, env2);
    case EMapKeys(m) => EvalAgree(m, env1, env2);
    case EStateVar(a) => EvalAgree(a, env1, env2);
    case EDefault(_) =>
  }

  lemma {:induction false} EvalAgreeBinder(e: Exp, env1: Env, env2: Env)
    requires e.EMap? || e.EFilter? || e.EFlatMap? || e.EMakeMap2?
    requires AgreeOn(env1, env2, FV(e))
    ensures Eval(e, env1) == Eval(e, env2)
    decreases e, 1
  {
    EvalAgree(e.e, env1, env2);
    EvalLambdaAgree(e.f, env1, env2);
    match e
    case EMap(a, l) => MapCongruence(a, l, env1, a, l, env2);
    case EFilter(a, l) => MapCongruence(a, l, env1, a, l, env2);
    case EFlatMap(a, l) => MapCongruence(a, l, env1, a, l, env2);
    case EMakeMap2(a, l) => MakeMapCongruence(a, l, env1, a, l, env2);
  }

  lemma {:induction false} EvalLambdaAgree(l: Lambda, env1: Env, env2: Env)
    requires AgreeOn(env1, env2, FVLambda(l))
    ensures forall y :: EvalLambda(l, env1, y) == EvalLambda(l, env2, y)
    decreases l.body, 3
  {
    forall y ensures EvalLambda(l, env1, y) == EvalLambda(l, env2, y) {
      EvalAgree(l.body, Bind(env1, l.x, y), Bind(env2, l.x, y));
    }
  }

  /** Evaluation ignores bindings of variables that are not free. */
  lemma EvalUpdateNotFree(e: Exp, env: Env, x: string, w: Val)
    requires x !in FV(e)
    ensures Eval(e, Bind(env, x, w)) == Eval(e, env)
  {
    EvalAgree(e, Bind(env, x, w), env);
  }

  // ---------------------------------------------------------------------
  // The substitution lemma

  /**
   * Evaluating `e[x := v]` is evaluating `e` with `x` bound to the value
   * of `v`, provided no lambda of `e` captures a free variable of `v`.
   */
  lemma {:induction false} EvalSubst(e: Exp, x: string, v: Exp, env: Env)
    requires BV(e) !! FV(v)
    ensures Eval(Subst(e, x, v), env) == Eval(e, Bind(env, x, Eval(v, env)))
    decreases e, 2
  {
    if e.EMap? || e.EFilter? || e.EFlatMap? || e.EMakeMap2? {
      EvalSubstBinder(e, x, v, env);
    } else if e.EMakeRecord? {
      var fs, fs' := e.fields, SubstFields(e.fields, x, v);
      var env' := Bind(env, x, Eval(v, env));
      forall i | 0 <= i < |fs| ensures Eval(fs'[i].val, env) == Eval(fs[i].val, env') {
        FVFieldsMember(fs, i);
        EvalSubst(fs[i].val, x, v, env);
      }
      RecordCongruence(fs', env, fs, env');
    } else if e.ESingleton? || e.EUnary? || e.EBinary? || e.ECond? || e.EGetField? {
      EvalSubstOperator(e, x, v, env);
    } else {
      EvalSubstAccess(e, x, v, env);
    }
  }

  lemma {:induction false} EvalSubstOperator(e: Exp, x: string, v: Exp, env: Env)
    requires e.ESingleton? || e.EUnary? || e.EBinary? || e.ECond? || e.EGetField?
    requires BV(e) !! FV(v)
    ensures Eval(Subst(e, x, v), env) == Eval(e, Bind(env, x, Eval(v, env)))
    decreases e, 1
  {
    match e
    case ESingleton(a) => EvalSubst(a, x, v, env);
    case EUnary(_, a) => EvalSubst(a, x, v, env);
    case EBinary(a, _, b) => EvalSubst(a, x, v, env); EvalSubst(b, x, v, env);
    case ECond(c, t, f) => EvalSubst(c, x, v, env); EvalSubst(t, x, v, env); EvalSubst(f, x, v, env);
    case EGetField(a, _, _) => EvalSubst(a, x, v, env);
  }

  lemma {:induction false} EvalSubstAccess(e: Exp, x: string, v: Exp, env: Env)
    requires !(e.EMap? || e.EFilter? || e.EFlatMap? || e.EMakeMap2? || e.EMakeRecord?)
    requires !(e.ESingleton? || e.EUnary? || e.EBinary? || e.ECond? || e.EGetField?)
    requires BV(e) !! FV(v)
    ensures Eval(Subst(e, x, v), env) == Eval(e, Bind(env, x, Eval(v, env)))
    decreases e, 1
  {
    match e
    case EVar(_, _) =>
    case ENum(_) =>
    case EBool(_) =>
    case EEmpty(_) =>
    case ETupleGet(a, _, _) => EvalSubst(a, x, v, env);
    case ECall(g, args, ty) =>
      var env' := Bind(env, x, Eval(v, env));
      forall i | 0 <= i < |args| ensures Eval(SubstArgs(args, x, v)[i], env) == Eval(args[i], env') {
        FVArgsMember(args, i);
        EvalSubst(args[i], x, v, env);
      }
      CallCongruence(g, SubstArgs(args, x, v), env, args, env', ty);
    case EMapGet(m, k, _) => EvalSubst(m, x, v, env); EvalSubst(k, x, v, env);
    case EMapKeys(m) => EvalSubst(m, x, v, env);
    case EStateVar(a) => EvalSubst(a, x, v, env);
    case EDefault(_) =>
  }

  lemma {:induction false} EvalSubstBinder(e: Exp, x: string, v: Exp, env: Env)
    requires e.EMap? || e.EFilter? || e.EFlatMap? || e.EMakeMap2?
    requires BV(e) !! FV(v)
    ensures Eval(Subst(e, x, v), env) == Eval(e, Bind(env, x, Eval(v, env)))
    decreases e, 1
  {
    var env' := Bind(env, x, Eval(v, env));
    var a, l := e.e, e.f;
    var a', l' := Subst(a, x, v), SubstLambda(l, x, v);
    assert BV(a) <= BV(e) && BVLambda(l) <= BV(e);
    EvalSubst(a, x, v, env);
    EvalLambdaSubst(l, x, v, env);
    if e.EMap? {
      assert Subst(e, x, v) == EMap(a', l');
      MapCongruence(a', l', env, a, l, env');
    } else if e.EFilter? {
      assert Subst(e, x, v) == EFilter(a', l');
      MapCongruence(a', l', env, a, l, env');
    } else if e.EFlatMap? {
      assert Subst(e, x, v) == EFlatMap(a', l');
      MapCongruence(a', l', env, a, l, env');
    } else {
      assert Subst(e, x, v) == EMakeMap2(a', l');
      MakeMapCongruence(a', l', env, a, l, env');
    }
  }

  lemma {:induction false} EvalLambdaSubst(l: Lambda, x: string, v: Exp, env: Env)
    requires BVLambda(l) !! FV(v)
    ensures forall y :: EvalLambda(SubstLambda(l, x, v), env, y) == EvalLambda(l, Bind(env, x, Eval(v, env)), y)
    decreases l.body, 4
  {
    forall y ensures EvalLambda(SubstLambda(l, x, v), env, y) == EvalLambda(l, Bind(env, x, Eval(v, env)), y) {
      EvalLambdaSubstAt(l, x, v, env, y);
    }
  }

  lemma {:induction false} EvalLambdaSubstAt(l: Lambda, x: string, v: Exp, env: Env, y: Val)
    requires BVLambda(l) !! FV(v)
    ensures EvalLambda(SubstLambda(l, x, v), env, y) == EvalLambda(l, Bind(env, x, Eval(v, env)), y)
    decreases l.body, 3
  {
    var w := Eval(v, env);
    if l.x == x {
      assert Bind(Bind(env, x, w), l.x, y) == Bind(env, l.x, y);
    } else {
      EvalSubst(l.body, x, v, Bind(env, l.x, y));
      EvalUpdateNotFree(v, env, l.x, y);
      assert Bind(Bind(env, l.x, y), x, w) == Bind(Bind(env, x, w), l.x, y);
    }
  }

  /** Applying a lambda is evaluating its body with the argument bound. */
  lemma ApplyToSound(l: Lambda, arg: Exp, env: Env)
    requires BV(l.body) !! FV(arg)
    ensures Eval(ApplyTo(l, arg), env) == EvalLambda(l, env, Eval(arg, env))
  {
    EvalSubst(l.body, l.x, arg, env);
  }

  /** Removing state-variable markers does not change the value. */
  lemma {:induction false} StripStateVarSound(e: Exp, env: Env)
    ensures Eval(StripStateVar(e), env) == Eval(e, env)
    decreases e, 2
  {
    if e.EMap? || e.EFilter? || e.EFlatMap? || e.EMakeMap2? {
      StripSoundBinder(e, env);
    } else if e.EMakeRecord? {
      var fs := e.fields;
      forall i | 0 <= i < |fs| ensures Eval(StripFields(fs)[i].val, env) == Eval(fs[i].val, env) {
        StripStateVarSound(fs[i].val, env);
      }
      RecordCongruence(StripFields(fs), env, fs, env);
    } else if e.ESingleton? || e.EUnary? || e.EBinary? || e.ECond? || e.EGetField? {
      StripSoundOperator(e, env);
    } else {
      StripSoundAccess(e, env);
    }
  }

  lemma {:induction false} StripSoundOperator(e: Exp, env: Env)
    requires e.ESingleton? || e.EUnary? || e.EBinary? || e.ECond? || e.EGetField?
    ensures Eval(StripStateVar(e), env) == Eval(e, env)
    decreases e, 1
  {
    match e
    case ESingleton(a) => StripStateVarSound(a, env);
    case EUnary(_, a) => StripStateVarSound(a, env);
    case EBinary(a, _, b) => StripStateVarSound(a, env); StripStateVarSound(b, env);
    case ECond(c, t, f) => StripStateVarSound(c, env); StripStateVarSound(t, env); StripStateVarSound(f, env);
    case EGetField(a, _, _) => StripStateVarSound(a, env);
  }

  lemma {:induction false} StripSoundAccess(e: Exp, env: Env)
    requires !(e.EMap? || e.EFilter? || e.EFlatMap? || e.EMakeMap2? || e.EMakeRecord?)
    requires !(e.ESingleton? || e.EUnary? || e.EBinary? || e.ECond? || e.EGetField?)
    ensures Eval(StripStateVar(e), env) == Eval(e, env)
    decreases e, 1
  {
    match e
    case EVar(_, _) =>
    case ENum(_) =>
    case EBool(_) =>
    case EEmpty(_) =>
    case ETupleGet(a, _, _) => StripStateVarSound(a, env);
    case ECall(g, args, ty) =>
      forall i | 0 <= i < |args| ensures Eval(StripArgs(args)[i], env) == Eval(args[i], env) {
        StripStateVarSound(args[i], env);
      }
      CallCongruence(g, StripArgs(args), env, args, env, ty);
    case EMapGet(m, k, _) => StripStateVarSound(m, env); StripStateVarSound(k, env);
    case EMapKeys(m) => StripStateVarSound(m, env);
    case EStateVar(a) => StripStateVarSound(a, env);
    case EDefault(_) =>
  }

  lemma {:induction false} StripSoundBinder(e: Exp, env: Env)
    requires e.EMap? || e.EFilter? || e.EFlatMap? || e.EMakeMap2?
    ensures Eval(StripStateVar(e), env) == Eval(e, env)
    decreases e, 1
  {
    var a, l := e.e, e.f;
    StripStateVarSound(a, env);
    StripLambdaSound(l, env);
    if e.EMakeMap2? {
      MakeMapCongruence(StripStateVar(a), StripLambda(l), env, a, l, env);
    } else {
      MapCongruence(StripStateVar(a), StripLambda(l), env, a, l, env);
    }
  }

  lemma {:induction false} StripLambdaSound(l: Lambda, env: Env)
    ensures forall y :: EvalLambda(StripLambda(l), env, y) == EvalLambda(l, env, y)
    decreases l.body, 3
  {
    forall y ensures EvalLambda(StripLambda(l), env, y) == EvalLambda(l, env, y) {
      StripStateVarSound(l.body, Bind(env, l.x, y));
    }
  }

  // ---------------------------------------------------------------------
  // Facts about bags

  predicate NoDup(s: seq<Val>)
  {
    forall i, j :: 0 <= i < j < |s| ==> s[i] != s[j]
  }

  lemma BagOfAdd(a: Val, b: Val)
    ensures BagOf(Add(a, b)) == BagOf(a) + BagOf(b)
  {
  }

  lemma BagOfSub(a: Val, b: Val)
    ensures BagOf(Sub(a, b)) == Diff(BagOf(a), BagOf(b))
  {
  }

  /** The elements of a bag expression built from smaller ones. */
  lemma EmptyElems(t: Ty, env: Env)
    ensures BagOf(Eval(EEmpty(t), env)) == []
  {
  }

  lemma SingletonElems(a: Exp, env: Env)
    ensures BagOf(Eval(ESingleton(a), env)) == [Eval(a, env)]
  {
  }

  lemma PlusElems(a: Exp, b: Exp, env: Env)
    ensures BagOf(Eval(EBinary(a, BPlus, b), env)) == BagOf(Eval(a, env)) + BagOf(Eval(b, env))
  {
    var u, v := Eval(a, env), Eval(b, env);
    assert Eval(EBinary(a, BPlus, b), env) == Add(u, v);
    BagOfAdd(u, v);
  }

  lemma MinusElems(a: Exp, b: Exp, env: Env)
    ensures multiset(BagOf(Eval(EBinary(a, BMinus, b), env))) == multiset(BagOf(Eval(a, env))) - multiset(BagOf(Eval(b, env)))
  {
    EvalBinary(a, BMinus, b, env);
    BagOfSub(Eval(a, env), Eval(b, env));
  }

  lemma InterElems(a: Exp, b: Exp, env: Env)
    ensures multiset(BagOf(Eval(EBinary(a, BIntersect, b), env))) == multiset(BagOf(Eval(a, env))) * multiset(BagOf(Eval(b, env)))
  {
    EvalBinary(a, BIntersect, b, env);
  }

  /** A binary operator applies to the values of its operands. */
  lemma EvalBinary(a: Exp, op: BOp, b: Exp, env: Env)
    ensures Eval(EBinary(a, op, b), env) == BinaryVal(op, Eval(a, env), Eval(b, env))
  {
  }

  /** A bag of at most one element has no duplicates to remove. */
  lemma DedupSmall(s: seq<Val>)
    requires |s| <= 1
    ensures Dedup(s) == s
  {
    if |s| == 1 {
      assert s[..0] == [];
    }
  }

  lemma {:induction false} FilterValsMember(l: Lambda, env: Env, s: seq<Val>, y: Val)
    ensures y in FilterVals(l, env, s) <==> y in s && Truthy(EvalLambda(l, env, y))
  {
    if s != [] {
      FilterValsMember(l, env, s[1..], y);
      assert s == [s[0]] + s[1..];
    }
  }

  lemma {:induction false} FilterValsSubBag(l: Lambda, env: Env, s: seq<Val>)
    ensures multiset(FilterVals(l, env, s)) <= multiset(s)
  {
    if s != [] {
      FilterValsSubBag(l, env, s[1..]);
      assert s == [s[0]] + s[1..];
    }
  }

  /** Mapping the identity lambda `x => x` gives the bag back. */
  lemma {:induction false} MapValsIdentity(l: Lambda, env: Env, s: seq<Val>)
    requires l.body.EVar? && l.body.id == l.x
    ensures MapVals(l, env, s) == s
  {
    if s != [] {
      MapValsIdentity(l, env, s[1..]);
      assert EvalLambda(l, env, s[0]) == Bind(env, l.x, s[0]).vars[l.x] == s[0];
      assert s == [s[0]] + s[1..];
    }
  }

  lemma {:induction false} FlatMapValsAppend(l: Lambda, env: Env, s: seq<Val>, t: seq<Val>)
    ensures FlatMapVals(l, env, s + t) == FlatMapVals(l, env, s) + FlatMapVals(l, env, t)
  {
    if s != [] {
      assert (s + t)[1..] == s[1..] + t;
      FlatMapValsAppend(l, env, s[1..], t);
    } else {
      assert s + t == t;
    }
  }

  lemma {:induction false} MapValsAppend(l: Lambda, env: Env, s: seq<Val>, t: seq<Val>)
    ensures MapVals(l, env, s + t) == MapVals(l, env, s) + MapVals(l, env, t)
  {
    if s != [] {
      assert (s + t)[1..] == s[1..] + t;
      MapValsAppend(l, env, s[1..], t);
    } else {
      assert s + t == t;
    }
  }

  lemma {:induction false} FilterValsAppend(l: Lambda, env: Env, s: seq<Val>, t: seq<Val>)
    ensures FilterVals(l, env, s + t) == FilterVals(l, env, s) + FilterVals(l, env, t)
  {
    if s != [] {
      assert (s + t)[1..] == s[1..] + t;
      FilterValsAppend(l, env, s[1..], t);
    } else {
      assert s + t == t;
    }
  }

  /** A composed lambda evaluates as the two lambdas one after the other. */
  lemma ComposeSound(f: Lambda, g: Lambda, env: Env, y: Val)
    requires ComposeSafe(f, g)
    ensures EvalLambda(Compose(f, g), env, y) == EvalLambda(f, env, EvalLambda(g, env, y))
  {
    var envy := Bind(env, g.x, y);
    var v := Eval(g.body, envy);
    ApplyToSound(f, g.body, envy);
    if g.x == f.x {
      assert Bind(envy, f.x, v) == Bind(env, f.x, v);
    } else {
      assert g.x !in FV(f.body);
      assert Bind(envy, f.x, v) == Bind(Bind(env, f.x, v), g.x, y);
      EvalUpdateNotFree(f.body, Bind(env, f.x, v), g.x, y);
    }
  }

  lemma {:induction false} MapValsCompose(f: Lambda, g: Lambda, env: Env, s: seq<Val>)
    requires ComposeSafe(f, g)
    ensures MapVals(Compose(f, g), env, s) == MapVals(f, env, MapVals(g, env, s))
  {
    if s != [] {
      ComposeSound(f, g, env, s[0]);
      MapValsCompose(f, g, env, s[1..]);
    }
  }

  /** Filtering mapped values is mapping the values that pass the composed test. */
  lemma {:induction false} FilterMapCommute(f: Lambda, g: Lambda, env: Env, s: seq<Val>)
    requires ComposeSafe(f, g)
    ensures FilterVals(f, env, MapVals(g, env, s)) == MapVals(g, env, FilterVals(Compose(f, g), env, s))
  {
    if s != [] {
      ComposeSound(f, g, env, s[0]);
      FilterMapCommute(f, g, env, s[1..]);
    }
  }

  /** A test whose body is literally true keeps every element. */
  lemma {:induction false} FilterValsTrue(f: Lambda, env: Env, s: seq<Val>)
    requires f.body == T
    ensures FilterVals(f, env, s) == s
  {
    if s != [] {
      FilterValsTrue(f, env, s[1..]);
      assert EvalLambda(f, env, s[0]) == VBool(true);
      assert s == [s[0]] + s[1..];
    }
  }

  /** Flat-mapping `x => [x]` gives the bag back. */
  lemma {:induction false} FlatMapValsSingleton(f: Lambda, env: Env, s: seq<Val>)
    requires f.body.ESingleton? && f.body.e.EVar? && f.body.e.id == f.x
    ensures FlatMapVals(f, env, s) == s
  {
    if s != [] {
      FlatMapValsSingleton(f, env, s[1..]);
      assert Eval(f.body.e, Bind(env, f.x, s[0])) == s[0];
      assert EvalLambda(f, env, s[0]) == VBag([s[0]]);
      assert s == [s[0]] + s[1..];
    }
  }

  /** Flat-mapping a lambda whose body is the empty bag gives nothing. */
  lemma {:induction false} FlatMapValsEmpty(f: Lambda, env: Env, s: seq<Val>)
    requires f.body.EEmpty?
    ensures FlatMapVals(f, env, s) == []
  {
    if s != [] {
      FlatMapValsEmpty(f, env, s[1..]);
      assert EvalLambda(f, env, s[0]) == VBag([]);
    }
  }
}
