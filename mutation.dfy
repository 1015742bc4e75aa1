/**
 * `mutate(e, s)`: the expression that denotes, before the statement `s`
 * runs, the value `e` has after it. Assignments become substitutions,
 * collection updates are desugared into assignments, conditionals into
 * conditional expressions, and sequences are applied back to front.
 */
module Mutation {
  import opened Syntax
  import opened Semantics

  // ---------------------------------------------------------------------
  // Variables of a statement

  /** Names free in some expression of `s`. */
  function FVStm(s: Stm): set<string>
  {
    match s
    case SNoOp => {}
    case SAssign(l, r) => FV(l) + FV(r)
    case SCall(t, _, args) => FV(t) + FVArgs(args)
    case SIf(c, a, b) => FV(c) + FVStm(a) + FVStm(b)
    case SSeq(a, b) => FVStm(a) + FVStm(b)
    case SDecl(_, v) => FV(v)
    case SForEach(_, _, it, body) => FV(it) + FVStm(body)
    case SMapDel(m, k) => FV(m) + FV(k)
    case SMapUpdate(m, k, _, _, change) => FV(m) + FV(k) + FVStm(change)
  }

  /** Names that some lambda inside an expression of `s` binds. */
  function BVStm(s: Stm): set<string>
  {
    match s
    case SNoOp => {}
    case SAssign(l, r) => BV(l) + BV(r)
    case SCall(t, _, args) => BV(t) + BVArgs(args)
    case SIf(c, a, b) => BV(c) + BVStm(a) + BVStm(b)
    case SSeq(a, b) => BVStm(a) + BVStm(b)
    case SDecl(_, v) => BV(v)
    case SForEach(_, _, it, body) => BV(it) + BVStm(body)
    case SMapDel(m, k) => BV(m) + BV(k)
    case SMapUpdate(m, k, _, _, change) => BV(m) + BV(k) + BVStm(change)
  }

  /**
   * Every declaration in `s` heads a sequence, whose rest is its scope
   * (a declaration elsewhere would leak its variable into the state after).
   */
  predicate DeclsScoped(s: Stm)
  {
    match s
    case SDecl(_, _) => false
    case SIf(_, a, b) => DeclsScoped(a) && DeclsScoped(b)
    case SSeq(s1, s2) => (s1.SDecl? || DeclsScoped(s1)) && DeclsScoped(s2)
    case _ => true
  }

  /**
   * No lambda of `e` or of `s` binds a name free in `s`, so each
   * substitution `mutate` performs captures nothing; declarations are
   * scoped; and each write through a handle meets an expression that reads
   * `val` only through handles of the written handle's type.
   */
  predicate Hygienic(e: Exp, s: Stm)
  {
    (BV(e) + BVStm(s)) !! FVStm(s) && DeclsScoped(s) && HandleReadsTyped(e, s)
  }

  /** Where `lval` writes through a handle, `e` reads `val` only through handles of that handle's type. */
  predicate LvalReadsTyped(lval: Exp, e: Exp)
  {
    match lval
    case EGetField(r, _, _) => if TypeOf(r).THandle? then ValReadsThrough(e, TypeOf(r)) else LvalReadsTyped(r, e)
    case _ => true
  }

  /** `lval` is a variable or a chain of record fields, with no handle on the way. */
  predicate LvalNoHandle(lval: Exp)
  {
    match lval
    case EGetField(r, _, _) => !TypeOf(r).THandle? && LvalNoHandle(r)
    case _ => true
  }

  /** No assignment or collection update in `s` writes through a handle. */
  predicate WritesNoHandle(s: Stm)
  {
    match s
    case SAssign(lhs, _) => LvalNoHandle(lhs)
    case SCall(target, _, _) => LvalNoHandle(target)
    case SIf(_, a, b) => WritesNoHandle(a) && WritesNoHandle(b)
    case SSeq(a, b) => WritesNoHandle(a) && WritesNoHandle(b)
    case _ => true
  }

  lemma {:induction false} LvalNoHandleTyped(lval: Exp, e: Exp)
    requires LvalNoHandle(lval)
    ensures LvalReadsTyped(lval, e)
    decreases lval
  {
    match lval
    case EGetField(r, _, _) => LvalNoHandleTyped(r, e);
    case _ =>
  }

  /** A statement that writes through no handle puts no condition on the reads of any expression. */
  lemma {:induction false} WritesNoHandleTyped(e: Exp, s: Stm)
    requires WritesNoHandle(s)
    ensures HandleReadsTyped(e, s)
    decreases Weight(s)
  {
    match s
    case SAssign(lhs, _) => LvalNoHandleTyped(lhs, e);
    case SCall(target, _, _) => LvalNoHandleTyped(target, e);
    case SIf(_, a, b) => WritesNoHandleTyped(e, a); WritesNoHandleTyped(e, b);
    case SSeq(s1, s2) =>
      if s1.SSeq? {
        WeightReassoc(s1.s1, s1.s2, s2);
        WritesNoHandleTyped(e, SSeq(s1.s1, SSeq(s1.s2, s2)));
      } else {
        WritesNoHandleTyped(e, s2);
        if Mutate(e, s2).Ok? {
          WritesNoHandleTyped(Mutate(e, s2).value, s1);
        }
      }
    case _ =>
  }

  /**
   * `LvalReadsTyped` at each assignment `mutate` rewrites through, for the
   * expression it rewrites there; the recursion follows `mutate`'s own.
   */
  predicate HandleReadsTyped(e: Exp, s: Stm)
    decreases Weight(s)
  {
    match s
    case SAssign(lhs, _) => LvalReadsTyped(lhs, e)
    case SCall(target, _, _) => LvalReadsTyped(target, e)
    case SIf(_, a, b) => HandleReadsTyped(e, a) && HandleReadsTyped(e, b)
    case SSeq(s1, s2) =>
      if s1.SSeq? then
        WeightReassoc(s1.s1, s1.s2, s2);
        HandleReadsTyped(e, SSeq(s1.s1, SSeq(s1.s2, s2)))
      else
        HandleReadsTyped(e, s2) && (Mutate(e, s2).Ok? ==> HandleReadsTyped(Mutate(e, s2).value, s1))
    case _ => true
  }

  // ---------------------------------------------------------------------
  // Field writes

  /** `_replace_field(record, field, v)`: the record with `field` set to `v`, every other field read from `record`. */
  function ReplaceField(record: Exp, field: string, v: Exp): Exp
    requires TypeOf(record).TRecord?
  {
    EMakeRecord(RebuiltFields(record, TypeOf(record).fields, field, v))
  }

  /** One field per declared field `tfs`: `v` for `field`, a read of `record` for the others. */
  function RebuiltFields(record: Exp, tfs: seq<TField>, field: string, v: Exp): seq<Field>
  {
    seq(|tfs|, i requires 0 <= i < |tfs| =>
      Field(tfs[i].name, if tfs[i].name == field then v else EGetField(record, tfs[i].name, tfs[i].ty)))
  }

  lemma {:induction false} FieldsBound(s: seq<Field>, fvs: set<string>, bvs: set<string>)
    requires forall i :: 0 <= i < |s| ==> FV(s[i].val) <= fvs && BV(s[i].val) <= bvs
    ensures FVFields(s) <= fvs && BVFields(s) <= bvs
  {
    if s != [] {
      FieldsBound(s[1..], fvs, bvs);
    }
  }

  /** The rebuilt record mentions only the record and the new value. */
  lemma ReplaceFieldVars(record: Exp, field: string, v: Exp)
    requires TypeOf(record).TRecord?
    ensures FV(ReplaceField(record, field, v)) <= FV(record) + FV(v)
    ensures BV(ReplaceField(record, field, v)) <= BV(record) + BV(v)
  {
    RebuiltFieldsVars(record, TypeOf(record).fields, field, v);
  }

  lemma RebuiltFieldsVars(record: Exp, tfs: seq<TField>, field: string, v: Exp)
    ensures FVFields(RebuiltFields(record, tfs, field, v)) <= FV(record) + FV(v)
    ensures BVFields(RebuiltFields(record, tfs, field, v)) <= BV(record) + BV(v)
  {
    var fs := RebuiltFields(record, tfs, field, v);
    forall i | 0 <= i < |fs|
      ensures FV(fs[i].val) <= FV(record) + FV(v) && BV(fs[i].val) <= BV(record) + BV(v)
    {
      if tfs[i].name != field {
        assert fs[i].val == EGetField(record, tfs[i].name, tfs[i].ty);
      }
    }
    FieldsBound(fs, FV(record) + FV(v), BV(record) + BV(v));
  }

  /** The rebuilt record evaluates to the old record with exactly that field replaced. */
  lemma ReplaceFieldSound(record: Exp, field: string, v: Exp, env: Env)
    requires TypeOf(record).TRecord?
    ensures Eval(ReplaceField(record, field, v), env)
         == RecordWith(env.heap, TypeOf(record).fields, Eval(record, env), field, Eval(v, env))
  {
  }

  // ---------------------------------------------------------------------
  // Writes through a handle

  /**
   * `replace_get_value(e, ptr, v)`: every read `h.val` of a handle of
   * `ptr`'s type becomes `(h == ptr) ? v : h.val`, since any such handle
   * may alias `ptr`.
   */
  function ReplaceGetValue(e: Exp, ptr: Exp, v: Exp): Exp
  {
    match e
    case EVar(_, _) => e
    case ENum(_) => e
    case EBool(_) => e
    case EEmpty(_) => e
    case ESingleton(a) => ESingleton(ReplaceGetValue(a, ptr, v))
    case EUnary(op, a) => EUnary(op, ReplaceGetValue(a, ptr, v))
    case EBinary(a, op, b) => EBinary(ReplaceGetValue(a, ptr, v), op, ReplaceGetValue(b, ptr, v))
    case ECond(c, t, f) => ECond(ReplaceGetValue(c, ptr, v), ReplaceGetValue(t, ptr, v), ReplaceGetValue(f, ptr, v))
    case EGetField(a, f, ty) =>
      var a' := ReplaceGetValue(a, ptr, v);
      if TypeOf(a) == TypeOf(ptr) && f == "val" then ECond(EEq(a', ptr), v, EGetField(a', f, ty))
      else EGetField(a', f, ty)
    case EMakeRecord(fs) => EMakeRecord(ReplaceGetValueFields(fs, ptr, v))
    case ETupleGet(a, i, ty) => ETupleGet(ReplaceGetValue(a, ptr, v), i, ty)
    case ECall(g, args, ty) => ECall(g, ReplaceGetValueArgs(args, ptr, v), ty)
    case EMap(a, l) => EMap(ReplaceGetValue(a, ptr, v), ReplaceGetValueLambda(l, ptr, v))
    case EFilter(a, l) => EFilter(ReplaceGetValue(a, ptr, v), ReplaceGetValueLambda(l, ptr, v))
    case EFlatMap(a, l) => EFlatMap(ReplaceGetValue(a, ptr, v), ReplaceGetValueLambda(l, ptr, v))
    case EMakeMap2(a, l) => EMakeMap2(ReplaceGetValue(a, ptr, v), ReplaceGetValueLambda(l, ptr, v))
    case EMapGet(m, k, ty) => EMapGet(ReplaceGetValue(m, ptr, v), ReplaceGetValue(k, ptr, v), ty)
    case EMapKeys(m) => EMapKeys(ReplaceGetValue(m, ptr, v))
    case EStateVar(a) => EStateVar(ReplaceGetValue(a, ptr, v))
    case EDefault(_) => e
  }

  function ReplaceGetValueLambda(l: Lambda, ptr: Exp, v: Exp): Lambda
  {
    Lambda(l.x, l.xty, ReplaceGetValue(l.body, ptr, v))
  }

  function ReplaceGetValueArgs(s: seq<Exp>, ptr: Exp, v: Exp): (r: seq<Exp>)
    ensures |r| == |s|
  {
    if s == [] then [] else [ReplaceGetValue(s[0], ptr, v)] + ReplaceGetValueArgs(s[1..], ptr, v)
  }

  function ReplaceGetValueFields(s: seq<Field>, ptr: Exp, v: Exp): (r: seq<Field>)
    ensures |r| == |s|
  {
    if s == [] then []
    else [Field(s[0].name, ReplaceGetValue(s[0].val, ptr, v))] + ReplaceGetValueFields(s[1..], ptr, v)
  }

  /** `e` reads no `val` field of a handle of type `t`. */
  predicate NoValReads(e: Exp, t: Ty)
  {
    match e
    case EVar(_, _) => true
    case ENum(_) => true
    case EBool(_) => true
    case EEmpty(_) => true
    case ESingleton(a) => NoValReads(a, t)
    case EUnary(_, a) => NoValReads(a, t)
    case EBinary(a, _, b) => NoValReads(a, t) && NoValReads(b, t)
    case ECond(c, x, y) => NoValReads(c, t) && NoValReads(x, t) && NoValReads(y, t)
    case EGetField(a, f, _) => !(TypeOf(a) == t && f == "val") && NoValReads(a, t)
    case EMakeRecord(fs) => forall i :: 0 <= i < |fs| ==> NoValReads(fs[i].val, t)
    case ETupleGet(a, _, _) => NoValReads(a, t)
    case ECall(_, args, _) => forall i :: 0 <= i < |args| ==> NoValReads(args[i], t)
    case EMap(a, l) => NoValReads(a, t) && NoValReads(l.body, t)
    case EFilter(a, l) => NoValReads(a, t) && NoValReads(l.body, t)
    case EFlatMap(a, l) => NoValReads(a, t) && NoValReads(l.body, t)
    case EMakeMap2(a, l) => NoValReads(a, t) && NoValReads(l.body, t)
    case EMapGet(m, k, _) => NoValReads(m, t) && NoValReads(k, t)
    case EMapKeys(m) => NoValReads(m, t)
    case EStateVar(a) => NoValReads(a, t)
    case EDefault(_) => true
  }

  /** An expression that reads no `val` through such a handle is left as it is. */
  lemma {:induction false} ReplaceGetValueUnread(e: Exp, ptr: Exp, v: Exp)
    requires NoValReads(e, TypeOf(ptr))
    ensures ReplaceGetValue(e, ptr, v) == e
    decreases e, 1
  {
    match e
    case ESingleton(a) => ReplaceGetValueUnread(a, ptr, v);
    case EUnary(_, a) => ReplaceGetValueUnread(a, ptr, v);
    case EBinary(a, _, b) => ReplaceGetValueUnread(a, ptr, v); ReplaceGetValueUnread(b, ptr, v);
    case ECond(c, x, y) =>
      ReplaceGetValueUnread(c, ptr, v); ReplaceGetValueUnread(x, ptr, v); ReplaceGetValueUnread(y, ptr, v);
    case EGetField(a, _, _) => ReplaceGetValueUnread(a, ptr, v);
    case EMakeRecord(fs) => ReplaceGetValueFieldsUnread(fs, ptr, v);
    case ECall(_, args, _) => ReplaceGetValueArgsUnread(args, ptr, v);
    case _ => ReplaceGetValueUnreadRest(e, ptr, v);
  }

  lemma {:induction false} ReplaceGetValueUnreadRest(e: Exp, ptr: Exp, v: Exp)
    requires NoValReads(e, TypeOf(ptr))
    requires !(e.ESingleton? || e.EUnary? || e.EBinary? || e.ECond? || e.EGetField? || e.EMakeRecord? || e.ECall?)
    ensures ReplaceGetValue(e, ptr, v) == e
    decreases e, 0
  {
    match e
    case EVar(_, _) =>
    case ENum(_) =>
    case EBool(_) =>
    case EEmpty(_) =>
    case ETupleGet(a, _, _) => ReplaceGetValueUnread(a, ptr, v);
    case EMap(a, l) => ReplaceGetValueUnread(a, ptr, v); ReplaceGetValueUnread(l.body, ptr, v);
    case EFilter(a, l) => ReplaceGetValueUnread(a, ptr, v); ReplaceGetValueUnread(l.body, ptr, v);
    case EFlatMap(a, l) => ReplaceGetValueUnread(a, ptr, v); ReplaceGetValueUnread(l.body, ptr, v);
    case EMakeMap2(a, l) => ReplaceGetValueUnread(a, ptr, v); ReplaceGetValueUnread(l.body, ptr, v);
    case EMapGet(m, k, _) => ReplaceGetValueUnread(m, ptr, v); ReplaceGetValueUnread(k, ptr, v);
    case EMapKeys(m) => ReplaceGetValueUnread(m, ptr, v);
    case EStateVar(a) => ReplaceGetValueUnread(a, ptr, v);
    case EDefault(_) =>
  }

  lemma {:induction false} ReplaceGetValueArgsUnread(s: seq<Exp>, ptr: Exp, v: Exp)
    requires forall i :: 0 <= i < |s| ==> NoValReads(s[i], TypeOf(ptr))
    ensures ReplaceGetValueArgs(s, ptr, v) == s
    decreases s
  {
    if s != [] {
      ReplaceGetValueUnread(s[0], ptr, v);
      ReplaceGetValueArgsUnread(s[1..], ptr, v);
    }
  }

  lemma {:induction false} ReplaceGetValueFieldsUnread(s: seq<Field>, ptr: Exp, v: Exp)
    requires forall i :: 0 <= i < |s| ==> NoValReads(s[i].val, TypeOf(ptr))
    ensures ReplaceGetValueFields(s, ptr, v) == s
    decreases s
  {
    if s != [] {
      ReplaceGetValueUnread(s[0].val, ptr, v);
      ReplaceGetValueFieldsUnread(s[1..], ptr, v);
    }
  }

  /** The rewrite introduces no binders beyond those of `e`, `ptr` and `v`. */
  lemma {:induction false} ReplaceGetValueBinders(e: Exp, ptr: Exp, v: Exp)
    ensures BV(ReplaceGetValue(e, ptr, v)) <= BV(e) + BV(ptr) + BV(v)
    decreases e, 1
  {
    if e.ESingleton? || e.EUnary? || e.EBinary? || e.ECond? {
      ReplaceGetValueBindersOp(e, ptr, v);
    } else if e.EGetField? || e.EMakeRecord? || e.ECall? || e.ETupleGet? {
      ReplaceGetValueBindersAccess(e, ptr, v);
    } else if e.EMap? || e.EFilter? || e.EFlatMap? || e.EMakeMap2? {
      ReplaceGetValueBindersLambda(e, ptr, v);
    } else {
      ReplaceGetValueBindersRest(e, ptr, v);
    }
  }

  lemma {:induction false} ReplaceGetValueBindersOp(e: Exp, ptr: Exp, v: Exp)
    requires e.ESingleton? || e.EUnary? || e.EBinary? || e.ECond?
    ensures BV(ReplaceGetValue(e, ptr, v)) <= BV(e) + BV(ptr) + BV(v)
    decreases e, 0
  {
    match e
    case ESingleton(a) => ReplaceGetValueBinders(a, ptr, v);
    case EUnary(_, a) => ReplaceGetValueBinders(a, ptr, v);
    case EBinary(a, _, b) => ReplaceGetValueBinders(a, ptr, v); ReplaceGetValueBinders(b, ptr, v);
    case ECond(c, x, y) =>
      ReplaceGetValueBinders(c, ptr, v); ReplaceGetValueBinders(x, ptr, v); ReplaceGetValueBinders(y, ptr, v);
  }

  lemma {:induction false} ReplaceGetValueBindersAccess(e: Exp, ptr: Exp, v: Exp)
    requires e.EGetField? || e.EMakeRecord? || e.ECall? || e.ETupleGet?
    ensures BV(ReplaceGetValue(e, ptr, v)) <= BV(e) + BV(ptr) + BV(v)
    decreases e, 0
  {
    match e
    case EGetField(a, f, ty) =>
      ReplaceGetValueBinders(a, ptr, v);
      ReplaceGetValueRead(a, f, ty, ptr, v);
    case EMakeRecord(fs) => ReplaceGetValueFieldsBinders(fs, ptr, v);
    case ECall(_, args, _) => ReplaceGetValueArgsBinders(args, ptr, v);
    case ETupleGet(a, _, _) => ReplaceGetValueBinders(a, ptr, v);
  }

  lemma ReplaceGetValueRead(a: Exp, f: string, ty: Ty, ptr: Exp, v: Exp)
    ensures BV(ReplaceGetValue(EGetField(a, f, ty), ptr, v)) <= BV(ReplaceGetValue(a, ptr, v)) + BV(ptr) + BV(v)
  {
    var a' := ReplaceGetValue(a, ptr, v);
    if TypeOf(a) == TypeOf(ptr) && f == "val" {
      assert ReplaceGetValue(EGetField(a, f, ty), ptr, v) == ECond(EEq(a', ptr), v, EGetField(a', f, ty));
    } else {
      assert ReplaceGetValue(EGetField(a, f, ty), ptr, v) == EGetField(a', f, ty);
    }
  }

  lemma {:induction false} ReplaceGetValueBindersLambda(e: Exp, ptr: Exp, v: Exp)
    requires e.EMap? || e.EFilter? || e.EFlatMap? || e.EMakeMap2?
    ensures BV(ReplaceGetValue(e, ptr, v)) <= BV(e) + BV(ptr) + BV(v)
    decreases e, 0
  {
    ReplaceGetValueBinders(e.e, ptr, v);
    ReplaceGetValueLambdaBinders(e.f, ptr, v);
  }

  lemma {:induction false} ReplaceGetValueLambdaBinders(l: Lambda, ptr: Exp, v: Exp)
    ensures BVLambda(ReplaceGetValueLambda(l, ptr, v)) <= BVLambda(l) + BV(ptr) + BV(v)
    decreases l, 0
  {
    ReplaceGetValueBinders(l.body, ptr, v);
  }

  lemma {:induction false} ReplaceGetValueBindersRest(e: Exp, ptr: Exp, v: Exp)
    requires !(e.ESingleton? || e.EUnary? || e.EBinary? || e.ECond?)
    requires !(e.EGetField? || e.EMakeRecord? || e.ECall? || e.ETupleGet?)
    requires !(e.EMap? || e.EFilter? || e.EFlatMap? || e.EMakeMap2?)
    ensures BV(ReplaceGetValue(e, ptr, v)) <= BV(e) + BV(ptr) + BV(v)
    decreases e, 0
  {
    match e
    case EMapGet(m, k, _) => ReplaceGetValueBinders(m, ptr, v); ReplaceGetValueBinders(k, ptr, v);
    case EMapKeys(m) => ReplaceGetValueBinders(m, ptr, v);
    case EStateVar(a) => ReplaceGetValueBinders(a, ptr, v);
    case _ =>
  }

  lemma {:induction false} ReplaceGetValueArgsBinders(s: seq<Exp>, ptr: Exp, v: Exp)
    ensures BVArgs(ReplaceGetValueArgs(s, ptr, v)) <= BVArgs(s) + BV(ptr) + BV(v)
    decreases s
  {
    if s != [] {
      ReplaceGetValueBinders(s[0], ptr, v);
      ReplaceGetValueArgsBinders(s[1..], ptr, v);
    }
  }

  lemma {:induction false} ReplaceGetValueFieldsBinders(s: seq<Field>, ptr: Exp, v: Exp)
    ensures BVFields(ReplaceGetValueFields(s, ptr, v)) <= BVFields(s) + BV(ptr) + BV(v)
    decreases s
  {
    if s != [] {
      ReplaceGetValueBinders(s[0].val, ptr, v);
      ReplaceGetValueFieldsBinders(s[1..], ptr, v);
    }
  }

  /** Every `val` that `e` reads is read through an expression of type `t`. */
  predicate ValReadsThrough(e: Exp, t: Ty)
  {
    match e
    case EVar(_, _) => true
    case ENum(_) => true
    case EBool(_) => true
    case EEmpty(_) => true
    case ESingleton(a) => ValReadsThrough(a, t)
    case EUnary(_, a) => ValReadsThrough(a, t)
    case EBinary(a, _, b) => ValReadsThrough(a, t) && ValReadsThrough(b, t)
    case ECond(c, x, y) => ValReadsThrough(c, t) && ValReadsThrough(x, t) && ValReadsThrough(y, t)
    case EGetField(a, f, _) => (f == "val" ==> TypeOf(a) == t) && ValReadsThrough(a, t)
    case EMakeRecord(fs) => forall i :: 0 <= i < |fs| ==> ValReadsThrough(fs[i].val, t)
    case ETupleGet(a, _, _) => ValReadsThrough(a, t)
    case ECall(_, args, _) => forall i :: 0 <= i < |args| ==> ValReadsThrough(args[i], t)
    case EMap(a, l) => ValReadsThrough(a, t) && ValReadsThrough(l.body, t)
    case EFilter(a, l) => ValReadsThrough(a, t) && ValReadsThrough(l.body, t)
    case EFlatMap(a, l) => ValReadsThrough(a, t) && ValReadsThrough(l.body, t)
    case EMakeMap2(a, l) => ValReadsThrough(a, t) && ValReadsThrough(l.body, t)
    case EMapGet(m, k, _) => ValReadsThrough(m, t) && ValReadsThrough(k, t)
    case EMapKeys(m) => ValReadsThrough(m, t)
    case EStateVar(a) => ValReadsThrough(a, t)
    case EDefault(_) => true
  }

  /**
   * The semantic contract of `replace_get_value`: the rewritten expression,
   * evaluated before the write, has the value `e` has once the new value is
   * stored at `ptr`'s address. A handle equal to `ptr` is an alias and reads
   * the new value; every other handle reads what it read before. This holds
   * when no lambda of `e` captures a variable of `ptr` or of the new value,
   * and `e` reads `val` only through handles of `ptr`'s type.
   */
  lemma {:induction false} ReplaceGetValueSound(e: Exp, ptr: Exp, v: Exp, env: Env)
    requires Eval(ptr, env).VHandle?
    requires BV(e) !! (FV(ptr) + FV(v))
    requires ValReadsThrough(e, TypeOf(ptr))
    ensures Eval(ReplaceGetValue(e, ptr, v), env) == Eval(e, Store(env, Eval(ptr, env).addr, Eval(v, env)))
    decreases e, 2
  {
    if e.EMap? || e.EFilter? || e.EFlatMap? || e.EMakeMap2? {
      ReplaceGetValueSoundBinder(e, ptr, v, env);
    } else if e.EMakeRecord? {
      ReplaceGetValueSoundRecord(e, ptr, v, env);
    } else if e.ESingleton? || e.EUnary? || e.EBinary? || e.ECond? {
      ReplaceGetValueSoundOperator(e, ptr, v, env);
    } else if e.EGetField? {
      ReplaceGetValueSoundRead(e, ptr, v, env);
    } else {
      ReplaceGetValueSoundAccess(e, ptr, v, env);
    }
  }

  lemma {:induction false} ReplaceGetValueSoundOperator(e: Exp, ptr: Exp, v: Exp, env: Env)
    requires e.ESingleton? || e.EUnary? || e.EBinary? || e.ECond?
    requires Eval(ptr, env).VHandle?
    requires BV(e) !! (FV(ptr) + FV(v))
    requires ValReadsThrough(e, TypeOf(ptr))
    ensures Eval(ReplaceGetValue(e, ptr, v), env) == Eval(e, Store(env, Eval(ptr, env).addr, Eval(v, env)))
    decreases e, 1
  {
    match e
    case ESingleton(a) => ReplaceGetValueSound(a, ptr, v, env);
    case EUnary(_, a) => ReplaceGetValueSound(a, ptr, v, env);
    case EBinary(a, _, b) => ReplaceGetValueSound(a, ptr, v, env); ReplaceGetValueSound(b, ptr, v, env);
    case ECond(c, x, y) =>
      ReplaceGetValueSound(c, ptr, v, env); ReplaceGetValueSound(x, ptr, v, env); ReplaceGetValueSound(y, ptr, v, env);
  }

  /**
   * A read `h.val` becomes `(h == ptr) ? v : h.val`: the new value when `h`
   * is an alias of `ptr`, the unchanged heap entry otherwise.
   */
  lemma {:induction false} ReplaceGetValueSoundRead(e: Exp, ptr: Exp, v: Exp, env: Env)
    requires e.EGetField?
    requires Eval(ptr, env).VHandle?
    requires BV(e) !! (FV(ptr) + FV(v))
    requires ValReadsThrough(e, TypeOf(ptr))
    ensures Eval(ReplaceGetValue(e, ptr, v), env) == Eval(e, Store(env, Eval(ptr, env).addr, Eval(v, env)))
    decreases e, 1
  {
    ReplaceGetValueSound(e.e, ptr, v, env);
    ReadStep(e.e, e.field, e.ty, ptr, v, env);
  }

  /**
   * A read `h.val` becomes `(h == ptr) ? v : h.val`: the new value when `h`
   * is an alias of `ptr`, the unchanged heap entry otherwise.
   */
  lemma ReadStep(a: Exp, f: string, ty: Ty, ptr: Exp, v: Exp, env: Env)
    requires Eval(ptr, env).VHandle?
    requires f == "val" ==> TypeOf(a) == TypeOf(ptr)
    requires Eval(ReplaceGetValue(a, ptr, v), env) == Eval(a, Store(env, Eval(ptr, env).addr, Eval(v, env)))
    ensures Eval(ReplaceGetValue(EGetField(a, f, ty), ptr, v), env)
         == Eval(EGetField(a, f, ty), Store(env, Eval(ptr, env).addr, Eval(v, env)))
  {
    if f == "val" {
      ReadStepAlias(a, ty, ptr, v, env);
    } else {
      var p, w := Eval(ptr, env), Eval(v, env);
      var env' := Store(env, p.addr, w);
      ReplaceOtherRead(a, f, ty, ptr, v);
      FieldRead(ReplaceGetValue(a, ptr, v), f, ty, env);
      FieldRead(a, f, ty, env');
      GetFieldStore(env.heap, p.addr, w, Eval(a, env'), f, ty);
    }
  }

  /** A read of any other field is rewritten only inside. */
  lemma ReplaceOtherRead(a: Exp, f: string, ty: Ty, ptr: Exp, v: Exp)
    requires f != "val"
    ensures ReplaceGetValue(EGetField(a, f, ty), ptr, v) == EGetField(ReplaceGetValue(a, ptr, v), f, ty)
  {
  }

  lemma ReadStepAlias(a: Exp, ty: Ty, ptr: Exp, v: Exp, env: Env)
    requires Eval(ptr, env).VHandle?
    requires TypeOf(a) == TypeOf(ptr)
    requires Eval(ReplaceGetValue(a, ptr, v), env) == Eval(a, Store(env, Eval(ptr, env).addr, Eval(v, env)))
    ensures Eval(ReplaceGetValue(EGetField(a, "val", ty), ptr, v), env)
         == Eval(EGetField(a, "val", ty), Store(env, Eval(ptr, env).addr, Eval(v, env)))
  {
    var p, w := Eval(ptr, env), Eval(v, env);
    var env' := Store(env, p.addr, w);
    var a' := ReplaceGetValue(a, ptr, v);
    ReplaceValRead(a, ty, ptr, v);
    GuardedRead(a', ptr, v, ty, env);
    FieldRead(a, "val", ty, env');
    GetFieldStore(env.heap, p.addr, w, Eval(a, env'), "val", ty);
  }

  /** A read of `val` through an expression of the written handle's type becomes a guarded read. */
  lemma ReplaceValRead(a: Exp, ty: Ty, ptr: Exp, v: Exp)
    requires TypeOf(a) == TypeOf(ptr)
    ensures ReplaceGetValue(EGetField(a, "val", ty), ptr, v)
         == ECond(EEq(ReplaceGetValue(a, ptr, v), ptr), v, EGetField(ReplaceGetValue(a, ptr, v), "val", ty))
  {
  }

  /** The value of `(h == ptr) ? v : h.val`. */
  lemma GuardedRead(h: Exp, ptr: Exp, v: Exp, ty: Ty, env: Env)
    ensures Eval(ECond(EEq(h, ptr), v, EGetField(h, "val", ty)), env)
         == if Eval(h, env) == Eval(ptr, env) then Eval(v, env) else GetField(env.heap, Eval(h, env), "val", ty)
  {
    assert Eval(EEq(h, ptr), env) == VBool(Eval(h, env) == Eval(ptr, env));
  }

  lemma {:induction false} ReplaceGetValueSoundAccess(e: Exp, ptr: Exp, v: Exp, env: Env)
    requires !(e.EMap? || e.EFilter? || e.EFlatMap? || e.EMakeMap2? || e.EMakeRecord?)
    requires !(e.ESingleton? || e.EUnary? || e.EBinary? || e.ECond? || e.EGetField?)
    requires Eval(ptr, env).VHandle?
    requires BV(e) !! (FV(ptr) + FV(v))
    requires ValReadsThrough(e, TypeOf(ptr))
    ensures Eval(ReplaceGetValue(e, ptr, v), env) == Eval(e, Store(env, Eval(ptr, env).addr, Eval(v, env)))
    decreases e, 1
  {
    match e
    case EVar(_, _) =>
    case ENum(_) =>
    case EBool(_) =>
    case EEmpty(_) =>
    case ETupleGet(a, _, _) => ReplaceGetValueSound(a, ptr, v, env);
    case ECall(_, _, _) => ReplaceGetValueSoundCall(e, ptr, v, env);
    case EMapGet(m, k, _) => ReplaceGetValueSound(m, ptr, v, env); ReplaceGetValueSound(k, ptr, v, env);
    case EMapKeys(m) => ReplaceGetValueSound(m, ptr, v, env);
    case EStateVar(a) => ReplaceGetValueSound(a, ptr, v, env);
    case EDefault(_) =>
  }

  lemma {:induction false} ReplaceGetValueSoundCall(e: Exp, ptr: Exp, v: Exp, env: Env)
    requires e.ECall?
    requires Eval(ptr, env).VHandle?
    requires BV(e) !! (FV(ptr) + FV(v))
    requires ValReadsThrough(e, TypeOf(ptr))
    ensures Eval(ReplaceGetValue(e, ptr, v), env) == Eval(e, Store(env, Eval(ptr, env).addr, Eval(v, env)))
    decreases e, 0
  {
    var args := e.args;
    var args' := ReplaceGetValueArgs(args, ptr, v);
    var env' := Store(env, Eval(ptr, env).addr, Eval(v, env));
    forall i | 0 <= i < |args| ensures Eval(args'[i], env) == Eval(args[i], env') {
      FVArgsMember(args, i);
      ReplaceGetValueArgsAt(args, ptr, v, i);
      ReplaceGetValueSound(args[i], ptr, v, env);
    }
    CallCongruence(e.func, args', env, args, env', e.ty);
  }

  lemma {:induction false} ReplaceGetValueSoundRecord(e: Exp, ptr: Exp, v: Exp, env: Env)
    requires e.EMakeRecord?
    requires Eval(ptr, env).VHandle?
    requires BV(e) !! (FV(ptr) + FV(v))
    requires ValReadsThrough(e, TypeOf(ptr))
    ensures Eval(ReplaceGetValue(e, ptr, v), env) == Eval(e, Store(env, Eval(ptr, env).addr, Eval(v, env)))
    decreases e, 1
  {
    var fs := e.fields;
    var fs' := ReplaceGetValueFields(fs, ptr, v);
    var env' := Store(env, Eval(ptr, env).addr, Eval(v, env));
    forall i | 0 <= i < |fs| ensures fs'[i].name == fs[i].name && Eval(fs'[i].val, env) == Eval(fs[i].val, env') {
      FVFieldsMember(fs, i);
      ReplaceGetValueFieldsAt(fs, ptr, v, i);
      ReplaceGetValueSound(fs[i].val, ptr, v, env);
    }
    RecordCongruence(fs', env, fs, env');
  }

  lemma {:induction false} ReplaceGetValueArgsAt(s: seq<Exp>, ptr: Exp, v: Exp, i: nat)
    requires i < |s|
    ensures ReplaceGetValueArgs(s, ptr, v)[i] == ReplaceGetValue(s[i], ptr, v)
    decreases s
  {
    if i > 0 {
      ReplaceGetValueArgsAt(s[1..], ptr, v, i - 1);
    }
  }

  lemma {:induction false} ReplaceGetValueFieldsAt(s: seq<Field>, ptr: Exp, v: Exp, i: nat)
    requires i < |s|
    ensures ReplaceGetValueFields(s, ptr, v)[i] == Field(s[i].name, ReplaceGetValue(s[i].val, ptr, v))
    decreases s
  {
    if i > 0 {
      ReplaceGetValueFieldsAt(s[1..], ptr, v, i - 1);
    }
  }

  lemma {:induction false} ReplaceGetValueSoundBinder(e: Exp, ptr: Exp, v: Exp, env: Env)
    requires e.EMap? || e.EFilter? || e.EFlatMap? || e.EMakeMap2?
    requires Eval(ptr, env).VHandle?
    requires BV(e) !! (FV(ptr) + FV(v))
    requires ValReadsThrough(e, TypeOf(ptr))
    ensures Eval(ReplaceGetValue(e, ptr, v), env) == Eval(e, Store(env, Eval(ptr, env).addr, Eval(v, env)))
    decreases e, 1
  {
    var env' := Store(env, Eval(ptr, env).addr, Eval(v, env));
    var a, l := e.e, e.f;
    var a', l' := ReplaceGetValue(a, ptr, v), ReplaceGetValueLambda(l, ptr, v);
    assert BV(a) <= BV(e) && BVLambda(l) <= BV(e);
    ReplaceGetValueSound(a, ptr, v, env);
    ReplaceGetValueLambdaSound(l, ptr, v, env);
    if e.EMap? {
      assert ReplaceGetValue(e, ptr, v) == EMap(a', l');
      MapCongruence(a', l', env, a, l, env');
    } else if e.EFilter? {
      assert ReplaceGetValue(e, ptr, v) == EFilter(a', l');
      MapCongruence(a', l', env, a, l, env');
    } else if e.EFlatMap? {
      assert ReplaceGetValue(e, ptr, v) == EFlatMap(a', l');
      MapCongruence(a', l', env, a, l, env');
    } else {
      assert ReplaceGetValue(e, ptr, v) == EMakeMap2(a', l');
      MakeMapCongruence(a', l', env, a, l, env');
    }
  }

  /** Under a lambda the pointer and the new value mean what they mean outside it. */
  lemma {:induction false} ReplaceGetValueLambdaSound(l: Lambda, ptr: Exp, v: Exp, env: Env)
    requires Eval(ptr, env).VHandle?
    requires BVLambda(l) !! (FV(ptr) + FV(v))
    requires ValReadsThrough(l.body, TypeOf(ptr))
    ensures forall y :: EvalLambda(ReplaceGetValueLambda(l, ptr, v), env, y)
                     == EvalLambda(l, Store(env, Eval(ptr, env).addr, Eval(v, env)), y)
    decreases l.body, 3
  {
    forall y ensures EvalLambda(ReplaceGetValueLambda(l, ptr, v), env, y)
                  == EvalLambda(l, Store(env, Eval(ptr, env).addr, Eval(v, env)), y)
    {
      var inner := Bind(env, l.x, y);
      EvalUpdateNotFree(ptr, env, l.x, y);
      EvalUpdateNotFree(v, env, l.x, y);
      ReplaceGetValueSound(l.body, ptr, v, inner);
      assert Store(inner, Eval(ptr, env).addr, Eval(v, env)) == Bind(Store(env, Eval(ptr, env).addr, Eval(v, env)), l.x, y);
    }
  }

  // ---------------------------------------------------------------------
  // Assignment

  /**
   * `_do_assignment(lval, v, e)`: the value of `e` after `lval = v`. A
   * variable is substituted; a record field rebuilds the record and
   * assigns it; a handle's `val` goes through `ReplaceGetValue`.
   */
  function DoAssignment(lval: Exp, v: Exp, e: Exp): Result<Exp>
    decreases lval
  {
    match lval
    case EVar(x, _) => Ok(Subst(e, x, v))
    case EGetField(r, f, _) =>
      if TypeOf(r).THandle? then
        if f == "val" then Ok(ReplaceGetValue(e, r, v)) else Err(HandleFieldNotVal)
      else if TypeOf(r).TRecord? then DoAssignment(r, ReplaceField(r, f, v), e)
      else Err(NotARecord)
    case _ => Err(NotAnLvalue)
  }

  /** Assignment introduces no binders beyond those of `e` and the assigned value. */
  lemma {:induction false} DoAssignmentBinders(lval: Exp, v: Exp, e: Exp)
    requires DoAssignment(lval, v, e).Ok?
    ensures BV(DoAssignment(lval, v, e).value) <= BV(e) + BV(lval) + BV(v)
    decreases lval
  {
    match lval
    case EVar(x, _) => SubstBV(e, x, v);
    case EGetField(r, f, _) =>
      if TypeOf(r).THandle? {
        ReplaceGetValueBinders(e, r, v);
      } else {
        ReplaceFieldVars(r, f, v);
        DoAssignmentBinders(r, ReplaceField(r, f, v), e);
      }
  }

  /**
   * Where the assignment runs, the rewritten expression evaluates before it
   * to what `e` evaluates to after it.
   */
  lemma {:induction false} DoAssignmentSound(lval: Exp, v: Exp, e: Exp, env: Env)
    requires DoAssignment(lval, v, e).Ok? && Assign(lval, Eval(v, env), env).Some?
    requires BV(e) !! (FV(lval) + FV(v)) && LvalReadsTyped(lval, e)
    ensures Eval(DoAssignment(lval, v, e).value, env) == Eval(e, Assign(lval, Eval(v, env), env).value)
    decreases lval
  {
    match lval
    case EVar(x, _) => EvalSubst(e, x, v, env);
    case EGetField(r, f, _) =>
      if TypeOf(r).THandle? {
        ReplaceGetValueSound(e, r, v, env);
      } else {
        var rv := ReplaceField(r, f, v);
        ReplaceFieldVars(r, f, v);
        ReplaceFieldSound(r, f, v, env);
        DoAssignmentSound(r, rv, e, env);
      }
  }

  /** Two handles of one handle type, as variables. */
  const AliasType: Ty := THandle("T", TInt)
  const HandleH: Exp := EVar("h", AliasType)
  const HandleG: Exp := EVar("g", AliasType)

  /**
   * After `h.val = 5`, `g.val` reads 5 exactly when `g` is an alias of `h`
   * (the same address), and what it read before otherwise.
   */
  lemma HandleWriteAliases(env: Env)
    requires Eval(HandleH, env).VHandle?
    ensures DoAssignment(EGetField(HandleH, "val", TInt), ENum(5), EGetField(HandleG, "val", TInt)).Ok?
    ensures Eval(DoAssignment(EGetField(HandleH, "val", TInt), ENum(5), EGetField(HandleG, "val", TInt)).value, env)
         == if Eval(HandleG, env) == Eval(HandleH, env) then VInt(5) else Eval(EGetField(HandleG, "val", TInt), env)
  {
    var lval, e := EGetField(HandleH, "val", TInt), EGetField(HandleG, "val", TInt);
    assert ValReadsThrough(e, AliasType);
    DoAssignmentSound(lval, ENum(5), e, env);
    GetFieldStore(env.heap, Eval(HandleH, env).addr, VInt(5), Eval(HandleG, env), "val", TInt);
  }

  // ---------------------------------------------------------------------
  // mutate

  /** A measure that each rewriting step of `mutate` decreases: desugaring and reassociating included. */
  function Weight(s: Stm): nat
  {
    match s
    case SCall(_, func, _) => if UpdateOf(func) == Some(OpAdd) || UpdateOf(func) == Some(OpRemove) then 3 else 2
    case SIf(_, a, b) => 1 + Weight(a) + Weight(b)
    case SSeq(a, b) => 2 * Weight(a) + Weight(b) + 1
    case _ => 1
  }

  lemma WeightReassoc(a: Stm, b: Stm, c: Stm)
    ensures Weight(SSeq(a, SSeq(b, c))) < Weight(SSeq(SSeq(a, b), c))
  {
  }

  /**
   * `mutate(e, s)`. A collection update is desugared: `add(x)` into
   * `add_all({x})` into `target := target + {x}`, likewise `remove`. A
   * conditional whose two branches give the same expression collapses to
   * it. A left-nested sequence is reassociated; otherwise the second
   * statement is applied first, and a leading declaration is substituted
   * by its value. Loops and map updates are not handled.
   */
  function Mutate(e: Exp, s: Stm): Result<Exp>
    decreases Weight(s)
  {
    match s
    case SNoOp => Ok(e)
    case SAssign(lhs, rhs) => DoAssignment(lhs, rhs, e)
    case SCall(target, func, args) =>
      if UpdateOf(func).None? then Err(UnknownFunc(func))
      else if args == [] then Err(MissingArgument)
      else
        UpdateNames();
        (match UpdateOf(func).value
         case OpAdd => Mutate(e, SCall(target, "add_all", [ESingleton(args[0])]))
         case OpAddAll => Mutate(e, SAssign(target, EBinary(target, BPlus, args[0])))
         case OpRemove => Mutate(e, SCall(target, "remove_all", [ESingleton(args[0])]))
         case OpRemoveAll => Mutate(e, SAssign(target, EBinary(target, BMinus, args[0]))))
    case SIf(c, a, b) =>
      (match Mutate(e, a)
       case Err(err) => Err(err)
       case Ok(x) =>
         match Mutate(e, b)
         case Err(err) => Err(err)
         case Ok(y) => if x == y then Ok(x) else Ok(ECond(c, x, y)))
    case SSeq(s1, s2) =>
      if s1.SSeq? then
        WeightReassoc(s1.s1, s1.s2, s2);
        Mutate(e, SSeq(s1.s1, SSeq(s1.s2, s2)))
      else
        (match Mutate(e, s2)
         case Err(err) => Err(err)
         case Ok(m) =>
           match Mutate(m, s1)
           case Err(err) => Err(err)
           case Ok(m') => if s1.SDecl? then Ok(Subst(m', s1.id, s1.val)) else Ok(m'))
    case SDecl(_, _) => Ok(e)
    case SForEach(_, _, _, _) => Err(Unsupported)
    case SMapDel(_, _) => Err(Unsupported)
    case SMapUpdate(_, _, _, _, _) => Err(Unsupported)
  }

  /** The assignment a collection update stands for: `target := target + xs`, or `- xs`. */
  function CallRhs(target: Exp, op: UpdateOp, arg: Exp): Exp
  {
    EBinary(target, if op.OpAdd? || op.OpAddAll? then BPlus else BMinus, CallOperand(op, arg))
  }

  /** The bag an update adds or removes: `{x}` for a single element. */
  function CallOperand(op: UpdateOp, arg: Exp): Exp
  {
    if op.OpAdd? || op.OpRemove? then ESingleton(arg) else arg
  }

  /** `add(x)` is `add_all({x})` and `remove(x)` is `remove_all({x})`. */
  lemma MutateSingleCall(e: Exp, target: Exp, x: Exp, rest: seq<Exp>)
    ensures Mutate(e, SCall(target, "add", [x] + rest)) == Mutate(e, SCall(target, "add_all", [ESingleton(x)]))
    ensures Mutate(e, SCall(target, "remove", [x] + rest)) == Mutate(e, SCall(target, "remove_all", [ESingleton(x)]))
  {
    UpdateNames();
  }

  /** Every collection update is the assignment `target := target + xs`, or `- xs`. */
  lemma MutateCallDesugar(e: Exp, target: Exp, func: string, args: seq<Exp>)
    requires UpdateOf(func).Some? && args != []
    ensures Mutate(e, SCall(target, func, args)) == DoAssignment(target, CallRhs(target, UpdateOf(func).value, args[0]), e)
  {
    UpdateNames();
    var op, x := UpdateOf(func).value, args[0];
    if op == OpAdd {
      assert Mutate(e, SCall(target, func, args)) == Mutate(e, SCall(target, "add_all", [ESingleton(x)]));
      assert Mutate(e, SCall(target, "add_all", [ESingleton(x)])) == Mutate(e, SAssign(target, EBinary(target, BPlus, ESingleton(x))));
    } else if op == OpRemove {
      assert Mutate(e, SCall(target, func, args)) == Mutate(e, SCall(target, "remove_all", [ESingleton(x)]));
      assert Mutate(e, SCall(target, "remove_all", [ESingleton(x)])) == Mutate(e, SAssign(target, EBinary(target, BMinus, ESingleton(x))));
    }
  }

  /** Any other method name is an error. */
  lemma MutateUnknownCall(e: Exp, target: Exp, func: string, args: seq<Exp>)
    requires UpdateOf(func).None?
    ensures Mutate(e, SCall(target, func, args)) == Err(UnknownFunc(func))
  {
  }

  /** Nothing happens under a no-op or a bare declaration. */
  lemma MutateNoOp(e: Exp, x: string, v: Exp)
    ensures Mutate(e, SNoOp) == Ok(e) && Mutate(e, SDecl(x, v)) == Ok(e)
  {
  }

  /** A conditional with identical branches is its branch. */
  lemma MutateIfSame(e: Exp, c: Exp, s: Stm)
    ensures Mutate(e, SIf(c, s, s)) == Mutate(e, s)
  {
  }

  /** Reassociating a sequence does not change the result. */
  lemma MutateSeqAssoc(e: Exp, a: Stm, b: Stm, c: Stm)
    ensures Mutate(e, SSeq(SSeq(a, b), c)) == Mutate(e, SSeq(a, SSeq(b, c)))
  {
  }

  /** Mutation introduces no binders beyond those of `e` and of `s`. */
  lemma {:induction false} MutateBinders(e: Exp, s: Stm)
    requires Mutate(e, s).Ok?
    ensures BV(Mutate(e, s).value) <= BV(e) + BVStm(s)
    decreases Weight(s), 1
  {
    match s
    case SNoOp =>
    case SAssign(lhs, rhs) => DoAssignmentBinders(lhs, rhs, e);
    case SCall(target, func, args) => MutateCallBinders(e, target, func, args);
    case SIf(c, a, b) => MutateIfBinders(e, c, a, b);
    case SSeq(s1, s2) => MutateSeqBinders(e, s1, s2);
    case SDecl(_, _) =>
  }

  lemma MutateCallBinders(e: Exp, target: Exp, func: string, args: seq<Exp>)
    requires Mutate(e, SCall(target, func, args)).Ok?
    ensures BV(Mutate(e, SCall(target, func, args)).value) <= BV(e) + BVStm(SCall(target, func, args))
  {
    var rhs := CallRhs(target, UpdateOf(func).value, args[0]);
    MutateCallDesugar(e, target, func, args);
    FVArgsMember(args, 0);
    CallRhsVars(target, UpdateOf(func).value, args[0]);
    DoAssignmentBinders(target, rhs, e);
  }

  lemma {:induction false} MutateIfBinders(e: Exp, c: Exp, a: Stm, b: Stm)
    requires Mutate(e, SIf(c, a, b)).Ok?
    ensures BV(Mutate(e, SIf(c, a, b)).value) <= BV(e) + BVStm(SIf(c, a, b))
    decreases Weight(SIf(c, a, b)), 0
  {
    MutateBinders(e, a);
    MutateBinders(e, b);
    var x, y := Mutate(e, a).value, Mutate(e, b).value;
    assert Mutate(e, SIf(c, a, b)).value in {x, ECond(c, x, y)};
  }

  lemma {:induction false} MutateSeqBinders(e: Exp, s1: Stm, s2: Stm)
    requires Mutate(e, SSeq(s1, s2)).Ok?
    ensures BV(Mutate(e, SSeq(s1, s2)).value) <= BV(e) + BVStm(SSeq(s1, s2))
    decreases Weight(SSeq(s1, s2)), 0
  {
    if s1.SSeq? {
      WeightReassoc(s1.s1, s1.s2, s2);
      MutateBinders(e, SSeq(s1.s1, SSeq(s1.s2, s2)));
    } else {
      var m := Mutate(e, s2).value;
      MutateBinders(e, s2);
      MutateBinders(m, s1);
      if s1.SDecl? {
        SubstBV(Mutate(m, s1).value, s1.id, s1.val);
      }
    }
  }

  /** Running a sequence does not depend on how it is nested. */
  lemma ExecSeqAssoc(a: Stm, b: Stm, c: Stm, env: Env)
    ensures Exec(SSeq(SSeq(a, b), c), env) == Exec(SSeq(a, SSeq(b, c)), env)
  {
  }

  /**
   * The semantic contract of `mutate`: where `s` runs, the mutated
   * expression evaluates before `s` to what `e` evaluates to after it.
   */
  lemma {:induction false} MutateSound(e: Exp, s: Stm, env: Env)
    requires Mutate(e, s).Ok? && Exec(s, env).Some? && Hygienic(e, s)
    ensures Eval(Mutate(e, s).value, env) == Eval(e, Exec(s, env).value)
    decreases Weight(s), 2
  {
    match s
    case SNoOp =>
    case SAssign(lhs, rhs) => DoAssignmentSound(lhs, rhs, e, env);
    case SCall(target, func, args) => MutateCallSound(e, target, func, args, env);
    case SIf(c, a, b) => MutateIfSound(e, c, a, b, env);
    case SSeq(s1, s2) =>
      if s1.SSeq? {
        MutateReassocSound(e, s1.s1, s1.s2, s2, env);
      } else {
        MutateSeqSound(e, s1, s2, env);
      }
    case SDecl(_, _) => assert false;
  }

  lemma MutateCallSound(e: Exp, target: Exp, func: string, args: seq<Exp>, env: Env)
    requires Mutate(e, SCall(target, func, args)).Ok? && Exec(SCall(target, func, args), env).Some?
    requires Hygienic(e, SCall(target, func, args))
    ensures Eval(Mutate(e, SCall(target, func, args)).value, env) == Eval(e, Exec(SCall(target, func, args), env).value)
  {
    var op := UpdateOf(func).value;
    var rhs := CallRhs(target, op, args[0]);
    MutateCallDesugar(e, target, func, args);
    FVArgsMember(args, 0);
    CallRhsVars(target, op, args[0]);
    CallRhsSound(target, op, args[0], env);
    DoAssignmentSound(target, rhs, e, env);
  }

  /** The desugared right-hand side computes the collection update. */
  lemma CallRhsSound(target: Exp, op: UpdateOp, arg: Exp, env: Env)
    ensures Eval(CallRhs(target, op, arg), env) == CallResult(op, Eval(target, env), Eval(arg, env))
  {
    var b := CallOperand(op, arg);
    BinaryEval(target, if op.OpAdd? || op.OpAddAll? then BPlus else BMinus, b, env);
    if op.OpAdd? || op.OpRemove? {
      assert Eval(b, env) == VBag([Eval(arg, env)]);
    }
  }

  lemma BinaryEval(a: Exp, op: BOp, b: Exp, env: Env)
    ensures Eval(EBinary(a, op, b), env) == BinaryVal(op, Eval(a, env), Eval(b, env))
  {
  }

  /** It mentions only the target and the argument. */
  lemma CallRhsVars(target: Exp, op: UpdateOp, arg: Exp)
    ensures FV(CallRhs(target, op, arg)) == FV(target) + FV(arg)
    ensures BV(CallRhs(target, op, arg)) == BV(target) + BV(arg)
  {
    var b := CallOperand(op, arg);
    assert FV(b) == FV(arg) && BV(b) == BV(arg);
  }

  lemma {:induction false} MutateIfSound(e: Exp, c: Exp, a: Stm, b: Stm, env: Env)
    requires Mutate(e, SIf(c, a, b)).Ok? && Exec(SIf(c, a, b), env).Some? && Hygienic(e, SIf(c, a, b))
    ensures Eval(Mutate(e, SIf(c, a, b)).value, env) == Eval(e, Exec(SIf(c, a, b), env).value)
    decreases Weight(SIf(c, a, b)), 1
  {
    MutateIfShape(e, c, a, b);
    HygienicIf(e, c, a, b);
    var taken := if Truthy(Eval(c, env)) then a else b;
    assert Exec(SIf(c, a, b), env) == Exec(taken, env);
    MutateSound(e, taken, env);
  }

  lemma HygienicIf(e: Exp, c: Exp, a: Stm, b: Stm)
    requires Hygienic(e, SIf(c, a, b))
    ensures Hygienic(e, a) && Hygienic(e, b)
  {
  }

  /** A conditional statement gives the conditional of its branches' results, or their common result. */
  lemma MutateIfShape(e: Exp, c: Exp, a: Stm, b: Stm)
    requires Mutate(e, SIf(c, a, b)).Ok?
    ensures Mutate(e, a).Ok? && Mutate(e, b).Ok?
    ensures var x, y := Mutate(e, a).value, Mutate(e, b).value;
      Mutate(e, SIf(c, a, b)).value == if x == y then x else ECond(c, x, y)
  {
  }

  lemma {:induction false} MutateReassocSound(e: Exp, a: Stm, b: Stm, c: Stm, env: Env)
    requires Mutate(e, SSeq(SSeq(a, b), c)).Ok? && Exec(SSeq(SSeq(a, b), c), env).Some?
    requires Hygienic(e, SSeq(SSeq(a, b), c))
    ensures Eval(Mutate(e, SSeq(SSeq(a, b), c)).value, env) == Eval(e, Exec(SSeq(SSeq(a, b), c), env).value)
    decreases Weight(SSeq(SSeq(a, b), c)), 1
  {
    WeightReassoc(a, b, c);
    MutateSeqAssoc(e, a, b, c);
    ExecSeqAssoc(a, b, c, env);
    HygienicReassoc(e, a, b, c);
    MutateSound(e, SSeq(a, SSeq(b, c)), env);
  }

  lemma HygienicReassoc(e: Exp, a: Stm, b: Stm, c: Stm)
    requires Hygienic(e, SSeq(SSeq(a, b), c))
    ensures Hygienic(e, SSeq(a, SSeq(b, c)))
  {
    assert BVStm(SSeq(a, SSeq(b, c))) == BVStm(SSeq(SSeq(a, b), c));
    assert FVStm(SSeq(a, SSeq(b, c))) == FVStm(SSeq(SSeq(a, b), c));
    assert DeclsScoped(SSeq(a, b)) && DeclsScoped(c);
    assert DeclsScoped(SSeq(b, c));
  }

  lemma {:induction false} MutateSeqSound(e: Exp, s1: Stm, s2: Stm, env: Env)
    requires !s1.SSeq?
    requires Mutate(e, SSeq(s1, s2)).Ok? && Exec(SSeq(s1, s2), env).Some? && Hygienic(e, SSeq(s1, s2))
    ensures Eval(Mutate(e, SSeq(s1, s2)).value, env) == Eval(e, Exec(SSeq(s1, s2), env).value)
    decreases Weight(SSeq(s1, s2)), 1
  {
    var m := Mutate(e, s2).value;
    var env1 := Exec(s1, env).value;
    MutateBinders(e, s2);
    HygienicSeq(e, s1, s2, m);
    assert Exec(s2, env1).Some?;
    MutateSound(e, s2, env1);
    MutateSeqHead(e, m, s1, s2, env);
  }

  /** What a sequence gives is what its head gives for the result of the rest. */
  lemma {:induction false} MutateSeqHead(e: Exp, m: Exp, s1: Stm, s2: Stm, env: Env)
    requires !s1.SSeq? && Mutate(e, s2) == Ok(m) && Mutate(e, SSeq(s1, s2)).Ok? && Exec(s1, env).Some?
    requires !s1.SDecl? ==> Hygienic(m, s1)
    requires s1.SDecl? ==> BV(m) !! FV(s1.val)
    ensures Eval(Mutate(e, SSeq(s1, s2)).value, env) == Eval(m, Exec(s1, env).value)
    decreases Weight(SSeq(s1, s2)), 0
  {
    if s1.SDecl? {
      MutateDeclHead(e, s1.id, s1.val, s2);
      EvalSubst(m, s1.id, s1.val, env);
    } else {
      assert Mutate(m, s1).Ok?;
      MutateSound(m, s1, env);
    }
  }

  /** The parts of a hygienic sequence are hygienic, given the binders of the inner result. */
  lemma HygienicSeq(e: Exp, s1: Stm, s2: Stm, m: Exp)
    requires !s1.SSeq? && Mutate(e, s2) == Ok(m)
    requires Hygienic(e, SSeq(s1, s2)) && BV(m) <= BV(e) + BVStm(s2)
    ensures Hygienic(e, s2)
    ensures !s1.SDecl? ==> Hygienic(m, s1)
    ensures s1.SDecl? ==> BV(m) !! FV(s1.val)
  {
    assert FVStm(SSeq(s1, s2)) == FVStm(s1) + FVStm(s2);
    assert BVStm(SSeq(s1, s2)) == BVStm(s1) + BVStm(s2);
    if s1.SDecl? {
      assert FV(s1.val) <= FVStm(s1);
    }
  }

  /** A leading declaration is substituted by its value in what the rest gives. */
  lemma MutateDeclHead(e: Exp, x: string, v: Exp, s2: Stm)
    requires Mutate(e, SSeq(SDecl(x, v), s2)).Ok?
    ensures Mutate(e, s2).Ok? && Mutate(e, SSeq(SDecl(x, v), s2)).value == Subst(Mutate(e, s2).value, x, v)
  {
  }
}
