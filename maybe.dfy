/**
 * The three-valued answers of the conservative shape tests: definitely
 * true, definitely false, or `MAYBE` when the test cannot tell.
 */
module ThreeValued {

  datatype Tri = TTrue | TFalse | Maybe

  function OfBool(b: bool): Tri { if b then TTrue else TFalse }

  /** `definitely(v)`: the answer is a sure yes. */
  predicate Definitely(v: Tri) { v == TTrue }

  /** `possibly(v)`: the answer is not a sure no. */
  predicate Possibly(v: Tri) { v == Maybe || v == TTrue }

  /** The truth order of Kleene's logic: false < maybe < true. */
  function Rank(v: Tri): (r: nat)
    ensures r <= 2
  {
    match v
    case TFalse => 0
    case Maybe => 1
    case TTrue => 2
  }

  function Min(a: nat, b: nat): nat { if a <= b then a else b }

  /** `both(x, y)`: Kleene conjunction, the lesser answer in the truth order. */
  function Both(x: Tri, y: Tri): (r: Tri)
    ensures Rank(r) == Min(Rank(x), Rank(y))
  {
    if Definitely(x) && Definitely(y) then TTrue
    else if Possibly(x) && Possibly(y) then Maybe
    else TFalse
  }

  /** `invert(x)`: Kleene negation, the truth order reversed. */
  function Invert(x: Tri): (r: Tri)
    ensures Rank(r) == 2 - Rank(x)
  {
    if Definitely(x) then TFalse
    else if !Possibly(x) then TTrue
    else Maybe
  }

  /** A definite answer is in particular a possible one; MAYBE is possible, not definite. */
  lemma DefinitelyPossibly(v: Tri)
    ensures Definitely(v) ==> Possibly(v)
    ensures !Definitely(Maybe) && Possibly(Maybe)
    ensures Possibly(v) <==> !Definitely(Invert(v))
  {
  }

  /** Conjunction is commutative and negation an involution. */
  lemma KleeneLaws(x: Tri, y: Tri)
    ensures Both(x, y) == Both(y, x)
    ensures Invert(Invert(x)) == x
    ensures Both(x, TTrue) == x && Both(x, TFalse) == TFalse
  {
  }

  /** `v` is a sound answer for the proposition `b`: a sure answer is right. */
  predicate Approx(v: Tri, b: bool)
  {
    (v == TTrue ==> b) && (v == TFalse ==> !b)
  }

  /** Both and Invert answer soundly for conjunction and negation. */
  lemma KleeneSound(x: Tri, a: bool, y: Tri, b: bool)
    requires Approx(x, a) && Approx(y, b)
    ensures Approx(Both(x, y), a && b)
    ensures Approx(Invert(x), !a)
  {
  }

  /** On sure answers the operations agree with Boolean logic. */
  lemma KleeneExtendsBoolean(a: bool, b: bool)
    ensures Both(OfBool(a), OfBool(b)) == OfBool(a && b)
    ensures Invert(OfBool(a)) == OfBool(!a)
  {
  }
}
