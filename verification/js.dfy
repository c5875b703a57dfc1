/** Value types shared by the whole model: optional configuration values, the
    JavaScript numbers the simulator relies on (Infinity, -Infinity, NaN), and
    the `x || default` idiom the source uses for every configuration read. */
module Js {

  /** A configuration field that may be absent (`undefined` in the source). */
  datatype Option<+T> = None | Some(value: T)

  /** Result of an operation that can throw. */
  datatype Result<+T, +E> = Ok(value: T) | Err(error: E)

  /** A real that may be +Infinity: processing times and sort keys. */
  datatype Ext = Fin(v: real) | Inf

  /** `a <= b` on extended reals. Infinity equals Infinity: the source's
      comparator returns `Infinity - Infinity`, which is NaN, and a NaN
      comparison result counts as "equal" for the stable array sort. */
  predicate ExtLe(a: Ext, b: Ext) {
    match (a, b)
    case (_, Inf) => true
    case (Inf, Fin(_)) => false
    case (Fin(x), Fin(y)) => x <= y
  }

  predicate ExtLt(a: Ext, b: Ext) {
    ExtLe(a, b) && a != b
  }

  lemma ExtLeTotal(a: Ext, b: Ext)
    ensures ExtLe(a, b) || ExtLe(b, a)
    ensures ExtLe(a, b) && ExtLe(b, a) ==> a == b
  {}

  lemma ExtLeTrans(a: Ext, b: Ext, c: Ext)
    requires ExtLe(a, b) && ExtLe(b, c)
    ensures ExtLe(a, c)
  {}

  /** A tick stamp that may be -Infinity: `Never` stands for -Infinity. */
  datatype Stamp = Never | At(t: int)

  /** `now - since >= d`, where `now - (-Infinity)` is +Infinity. */
  predicate ElapsedAtLeast(now: int, since: Stamp, d: int) {
    since.Never? || now - since.t >= d
  }

  /** The values `params.capacityTPS` can hold: `undefined`, a finite number,
      or the non-finite results of dividing by a degradation factor. */
  datatype Num = Undefined | Val(v: real) | PosInf | NegInf | NaN

  /** JavaScript `n / f` where `f` is a configured factor (`undefined` gives NaN). */
  function Divide(n: Num, f: Option<real>): Num {
    match f
    case None => NaN
    case Some(d) =>
      match n
      case Undefined => NaN
      case NaN => NaN
      case Val(c) =>
        if d != 0.0 then Val(c / d)
        else if c > 0.0 then PosInf
        else if c < 0.0 then NegInf
        else NaN
      case PosInf => if d < 0.0 then NegInf else PosInf
      case NegInf => if d < 0.0 then PosInf else NegInf
  }

  /** JavaScript `x || d` for a configured integer: absent or 0 gives `d`. */
  function IntOr(x: Option<int>, d: int): int {
    if x.Some? && x.value != 0 then x.value else d
  }

  /** JavaScript `x || d` for a configured real: absent or 0 gives `d`. */
  function RealOr(x: Option<real>, d: real): real {
    if x.Some? && x.value != 0.0 then x.value else d
  }

  /** JavaScript `x || Infinity` for a threshold: None stands for Infinity. */
  function IntOrInf(x: Option<int>): Option<int> {
    if x.Some? && x.value != 0 then x else None
  }

  /** `q >= t` where a None threshold is Infinity and so is never reached. */
  predicate Reached(q: int, t: Option<int>) {
    t.Some? && q >= t.value
  }

  /** `Math.ceil` on a real. */
  function Ceil(x: real): int {
    -((-x).Floor)
  }

  function Min(a: int, b: int): int {
    if a <= b then a else b
  }
}
