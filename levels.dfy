/** Extended integers and the failure wrappers shared by every module.

    `Level` stands for a coordinate or an activation level that may be the
    floating-point `inf` the source uses as a sentinel: the activation level
    of the seed candidate, the initial running minimum of a squared distance,
    and the sentinel corners of the older 3-D archive. */
module Levels {

  datatype Level = Inf | Fin(v: int)

  /** `a <= b` with `inf` above every finite value. */
  predicate LevelLe(a: Level, b: Level)
  {
    match (a, b)
    case (_, Inf) => true
    case (Inf, Fin(_)) => false
    case (Fin(x), Fin(y)) => x <= y
  }

  predicate LevelLt(a: Level, b: Level)
  {
    LevelLe(a, b) && a != b
  }

  /** Python's `min` on two values of which either may be `inf`. */
  function LevelMin(a: Level, b: Level): (m: Level)
    ensures LevelLe(m, a) && LevelLe(m, b)
    ensures m == a || m == b
  {
    if LevelLe(a, b) then a else b
  }

  lemma LevelTotal(a: Level, b: Level)
    ensures LevelLe(a, b) || LevelLt(b, a)
  {
  }

  datatype Option<T> = None | Some(value: T)

  /** The exceptions the source raises on inputs it does not handle. */
  datatype Error =
    | ValueError   // `list.index` of an absent value
    | IndexError   // an index past the end of a list

  datatype Result<T> = Ok(value: T) | Err(error: Error)
}
