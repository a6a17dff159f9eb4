/**
 * JavaScript numbers as the calculator uses them.
 *
 * A `Num` is a real number, one of the two infinities, or NaN. Addition,
 * subtraction, multiplication and division follow the IEEE rules for the
 * special values; on finite operands they are exact (no rounding, no
 * overflow, no signed zero). The library operations the calculator calls
 * and cannot be written down exactly here (Number(text), String(number),
 * Math.sqrt, Math.pow, the % operator and Math.PI) are the fields of a
 * `Prims` record that every operation takes as a parameter, so nothing is
 * assumed about them unless a lemma says so in its `requires`.
 */
module Numbers {

  datatype Num = Finite(r: real) | PosInf | NegInf | NaN

  /**
   * The JavaScript primitives the calculator relies on:
   * Number(text), String(number) (also number.toString()), Math.sqrt,
   * Math.pow, the remainder operator % and Math.PI.
   */
  datatype Prims = Prims(
    toNumber: string -> Num,
    toString: Num -> string,
    sqrt: Num -> Num,
    pow: (Num, Num) -> Num,
    rem: (Num, Num) -> Num,
    pi: Num)

  const Zero: Num := Finite(0.0)
  const One: Num := Finite(1.0)

  function Neg(a: Num): Num
  {
    match a
    case Finite(x) => Finite(-x)
    case PosInf => NegInf
    case NegInf => PosInf
    case NaN => NaN
  }

  /** The sign of a non-NaN value: -1, 0 or 1. */
  function Sign(a: Num): int
  {
    match a
    case Finite(x) => if x < 0.0 then -1 else if x == 0.0 then 0 else 1
    case PosInf => 1
    case NegInf => -1
    case NaN => 0
  }

  function InfinityWithSign(s: int): Num
  {
    if s < 0 then NegInf else PosInf
  }

  function Add(a: Num, b: Num): Num
  {
    if a.NaN? || b.NaN? then NaN
    else if (a.PosInf? && b.NegInf?) || (a.NegInf? && b.PosInf?) then NaN
    else if a.PosInf? || b.PosInf? then PosInf
    else if a.NegInf? || b.NegInf? then NegInf
    else Finite(a.r + b.r)
  }

  function Sub(a: Num, b: Num): Num
  {
    Add(a, Neg(b))
  }

  function Mul(a: Num, b: Num): Num
  {
    if a.NaN? || b.NaN? then NaN
    else if a.Finite? && b.Finite? then Finite(a.r * b.r)
    else if Sign(a) == 0 || Sign(b) == 0 then NaN
    else InfinityWithSign(Sign(a) * Sign(b))
  }

  function Div(a: Num, b: Num): Num
  {
    if a.NaN? || b.NaN? then NaN
    else if a.Finite? && b.Finite? then
      if b.r != 0.0 then Finite(a.r / b.r)
      else if a.r == 0.0 then NaN
      else InfinityWithSign(Sign(a))
    else if !a.Finite? && !b.Finite? then NaN
    else if a.Finite? then Zero
    else InfinityWithSign(Sign(a) * (if Sign(b) == 0 then 1 else Sign(b)))
  }

  // ---------------------------------------------------------------------
  // Facts about the JavaScript primitives, for lemmas that need them.
  // ---------------------------------------------------------------------

  /** The one-character symbols of both tokenizers, and π. */
  const Symbols: set<string> :=
    {"+", "-", "÷", "*", "/", "√", "×", "%", "(", ")", "^", "²", "π"}

  /** Number() of an operator, a parenthesis or π is NaN. */
  ghost predicate SymbolsAreNaN(p: Prims)
  {
    p.toNumber("+").NaN? && p.toNumber("-").NaN? && p.toNumber("÷").NaN? && p.toNumber("*").NaN? &&
    p.toNumber("/").NaN? && p.toNumber("√").NaN? && p.toNumber("×").NaN? && p.toNumber("%").NaN? &&
    p.toNumber("(").NaN? && p.toNumber(")").NaN? && p.toNumber("^").NaN? && p.toNumber("²").NaN? &&
    p.toNumber("π").NaN?
  }

  /** String() of a number is never an operator, a parenthesis or π. */
  ghost predicate StringsAreNotSymbols(p: Prims)
  {
    forall n :: p.toString(n) !in Symbols
  }
}
