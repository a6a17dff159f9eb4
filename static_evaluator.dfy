/**
 * `evaluate` of static/calculator.js: a number node is its value; an
 * operator node evaluates its left child, then its right child, then
 * applies the operator. Division by zero and an operator outside the
 * handled set are errors.
 */
module StaticEvaluator {
  import opened Numbers
  import opened Errors
  import opened Tree

  /** The operators `evaluate` has a case for. */
  const Handled: set<string> := {"+", "-", "×", "*", "/", "^", "√", "%", "÷"}

  /** The two division operators, which refuse a zero divisor. */
  const Divisions: set<string> := {"/", "÷"}

  /** The operator step once both children have values. */
  function Apply(p: Prims, op: string, left: Num, right: Num): (r: Result<Num>)
    ensures r.Err? <==> op !in Handled || (op in Divisions && right == Zero)
    ensures r.Err? && op in Handled ==> r.error == DivisionByZero
    ensures r.Err? && op !in Handled ==> r.error == UnsupportedOperator(op)
  {
    if op == "+" then Ok(Add(left, right))
    else if op == "-" then Ok(Sub(left, right))
    else if op == "×" || op == "*" then Ok(Mul(left, right))
    else if op == "/" || op == "÷" then
      if right == Zero then Err(DivisionByZero) else Ok(Div(left, right))
    else if op == "^" then Ok(p.pow(left, right))
    // `left` is a number, so the tests against '', '+' and '-' never hold
    else if op == "√" then Ok(Mul(left, p.sqrt(right)))
    else if op == "%" then Ok(p.rem(left, right))
    else Err(UnsupportedOperator(op))
  }

  /** `evaluate(ast)` */
  function Evaluate(p: Prims, t: Node): (r: Result<Num>)
    ensures t.Leaf? ==> r == Ok(t.value)
    ensures r.Err? ==> r.error == DivisionByZero || r.error.UnsupportedOperator?
    decreases t
  {
    match t
    case Leaf(v) => Ok(v)
    case Op(op, l, r) =>
      match Evaluate(p, l)
      case Err(e) => Err(e)
      case Ok(left) =>
        match Evaluate(p, r)
        case Err(e) => Err(e)
        case Ok(right) => Apply(p, op, left, right)
  }

  /**
   * Where evaluation fails, stated without running it to the end: some
   * node carries an operator `evaluate` has no case for, or divides by a
   * right operand whose value is zero.
   */
  ghost predicate Faulty(p: Prims, t: Node)
    decreases t
  {
    match t
    case Leaf(_) => false
    case Op(op, l, r) =>
      Faulty(p, l) || Faulty(p, r) || op !in Handled ||
      (op in Divisions && Evaluate(p, r) == Ok(Zero))
  }

  /** Evaluation fails exactly on a faulty tree. */
  lemma {:induction false} FailsIffFaulty(p: Prims, t: Node)
    ensures Evaluate(p, t).Err? <==> Faulty(p, t)
    decreases t
  {
    match t
    case Leaf(_) =>
    case Op(op, l, r) =>
      FailsIffFaulty(p, l);
      FailsIffFaulty(p, r);
  }

  /** A tree whose operators are all handled fails only by division by zero. */
  lemma {:induction false} HandledFailsOnlyByZero(p: Prims, t: Node)
    requires OpsIn(t, Handled)
    ensures Evaluate(p, t).Err? ==> Evaluate(p, t).error == DivisionByZero
    decreases t
  {
    match t
    case Leaf(_) =>
    case Op(op, l, r) =>
      HandledFailsOnlyByZero(p, l);
      HandledFailsOnlyByZero(p, r);
  }

  /** Without a division, a tree of handled operators always has a value. */
  lemma {:induction false} NoDivisionSucceeds(p: Prims, t: Node)
    requires OpsIn(t, Handled - Divisions)
    ensures Evaluate(p, t).Ok?
    decreases t
  {
    match t
    case Leaf(_) =>
    case Op(op, l, r) =>
      NoDivisionSucceeds(p, l);
      NoDivisionSucceeds(p, r);
  }

  /** A `√` node is `1 * sqrt(operand)`, which is sqrt(operand) itself. */
  lemma RootIsSqrt(p: Prims, x: Node)
    requires Evaluate(p, x).Ok?
    ensures Evaluate(p, Op("√", Leaf(One), x)) == Ok(p.sqrt(Evaluate(p, x).value))
  {
  }

  /** The tree `parseFactor` builds for `-√x` is the negated square root. */
  lemma MinusRootIsNegatedSqrt(p: Prims, x: Node)
    requires Evaluate(p, x).Ok?
    ensures Evaluate(p, Op("-", Leaf(Zero), Op("√", Leaf(One), x))) == Ok(Neg(p.sqrt(Evaluate(p, x).value)))
  {
  }

  /** The tree `parseFactor` builds for `+x` has the value of x, and `-x` its negation. */
  lemma SignNodes(p: Prims, x: Node)
    requires Evaluate(p, x).Ok?
    ensures Evaluate(p, Op("+", Leaf(Zero), x)) == Evaluate(p, x)
    ensures Evaluate(p, Op("-", Leaf(Zero), x)) == Ok(Neg(Evaluate(p, x).value))
  {
  }
}
