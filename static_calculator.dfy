/**
 * `calculate` of static/calculator.js: tokenize the text, collapse its
 * parenthesised groups, parse the tokens and evaluate the tree. Every
 * exception a stage throws is the `Err` of the outcome.
 */
module StaticCalculator {
  import opened Numbers
  import opened Errors
  import opened Text
  import opened Tree
  import opened StaticLexer
  import opened StaticResolver
  import opened StaticParser
  import opened StaticEvaluator
  import opened StaticSyntax
  import opened StaticGrammar

  /** parse and evaluate, the last two stages. */
  function Value(p: Prims, toks: seq<string>): Result<Num>
  {
    match ParseTree(p, toks)
    case Err(e) => Err(e)
    case Ok(tree) => Evaluate(p, tree)
  }

  /** `calculate(expression)` */
  function Calculate(p: Prims, expression: string): Result<Num>
  {
    match Resolve(p, Lex(expression))
    case Err(e) => Err(e)
    case Ok(toks) => Value(p, toks)
  }

  /** `calculate(expression)`, running each stage's own loop. */
  method CalculateExpression(p: Prims, expression: string) returns (r: Result<Num>)
    ensures r == Calculate(p, expression)
  {
    var tokens := Tokenize(expression);
    var resolved := ResolveParens(p, tokens);
    if resolved.Err? {
      return Err(resolved.error);
    }
    var ast := Parse(p, resolved.value);
    if ast.Err? {
      return Err(ast.error);
    }
    r := Evaluate(p, ast.value);
  }

  /** Text without parentheses goes straight from the tokenizer to the parser. */
  lemma CalculateWithoutGroups(p: Prims, expression: string)
    requires ParenFree(Lex(expression))
    ensures Calculate(p, expression) == Value(p, Lex(expression))
  {
    ParenFreeUnchanged(p, Lex(expression));
  }

  /**
   * Text that lexes to a well-formed expression without parentheses or `²`
   * (and tokens after it that do not continue it) has the value of the
   * expression's tree; evaluation fails exactly on a faulty tree.
   */
  lemma CalculateExpressionValue(p: Prims, expression: string, e: ExprSyntax, rest: seq<string>)
    requires SymbolsAreNaN(p) && ExprOk(p, e) && EndsExpr(p, e, rest)
    requires !e.head.squared && forall k :: 0 <= k < |e.rest| ==> !e.rest[k].arg.squared
    requires Lex(expression) == ExprTokens(e) + rest && ParenFree(Lex(expression))
    ensures Calculate(p, expression) == Evaluate(p, ExprTree(p, e))
    ensures Calculate(p, expression).Err? <==> Faulty(p, ExprTree(p, e))
  {
    CalculateWithoutGroups(p, expression);
    ParseRoundTrip(p, e, rest);
    FailsIffFaulty(p, ExprTree(p, e));
  }

  /**
   * A top-level group not followed by `²` is replaced by the text of its
   * value before the rest is parsed; the interior may nest groups, and the
   * tokens after the group are resolved in turn. The first error met is
   * the outcome.
   */
  lemma CalculateGroup(p: Prims, expression: string, pre: seq<string>, x: seq<string>, post: seq<string>)
    requires Lex(expression) == pre + ["("] + x + [")"] + post
    requires ParenFree(pre) && |x| > 0 && StaysOpen(x, 1) && Count(x, "(") == Count(x, ")")
    requires forall k :: 0 <= k < |x| ==> !SquaredClose(x, k)
    requires post == [] || post[0] != "²"
    ensures Resolve(p, x).Err? ==> Calculate(p, expression) == Err(Resolve(p, x).error)
    ensures var r := Resolve(p, x);
      r.Ok? && Value(p, r.value).Err? ==> Calculate(p, expression) == Err(Value(p, r.value).error)
    ensures var r, q := Resolve(p, x), Resolve(p, post);
      r.Ok? && Value(p, r.value).Ok? && q.Err? ==> Calculate(p, expression) == Err(q.error)
    ensures var r, q := Resolve(p, x), Resolve(p, post);
      r.Ok? && Value(p, r.value).Ok? && q.Ok? ==>
        Calculate(p, expression) == Value(p, pre + [p.toString(Value(p, r.value).value)] + q.value)
  {
    GroupCollapses(p, pre, x, post);
  }

  /** With no `²` among the tokens, unequal counts of `(` and `)` make `calculate` throw. */
  lemma UnbalancedTextFails(p: Prims, expression: string)
    requires "²" !in Lex(expression) && Count(Lex(expression), "(") != Count(Lex(expression), ")")
    ensures Calculate(p, expression).Err?
    ensures var c := Calculate(p, expression);
      c.Err? ==> c.error == MismatchedParentheses || FromGroup(p, Lex(expression), c.error)
  {
    UnbalancedFails(p, Lex(expression));
  }
}
