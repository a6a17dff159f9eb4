/**
 * `parse` of static/calculator.js: recursive descent in three levels,
 * `parseExp` (`+ -`), `parseTerm` (implicit multiplication, a postfix `²`,
 * then `× * / ÷ ^ %`) and `parseFactor` (`π`, prefix `√`, unary sign, a
 * number). `parseTerm` removes a `²` from the token array it shares with
 * the other two, so the functions below thread the token list: each
 * returns the tokens as it leaves them together with its outcome. The
 * class `Parser` holds that array as a field and runs the two loops.
 */
module StaticParser {
  import opened Numbers
  import opened Errors
  import opened Text
  import opened Tree

  /** The operators of the loop of `parseExp`. */
  predicate AddOp(t: string)
  {
    t == "+" || t == "-"
  }

  /** The operators of the second loop of `parseTerm`. */
  predicate MulOp(t: string)
  {
    t == "×" || t == "*" || t == "/" || t == "÷" || t == "^" || t == "%"
  }

  /** The operators a tree of this parser can carry. */
  const TreeOps: set<string> := {"+", "-", "×", "*", "/", "÷", "^", "%", "√"}

  /** What a parse step leaves: the token array, and the node and next index or an error. */
  datatype ParseState<Tokens> = Parsed(tokens: Tokens, outcome: Result<(Node, nat)>)
  type Parsed = ParseState<seq<string>>

  /** `isImplicitMultiplication`: the token starts a factor that multiplies the one before it. */
  predicate Implicit(p: Prims, t: string)
  {
    t == "π" || !p.toNumber(t).NaN? || t == "(" || (|t| > 0 && IsAsciiLetter(t[0]))
  }

  /** `Number(left.value)`: the value of a number node, or Number() of an operator's symbol. */
  function NumberOf(p: Prims, t: Node): Num
  {
    match t
    case Leaf(v) => v
    case Op(op, _, _) => p.toNumber(op)
  }

  /** A number node holding `Math.pow(Number(left.value), 2)`. */
  function Squared(p: Prims, left: Node): Node
  {
    Leaf(p.pow(NumberOf(p, left), Finite(2.0)))
  }

  /** `tokens.splice(j, 1)` */
  function Splice(toks: seq<string>, j: nat): (r: seq<string>)
    requires j < |toks|
    ensures |r| == |toks| - 1
  {
    toks[..j] + toks[j + 1..]
  }

  /** Removing the token between a and b leaves a and b. */
  lemma SpliceBetween(a: seq<string>, x: string, b: seq<string>)
    ensures Splice(a + [x] + b, |a|) == a + b
  {
    var toks := a + [x] + b;
    assert toks[..|a|] == a;
    assert toks[|a| + 1..] == b;
  }

  /** `parseFactor(i)` */
  function Factor(p: Prims, toks: seq<string>, i: nat): (r: Result<(Node, nat)>)
    ensures r.Ok? ==> i < r.value.1 <= |toks|
    ensures r.Err? ==> r.error == UnexpectedEndOfExpression
    decreases |toks| - i
  {
    if i >= |toks| then Err(UnexpectedEndOfExpression)
    else
      var t := toks[i];
      if t == "π" then Ok((Leaf(p.pi), i + 1))
      else if t == "√" then
        match Factor(p, toks, i + 1)
        case Err(e) => Err(e)
        case Ok((right, next)) => Ok((Op("√", Leaf(One), right), next))
      else if t == "+" || t == "-" then
        match Factor(p, toks, i + 1)
        case Err(e) => Err(e)
        case Ok((right, next)) => Ok((Op(t, Leaf(Zero), right), next))
      else Ok((Leaf(p.toNumber(t)), i + 1))
  }

  /**
   * The first loop of `parseTerm`, from index j with `left` built so far:
   * a `²` squares `left` and is spliced out, and a token that starts an
   * implicit multiplication adds a `*` node. The test for implicit
   * multiplication is made on the token before the splice.
   */
  function ImplicitLoop(p: Prims, toks: seq<string>, left: Node, j: nat): (r: Parsed)
    requires j <= |toks|
    ensures |r.tokens| <= |toks|
    ensures r.outcome.Ok? ==> j <= r.outcome.value.1 <= |r.tokens|
    ensures r.outcome.Ok? ==> |r.tokens| - r.outcome.value.1 <= |toks| - j
    ensures r.outcome.Err? ==> r.outcome.error == UnexpectedEndOfExpression
    decreases |toks| - j
  {
    if j == |toks| then Parsed(toks, Ok((left, j)))
    else
      var t := toks[j];
      var implicit := Implicit(p, t);
      var toks1 := if t == "²" then Splice(toks, j) else toks;
      var left1 := if t == "²" then Squared(p, left) else left;
      if implicit then
        match Factor(p, toks1, j)
        case Err(e) => Parsed(toks1, Err(e))
        case Ok((right, next)) =>
          ImplicitLoop(p, toks1, Op("*", left1, right), next)
      else Parsed(toks1, Ok((left1, j)))
  }

  /** The second loop of `parseTerm`: `× * / ÷ ^ %`, left-associative. */
  function OpLoop(p: Prims, toks: seq<string>, left: Node, j: nat): (r: Result<(Node, nat)>)
    requires j <= |toks|
    ensures r.Ok? ==> j <= r.value.1 <= |toks|
    ensures r.Err? ==> r.error == UnexpectedEndOfExpression
    decreases |toks| - j
  {
    if j < |toks| && MulOp(toks[j]) then
      match Factor(p, toks, j + 1)
      case Err(e) => Err(e)
      case Ok((right, next)) => OpLoop(p, toks, Op(toks[j], left, right), next)
    else Ok((left, j))
  }

  /** `parseTerm(i)` */
  function Term(p: Prims, toks: seq<string>, i: nat): (r: Parsed)
    ensures |r.tokens| <= |toks|
    ensures r.outcome.Ok? ==> i < r.outcome.value.1 <= |r.tokens|
    ensures r.outcome.Ok? ==> |r.tokens| - r.outcome.value.1 < |toks| - i
    ensures r.outcome.Err? ==> r.outcome.error == UnexpectedEndOfExpression
  {
    match Factor(p, toks, i)
    case Err(e) => Parsed(toks, Err(e))
    case Ok((f, n)) =>
      var im := ImplicitLoop(p, toks, f, n);
      match im.outcome
      case Err(e) => im
      case Ok((left, j)) => Parsed(im.tokens, OpLoop(p, im.tokens, left, j))
  }

  /** The loop of `parseExp`: `+ -`, left-associative. */
  function ExpLoop(p: Prims, toks: seq<string>, left: Node, j: nat): (r: Parsed)
    requires j <= |toks|
    ensures r.outcome.Ok? ==> j <= r.outcome.value.1 <= |r.tokens|
    ensures r.outcome.Err? ==> r.outcome.error == UnexpectedEndOfExpression
    decreases |toks| - j, 1
  {
    if j < |toks| && AddOp(toks[j]) then AddRound(p, toks, left, j)
    else Parsed(toks, Ok((left, j)))
  }

  /** One round of that loop: the term after the operator at j, then the loop again. */
  function AddRound(p: Prims, toks: seq<string>, left: Node, j: nat): (r: Parsed)
    requires j < |toks| && AddOp(toks[j])
    ensures r.outcome.Ok? ==> j < r.outcome.value.1 <= |r.tokens|
    ensures r.outcome.Err? ==> r.outcome.error == UnexpectedEndOfExpression
    decreases |toks| - j, 0
  {
    var t := Term(p, toks, j + 1);
    match t.outcome
    case Err(e) => t
    case Ok((right, next)) => ExpLoop(p, t.tokens, Op(toks[j], left, right), next)
  }

  /** `parseExp(i)` */
  function Exp(p: Prims, toks: seq<string>, i: nat): (r: Parsed)
    ensures r.outcome.Ok? ==> i < r.outcome.value.1 <= |r.tokens|
    ensures r.outcome.Err? ==> r.outcome.error == UnexpectedEndOfExpression
  {
    var t := Term(p, toks, i);
    match t.outcome
    case Err(e) => t
    case Ok((left, j)) => ExpLoop(p, t.tokens, left, j)
  }

  /** `parse(tokens)`: the tree of `parseExp(0)`; tokens after it are ignored. */
  function ParseTree(p: Prims, toks: seq<string>): (r: Result<Node>)
    ensures r.Err? ==> r.error == UnexpectedEndOfExpression
  {
    match Exp(p, toks, 0).outcome
    case Err(e) => Err(e)
    case Ok((tree, _)) => Ok(tree)
  }

  /** The closure of `parse`: the token array its three functions share. */
  class Parser {
    var tokens: seq<string>
    const prims: Prims

    constructor(p: Prims, toks: seq<string>)
      ensures tokens == toks && prims == p
    {
      tokens := toks;
      prims := p;
    }

    /** `parseTerm(index)` */
    method ParseTerm(index: nat) returns (r: Result<(Node, nat)>)
      modifies this
      ensures Term(prims, old(tokens), index) == Parsed(tokens, r)
    {
      var f := Factor(prims, tokens, index);
      if f.Err? {
        return Err(f.error);
      }
      var left := f.value.0;
      var nextIndex: nat := f.value.1;
      ghost var implicitResult := ImplicitLoop(prims, tokens, left, nextIndex);
      while nextIndex < |tokens|
        invariant nextIndex <= |tokens|
        invariant ImplicitLoop(prims, tokens, left, nextIndex) == implicitResult
        decreases |tokens| - nextIndex
      {
        var nextToken := tokens[nextIndex];
        var isImplicitMultiplication := Implicit(prims, nextToken);
        if nextToken == "²" {
          left := Squared(prims, left);
          tokens := Splice(tokens, nextIndex);
        }
        if isImplicitMultiplication {
          var g := Factor(prims, tokens, nextIndex);
          if g.Err? {
            return Err(g.error);
          }
          left := Op("*", left, g.value.0);
          nextIndex := g.value.1;
        } else {
          break;
        }
      }
      assert implicitResult == Parsed(tokens, Ok((left, nextIndex)));
      ghost var opResult := OpLoop(prims, tokens, left, nextIndex);
      while nextIndex < |tokens| && MulOp(tokens[nextIndex])
        invariant nextIndex <= |tokens|
        invariant OpLoop(prims, tokens, left, nextIndex) == opResult
        decreases |tokens| - nextIndex
      {
        var operator := tokens[nextIndex];
        nextIndex := nextIndex + 1;
        var g := Factor(prims, tokens, nextIndex);
        if g.Err? {
          return Err(g.error);
        }
        left := Op(operator, left, g.value.0);
        nextIndex := g.value.1;
      }
      r := Ok((left, nextIndex));
    }

    /** `parseExp(index)` */
    method ParseExp(index: nat) returns (r: Result<(Node, nat)>)
      modifies this
      ensures Exp(prims, old(tokens), index) == Parsed(tokens, r)
    {
      var t := ParseTerm(index);
      if t.Err? {
        return t;
      }
      var left := t.value.0;
      var nextIndex: nat := t.value.1;
      ghost var expResult := ExpLoop(prims, tokens, left, nextIndex);
      while nextIndex < |tokens| && AddOp(tokens[nextIndex])
        invariant nextIndex <= |tokens|
        invariant ExpLoop(prims, tokens, left, nextIndex) == expResult
        decreases |tokens| - nextIndex
      {
        var operator := tokens[nextIndex];
        nextIndex := nextIndex + 1;
        ghost var before := tokens;
        var u := ParseTerm(nextIndex);
        if u.Err? {
          return u;
        }
        left := Op(operator, left, u.value.0);
        nextIndex := u.value.1;
      }
      r := Ok((left, nextIndex));
    }
  }

  /** `parse(tokens)` */
  method Parse(p: Prims, toks: seq<string>) returns (r: Result<Node>)
    ensures r == ParseTree(p, toks)
  {
    var parser := new Parser(p, toks);
    var e := parser.ParseExp(0);
    if e.Err? {
      return Err(e.error);
    }
    r := Ok(e.value.0);
  }
}
