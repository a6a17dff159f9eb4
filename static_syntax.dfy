/**
 * The expressions `parse` of static/calculator.js is built for, as syntax:
 * a factor (a literal, `π`, `√` factor, or a signed factor), a term (a
 * factor, implicit factors, an optional `²`, then `× * / ÷ ^ %` factors)
 * and an expression (terms joined by `+ -`). Each has the tokens it is
 * written as and the tree it stands for.
 */
module StaticSyntax {
  import opened Numbers
  import opened Errors
  import opened Tree
  import opened StaticParser

  datatype FactorSyntax = Lit(text: string) | PiLit | Root(arg: FactorSyntax) | Signed(negative: bool, arg: FactorSyntax)

  datatype OpFactor = OpFactor(op: string, arg: FactorSyntax)

  datatype TermSyntax = TermSyntax(head: FactorSyntax, implicits: seq<FactorSyntax>, squared: bool, ops: seq<OpFactor>)

  datatype OpTerm = OpTerm(op: string, arg: TermSyntax)

  datatype ExprSyntax = ExprSyntax(head: TermSyntax, rest: seq<OpTerm>)

  // ---------------------------------------------------------------------
  // Tokens and trees.
  // ---------------------------------------------------------------------

  function SignText(negative: bool): string
  {
    if negative then "-" else "+"
  }

  function FactorTokens(f: FactorSyntax): (r: seq<string>)
    ensures |r| > 0
  {
    match f
    case Lit(t) => [t]
    case PiLit => ["π"]
    case Root(g) => ["√"] + FactorTokens(g)
    case Signed(neg, g) => [SignText(neg)] + FactorTokens(g)
  }

  function FactorTree(p: Prims, f: FactorSyntax): Node
  {
    match f
    case Lit(t) => Leaf(p.toNumber(t))
    case PiLit => Leaf(p.pi)
    case Root(g) => Op("√", Leaf(One), FactorTree(p, g))
    case Signed(neg, g) => Op(SignText(neg), Leaf(Zero), FactorTree(p, g))
  }

  /** A literal is any token `parseFactor` does not treat specially. */
  predicate FactorOk(f: FactorSyntax)
  {
    match f
    case Lit(t) => t != "π" && t != "√" && t != "+" && t != "-"
    case PiLit => true
    case Root(g) => FactorOk(g)
    case Signed(_, g) => FactorOk(g)
  }

  function FactorsTokens(fs: seq<FactorSyntax>): seq<string>
  {
    if fs == [] then [] else FactorTokens(fs[0]) + FactorsTokens(fs[1..])
  }

  function OpFactorsTokens(os: seq<OpFactor>): seq<string>
  {
    if os == [] then [] else [os[0].op] + FactorTokens(os[0].arg) + OpFactorsTokens(os[1..])
  }

  /** Implicit products, left-associative `*` nodes. */
  function ProductTree(p: Prims, left: Node, fs: seq<FactorSyntax>): Node
    decreases |fs|
  {
    if fs == [] then left else ProductTree(p, Op("*", left, FactorTree(p, fs[0])), fs[1..])
  }

  /** Explicit operators, left-associative. */
  function OpFactorsTree(p: Prims, left: Node, os: seq<OpFactor>): Node
    decreases |os|
  {
    if os == [] then left else OpFactorsTree(p, Op(os[0].op, left, FactorTree(p, os[0].arg)), os[1..])
  }

  function Square(squared: bool): seq<string>
  {
    if squared then ["²"] else []
  }

  /** The tokens of a term as written. */
  function TermTokens(t: TermSyntax): seq<string>
  {
    FactorTokens(t.head) + FactorsTokens(t.implicits) + Square(t.squared) + OpFactorsTokens(t.ops)
  }

  /** The tokens of a term once `parseTerm` has spliced its `²` out. */
  function TermTokensAfter(t: TermSyntax): seq<string>
  {
    FactorTokens(t.head) + FactorsTokens(t.implicits) + OpFactorsTokens(t.ops)
  }

  function TermTree(p: Prims, t: TermSyntax): Node
  {
    var product := ProductTree(p, FactorTree(p, t.head), t.implicits);
    OpFactorsTree(p, if t.squared then Squared(p, product) else product, t.ops)
  }

  function OpTermsTokens(os: seq<OpTerm>): seq<string>
  {
    if os == [] then [] else [os[0].op] + TermTokens(os[0].arg) + OpTermsTokens(os[1..])
  }

  function OpTermsTokensAfter(os: seq<OpTerm>): seq<string>
  {
    if os == [] then [] else [os[0].op] + TermTokensAfter(os[0].arg) + OpTermsTokensAfter(os[1..])
  }

  function OpTermsTree(p: Prims, left: Node, os: seq<OpTerm>): Node
    decreases |os|
  {
    if os == [] then left else OpTermsTree(p, Op(os[0].op, left, TermTree(p, os[0].arg)), os[1..])
  }

  function ExprTokens(e: ExprSyntax): seq<string>
  {
    TermTokens(e.head) + OpTermsTokens(e.rest)
  }

  /** The tokens of an expression once `parseTerm` has spliced out its `²`s. */
  function ExprTokensAfter(e: ExprSyntax): seq<string>
  {
    TermTokensAfter(e.head) + OpTermsTokensAfter(e.rest)
  }

  function ExprTree(p: Prims, e: ExprSyntax): Node
  {
    OpTermsTree(p, TermTree(p, e.head), e.rest)
  }

  // ---------------------------------------------------------------------
  // Well-formed syntax, and what may follow it.
  // ---------------------------------------------------------------------

  function First(f: FactorSyntax): string
  {
    match f
    case Lit(t) => t
    case PiLit => "π"
    case Root(_) => "√"
    case Signed(neg, _) => SignText(neg)
  }

  predicate TermOk(p: Prims, t: TermSyntax)
  {
    FactorOk(t.head) &&
    (forall k :: 0 <= k < |t.implicits| ==> FactorOk(t.implicits[k]) && Implicit(p, First(t.implicits[k]))) &&
    (forall k :: 0 <= k < |t.ops| ==> MulOp(t.ops[k].op) && FactorOk(t.ops[k].arg))
  }

  predicate ExprOk(p: Prims, e: ExprSyntax)
  {
    TermOk(p, e.head) && forall k :: 0 <= k < |e.rest| ==> AddOp(e.rest[k].op) && TermOk(p, e.rest[k].arg)
  }

  /**
   * The token after a term does not continue it: no operator of the term
   * loop, and, unless a `²` or an explicit operator already ended the
   * implicit product, no implicit factor and no `²`.
   */
  predicate EndsTerm(p: Prims, t: TermSyntax, rest: seq<string>)
  {
    rest == [] ||
    (!MulOp(rest[0]) && (t.squared || |t.ops| > 0 || (!Implicit(p, rest[0]) && rest[0] != "²")))
  }

  function LastTerm(e: ExprSyntax): TermSyntax
  {
    if e.rest == [] then e.head else e.rest[|e.rest| - 1].arg
  }

  /** The token after an expression continues neither its last term nor its `+ -` chain. */
  predicate EndsExpr(p: Prims, e: ExprSyntax, rest: seq<string>)
  {
    EndsTerm(p, LastTerm(e), rest) && (rest == [] || !AddOp(rest[0]))
  }

  /** `²` is not a number, so the implicit-product loop never reads it as a factor. */
  ghost predicate SquareNaN(p: Prims)
  {
    p.toNumber("²").NaN?
  }

  /** Nor are `²` and the operators of the second term loop. */
  ghost predicate TermSymbolsNaN(p: Prims)
  {
    SquareNaN(p) && p.toNumber("×").NaN? && p.toNumber("*").NaN? && p.toNumber("/").NaN? &&
    p.toNumber("÷").NaN? && p.toNumber("^").NaN? && p.toNumber("%").NaN?
  }

  /** Nor, besides, `+` and `-`. */
  ghost predicate ChainSymbolsNaN(p: Prims)
  {
    TermSymbolsNaN(p) && p.toNumber("+").NaN? && p.toNumber("-").NaN?
  }

  /** The token at index k of s (named, so that `Occurs` is unfolded only on request). */
  function TokenAt(s: seq<string>, k: nat): string
    requires k < |s|
  {
    s[k]
  }

  predicate Occurs(toks: seq<string>, i: nat, s: seq<string>)
  {
    i + |s| <= |toks| && forall k {:trigger TokenAt(s, k)} :: 0 <= k < |s| ==> toks[i + k] == TokenAt(s, k)
  }

  /** Position n ends an implicit product: the end of the tokens, or a token that neither continues nor squares it. */
  predicate StopsImplicit(p: Prims, toks: seq<string>, n: nat)
  {
    n == |toks| || (n < |toks| && !Implicit(p, toks[n]) && toks[n] != "²")
  }

  predicate ImplicitFactors(p: Prims, fs: seq<FactorSyntax>)
  {
    forall k :: 0 <= k < |fs| ==> FactorOk(fs[k]) && Implicit(p, First(fs[k]))
  }

  predicate MulFactors(os: seq<OpFactor>)
  {
    forall k :: 0 <= k < |os| ==> MulOp(os[k].op) && FactorOk(os[k].arg)
  }

  /** Where in toks the `²` of a squared term at i sits, once its head and implicit product are read. */
  function SquarePos(t: TermSyntax, i: nat): nat
  {
    i + |FactorTokens(t.head)| + |FactorsTokens(t.implicits)|
  }

  /** The token array `parseTerm` leaves after reading term t at i. */
  function TermLeaves(toks: seq<string>, i: nat, t: TermSyntax): seq<string>
    requires t.squared ==> SquarePos(t, i) < |toks|
  {
    if t.squared then Splice(toks, SquarePos(t, i)) else toks
  }

  /** Position n ends term t, as `EndsTerm` says of the token found there. */
  predicate TermEndsAt(p: Prims, t: TermSyntax, toks: seq<string>, n: nat)
  {
    n == |toks| ||
    (n < |toks| && !MulOp(toks[n]) && (t.squared || |t.ops| > 0 || (!Implicit(p, toks[n]) && toks[n] != "²")))
  }

  predicate AddTerms(p: Prims, os: seq<OpTerm>)
  {
    forall k :: 0 <= k < |os| ==> AddOp(os[k].op) && TermOk(p, os[k].arg)
  }
}
