/**
 * `evaluate` of the root calculator.js: a number node is its value; an
 * operator node evaluates both children and applies `+`, `-`, `×` or
 * `÷`. The `switch` has no default, so any other operator, among them the
 * `*` and `/` that the legacy parser builds, yields `undefined`, which
 * an enclosing operator then reads as NaN.
 */
module LegacyEvaluator {
  import opened Numbers
  import opened Tree
  import opened LegacyParser

  /** The operators the `switch` of `evaluate` has a case for. */
  const Cases: set<string> := {"+", "-", "×", "÷"}

  /** `evaluate(ast)` */
  function Evaluate(t: Node): (r: Value)
    ensures r.Undefined? <==> t.Op? && t.op !in Cases
    ensures t.Leaf? ==> r == Number(t.value)
    decreases t
  {
    match t
    case Leaf(v) => Number(v)
    case Op(op, l, r) =>
      var left, right := ToNum(Evaluate(l)), ToNum(Evaluate(r));
      if op == "+" then Number(Add(left, right))
      else if op == "-" then Number(Sub(left, right))
      else if op == "×" then Number(Mul(left, right))
      else if op == "÷" then Number(Div(left, right))
      else Undefined
  }

  /**
   * The parser and the evaluator never agree on a product: a parse is
   * `undefined` exactly when its root is the `*` or `/` the parser built.
   */
  lemma ParsedUndefinedIff(p: Prims, toks: seq<Entry>)
    ensures Evaluate(Parse(p, toks)).Undefined? <==> Parse(p, toks).Op? && Parse(p, toks).op in {"*", "/"}
  {
  }

  /** A sum all of whose products are single entries. */
  predicate Flat(e: Sum)
  {
    e.head.ops == [] && forall k :: 0 <= k < |e.rest| ==> e.rest[k].arg.ops == []
  }

  /** The running total of `+ -` over the entries' numbers, left to right. */
  function Total(p: Prims, acc: Num, os: seq<OpProduct>): Num
    decreases |os|
  {
    if os == [] then acc
    else
      var v := NumberOf(p, os[0].arg.head);
      Total(p, if os[0].op == "+" then Add(acc, v) else Sub(acc, v), os[1..])
  }

  lemma {:induction false} TotalOfFlat(p: Prims, left: Node, os: seq<OpProduct>)
    requires Evaluate(left).Number? && AddProducts(os)
    requires forall k :: 0 <= k < |os| ==> os[k].arg.ops == []
    ensures Evaluate(OpProductsTree(p, left, os)) == Number(Total(p, Evaluate(left).n, os))
    decreases |os|
  {
    if os != [] {
      AddProductsTail(os);
      var next := Op(os[0].op, left, ProductTree(p, os[0].arg));
      assert ProductTree(p, os[0].arg) == Leaf(NumberOf(p, os[0].arg.head));
      assert forall k :: 0 <= k < |os[1..]| ==> os[1..][k] == os[k + 1];
      TotalOfFlat(p, next, os[1..]);
    }
  }

  /** A flat sum evaluates to the left-to-right total of its entries' numbers. */
  lemma FlatSumValue(p: Prims, e: Sum)
    requires SumOk(e) && Flat(e)
    ensures Evaluate(SumTree(p, e)) == Number(Total(p, NumberOf(p, e.head.head), e.rest))
  {
    TotalOfFlat(p, Leaf(NumberOf(p, e.head.head)), e.rest);
  }

  /** NaN absorbs the whole `+ -` chain. */
  lemma {:induction false} TotalOfNaN(p: Prims, os: seq<OpProduct>)
    ensures Total(p, NaN, os) == NaN
    decreases |os|
  {
    if os != [] {
      TotalOfNaN(p, os[1..]);
    }
  }

  /** Once some value in the chain is NaN or `undefined`, the chain is NaN. */
  lemma {:induction false} SpoiledChain(p: Prims, left: Node, os: seq<OpProduct>)
    requires AddProducts(os)
    requires ToNum(Evaluate(left)).NaN?
    ensures Evaluate(OpProductsTree(p, left, os)) == (if os == [] then Evaluate(left) else Number(NaN))
    decreases |os|
  {
    if os != [] {
      AddProductsTail(os);
      SpoiledChain(p, Op(os[0].op, left, ProductTree(p, os[0].arg)), os[1..]);
    }
  }

  /** A chain with an explicit product somewhere is spoiled from there on. */
  lemma {:induction false} ProductSpoilsChain(p: Prims, left: Node, os: seq<OpProduct>, k: nat)
    requires AddProducts(os) && k < |os| && os[k].arg.ops != []
    ensures Evaluate(OpProductsTree(p, left, os)) == Number(NaN)
    decreases |os|
  {
    AddProductsTail(os);
    var next := Op(os[0].op, left, ProductTree(p, os[0].arg));
    if k == 0 {
      ProductIsUndefined(p, os[0].arg);
      SpoiledChain(p, next, os[1..]);
    } else {
      assert os[1..][k - 1] == os[k];
      ProductSpoilsChain(p, next, os[1..], k - 1);
    }
  }

  /** A product with an operator has a `*` or `/` root, which evaluates to `undefined`. */
  lemma ProductIsUndefined(p: Prims, t: Product)
    requires MulEntries(t.ops) && t.ops != []
    ensures Evaluate(ProductTree(p, t)) == Undefined
  {
    ChainRootIn(p, Leaf(NumberOf(p, t.head)), t.ops);
  }

  lemma {:induction false} ChainRootIn(p: Prims, left: Node, os: seq<OpEntry>)
    requires MulEntries(os) && os != []
    ensures OpEntriesTree(p, left, os).Op? && OpEntriesTree(p, left, os).op in {"*", "/"}
    decreases |os|
  {
    if |os| > 1 {
      assert forall k :: 0 <= k < |os[1..]| ==> os[1..][k] == os[k + 1];
      ChainRootIn(p, Op(os[0].op, left, Leaf(NumberOf(p, os[0].arg))), os[1..]);
    }
  }

  /**
   * Any explicit `*` or `/` spoils the result: the sum is `undefined`
   * when the product is all there is, and NaN otherwise.
   */
  lemma ProductSpoilsSum(p: Prims, e: Sum)
    requires SumOk(e) && !Flat(e)
    ensures Evaluate(SumTree(p, e)) == (if e.rest == [] then Undefined else Number(NaN))
  {
    if e.head.ops != [] {
      ProductIsUndefined(p, e.head);
      SpoiledChain(p, ProductTree(p, e.head), e.rest);
    } else {
      var k :| 0 <= k < |e.rest| && e.rest[k].arg.ops != [];
      ProductSpoilsChain(p, ProductTree(p, e.head), e.rest, k);
    }
  }

  /** Entries without `*` or `/` text never evaluate to `undefined`. */
  lemma NoProductNoUndefined(p: Prims, toks: seq<Entry>)
    requires forall k :: 0 <= k < |toks| ==> !IsMulText(toks[k])
    ensures Evaluate(Parse(p, toks)).Number?
  {
    SumsOnly(p, toks);
  }
}
