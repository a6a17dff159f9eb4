/**
 * `parse` of the root calculator.js: `parseExp` chains terms with `+ -`,
 * `parseTerm` chains factors with `* /`, and `parseFactor` reads exactly
 * one entry as `Number(entry)`. Nothing is ever rejected: past the end of
 * the array, or on an empty slot, `Number(undefined)` is NaN, and the
 * parse stops at the first entry that is not an operator it expects.
 *
 * The array the parser reads holds the tokenizer's strings, or, after
 * `parseParentheses`, also group values and empty slots.
 */
module LegacyParser {
  import opened Numbers
  import opened Tree

  /** What the legacy `evaluate` returns: a number, or `undefined` for an operator it has no case for. */
  datatype Value = Undefined | Number(n: Num)

  /** An element of the array `parse` reads: a token, a group's value, or an empty slot. */
  datatype Entry = Text(text: string) | Held(value: Value) | Hole

  /** `Number(v)` of an evaluation outcome: `Number(undefined)` is NaN. */
  function ToNum(v: Value): Num
  {
    match v
    case Undefined => NaN
    case Number(n) => n
  }

  /** `Number(token)` */
  function NumberOf(p: Prims, e: Entry): Num
  {
    match e
    case Text(t) => p.toNumber(t)
    case Held(v) => ToNum(v)
    case Hole => NaN
  }

  /** `tokens[i]`: past the end it is `undefined`, read like an empty slot. */
  function At(toks: seq<Entry>, i: nat): Entry
  {
    if i < |toks| then toks[i] else Hole
  }

  /** `['*', '/'].includes(entry)` */
  predicate IsMulText(e: Entry)
  {
    e == Text("*") || e == Text("/")
  }

  /** `['+', '-'].includes(entry)` */
  predicate IsAddText(e: Entry)
  {
    e == Text("+") || e == Text("-")
  }

  /** The operators a tree of this parser can carry. */
  const ParsedOps: set<string> := {"+", "-", "*", "/"}

  /** Those of a sum without products. */
  const AddOps: set<string> := {"+", "-"}

  /** `parseFactor(index)` */
  function Factor(p: Prims, toks: seq<Entry>, i: nat): (r: (Node, nat))
    ensures r.1 == i + 1 && r.0.Leaf?
  {
    (Leaf(NumberOf(p, At(toks, i))), i + 1)
  }

  /** The loop of `parseTerm`: `* /`, left-associative. */
  function TermLoop(p: Prims, toks: seq<Entry>, left: Node, j: nat): (r: (Node, nat))
    ensures j <= r.1 && (j <= |toks| + 1 ==> r.1 <= |toks| + 1)
    ensures r.1 < |toks| ==> !IsMulText(toks[r.1])
    ensures OpsIn(left, ParsedOps) ==> OpsIn(r.0, ParsedOps)
    decreases |toks| - j
  {
    if j < |toks| && IsMulText(toks[j]) then
      var next := Op(toks[j].text, left, Factor(p, toks, j + 1).0);
      assert OpsIn(left, ParsedOps) ==> OpsIn(next, ParsedOps);
      TermLoop(p, toks, next, j + 2)
    else (left, j)
  }

  /** `parseTerm(index)` */
  function Term(p: Prims, toks: seq<Entry>, i: nat): (r: (Node, nat))
    ensures i < r.1 && (i <= |toks| ==> r.1 <= |toks| + 1)
    ensures OpsIn(r.0, ParsedOps)
  {
    var (f, n) := Factor(p, toks, i);
    TermLoop(p, toks, f, n)
  }

  /** The loop of `parseExp`: `+ -`, left-associative. */
  function ExpLoop(p: Prims, toks: seq<Entry>, left: Node, j: nat): (r: (Node, nat))
    ensures j <= r.1 && (j <= |toks| + 1 ==> r.1 <= |toks| + 1)
    ensures r.1 < |toks| ==> !IsAddText(toks[r.1])
    ensures OpsIn(left, ParsedOps) ==> OpsIn(r.0, ParsedOps)
    decreases |toks| - j
  {
    if j < |toks| && IsAddText(toks[j]) then
      var (right, next) := Term(p, toks, j + 1);
      ExpLoop(p, toks, Op(toks[j].text, left, right), next)
    else (left, j)
  }

  /** `parseExp(index)` */
  function Exp(p: Prims, toks: seq<Entry>, i: nat): (r: (Node, nat))
    ensures i < r.1 && (i <= |toks| ==> r.1 <= |toks| + 1)
    ensures OpsIn(r.0, ParsedOps)
  {
    var (left, j) := Term(p, toks, i);
    ExpLoop(p, toks, left, j)
  }

  /** `parse(tokens)`: the tree of `parseExp(0)`; what follows it is ignored. */
  function Parse(p: Prims, toks: seq<Entry>): (r: Node)
    ensures OpsIn(r, ParsedOps)
  {
    Exp(p, toks, 0).0
  }

  /** `parseTerm(index)`, with its `while` loop. */
  method ParseTerm(p: Prims, toks: seq<Entry>, index: nat) returns (left: Node, nextIndex: nat)
    ensures (left, nextIndex) == Term(p, toks, index)
  {
    left, nextIndex := Factor(p, toks, index).0, index + 1;
    while nextIndex < |toks| && IsMulText(toks[nextIndex])
      invariant TermLoop(p, toks, left, nextIndex) == Term(p, toks, index)
      decreases |toks| - nextIndex
    {
      var operator := toks[nextIndex].text;
      nextIndex := nextIndex + 1;
      var (right, next) := Factor(p, toks, nextIndex);
      left := Op(operator, left, right);
      nextIndex := next;
    }
  }

  /** `parseExp(index)`, with its `while` loop. */
  method ParseExp(p: Prims, toks: seq<Entry>, index: nat) returns (left: Node, nextIndex: nat)
    ensures (left, nextIndex) == Exp(p, toks, index)
  {
    left, nextIndex := ParseTerm(p, toks, index);
    while nextIndex < |toks| && IsAddText(toks[nextIndex])
      invariant ExpLoop(p, toks, left, nextIndex) == Exp(p, toks, index)
      decreases |toks| - nextIndex
    {
      var operator := toks[nextIndex].text;
      nextIndex := nextIndex + 1;
      var right, next := ParseTerm(p, toks, nextIndex);
      left := Op(operator, left, right);
      nextIndex := next;
    }
  }

  /** `parse(tokens)` */
  method ParseEntries(p: Prims, toks: seq<Entry>) returns (ast: Node)
    ensures ast == Parse(p, toks)
  {
    var next;
    ast, next := ParseExp(p, toks, 0);
  }

  // ---------------------------------------------------------------------
  // The grammar the parser reads: sums of products of single entries.
  // ---------------------------------------------------------------------

  datatype OpEntry = OpEntry(op: string, arg: Entry)

  /** An entry followed by `* /` entries. */
  datatype Product = Product(head: Entry, ops: seq<OpEntry>)

  datatype OpProduct = OpProduct(op: string, arg: Product)

  /** A product followed by `+ -` products. */
  datatype Sum = Sum(head: Product, rest: seq<OpProduct>)

  function OpEntriesTokens(os: seq<OpEntry>): seq<Entry>
  {
    if os == [] then [] else [Text(os[0].op), os[0].arg] + OpEntriesTokens(os[1..])
  }

  function ProductTokens(t: Product): seq<Entry>
  {
    [t.head] + OpEntriesTokens(t.ops)
  }

  function OpProductsTokens(os: seq<OpProduct>): seq<Entry>
  {
    if os == [] then [] else [Text(os[0].op)] + ProductTokens(os[0].arg) + OpProductsTokens(os[1..])
  }

  function SumTokens(e: Sum): seq<Entry>
  {
    ProductTokens(e.head) + OpProductsTokens(e.rest)
  }

  function OpEntriesTree(p: Prims, left: Node, os: seq<OpEntry>): Node
    decreases |os|
  {
    if os == [] then left else OpEntriesTree(p, Op(os[0].op, left, Leaf(NumberOf(p, os[0].arg))), os[1..])
  }

  function ProductTree(p: Prims, t: Product): Node
  {
    OpEntriesTree(p, Leaf(NumberOf(p, t.head)), t.ops)
  }

  function OpProductsTree(p: Prims, left: Node, os: seq<OpProduct>): Node
    decreases |os|
  {
    if os == [] then left else OpProductsTree(p, Op(os[0].op, left, ProductTree(p, os[0].arg)), os[1..])
  }

  function SumTree(p: Prims, e: Sum): Node
  {
    OpProductsTree(p, ProductTree(p, e.head), e.rest)
  }

  predicate MulEntries(os: seq<OpEntry>)
  {
    forall k :: 0 <= k < |os| ==> os[k].op in {"*", "/"}
  }

  predicate AddProducts(os: seq<OpProduct>)
  {
    forall k :: 0 <= k < |os| ==> os[k].op in {"+", "-"} && MulEntries(os[k].arg.ops)
  }

  /** Any entry may stand as an operand; the operators are `* /` in a product and `+ -` in a sum. */
  predicate SumOk(e: Sum)
  {
    MulEntries(e.head.ops) && AddProducts(e.rest)
  }

  /** An entry that neither `parseTerm` nor `parseExp` continues with. */
  predicate Stops(e: Entry)
  {
    !IsMulText(e) && !IsAddText(e)
  }

  /** The `* /` entries read from position j, and the length they take. */
  predicate OpEntriesAt(toks: seq<Entry>, j: nat, os: seq<OpEntry>)
    decreases |os|
  {
    os == [] || (j + 1 < |toks| && toks[j] == Text(os[0].op) && toks[j + 1] == os[0].arg && OpEntriesAt(toks, j + 2, os[1..]))
  }

  predicate ProductAt(toks: seq<Entry>, i: nat, t: Product)
  {
    i < |toks| && toks[i] == t.head && OpEntriesAt(toks, i + 1, t.ops)
  }

  predicate OpProductsAt(toks: seq<Entry>, j: nat, os: seq<OpProduct>)
    decreases |os|
  {
    os == [] ||
    (j < |toks| && toks[j] == Text(os[0].op) && ProductAt(toks, j + 1, os[0].arg) &&
     OpProductsAt(toks, j + 1 + |ProductTokens(os[0].arg)|, os[1..]))
  }

  lemma {:induction false} OpEntriesLength(os: seq<OpEntry>)
    ensures |OpEntriesTokens(os)| == 2 * |os|
    decreases |os|
  {
    if os != [] {
      OpEntriesLength(os[1..]);
    }
  }

  /** The loop of `parseTerm` reads `* /` entries at j as their left-associative tree. */
  lemma {:induction false} TermLoopAt(p: Prims, toks: seq<Entry>, j: nat, os: seq<OpEntry>, left: Node)
    requires MulEntries(os) && OpEntriesAt(toks, j, os) && !IsMulText(At(toks, j + 2 * |os|))
    ensures TermLoop(p, toks, left, j) == (OpEntriesTree(p, left, os), j + 2 * |os|)
    decreases |os|
  {
    if os == [] {
    } else {
      assert os[0].op in {"*", "/"};
      assert MulEntries(os[1..]) by {
        forall k | 0 <= k < |os[1..]| ensures os[1..][k].op in {"*", "/"} { assert os[1..][k] == os[k + 1]; }
      }
      TermLoopAt(p, toks, j + 2, os[1..], Op(os[0].op, left, Leaf(NumberOf(p, os[0].arg))));
    }
  }

  /** `parseTerm` reads a product at i as its tree. */
  lemma TermAt(p: Prims, toks: seq<Entry>, i: nat, t: Product)
    requires MulEntries(t.ops) && ProductAt(toks, i, t) && !IsMulText(At(toks, i + |ProductTokens(t)|))
    ensures Term(p, toks, i) == (ProductTree(p, t), i + |ProductTokens(t)|)
  {
    OpEntriesLength(t.ops);
    TermLoopAt(p, toks, i + 1, t.ops, Leaf(NumberOf(p, t.head)));
  }

  /** One round of the loop of `parseExp`. */
  lemma ExpLoopStep(p: Prims, toks: seq<Entry>, j: nat, left: Node)
    requires j < |toks| && IsAddText(toks[j])
    ensures ExpLoop(p, toks, left, j) == ExpLoop(p, toks, Op(toks[j].text, left, Term(p, toks, j + 1).0), Term(p, toks, j + 1).1)
  {
  }

  lemma AddProductsTail(os: seq<OpProduct>)
    requires AddProducts(os) && os != []
    ensures IsAddText(Text(os[0].op)) && MulEntries(os[0].arg.ops) && AddProducts(os[1..])
  {
    forall k | 0 <= k < |os[1..]|
      ensures os[1..][k].op in {"+", "-"} && MulEntries(os[1..][k].arg.ops)
    {
      assert os[1..][k] == os[k + 1];
    }
  }

  /** The loop of `parseExp` reads `+ -` products at j as their left-associative tree. */
  lemma {:induction false} ExpLoopAt(p: Prims, toks: seq<Entry>, j: nat, os: seq<OpProduct>, left: Node, end: nat)
    requires AddProducts(os) && OpProductsAt(toks, j, os) && end == j + |OpProductsTokens(os)| && Stops(At(toks, end))
    ensures ExpLoop(p, toks, left, j) == (OpProductsTree(p, left, os), end)
    decreases |os|
  {
    if os != [] {
      var t, tail := os[0].arg, os[1..];
      var n := j + 1 + |ProductTokens(t)|;
      var left1 := Op(os[0].op, left, ProductTree(p, t));
      LengthOpProducts(os);
      AddProductsTail(os);
      assert !IsMulText(At(toks, n)) by {
        if tail != [] {
          assert toks[n] == Text(tail[0].op) && tail[0] == os[1];
        }
      }
      TermAt(p, toks, j + 1, t);
      ExpLoopStep(p, toks, j, left);
      ExpLoopAt(p, toks, n, tail, left1, end);
    }
  }

  lemma LengthOpProducts(os: seq<OpProduct>)
    requires os != []
    ensures |OpProductsTokens(os)| == 1 + |ProductTokens(os[0].arg)| + |OpProductsTokens(os[1..])|
  {
  }

  /** The entry at index k of s (named, so that `Found` is unfolded only on request). */
  function EntryAt(s: seq<Entry>, k: nat): Entry
    requires k < |s|
  {
    s[k]
  }

  /** s occurs in toks at position j. */
  predicate Found(toks: seq<Entry>, j: nat, s: seq<Entry>)
  {
    j + |s| <= |toks| && forall k {:trigger EntryAt(s, k)} :: 0 <= k < |s| ==> toks[j + k] == EntryAt(s, k)
  }

  lemma FoundConcat(pre: seq<Entry>, s: seq<Entry>, post: seq<Entry>)
    ensures Found(pre + s + post, |pre|, s)
  {
    var toks := pre + s + post;
    forall k | 0 <= k < |s|
      ensures toks[|pre| + k] == EntryAt(s, k)
    {
    }
  }

  lemma FoundSplit(toks: seq<Entry>, j: nat, a: seq<Entry>, b: seq<Entry>)
    requires Found(toks, j, a + b)
    ensures Found(toks, j, a) && Found(toks, j + |a|, b)
  {
    forall k | 0 <= k < |a|
      ensures toks[j + k] == EntryAt(a, k)
    {
      assert EntryAt(a + b, k) == EntryAt(a, k);
    }
    forall k | 0 <= k < |b|
      ensures toks[j + |a| + k] == EntryAt(b, k)
    {
      assert EntryAt(a + b, |a| + k) == EntryAt(b, k);
    }
  }

  lemma {:induction false} OpEntriesFound(toks: seq<Entry>, j: nat, os: seq<OpEntry>)
    requires Found(toks, j, OpEntriesTokens(os))
    ensures OpEntriesAt(toks, j, os)
    decreases |os|
  {
    if os != [] {
      var s := [Text(os[0].op), os[0].arg];
      assert OpEntriesTokens(os) == s + OpEntriesTokens(os[1..]);
      FoundSplit(toks, j, s, OpEntriesTokens(os[1..]));
      assert toks[j] == EntryAt(s, 0) && toks[j + 1] == EntryAt(s, 1);
      OpEntriesFound(toks, j + 2, os[1..]);
    }
  }

  lemma ProductFound(toks: seq<Entry>, i: nat, t: Product)
    requires Found(toks, i, ProductTokens(t))
    ensures ProductAt(toks, i, t)
  {
    FoundSplit(toks, i, [t.head], OpEntriesTokens(t.ops));
    assert toks[i] == EntryAt([t.head], 0);
    OpEntriesFound(toks, i + 1, t.ops);
  }

  lemma {:induction false} OpProductsFound(toks: seq<Entry>, j: nat, os: seq<OpProduct>)
    requires Found(toks, j, OpProductsTokens(os))
    ensures OpProductsAt(toks, j, os)
    decreases |os|
  {
    if os != [] {
      var t := os[0].arg;
      var s := [Text(os[0].op)];
      assert OpProductsTokens(os) == s + (ProductTokens(t) + OpProductsTokens(os[1..]));
      FoundSplit(toks, j, s, ProductTokens(t) + OpProductsTokens(os[1..]));
      FoundSplit(toks, j + 1, ProductTokens(t), OpProductsTokens(os[1..]));
      assert toks[j] == EntryAt(s, 0);
      ProductFound(toks, j + 1, t);
      OpProductsFound(toks, j + 1 + |ProductTokens(t)|, os[1..]);
    }
  }

  /** `parseExp(0)` reads a sum found at the start of the array as its tree. */
  lemma SumAt(p: Prims, toks: seq<Entry>, e: Sum)
    requires SumOk(e) && ProductAt(toks, 0, e.head) && OpProductsAt(toks, |ProductTokens(e.head)|, e.rest)
    requires Stops(At(toks, |SumTokens(e)|))
    ensures Parse(p, toks) == SumTree(p, e)
  {
    var m := |ProductTokens(e.head)|;
    ExpLoopAt(p, toks, m, e.rest, ProductTree(p, e.head), |SumTokens(e)|);
    if e.rest != [] {
      assert At(toks, m) == Text(e.rest[0].op);
    }
    TermAt(p, toks, 0, e.head);
  }

  /**
   * The parser accepts the grammar: the entries of a sum of products,
   * followed by anything that is not an operator, parse to the sum's
   * tree, with `* /` binding tighter than `+ -` and both left-associative.
   */
  lemma ParseRoundTrip(p: Prims, e: Sum, rest: seq<Entry>)
    requires SumOk(e) && (rest == [] || Stops(rest[0]))
    ensures Parse(p, SumTokens(e) + rest) == SumTree(p, e)
  {
    var a, b := ProductTokens(e.head), OpProductsTokens(e.rest);
    var toks := SumTokens(e) + rest;
    FoundConcat([], SumTokens(e), rest);
    assert [] + SumTokens(e) + rest == toks;
    FoundSplit(toks, 0, a, b);
    ProductFound(toks, 0, e.head);
    OpProductsFound(toks, |a|, e.rest);
    assert At(toks, |SumTokens(e)|) == if rest == [] then Hole else rest[0];
    SumAt(p, toks, e);
  }

  /** `parseTerm` never continues past an entry that is not `*` or `/`: a `×` after the first entry ends the parse. */
  lemma TimesEndsParse(p: Prims, toks: seq<Entry>)
    requires |toks| >= 2 && toks[1] == Text("×")
    ensures Parse(p, toks) == Leaf(NumberOf(p, toks[0]))
  {
  }

  // ---------------------------------------------------------------------
  // What the parser never looks at.
  // ---------------------------------------------------------------------

  /**
   * Two arrays that agree up to position n, where neither has an operator
   * at n or n + 1: the parse from 0 never reads beyond n.
   */
  predicate AgreeUpTo(a: seq<Entry>, b: seq<Entry>, n: nat)
  {
    (forall k :: 0 <= k <= n ==> At(a, k) == At(b, k)) &&
    Stops(At(a, n)) && Stops(At(a, n + 1)) && Stops(At(b, n + 1))
  }

  lemma {:induction false} TermLoopAgrees(p: Prims, a: seq<Entry>, b: seq<Entry>, n: nat, left: Node, j: nat)
    requires AgreeUpTo(a, b, n) && j <= n + 1
    ensures TermLoop(p, a, left, j) == TermLoop(p, b, left, j) && TermLoop(p, a, left, j).1 <= n + 1
    decreases |a| - j
  {
    if j < |a| && IsMulText(a[j]) {
      assert j < n && At(a, j) == At(b, j) && At(a, j + 1) == At(b, j + 1);
      TermLoopAgrees(p, a, b, n, Op(a[j].text, left, Factor(p, a, j + 1).0), j + 2);
    } else {
      assert j <= n ==> At(a, j) == At(b, j);
    }
  }

  lemma {:induction false} ExpLoopAgrees(p: Prims, a: seq<Entry>, b: seq<Entry>, n: nat, left: Node, j: nat)
    requires AgreeUpTo(a, b, n) && j <= n + 1
    ensures ExpLoop(p, a, left, j) == ExpLoop(p, b, left, j)
    decreases |a| - j
  {
    if j < |a| && IsAddText(a[j]) {
      assert j < n && At(a, j) == At(b, j) && At(a, j + 1) == At(b, j + 1);
      TermLoopAgrees(p, a, b, n, Factor(p, a, j + 1).0, j + 2);
      var (right, next) := Term(p, a, j + 1);
      ExpLoopAgrees(p, a, b, n, Op(a[j].text, left, right), next);
    } else {
      assert j <= n ==> At(a, j) == At(b, j);
    }
  }

  lemma ParseAgrees(p: Prims, a: seq<Entry>, b: seq<Entry>, n: nat)
    requires AgreeUpTo(a, b, n)
    ensures Parse(p, a) == Parse(p, b)
  {
    assert At(a, 0) == At(b, 0);
    TermLoopAgrees(p, a, b, n, Factor(p, a, 0).0, 1);
    ExpLoopAgrees(p, a, b, n, Term(p, a, 0).0, Term(p, a, 0).1);
  }

  /**
   * An empty slot followed by a group value ends what the parser reads:
   * whatever follows, the parse is that of the entries up to the slot.
   */
  lemma ParseStopsAtSlot(p: Prims, pre: seq<Entry>, v: Value, post: seq<Entry>)
    ensures Parse(p, pre + [Hole, Held(v)] + post) == Parse(p, pre + [Hole])
  {
    var a, b, n := pre + [Hole, Held(v)] + post, pre + [Hole], |pre|;
    forall k | 0 <= k <= n
      ensures At(a, k) == At(b, k)
    {
      if k < n {
        assert a[k] == pre[k] == b[k];
      }
    }
    assert At(a, n + 1) == Held(v) && At(b, n + 1) == Hole;
    ParseAgrees(p, a, b, n);
  }

  /** Without `*` or `/` entries, the tree carries only `+` and `-`. */
  lemma {:induction false} TermLoopOps(p: Prims, toks: seq<Entry>, left: Node, j: nat)
    requires forall k :: 0 <= k < |toks| ==> !IsMulText(toks[k])
    ensures TermLoop(p, toks, left, j).0 == left
  {
  }

  lemma {:induction false} ExpLoopOps(p: Prims, toks: seq<Entry>, left: Node, j: nat)
    requires forall k :: 0 <= k < |toks| ==> !IsMulText(toks[k])
    requires OpsIn(left, AddOps)
    ensures OpsIn(ExpLoop(p, toks, left, j).0, AddOps)
    decreases |toks| - j
  {
    if j < |toks| && IsAddText(toks[j]) {
      TermLoopOps(p, toks, Factor(p, toks, j + 1).0, j + 2);
      var (right, next) := Term(p, toks, j + 1);
      ExpLoopOps(p, toks, Op(toks[j].text, left, right), next);
    }
  }

  lemma SumsOnly(p: Prims, toks: seq<Entry>)
    requires forall k :: 0 <= k < |toks| ==> !IsMulText(toks[k])
    ensures OpsIn(Parse(p, toks), AddOps)
  {
    TermLoopOps(p, toks, Factor(p, toks, 0).0, 1);
    ExpLoopOps(p, toks, Term(p, toks, 0).0, Term(p, toks, 0).1);
  }
}
