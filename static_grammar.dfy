module StaticGrammar {
  import opened Numbers
  import opened Errors
  import opened Tree
  import opened StaticParser
  import opened StaticSyntax

  // ---------------------------------------------------------------------
  // The parser accepts the grammar. The proofs work on positions in one
  // token list: `Occurs(toks, i, s)` says s is found in toks at i.
  // ---------------------------------------------------------------------

  lemma OccursIndex(toks: seq<string>, i: nat, s: seq<string>, k: nat)
    requires Occurs(toks, i, s) && k < |s|
    ensures toks[i + k] == s[k]
  {
    assert toks[i + k] == TokenAt(s, k);
  }

  /** The two halves of a concatenation found at i are found at i and right after the first. */
  lemma OccursSplit(toks: seq<string>, i: nat, a: seq<string>, b: seq<string>)
    requires Occurs(toks, i, a + b)
    ensures Occurs(toks, i, a) && Occurs(toks, i + |a|, b)
  {
    forall k | 0 <= k < |a|
      ensures toks[i + k] == TokenAt(a, k)
    {
      assert toks[i + k] == TokenAt(a + b, k);
    }
    forall k | 0 <= k < |b|
      ensures toks[i + |a| + k] == TokenAt(b, k)
    {
      assert toks[i + (|a| + k)] == TokenAt(a + b, |a| + k);
    }
  }

  /** An operator token, then a run a, then a run b. */
  lemma OccursOpThen(toks: seq<string>, j: nat, op: string, a: seq<string>, b: seq<string>)
    requires Occurs(toks, j, ([op] + a) + b)
    ensures toks[j] == op && Occurs(toks, j + 1, a) && Occurs(toks, j + 1 + |a|, b)
  {
    OccursSplit(toks, j, [op] + a, b);
    OccursSplit(toks, j, [op], a);
    OccursIndex(toks, j, [op], 0);
  }

  /** Splicing out index j leaves what lies before j in place and moves what lies after it down by one. */
  lemma OccursSplice(toks: seq<string>, i: nat, s: seq<string>, j: nat)
    requires Occurs(toks, i, s) && j < |toks|
    ensures i + |s| <= j ==> Occurs(Splice(toks, j), i, s)
    ensures j < i ==> Occurs(Splice(toks, j), i - 1, s)
  {
    var r := Splice(toks, j);
    if i + |s| <= j {
      forall k | 0 <= k < |s|
        ensures r[i + k] == TokenAt(s, k)
      {
        assert r[i + k] == toks[i + k] == TokenAt(s, k);
      }
    }
    if j < i {
      forall k | 0 <= k < |s|
        ensures r[i - 1 + k] == TokenAt(s, k)
      {
        assert r[i - 1 + k] == toks[i + k] == TokenAt(s, k);
      }
    }
  }

  lemma FirstToken(f: FactorSyntax)
    ensures FactorTokens(f)[0] == First(f)
  {
  }

  /** `²` never starts an implicit product. */
  lemma SquareNotImplicit(p: Prims)
    requires SquareNaN(p)
    ensures !Implicit(p, "²")
  {
  }

  /** Nor does an operator of the second term loop. */
  lemma MulOpNotImplicit(p: Prims, op: string)
    requires TermSymbolsNaN(p) && MulOp(op)
    ensures !Implicit(p, op)
  {
  }

  /** Nor does `+` or `-`. */
  lemma AddOpNotImplicit(p: Prims, op: string)
    requires ChainSymbolsNaN(p) && AddOp(op)
    ensures !Implicit(p, op)
  {
  }

  lemma {:induction false} FactorAt(p: Prims, toks: seq<string>, i: nat, f: FactorSyntax)
    requires FactorOk(f) && Occurs(toks, i, FactorTokens(f))
    ensures Factor(p, toks, i) == Ok((FactorTree(p, f), i + |FactorTokens(f)|))
    decreases f
  {
    FirstToken(f);
    OccursIndex(toks, i, FactorTokens(f), 0);
    match f
    case Lit(_) =>
    case PiLit =>
    case Root(g) =>
      OccursSplit(toks, i, ["√"], FactorTokens(g));
      FactorAt(p, toks, i + 1, g);
    case Signed(neg, g) =>
      OccursSplit(toks, i, [SignText(neg)], FactorTokens(g));
      FactorAt(p, toks, i + 1, g);
  }

  /** One round of the implicit-product loop on a token that is not `²`. */
  lemma ImplicitStep(p: Prims, toks: seq<string>, left: Node, j: nat, right: Node, next: nat)
    requires j < |toks| && toks[j] != "²" && Implicit(p, toks[j]) && Factor(p, toks, j) == Ok((right, next))
    ensures ImplicitLoop(p, toks, left, j) == ImplicitLoop(p, toks, Op("*", left, right), next)
  {
  }

  /** The implicit-product loop stops at the end or at a token that neither continues nor squares. */
  lemma ImplicitStop(p: Prims, toks: seq<string>, left: Node, j: nat)
    requires j <= |toks| && StopsImplicit(p, toks, j)
    ensures ImplicitLoop(p, toks, left, j) == Parsed(toks, Ok((left, j)))
  {
  }

  /** The implicit-product loop at a `²` squares what it has, splices the `²` out and stops. */
  lemma ImplicitSquare(p: Prims, toks: seq<string>, left: Node, j: nat)
    requires SquareNaN(p) && j < |toks| && toks[j] == "²"
    ensures ImplicitLoop(p, toks, left, j) == Parsed(Splice(toks, j), Ok((Squared(p, left), j)))
  {
    SquareNotImplicit(p);
  }

  /** The tail of a run of implicit factors is one too. */
  lemma ImplicitFactorsTail(p: Prims, fs: seq<FactorSyntax>)
    requires fs != [] && ImplicitFactors(p, fs)
    ensures FactorOk(fs[0]) && Implicit(p, First(fs[0])) && ImplicitFactors(p, fs[1..])
  {
    forall k | 0 <= k < |fs[1..]|
      ensures FactorOk(fs[1..][k]) && Implicit(p, First(fs[1..][k]))
    {
      assert fs[1..][k] == fs[k + 1];
    }
  }

  /** The tokens of a non-empty run of factors: the first factor, then the rest. */
  lemma FactorsParts(toks: seq<string>, j: nat, fs: seq<FactorSyntax>)
    requires fs != [] && Occurs(toks, j, FactorsTokens(fs))
    ensures Occurs(toks, j, FactorTokens(fs[0])) && Occurs(toks, j + |FactorTokens(fs[0])|, FactorsTokens(fs[1..]))
    ensures |FactorsTokens(fs)| == |FactorTokens(fs[0])| + |FactorsTokens(fs[1..])|
  {
    OccursSplit(toks, j, FactorTokens(fs[0]), FactorsTokens(fs[1..]));
  }

  /** An implicit factor at j, read up to n, is multiplied in. */
  lemma ImplicitFactorAt(p: Prims, toks: seq<string>, j: nat, f: FactorSyntax, left: Node, n: nat)
    requires SquareNaN(p) && FactorOk(f) && Implicit(p, First(f)) && Occurs(toks, j, FactorTokens(f))
    requires n == j + |FactorTokens(f)|
    ensures ImplicitLoop(p, toks, left, j) == ImplicitLoop(p, toks, Op("*", left, FactorTree(p, f)), n)
  {
    FirstToken(f);
    OccursIndex(toks, j, FactorTokens(f), 0);
    if First(f) == "²" {
      SquareNotImplicit(p);
    }
    FactorAt(p, toks, j, f);
    ImplicitStep(p, toks, left, j, FactorTree(p, f), n);
  }

  /** One round of the implicit-product loop over a run of implicit factors ending at stop. */
  lemma ImplicitRoundAt(p: Prims, toks: seq<string>, j: nat, fs: seq<FactorSyntax>, left: Node, n: nat, stop: nat)
    requires SquareNaN(p) && fs != [] && ImplicitFactors(p, fs) && Occurs(toks, j, FactorsTokens(fs))
    requires stop == j + |FactorsTokens(fs)| && n == j + |FactorTokens(fs[0])|
    ensures ImplicitFactors(p, fs[1..]) && Occurs(toks, n, FactorsTokens(fs[1..])) && stop == n + |FactorsTokens(fs[1..])|
    ensures ImplicitLoop(p, toks, left, j) == ImplicitLoop(p, toks, Op("*", left, FactorTree(p, fs[0])), n)
  {
    FactorsParts(toks, j, fs);
    ImplicitFactorsTail(p, fs);
    ImplicitFactorAt(p, toks, j, fs[0], left, n);
  }

  /** The product of a non-empty run, from its first factor and the rest. */
  lemma ProductCons(p: Prims, left: Node, fs: seq<FactorSyntax>)
    requires fs != []
    ensures ProductTree(p, left, fs) == ProductTree(p, Op("*", left, FactorTree(p, fs[0])), fs[1..])
  {
  }

  /** The implicit-product loop runs through a whole implicit product ending at stop, whatever follows it. */
  lemma {:induction false} ImplicitsPrefix(p: Prims, toks: seq<string>, j: nat, fs: seq<FactorSyntax>, left: Node, stop: nat)
    requires SquareNaN(p) && ImplicitFactors(p, fs) && Occurs(toks, j, FactorsTokens(fs)) && stop == j + |FactorsTokens(fs)|
    ensures ImplicitLoop(p, toks, left, j) == ImplicitLoop(p, toks, ProductTree(p, left, fs), stop)
    decreases |fs|
  {
    if fs == [] {
      assert FactorsTokens(fs) == [];
    } else {
      var n := j + |FactorTokens(fs[0])|;
      var left1 := Op("*", left, FactorTree(p, fs[0]));
      ImplicitRoundAt(p, toks, j, fs, left, n, stop);
      ImplicitsPrefix(p, toks, n, fs[1..], left1, stop);
      ProductCons(p, left, fs);
    }
  }

  /** An implicit product followed by a token that neither continues it nor squares it. */
  lemma ImplicitsAt(p: Prims, toks: seq<string>, j: nat, fs: seq<FactorSyntax>, left: Node)
    requires SquareNaN(p) && ImplicitFactors(p, fs) && Occurs(toks, j, FactorsTokens(fs))
    requires StopsImplicit(p, toks, j + |FactorsTokens(fs)|)
    ensures ImplicitLoop(p, toks, left, j) == Parsed(toks, Ok((ProductTree(p, left, fs), j + |FactorsTokens(fs)|)))
  {
    ImplicitsPrefix(p, toks, j, fs, left, j + |FactorsTokens(fs)|);
    ImplicitStop(p, toks, ProductTree(p, left, fs), j + |FactorsTokens(fs)|);
  }

  /** An implicit product followed by `²`: the `²` is spliced out and squares the product. */
  lemma SquaredImplicitsAt(p: Prims, toks: seq<string>, j: nat, fs: seq<FactorSyntax>, left: Node)
    requires SquareNaN(p) && ImplicitFactors(p, fs) && Occurs(toks, j, FactorsTokens(fs))
    requires var n := j + |FactorsTokens(fs)|; n < |toks| && toks[n] == "²"
    ensures var n := j + |FactorsTokens(fs)|;
      ImplicitLoop(p, toks, left, j) == Parsed(Splice(toks, n), Ok((Squared(p, ProductTree(p, left, fs)), n)))
  {
    ImplicitsPrefix(p, toks, j, fs, left, j + |FactorsTokens(fs)|);
    ImplicitSquare(p, toks, ProductTree(p, left, fs), j + |FactorsTokens(fs)|);
  }

  /** The tokens of a non-empty run of explicit operators: the first operator and its factor, then the rest. */
  lemma OpFactorsParts(toks: seq<string>, j: nat, os: seq<OpFactor>)
    requires os != [] && Occurs(toks, j, OpFactorsTokens(os))
    ensures j < |toks| && toks[j] == os[0].op && Occurs(toks, j + 1, FactorTokens(os[0].arg))
    ensures Occurs(toks, j + 1 + |FactorTokens(os[0].arg)|, OpFactorsTokens(os[1..]))
    ensures |OpFactorsTokens(os)| == 1 + |FactorTokens(os[0].arg)| + |OpFactorsTokens(os[1..])|
  {
    OccursOpThen(toks, j, os[0].op, FactorTokens(os[0].arg), OpFactorsTokens(os[1..]));
  }

  /** The tail of a run of explicit operators is one too. */
  lemma MulFactorsTail(os: seq<OpFactor>)
    requires os != [] && MulFactors(os)
    ensures MulOp(os[0].op) && FactorOk(os[0].arg) && MulFactors(os[1..])
  {
    forall k | 0 <= k < |os[1..]|
      ensures MulOp(os[1..][k].op) && FactorOk(os[1..][k].arg)
    {
      assert os[1..][k] == os[k + 1];
    }
  }

  /** One round of the second loop of `parseTerm` over an explicit operator at j and its factor, read up to n. */
  lemma OpRoundAt(p: Prims, toks: seq<string>, j: nat, os: seq<OpFactor>, left: Node, n: nat, stop: nat)
    requires os != [] && MulFactors(os) && Occurs(toks, j, OpFactorsTokens(os))
    requires stop == j + |OpFactorsTokens(os)| && n == j + 1 + |FactorTokens(os[0].arg)|
    ensures MulFactors(os[1..]) && Occurs(toks, n, OpFactorsTokens(os[1..])) && stop == n + |OpFactorsTokens(os[1..])|
    ensures OpLoop(p, toks, left, j) == OpLoop(p, toks, Op(os[0].op, left, FactorTree(p, os[0].arg)), n)
  {
    OpFactorsParts(toks, j, os);
    MulFactorsTail(os);
    FactorAt(p, toks, j + 1, os[0].arg);
  }

  /** The tree of a non-empty run of explicit operators, from its first round and the rest. */
  lemma OpFactorsCons(p: Prims, left: Node, os: seq<OpFactor>)
    requires os != []
    ensures OpFactorsTree(p, left, os) == OpFactorsTree(p, Op(os[0].op, left, FactorTree(p, os[0].arg)), os[1..])
  {
  }

  /** The second loop of `parseTerm` reads a run of explicit operators ending at stop, where no such operator follows. */
  lemma {:induction false} OpFactorsAt(p: Prims, toks: seq<string>, j: nat, os: seq<OpFactor>, left: Node, stop: nat)
    requires MulFactors(os) && Occurs(toks, j, OpFactorsTokens(os)) && stop == j + |OpFactorsTokens(os)|
    requires stop == |toks| || !MulOp(toks[stop])
    ensures OpLoop(p, toks, left, j) == Ok((OpFactorsTree(p, left, os), stop))
    decreases |os|
  {
    if os == [] {
      assert OpFactorsTokens(os) == [];
    } else {
      var n := j + 1 + |FactorTokens(os[0].arg)|;
      var left1 := Op(os[0].op, left, FactorTree(p, os[0].arg));
      OpRoundAt(p, toks, j, os, left, n, stop);
      OpFactorsAt(p, toks, n, os[1..], left1, stop);
      OpFactorsCons(p, left, os);
    }
  }

  /** The four parts of a term's tokens, each at its place. */
  lemma TermParts(toks: seq<string>, i: nat, t: TermSyntax)
    requires Occurs(toks, i, TermTokens(t))
    ensures var a := i + |FactorTokens(t.head)|; var b := SquarePos(t, i);
      Occurs(toks, i, FactorTokens(t.head)) && Occurs(toks, a, FactorsTokens(t.implicits)) &&
      (t.squared ==> b < |toks| && toks[b] == "²") &&
      Occurs(toks, b + |Square(t.squared)|, OpFactorsTokens(t.ops)) &&
      |TermTokens(t)| == b - i + |Square(t.squared)| + |OpFactorsTokens(t.ops)| &&
      |TermTokensAfter(t)| == b - i + |OpFactorsTokens(t.ops)|
  {
    var h, m, s, o := FactorTokens(t.head), FactorsTokens(t.implicits), Square(t.squared), OpFactorsTokens(t.ops);
    OccursSplit(toks, i, h + m + s, o);
    OccursSplit(toks, i, h + m, s);
    OccursSplit(toks, i, h, m);
    if t.squared {
      OccursIndex(toks, SquarePos(t, i), s, 0);
    }
  }

  lemma TermOkParts(p: Prims, t: TermSyntax)
    requires TermOk(p, t)
    ensures FactorOk(t.head) && ImplicitFactors(p, t.implicits) && MulFactors(t.ops)
  {
  }

  /** `parseTerm` as the composition of its three steps. */
  lemma TermSteps(p: Prims, toks: seq<string>, i: nat, f: Node, a: nat, toks1: seq<string>, left: Node, b: nat)
    requires Factor(p, toks, i) == Ok((f, a))
    requires ImplicitLoop(p, toks, f, a) == Parsed(toks1, Ok((left, b)))
    ensures b <= |toks1| && Term(p, toks, i) == Parsed(toks1, OpLoop(p, toks1, left, b))
  {
  }

  /** Nothing of a term continues past a `+` or `-`. */
  lemma AddOpEndsTerm(p: Prims, t: TermSyntax, toks: seq<string>, n: nat)
    requires ChainSymbolsNaN(p) && n < |toks| && AddOp(toks[n])
    ensures TermEndsAt(p, t, toks, n)
  {
    AddOpNotImplicit(p, toks[n]);
  }

  /** The token after a position shifted by a splice before it. */
  lemma SpliceFollower(toks: seq<string>, j: nat, n: nat)
    requires j < n <= |toks|
    ensures n - 1 == |Splice(toks, j)| <==> n == |toks|
    ensures n < |toks| ==> Splice(toks, j)[n - 1] == toks[n]
  {
  }

  /** A well-formed term at i, ended at its last token, is read as its tree. */
  lemma TermAt(p: Prims, toks: seq<string>, i: nat, t: TermSyntax)
    requires TermSymbolsNaN(p) && TermOk(p, t) && Occurs(toks, i, TermTokens(t))
    requires TermEndsAt(p, t, toks, i + |TermTokens(t)|)
    ensures t.squared ==> SquarePos(t, i) < |toks|
    ensures Term(p, toks, i) == Parsed(TermLeaves(toks, i, t), Ok((TermTree(p, t), i + |TermTokensAfter(t)|)))
  {
    TermParts(toks, i, t);
    TermOkParts(p, t);
    if t.squared {
      SquaredTermAt(p, toks, i, t);
    } else {
      PlainTermAt(p, toks, i, t);
    }
  }

  /** `TermAt` for a term with a `²`. */
  lemma SquaredTermAt(p: Prims, toks: seq<string>, i: nat, t: TermSyntax)
    requires TermSymbolsNaN(p) && t.squared
    requires FactorOk(t.head) && ImplicitFactors(p, t.implicits) && MulFactors(t.ops)
    requires var a := i + |FactorTokens(t.head)|; var b := SquarePos(t, i);
      Occurs(toks, i, FactorTokens(t.head)) && Occurs(toks, a, FactorsTokens(t.implicits)) &&
      b < |toks| && toks[b] == "²" && Occurs(toks, b + 1, OpFactorsTokens(t.ops))
    requires var n := SquarePos(t, i) + 1 + |OpFactorsTokens(t.ops)|; n == |toks| || (n < |toks| && !MulOp(toks[n]))
    ensures Term(p, toks, i) ==
      Parsed(Splice(toks, SquarePos(t, i)), Ok((TermTree(p, t), SquarePos(t, i) + |OpFactorsTokens(t.ops)|)))
  {
    SquaredTermPrefix(p, toks, i, t);
    SquaredOpsAt(p, toks, i, t);
  }

  /** The explicit operators of a squared term, read on the tokens with its `²` spliced out. */
  lemma SquaredOpsAt(p: Prims, toks: seq<string>, i: nat, t: TermSyntax)
    requires t.squared && MulFactors(t.ops)
    requires var b := SquarePos(t, i); b < |toks| && Occurs(toks, b + 1, OpFactorsTokens(t.ops))
    requires var n := SquarePos(t, i) + 1 + |OpFactorsTokens(t.ops)|; n == |toks| || (n < |toks| && !MulOp(toks[n]))
    ensures var b := SquarePos(t, i);
      OpLoop(p, Splice(toks, b), Squared(p, ProductTree(p, FactorTree(p, t.head), t.implicits)), b) ==
      Ok((TermTree(p, t), b + |OpFactorsTokens(t.ops)|))
  {
    var b := SquarePos(t, i);
    OccursSplice(toks, b + 1, OpFactorsTokens(t.ops), b);
    SplicedOpsAt(p, toks, b, t.ops, Squared(p, ProductTree(p, FactorTree(p, t.head), t.implicits)));
  }

  /** A squared term up to its `²`: the loop of explicit operators is left, on the spliced tokens. */
  lemma SquaredTermPrefix(p: Prims, toks: seq<string>, i: nat, t: TermSyntax)
    requires SquareNaN(p) && t.squared && FactorOk(t.head) && ImplicitFactors(p, t.implicits)
    requires var a := i + |FactorTokens(t.head)|; var b := SquarePos(t, i);
      Occurs(toks, i, FactorTokens(t.head)) && Occurs(toks, a, FactorsTokens(t.implicits)) &&
      b < |toks| && toks[b] == "²"
    ensures var b := SquarePos(t, i); var toks1 := Splice(toks, b);
      Term(p, toks, i) == Parsed(toks1, OpLoop(p, toks1, Squared(p, ProductTree(p, FactorTree(p, t.head), t.implicits)), b))
  {
    var a := i + |FactorTokens(t.head)|;
    var f := FactorTree(p, t.head);
    FactorAt(p, toks, i, t.head);
    SquaredImplicitsAt(p, toks, a, t.implicits, f);
    TermSteps(p, toks, i, f, a, Splice(toks, SquarePos(t, i)), Squared(p, ProductTree(p, f, t.implicits)), SquarePos(t, i));
  }

  /** Explicit operators right after a spliced-out `²` at b. */
  lemma SplicedOpsAt(p: Prims, toks: seq<string>, b: nat, os: seq<OpFactor>, left: Node)
    requires b < |toks| && MulFactors(os) && Occurs(Splice(toks, b), b, OpFactorsTokens(os))
    requires var n := b + 1 + |OpFactorsTokens(os)|; n == |toks| || (n < |toks| && !MulOp(toks[n]))
    ensures OpLoop(p, Splice(toks, b), left, b) == Ok((OpFactorsTree(p, left, os), b + |OpFactorsTokens(os)|))
  {
    SpliceFollower(toks, b, b + 1 + |OpFactorsTokens(os)|);
    OpFactorsAt(p, Splice(toks, b), b, os, left, b + |OpFactorsTokens(os)|);
  }

  /** `TermAt` for a term without a `²`. */
  lemma PlainTermAt(p: Prims, toks: seq<string>, i: nat, t: TermSyntax)
    requires TermSymbolsNaN(p) && !t.squared
    requires FactorOk(t.head) && ImplicitFactors(p, t.implicits) && MulFactors(t.ops)
    requires var a := i + |FactorTokens(t.head)|; var b := SquarePos(t, i);
      Occurs(toks, i, FactorTokens(t.head)) && Occurs(toks, a, FactorsTokens(t.implicits)) &&
      Occurs(toks, b, OpFactorsTokens(t.ops))
    requires var n := SquarePos(t, i) + |OpFactorsTokens(t.ops)|;
      n == |toks| || (n < |toks| && !MulOp(toks[n]) && (|t.ops| > 0 || (!Implicit(p, toks[n]) && toks[n] != "²")))
    ensures Term(p, toks, i) == Parsed(toks, Ok((TermTree(p, t), SquarePos(t, i) + |OpFactorsTokens(t.ops)|)))
  {
    if t.ops != [] {
      assert OpFactorsTokens(t.ops)[0] == t.ops[0].op;
      OccursIndex(toks, SquarePos(t, i), OpFactorsTokens(t.ops), 0);
      assert MulOp(t.ops[0].op);
      MulOpNotImplicit(p, t.ops[0].op);
    }
    PlainTermPrefix(p, toks, i, t);
    OpFactorsAt(p, toks, SquarePos(t, i), t.ops, ProductTree(p, FactorTree(p, t.head), t.implicits), SquarePos(t, i) + |OpFactorsTokens(t.ops)|);
  }

  /** A term without `²` up to its first explicit operator. */
  lemma PlainTermPrefix(p: Prims, toks: seq<string>, i: nat, t: TermSyntax)
    requires SquareNaN(p) && !t.squared && FactorOk(t.head) && ImplicitFactors(p, t.implicits)
    requires var a := i + |FactorTokens(t.head)|;
      Occurs(toks, i, FactorTokens(t.head)) && Occurs(toks, a, FactorsTokens(t.implicits)) &&
      StopsImplicit(p, toks, SquarePos(t, i))
    ensures Term(p, toks, i) == Parsed(toks, OpLoop(p, toks, ProductTree(p, FactorTree(p, t.head), t.implicits), SquarePos(t, i)))
  {
    var a := i + |FactorTokens(t.head)|;
    var f := FactorTree(p, t.head);
    FactorAt(p, toks, i, t.head);
    ImplicitsAt(p, toks, a, t.implicits, f);
    TermSteps(p, toks, i, f, a, toks, ProductTree(p, f, t.implicits), SquarePos(t, i));
  }
  // ---------------------------------------------------------------------
  // The `+ -` chain and the whole expression.
  // ---------------------------------------------------------------------

  /** Position n ends a chain whose last term is `last`: it ends that term and holds no `+ -`. */
  predicate ChainEndsAt(p: Prims, last: TermSyntax, toks: seq<string>, n: nat)
  {
    TermEndsAt(p, last, toks, n) && (n == |toks| || (n < |toks| && !AddOp(toks[n])))
  }

  /** A `+ -` chain of well-formed terms that carry no `²`. */
  predicate PlainChain(p: Prims, os: seq<OpTerm>)
    decreases |os|
  {
    os == [] || (AddOp(os[0].op) && TermOk(p, os[0].arg) && !os[0].arg.squared && PlainChain(p, os[1..]))
  }

  /** The chain of a well-formed expression whose `+ -` terms carry no `²` is plain. */
  lemma {:induction false} PlainChainOf(p: Prims, os: seq<OpTerm>)
    requires forall k :: 0 <= k < |os| ==> AddOp(os[k].op) && TermOk(p, os[k].arg) && !os[k].arg.squared
    ensures PlainChain(p, os)
    decreases |os|
  {
    if os != [] {
      forall k | 0 <= k < |os[1..]|
        ensures AddOp(os[1..][k].op) && TermOk(p, os[1..][k].arg) && !os[1..][k].arg.squared
      {
        assert os[1..][k] == os[k + 1];
      }
      PlainChainOf(p, os[1..]);
    }
  }

  /** A term without `²` is left in place by `parseTerm`. */
  lemma UnsquaredTerm(toks: seq<string>, i: nat, t: TermSyntax)
    requires !t.squared
    ensures TermTokensAfter(t) == TermTokens(t) && TermLeaves(toks, i, t) == toks
  {
    assert Square(t.squared) == [];
    assert FactorTokens(t.head) + FactorsTokens(t.implicits) + [] == FactorTokens(t.head) + FactorsTokens(t.implicits);
  }

  /** A well-formed term without `²` at i, ended at n, its last token, is read as its tree, and the tokens stay as they are. */
  lemma UnsquaredTermAt(p: Prims, toks: seq<string>, i: nat, t: TermSyntax, n: nat)
    requires TermSymbolsNaN(p) && TermOk(p, t) && !t.squared
    requires Occurs(toks, i, TermTokens(t)) && n == i + |TermTokens(t)| && TermEndsAt(p, t, toks, n)
    ensures Term(p, toks, i) == Parsed(toks, Ok((TermTree(p, t), n)))
  {
    UnsquaredTerm(toks, i, t);
    TermAt(p, toks, i, t);
  }

  /** The tokens of a non-empty chain at j: its first operator, its first term, the rest. */
  lemma OpTermsParts(toks: seq<string>, j: nat, os: seq<OpTerm>)
    requires os != [] && Occurs(toks, j, OpTermsTokens(os))
    ensures j < |toks| && toks[j] == os[0].op
    ensures Occurs(toks, j + 1, TermTokens(os[0].arg))
    ensures Occurs(toks, j + 1 + |TermTokens(os[0].arg)|, OpTermsTokens(os[1..]))
    ensures |OpTermsTokens(os)| == 1 + |TermTokens(os[0].arg)| + |OpTermsTokens(os[1..])|
  {
    OccursOpThen(toks, j, os[0].op, TermTokens(os[0].arg), OpTermsTokens(os[1..]));
  }

  /** A term followed at m by a chain is ended at m: by the chain's first `+ -`, or, without one, as the chain is. */
  lemma TermBeforeChain(p: Prims, toks: seq<string>, m: nat, t: TermSyntax, os: seq<OpTerm>, last: TermSyntax, stop: nat)
    requires ChainSymbolsNaN(p) && (os == [] ==> last == t) && (os != [] ==> AddOp(os[0].op))
    requires Occurs(toks, m, OpTermsTokens(os)) && stop == m + |OpTermsTokens(os)| && ChainEndsAt(p, last, toks, stop)
    ensures TermEndsAt(p, t, toks, m)
  {
    if os != [] {
      OpTermsParts(toks, m, os);
      AddOpEndsTerm(p, t, toks, m);
    } else {
      assert OpTermsTokens(os) == [];
    }
  }

  /** What the loop of `parseExp` returns from j on. */
  function LoopOutcome(p: Prims, toks: seq<string>, left: Node, j: nat): Result<(Node, nat)>
    requires j <= |toks|
  {
    ExpLoop(p, toks, left, j).outcome
  }

  /** One round of the loop of `parseExp`, once `parseTerm` is known to read `right` after the operator at j. */
  lemma RoundStep(p: Prims, toks: seq<string>, left: Node, j: nat, op: string, toks1: seq<string>, right: Node, next: nat)
    requires j < |toks| && toks[j] == op && AddOp(op)
    requires Term(p, toks, j + 1) == Parsed(toks1, Ok((right, next)))
    ensures next <= |toks1|
    ensures LoopOutcome(p, toks, left, j) == LoopOutcome(p, toks1, Op(op, left, right), next)
  {
    assert ExpLoop(p, toks, left, j) == AddRound(p, toks, left, j);
  }

  /** The loop of `parseExp` stops at the end of the tokens or before what is not `+ -`. */
  lemma ChainStops(p: Prims, toks: seq<string>, j: nat, left: Node)
    requires j == |toks| || (j < |toks| && !AddOp(toks[j]))
    ensures LoopOutcome(p, toks, left, j) == Ok((left, j))
  {
  }

  /** One round of the loop of `parseExp` over a plain chain at j: its first term is read up to n, and the rest of the chain follows. */
  lemma ChainRoundAt(p: Prims, toks: seq<string>, j: nat, os: seq<OpTerm>, last: TermSyntax, left: Node, stop: nat, n: nat)
    requires ChainSymbolsNaN(p) && os != [] && PlainChain(p, os) && last == os[|os| - 1].arg
    requires Occurs(toks, j, OpTermsTokens(os)) && stop == j + |OpTermsTokens(os)| && ChainEndsAt(p, last, toks, stop)
    requires n == j + 1 + |TermTokens(os[0].arg)|
    ensures PlainChain(p, os[1..]) && (os[1..] != [] ==> last == os[1..][|os[1..]| - 1].arg)
    ensures n <= |toks|
    ensures LoopOutcome(p, toks, left, j) == LoopOutcome(p, toks, Op(os[0].op, left, TermTree(p, os[0].arg)), n)
    ensures Occurs(toks, n, OpTermsTokens(os[1..])) && stop == n + |OpTermsTokens(os[1..])|
  {
    OpTermsParts(toks, j, os);
    assert os[1..] != [] ==> last == os[1..][|os[1..]| - 1].arg;
    assert os[1..] == [] ==> last == os[0].arg;
    TermBeforeChain(p, toks, n, os[0].arg, os[1..], last, stop);
    UnsquaredTermAt(p, toks, j + 1, os[0].arg, n);
    RoundStep(p, toks, left, j, os[0].op, toks, TermTree(p, os[0].arg), n);
  }

  /** The tree of a non-empty chain, from its first round and the rest. */
  lemma ChainCons(p: Prims, os: seq<OpTerm>, left: Node)
    requires os != []
    ensures OpTermsTree(p, left, os) == OpTermsTree(p, Op(os[0].op, left, TermTree(p, os[0].arg)), os[1..])
    ensures |OpTermsTokens(os)| == 1 + |TermTokens(os[0].arg)| + |OpTermsTokens(os[1..])|
  {
  }

  /** A chain's outcome from its first round and the outcome of the rest, for any two outcomes so related. */
  lemma ChainJoin(p: Prims, j: nat, os: seq<OpTerm>, left: Node, n: nat, whole: Result<(Node, nat)>, tail: Result<(Node, nat)>)
    requires os != [] && n == j + 1 + |TermTokens(os[0].arg)|
    requires whole == tail
    requires tail == Ok((OpTermsTree(p, Op(os[0].op, left, TermTree(p, os[0].arg)), os[1..]), n + |OpTermsTokens(os[1..])|))
    ensures whole == Ok((OpTermsTree(p, left, os), j + |OpTermsTokens(os)|))
  {
    ChainCons(p, os, left);
  }

  /** The loop of `parseExp` stops at once after an empty chain. */
  lemma ChainEmpty(p: Prims, toks: seq<string>, j: nat, os: seq<OpTerm>, last: TermSyntax, left: Node, stop: nat)
    requires os == [] && stop == j + |OpTermsTokens(os)| && ChainEndsAt(p, last, toks, stop)
    ensures j <= |toks|
    ensures LoopOutcome(p, toks, left, j) == Ok((OpTermsTree(p, left, os), j + |OpTermsTokens(os)|))
  {
    assert OpTermsTokens(os) == [];
    assert stop == j;
    ChainStops(p, toks, j, left);
  }

  /** The loop of `parseExp` reads a plain chain at j, ended at its last token, as its left-associative tree. */
  lemma {:induction false} ChainAt(p: Prims, toks: seq<string>, j: nat, os: seq<OpTerm>, last: TermSyntax, left: Node, stop: nat)
    requires ChainSymbolsNaN(p) && PlainChain(p, os) && (os != [] ==> last == os[|os| - 1].arg)
    requires Occurs(toks, j, OpTermsTokens(os)) && stop == j + |OpTermsTokens(os)| && ChainEndsAt(p, last, toks, stop)
    ensures j <= |toks|
    ensures LoopOutcome(p, toks, left, j) == Ok((OpTermsTree(p, left, os), j + |OpTermsTokens(os)|))
    decreases |os|
  {
    if os == [] {
      ChainEmpty(p, toks, j, os, last, left, stop);
    } else {
      var n := j + 1 + |TermTokens(os[0].arg)|;
      var left1 := Op(os[0].op, left, TermTree(p, os[0].arg));
      ChainRoundAt(p, toks, j, os, last, left, stop, n);
      ChainAt(p, toks, n, os[1..], last, left1, stop);
      ChainJoin(p, j, os, left, n, LoopOutcome(p, toks, left, j), LoopOutcome(p, toks, left1, n));
    }
  }

  /** `parseExp` from 0 as its first term and then its loop. */
  lemma ExpSteps(p: Prims, toks: seq<string>, toks1: seq<string>, left: Node, m: nat, tree: Node, n: nat)
    requires Term(p, toks, 0) == Parsed(toks1, Ok((left, m)))
    requires m <= |toks1| && LoopOutcome(p, toks1, left, m) == Ok((tree, n))
    ensures Exp(p, toks, 0).outcome == Ok((tree, n))
  {
  }

  /** An expression without `²`: a well-formed head term and a plain chain. */
  predicate PlainExpr(p: Prims, e: ExprSyntax)
  {
    TermOk(p, e.head) && !e.head.squared && PlainChain(p, e.rest)
  }

  /** The head term of a plain expression at the start of toks is read up to the chain after it. */
  lemma ExprHeadAt(p: Prims, toks: seq<string>, e: ExprSyntax, m: nat)
    requires ChainSymbolsNaN(p) && PlainExpr(p, e) && m == |TermTokens(e.head)|
    requires Occurs(toks, 0, ExprTokens(e)) && ChainEndsAt(p, LastTerm(e), toks, |ExprTokens(e)|)
    ensures Term(p, toks, 0) == Parsed(toks, Ok((TermTree(p, e.head), m)))
    ensures Occurs(toks, m, OpTermsTokens(e.rest)) && |ExprTokens(e)| == m + |OpTermsTokens(e.rest)|
    ensures e.rest != [] ==> LastTerm(e) == e.rest[|e.rest| - 1].arg
  {
    assert e.rest != [] ==> LastTerm(e) == e.rest[|e.rest| - 1].arg;
    OccursSplit(toks, 0, TermTokens(e.head), OpTermsTokens(e.rest));
    TermBeforeChain(p, toks, m, e.head, e.rest, LastTerm(e), |ExprTokens(e)|);
    UnsquaredTermAt(p, toks, 0, e.head, m);
  }

  /** `parseExp` from 0 over a head term and a `+ -` chain that read toks up to stop. */
  lemma ExprPartsAt(p: Prims, toks: seq<string>, e: ExprSyntax, m: nat, head: Node, stop: nat)
    requires ChainSymbolsNaN(p) && PlainChain(p, e.rest) && head == TermTree(p, e.head)
    requires Term(p, toks, 0) == Parsed(toks, Ok((head, m)))
    requires Occurs(toks, m, OpTermsTokens(e.rest)) && stop == m + |OpTermsTokens(e.rest)|
    requires ChainEndsAt(p, LastTerm(e), toks, stop) && (e.rest != [] ==> LastTerm(e) == e.rest[|e.rest| - 1].arg)
    ensures Exp(p, toks, 0).outcome == Ok((ExprTree(p, e), stop))
  {
    ChainAt(p, toks, m, e.rest, LastTerm(e), head, stop);
    ExpSteps(p, toks, toks, head, m, OpTermsTree(p, head, e.rest), stop);
  }

  /** A plain expression at the start of toks, ended at its last token, is read by `parseExp` as its tree. */
  lemma ExprAt(p: Prims, toks: seq<string>, e: ExprSyntax)
    requires ChainSymbolsNaN(p) && PlainExpr(p, e)
    requires Occurs(toks, 0, ExprTokens(e)) && ChainEndsAt(p, LastTerm(e), toks, |ExprTokens(e)|)
    ensures Exp(p, toks, 0).outcome == Ok((ExprTree(p, e), |ExprTokens(e)|))
  {
    var m := |TermTokens(e.head)|;
    ExprHeadAt(p, toks, e, m);
    ExprPartsAt(p, toks, e, m, TermTree(p, e.head), |ExprTokens(e)|);
  }

  /** What `EndsExpr` allows after an expression ends it in place. */
  lemma EndsExprAt(p: Prims, e: ExprSyntax, rest: seq<string>)
    requires EndsExpr(p, e, rest)
    ensures Occurs(ExprTokens(e) + rest, 0, ExprTokens(e))
    ensures ChainEndsAt(p, LastTerm(e), ExprTokens(e) + rest, |ExprTokens(e)|)
  {
    var toks := ExprTokens(e) + rest;
    forall k | 0 <= k < |ExprTokens(e)|
      ensures toks[0 + k] == TokenAt(ExprTokens(e), k)
    {
    }
    if rest != [] {
      assert toks[|ExprTokens(e)|] == rest[0];
    }
  }

  /** The symbols the grammar relies on are among those `Number()` does not read. */
  lemma ChainSymbols(p: Prims)
    requires SymbolsAreNaN(p)
    ensures ChainSymbolsNaN(p)
  {
  }

  /** A well-formed expression whose terms carry no `²` is plain. */
  lemma PlainExprOf(p: Prims, e: ExprSyntax)
    requires ExprOk(p, e) && !e.head.squared && forall k :: 0 <= k < |e.rest| ==> !e.rest[k].arg.squared
    ensures PlainExpr(p, e)
  {
    PlainChainOf(p, e.rest);
  }

  /**
   * The parser accepts the grammar: the tokens of a well-formed expression
   * without `²`, followed by anything that neither continues its last term
   * nor its `+ -` chain, parse to the expression's tree.
   */
  lemma ParseRoundTrip(p: Prims, e: ExprSyntax, rest: seq<string>)
    requires SymbolsAreNaN(p) && ExprOk(p, e) && EndsExpr(p, e, rest)
    requires !e.head.squared && forall k :: 0 <= k < |e.rest| ==> !e.rest[k].arg.squared
    ensures ParseTree(p, ExprTokens(e) + rest) == Ok(ExprTree(p, e))
  {
    ChainSymbols(p);
    PlainExprOf(p, e);
    EndsExprAt(p, e, rest);
    ExprAt(p, ExprTokens(e) + rest, e);
  }
}
