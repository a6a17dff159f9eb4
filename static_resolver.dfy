/**
 * `recursiveParseParen` of static/calculator.js. One scan over the token
 * array keeps a depth, the tokens of the group being collected, the
 * results and a flag. When a top-level group closes, its interior is
 * resolved recursively, parsed and evaluated, and the value's text takes
 * the group's place; a group followed by `²` is evaluated as
 * `interior * interior` and the flag makes the scan splice that `²` out.
 * The `continue` after the splice still advances the index, so the token
 * that moves into the spliced slot is passed over.
 */
module StaticResolver {
  import opened Numbers
  import opened Errors
  import opened Text
  import opened Tree
  import opened StaticParser
  import opened StaticEvaluator

  /** The variables of `parseNested`: results, depth, currentGroup and flag (flag 1 is `true`). */
  datatype Scan = Scan(results: seq<string>, depth: int, group: seq<string>, flag: bool)

  const Start: Scan := Scan([], 0, [], false)

  /**
   * `String(evaluate(parse(...)))` of a resolved group interior R, or of
   * `[...R, '*', ...R]` when the group is squared.
   */
  function GroupValue(p: Prims, resolved: Result<seq<string>>, squared: bool): (r: Result<string>)
    ensures resolved.Err? ==> r == Err(resolved.error)
    ensures r.Ok? ==> exists v :: r.value == p.toString(v)
  {
    match resolved
    case Err(e) => Err(e)
    case Ok(ts) =>
      var input := if squared then ts + ["*"] + ts else ts;
      match ParseTree(p, input)
      case Err(e) => Err(e)
      case Ok(tree) =>
        match Evaluate(p, tree)
        case Err(e) => Err(e)
        case Ok(v) => Ok(p.toString(v))
  }

  /**
   * One pass of the `for` body at index i: the token array as the pass
   * leaves it (a consumed `²` is spliced out) and the new variables, or
   * the error of a group's evaluation. The next pass is at i + 1 either way.
   */
  function Step(p: Prims, toks: seq<string>, i: nat, st: Scan): (r: Result<(seq<string>, Scan)>)
    requires |st.group| <= i < |toks|
    ensures r.Ok? ==> |r.value.0| <= |toks| && |r.value.1.group| <= i + 1
    decreases |toks|, 0, 0
  {
    var t := toks[i];
    if t == "(" then
      var d := st.depth + 1;
      Ok((toks, st.(depth := d, group := if d > 1 then st.group + [t] else st.group)))
    else if t == ")" then
      var d := st.depth - 1;
      if i + 1 < |toks| && toks[i + 1] == "²" && !st.flag then
        if d == 0 && |st.group| > 0 then
          match GroupValue(p, Resolve(p, st.group), true)
          case Err(e) => Err(e)
          case Ok(v) => Ok((toks, Scan(st.results + [v], d, [], true)))
        else Ok((toks, st.(depth := d)))
      else if d == 0 then
        if |st.group| > 0 then
          match GroupValue(p, Resolve(p, st.group), false)
          case Err(e) => Err(e)
          case Ok(v) => Ok((toks, st.(results := st.results + [v], depth := d, group := [])))
        else Ok((toks, st.(depth := d)))
      // the test for a `²` token in this branch never holds, as the token is `)`
      else if d > 0 then Ok((toks, st.(depth := d, group := st.group + [t])))
      else Ok((toks, st.(depth := d)))
    else if st.depth > 0 then
      if t == "²" && st.flag then Ok((Splice(toks, i), st.(flag := false)))
      else Ok((toks, st.(group := st.group + [t])))
    else if st.depth == 0 then
      if t == "²" && st.flag then Ok((Splice(toks, i), st.(flag := false)))
      else Ok((toks, st.(results := st.results + [t])))
    else Ok((toks, st))
  }

  /**
   * The scan from index i of the (possibly spliced) token array, with the
   * variables in state st; the final depth test included.
   */
  function Nested(p: Prims, toks: seq<string>, i: nat, st: Scan): Result<seq<string>>
    requires |st.group| <= i
    decreases |toks|, 1, |toks| - i
  {
    if i >= |toks| then
      if st.depth != 0 then Err(MismatchedParentheses) else Ok(st.results)
    else
      match Step(p, toks, i, st)
      case Err(e) => Err(e)
      case Ok((toks1, st1)) => Nested(p, toks1, i + 1, st1)
  }

  /** `recursiveParseParen(tokens)` */
  function Resolve(p: Prims, ts: seq<string>): Result<seq<string>>
    decreases |ts|, 2, 0
  {
    Nested(p, ts, 0, Start)
  }

  /** `recursiveParseParen(tokens)`, the loop of `parseNested` over a local copy of the array. */
  method ResolveParens(p: Prims, input: seq<string>) returns (r: Result<seq<string>>)
    ensures r == Resolve(p, input)
    decreases |input|
  {
    var tokens := input;
    var results: seq<string> := [];
    var depth := 0;
    var currentGroup: seq<string> := [];
    var flag := false;
    var i: nat := 0;
    while i < |tokens|
      invariant |currentGroup| <= i && |tokens| <= |input|
      invariant Nested(p, tokens, i, Scan(results, depth, currentGroup, flag)) == Resolve(p, input)
      decreases |tokens|, |tokens| - i
    {
      var token := tokens[i];
      if token == "(" {
        depth := depth + 1;
        if depth > 1 {
          currentGroup := currentGroup + [token];
        }
      } else if token == ")" {
        depth := depth - 1;
        if i + 1 < |tokens| && tokens[i + 1] == "²" && !flag {
          if depth == 0 && |currentGroup| > 0 {
            var nestedResult := ResolveParens(p, currentGroup);
            var v := GroupText(p, nestedResult, true);
            if v.Err? {
              return Err(v.error);
            }
            results := results + [v.value];
            flag := true;
            currentGroup := [];
          }
        } else if depth == 0 {
          if |currentGroup| > 0 {
            var nestedResult := ResolveParens(p, currentGroup);
            var v := GroupText(p, nestedResult, false);
            if v.Err? {
              return Err(v.error);
            }
            results := results + [v.value];
            currentGroup := [];
          }
        } else if depth > 0 {
          currentGroup := currentGroup + [token];
        }
      } else if depth > 0 {
        if token == "²" && flag {
          tokens := Splice(tokens, i);
          flag := false;
        } else {
          currentGroup := currentGroup + [token];
        }
      } else if depth == 0 {
        if token == "²" && flag {
          tokens := Splice(tokens, i);
          flag := false;
        } else {
          results := results + [token];
        }
      }
      i := i + 1;
    }
    if depth != 0 {
      return Err(MismatchedParentheses);
    }
    r := Ok(results);
  }

  /** `String(evaluate(parse(...)))` of a resolved interior, run through the parser's own method. */
  method GroupText(p: Prims, resolved: Result<seq<string>>, squared: bool) returns (r: Result<string>)
    ensures r == GroupValue(p, resolved, squared)
  {
    if resolved.Err? {
      return Err(resolved.error);
    }
    var ts := resolved.value;
    var tree := Parse(p, if squared then ts + ["*"] + ts else ts);
    if tree.Err? {
      return Err(tree.error);
    }
    var v := Evaluate(p, tree.value);
    if v.Err? {
      return Err(v.error);
    }
    r := Ok(p.toString(v.value));
  }

  // ---------------------------------------------------------------------
  // What the scan produces.
  // ---------------------------------------------------------------------

  predicate ParenFree(ts: seq<string>)
  {
    "(" !in ts && ")" !in ts
  }

  lemma StepKeepsResultsParenFree(p: Prims, toks: seq<string>, i: nat, st: Scan)
    requires StringsAreNotSymbols(p) && |st.group| <= i < |toks| && ParenFree(st.results)
    ensures Step(p, toks, i, st).Ok? ==> ParenFree(Step(p, toks, i, st).value.1.results)
  {
    assert "(" in Symbols && ")" in Symbols;
  }

  lemma {:induction false} NestedParenFree(p: Prims, toks: seq<string>, i: nat, st: Scan)
    requires StringsAreNotSymbols(p) && |st.group| <= i && ParenFree(st.results)
    ensures Nested(p, toks, i, st).Ok? ==> ParenFree(Nested(p, toks, i, st).value)
    decreases |toks|, |toks| - i
  {
    if i < |toks| {
      StepKeepsResultsParenFree(p, toks, i, st);
      match Step(p, toks, i, st)
      case Err(_) =>
      case Ok((toks1, st1)) => NestedParenFree(p, toks1, i + 1, st1);
    }
  }

  /** The resolved list never holds a parenthesis (String() of a number is never one). */
  lemma ResolvedHasNoParens(p: Prims, ts: seq<string>)
    requires StringsAreNotSymbols(p)
    ensures Resolve(p, ts).Ok? ==> ParenFree(Resolve(p, ts).value)
  {
    NestedParenFree(p, ts, 0, Start);
  }

  /** At depth 0, parenthesis-free tokens go to the results one by one. */
  lemma {:induction false} WalkTop(p: Prims, toks: seq<string>, i: nat, j: nat, st: Scan)
    requires |st.group| <= i <= j <= |toks| && ParenFree(toks[i..j]) && st.depth == 0 && !st.flag
    ensures Nested(p, toks, i, st) == Nested(p, toks, j, st.(results := st.results + toks[i..j]))
    decreases j - i
  {
    if i == j {
      assert st.results + toks[i..j] == st.results;
    } else {
      assert toks[i] == toks[i..j][0];
      assert toks[i + 1..j] == toks[i..j][1..];
      var st1 := st.(results := st.results + [toks[i]]);
      assert Step(p, toks, i, st) == Ok((toks, st1));
      WalkTop(p, toks, i + 1, j, st1);
      assert st1.results + toks[i + 1..j] == st.results + toks[i..j];
    }
  }

  /** Inside a group, parenthesis-free tokens go to the group one by one. */
  lemma {:induction false} WalkGroup(p: Prims, toks: seq<string>, i: nat, j: nat, st: Scan)
    requires |st.group| <= i <= j <= |toks| && ParenFree(toks[i..j]) && st.depth > 0 && !st.flag
    ensures Nested(p, toks, i, st) == Nested(p, toks, j, st.(group := st.group + toks[i..j]))
    decreases j - i
  {
    if i == j {
      assert st.group + toks[i..j] == st.group;
    } else {
      assert toks[i] == toks[i..j][0];
      assert toks[i + 1..j] == toks[i..j][1..];
      var st1 := st.(group := st.group + [toks[i]]);
      assert Step(p, toks, i, st) == Ok((toks, st1));
      WalkGroup(p, toks, i + 1, j, st1);
      assert st1.group + toks[i + 1..j] == st.group + toks[i..j];
    }
  }

  /** A list without parentheses comes back unchanged, `²` included. */
  lemma ParenFreeUnchanged(p: Prims, ts: seq<string>)
    requires ParenFree(ts)
    ensures Resolve(p, ts) == Ok(ts)
  {
    assert ts[0..|ts|] == ts && Start.results + ts == ts;
    WalkTop(p, ts, 0, |ts|, Start);
    assert Nested(p, ts, |ts|, Start.(results := ts)) == Ok(ts);
  }

  /** Without `²` nothing is spliced: the depth moves by one per parenthesis, and the scan must end at 0. */
  lemma {:induction false} NestedDepth(p: Prims, toks: seq<string>, i: nat, st: Scan)
    requires |st.group| <= i <= |toks| && "²" !in toks
    ensures Nested(p, toks, i, st).Ok? ==> st.depth + Count(toks[i..], "(") == Count(toks[i..], ")")
    decreases |toks| - i
  {
    if i < |toks| {
      assert toks[i] != "²";
      match Step(p, toks, i, st)
      case Err(_) =>
      case Ok((toks1, st1)) =>
        assert toks1 == toks;
        assert st1.depth == st.depth + (if toks[i] == "(" then 1 else if toks[i] == ")" then -1 else 0);
        NestedDepth(p, toks, i + 1, st1);
        assert toks[i..] == [toks[i]] + toks[i + 1..];
        CountConcat([toks[i]], toks[i + 1..], "(");
        CountConcat([toks[i]], toks[i + 1..], ")");
    }
  }

  /** Without `²`, the group being collected is the run of tokens just before i, and empty outside a group. */
  predicate GroupTracks(toks: seq<string>, i: nat, st: Scan)
    requires |st.group| <= i <= |toks|
  {
    st.group == toks[i - |st.group|..i] && (st.depth <= 0 ==> st.group == [])
  }

  /** An error other than `Mismatched parentheses` is that of a group, a run of the tokens, evaluated. */
  predicate FromGroup(p: Prims, toks: seq<string>, e: Failure)
  {
    exists a: nat, m: nat :: a < m <= |toks| && GroupValue(p, Resolve(p, toks[a..m]), false) == Err(e)
  }

  /** One pass keeps the group tracked, and fails only with the evaluation error of the group so far. */
  lemma StepTracks(p: Prims, toks: seq<string>, i: nat, st: Scan)
    requires |st.group| <= i < |toks| && "²" !in toks && GroupTracks(toks, i, st)
    ensures var r := Step(p, toks, i, st);
      r.Ok? ==> r.value.0 == toks && GroupTracks(toks, i + 1, r.value.1)
    ensures var r := Step(p, toks, i, st);
      r.Err? ==> |st.group| > 0 && GroupValue(p, Resolve(p, toks[i - |st.group|..i]), false) == Err(r.error)
  {
    assert toks[i] != "²" && (i + 1 < |toks| ==> toks[i + 1] != "²");
    var g := i - |st.group|;
    match Step(p, toks, i, st)
    case Err(e) =>
    case Ok((toks1, st1)) =>
      if |st1.group| > 0 {
        assert st1.group == st.group + [toks[i]];
        assert toks[i + 1 - |st1.group|..i + 1] == toks[g..i] + [toks[i]];
      }
  }

  lemma {:induction false} NestedErrorSource(p: Prims, toks: seq<string>, i: nat, st: Scan)
    requires |st.group| <= i <= |toks| && "²" !in toks && GroupTracks(toks, i, st)
    ensures var n := Nested(p, toks, i, st);
      n.Err? ==> n.error == MismatchedParentheses || FromGroup(p, toks, n.error)
    decreases |toks| - i
  {
    if i < |toks| {
      StepTracks(p, toks, i, st);
      match Step(p, toks, i, st)
      case Err(e) =>
        var g := i - |st.group|;
        assert g < i && GroupValue(p, Resolve(p, toks[g..i]), false) == Err(e);
        assert Nested(p, toks, i, st) == Err(e);
        assert FromGroup(p, toks, e);
      case Ok((toks1, st1)) =>
        assert Nested(p, toks, i, st) == Nested(p, toks, i + 1, st1);
        NestedErrorSource(p, toks, i + 1, st1);
    }
  }

  /**
   * With no `²`, unequal counts of `(` and `)` always end in an error:
   * `Mismatched parentheses`, unless a group met on the way fails to
   * evaluate first.
   */
  lemma UnbalancedFails(p: Prims, ts: seq<string>)
    requires "²" !in ts && Count(ts, "(") != Count(ts, ")")
    ensures Resolve(p, ts).Err?
    ensures Resolve(p, ts).Err? ==> Resolve(p, ts).error == MismatchedParentheses || FromGroup(p, ts, Resolve(p, ts).error)
  {
    assert ts[0..] == ts;
    NestedDepth(p, ts, 0, Start);
    NestedErrorSource(p, ts, 0, Start);
  }

  /** The scan ends at the end of the list; at depth 0 the results are the outcome. */
  lemma ScanEnd(p: Prims, toks: seq<string>, st: Scan)
    requires |st.group| <= |toks| && st.depth == 0
    ensures Nested(p, toks, |toks|, st) == Ok(st.results)
  {
  }

  /** The `(` that opens a top-level group starts an empty group at depth 1. */
  lemma OpenGroup(p: Prims, toks: seq<string>, a: nat, results: seq<string>)
    requires a < |toks| && toks[a] == "("
    ensures Nested(p, toks, a, Scan(results, 0, [], false)) == Nested(p, toks, a + 1, Scan(results, 1, [], false))
  {
  }

  /** How a token moves the depth. */
  function Delta(t: string): int
  {
    if t == "(" then 1 else if t == ")" then -1 else 0
  }

  /** Scanned from depth d, the tokens of s never bring the depth below 1. */
  predicate StaysOpen(s: seq<string>, d: int)
    decreases |s|
  {
    s == [] || (d + Delta(s[0]) >= 1 && StaysOpen(s[1..], d + Delta(s[0])))
  }

  /** Tokens without parentheses leave the depth where it is. */
  lemma {:induction false} PlainStaysOpen(s: seq<string>, d: int)
    requires ParenFree(s) && d >= 1
    ensures StaysOpen(s, d)
    decreases |s|
  {
    if s != [] {
      assert s[0] in s && forall t :: t in s[1..] ==> t in s;
      PlainStaysOpen(s[1..], d);
    }
  }

  /**
   * Tokens placed before the scanned part and results gathered before it
   * ride along: the scan of `a + s` from |a| + i ends as the scan of s
   * from i, with r0 in front of its results.
   */
  lemma StepShift(p: Prims, a: seq<string>, s: seq<string>, i: nat, st: Scan, r0: seq<string>)
    requires |st.group| <= i < |s|
    ensures Step(p, a + s, |a| + i, st.(results := r0 + st.results)) ==
      match Step(p, s, i, st)
      case Err(e) => Err(e)
      case Ok((s1, st1)) => Ok((a + s1, st1.(results := r0 + st1.results)))
  {
    var t := a + s;
    assert t[|a| + i] == s[i];
    assert |a| + i + 1 < |t| ==> t[|a| + i + 1] == s[i + 1];
    if s[i] == "²" {
      assert Splice(t, |a| + i) == a + Splice(s, i) by {
        assert t[..|a| + i] == a + s[..i];
        assert t[|a| + i + 1..] == s[i + 1..];
      }
    }
    forall v: string
      ensures r0 + (st.results + [v]) == r0 + st.results + [v]
    {
    }
  }

  lemma {:induction false} NestedShift(p: Prims, a: seq<string>, s: seq<string>, i: nat, st: Scan, r0: seq<string>)
    requires |st.group| <= i
    ensures var n := Nested(p, s, i, st);
      Nested(p, a + s, |a| + i, st.(results := r0 + st.results)) == if n.Ok? then Ok(r0 + n.value) else n
    decreases |s|, |s| - i
  {
    if i < |s| {
      StepShift(p, a, s, i, st, r0);
      match Step(p, s, i, st)
      case Err(_) =>
      case Ok((s1, st1)) => NestedShift(p, a, s1, i + 1, st1, r0);
    }
  }

  /** A `)` at k directly followed by `²`. */
  predicate SquaredClose(toks: seq<string>, k: int)
  {
    0 <= k && k + 1 < |toks| && toks[k] == ")" && toks[k + 1] == "²"
  }

  /** One token of that kind goes to the group. */
  lemma StepInside(p: Prims, toks: seq<string>, i: nat, st: Scan)
    requires |st.group| <= i < |toks| && st.depth > 0 && !st.flag && st.depth + Delta(toks[i]) >= 1
    requires i + 1 < |toks| && !SquaredClose(toks, i)
    ensures Step(p, toks, i, st) == Ok((toks, st.(depth := st.depth + Delta(toks[i]), group := st.group + [toks[i]])))
  {
  }

  /** The variables after tokens `run` have gone to the group. */
  function Collected(st: Scan, run: seq<string>): Scan
  {
    st.(depth := st.depth + Count(run, "(") - Count(run, ")"), group := st.group + run)
  }

  lemma CollectedStep(st: Scan, t: string, rest: seq<string>)
    ensures Collected(st.(depth := st.depth + Delta(t), group := st.group + [t]), rest) == Collected(st, [t] + rest)
  {
    assert ([t] + rest)[1..] == rest;
    assert st.group + [t] + rest == st.group + ([t] + rest);
  }

  /**
   * Inside a group, with the flag clear, tokens that keep the depth at 1
   * or more go to the group one by one, parentheses included, as long as
   * no `)` among them is followed by `²`.
   */
  lemma {:induction false} WalkInside(p: Prims, toks: seq<string>, i: nat, j: nat, st: Scan)
    requires |st.group| <= i <= j < |toks| && st.depth > 0 && !st.flag
    requires StaysOpen(toks[i..j], st.depth)
    requires forall k :: i <= k < j ==> !SquaredClose(toks, k)
    ensures Nested(p, toks, i, st) == Nested(p, toks, j, Collected(st, toks[i..j]))
    decreases j - i
  {
    if i == j {
      assert toks[i..j] == [];
      assert st.group + toks[i..j] == st.group;
    } else {
      var t, rest := toks[i], toks[i + 1..j];
      assert toks[i..j] == [t] + rest;
      var st1 := st.(depth := st.depth + Delta(t), group := st.group + [t]);
      StepInside(p, toks, i, st);
      WalkInside(p, toks, i + 1, j, st1);
      CollectedStep(st, t, rest);
    }
  }

  /** The `)` at m that closes a top-level group not followed by `²` puts the group's value in the results. */
  lemma CloseStep(p: Prims, toks: seq<string>, m: nat, results: seq<string>, x: seq<string>)
    requires |x| <= m < |toks| && toks[m] == ")" && |x| > 0 && (m + 1 == |toks| || toks[m + 1] != "²")
    ensures var g := GroupValue(p, Resolve(p, x), false);
      Step(p, toks, m, Scan(results, 1, x, false)) ==
        if g.Err? then Err(g.error) else Ok((toks, Scan(results + [g.value], 0, [], false)))
  {
  }

  /** Back at depth 0 with the flag clear, the rest of the list is scanned as a list of its own. */
  lemma RestAfter(p: Prims, head: seq<string>, post: seq<string>, r: seq<string>)
    ensures var q := Resolve(p, post);
      Nested(p, head + post, |head|, Scan(r, 0, [], false)) == if q.Ok? then Ok(r + q.value) else q
  {
    NestedShift(p, head, post, 0, Start, r);
    assert Start.(results := r + Start.results) == Scan(r, 0, [], false);
  }

  /**
   * The `)` at m that closes a top-level group not followed by `²` puts
   * the group's value in the results; the tokens after it are scanned as
   * a list of their own.
   */
  lemma CloseBeforeRest(p: Prims, toks: seq<string>, m: nat, results: seq<string>, x: seq<string>)
    requires |x| <= m < |toks| && toks[m] == ")" && |x| > 0 && (m + 1 == |toks| || toks[m + 1] != "²")
    ensures var g := GroupValue(p, Resolve(p, x), false);
      var q := Resolve(p, toks[m + 1..]);
      Nested(p, toks, m, Scan(results, 1, x, false)) ==
        if g.Err? then Err(g.error) else if q.Err? then q else Ok(results + [g.value] + q.value)
  {
    CloseStep(p, toks, m, results, x);
    var g := GroupValue(p, Resolve(p, x), false);
    if g.Ok? {
      assert toks[..m + 1] + toks[m + 1..] == toks;
      RestAfter(p, toks[..m + 1], toks[m + 1..], results + [g.value]);
    }
  }

  /** Parenthesis-free tokens, then the `(` of a group: the scan is at depth 1 with an empty group. */
  lemma OpenAfterPlain(p: Prims, toks: seq<string>, a: nat)
    requires a < |toks| && toks[a] == "(" && ParenFree(toks[..a])
    ensures Resolve(p, toks) == Nested(p, toks, a + 1, Scan(toks[..a], 1, [], false))
  {
    assert toks[0..a] == toks[..a] && Start.results + toks[..a] == toks[..a];
    WalkTop(p, toks, 0, a, Start);
    OpenGroup(p, toks, a, toks[..a]);
  }

  /** The same, for a group found at positions a and m of the token list. */
  lemma GroupInsideAt(p: Prims, toks: seq<string>, a: nat, m: nat)
    requires a + 1 < m < |toks| && toks[a] == "(" && toks[m] == ")" && ParenFree(toks[..a])
    requires StaysOpen(toks[a + 1..m], 1) && Count(toks[a + 1..m], "(") == Count(toks[a + 1..m], ")")
    requires forall k :: a + 1 <= k < m ==> !SquaredClose(toks, k)
    requires m + 1 == |toks| || toks[m + 1] != "²"
    ensures var g := GroupValue(p, Resolve(p, toks[a + 1..m]), false);
      var q := Resolve(p, toks[m + 1..]);
      Resolve(p, toks) == if g.Err? then Err(g.error) else if q.Err? then q else Ok(toks[..a] + [g.value] + q.value)
  {
    var pre, x := toks[..a], toks[a + 1..m];
    OpenAfterPlain(p, toks, a);
    WalkInside(p, toks, a + 1, m, Scan(pre, 1, [], false));
    assert Collected(Scan(pre, 1, [], false), x) == Scan(pre, 1, x, false) by {
      assert [] + x == x;
    }
    CloseBeforeRest(p, toks, m, pre, x);
  }

  /**
   * A top-level group not followed by `²` becomes the text of the value of
   * its resolved interior; the scan then goes on over the tokens after it
   * as a fresh one, so their own groups are resolved in turn and everything
   * keeps its order. The interior may hold groups of its own, as long as it
   * balances, does not close the group early and has no `)` followed by
   * `²`. An error of the interior comes first, then one of the rest.
   */
  lemma GroupCollapses(p: Prims, pre: seq<string>, x: seq<string>, post: seq<string>)
    requires ParenFree(pre) && |x| > 0 && StaysOpen(x, 1) && Count(x, "(") == Count(x, ")")
    requires forall k :: 0 <= k < |x| ==> !SquaredClose(x, k)
    requires post == [] || post[0] != "²"
    ensures var g := GroupValue(p, Resolve(p, x), false);
      var q := Resolve(p, post);
      Resolve(p, pre + ["("] + x + [")"] + post) ==
        if g.Err? then Err(g.error) else if q.Err? then q else Ok(pre + [g.value] + q.value)
  {
    var toks := pre + ["("] + x + [")"] + post;
    var a, m := |pre|, |pre| + 1 + |x|;
    assert toks[..a] == pre && toks[a + 1..m] == x && toks[m + 1..] == post;
    assert toks[a] == "(" && toks[m] == ")";
    forall k | a + 1 <= k < m
      ensures !SquaredClose(toks, k)
    {
      if k < m - 1 {
        assert toks[k] == x[k - a - 1] && toks[k + 1] == x[k - a];
        assert !SquaredClose(x, k - a - 1);
      }
    }
    GroupInsideAt(p, toks, a, m);
  }

  /** A group `n / d` whose divisor has the value zero fails to evaluate. */
  lemma OverZero(p: Prims, n: string, d: string)
    requires n !in Symbols && d !in Symbols && p.toNumber(d) == Zero && p.toNumber("/").NaN?
    ensures GroupValue(p, Ok([n, "/", d]), false) == Err(DivisionByZero)
  {
    var x := [n, "/", d];
    assert Factor(p, x, 0) == Ok((Leaf(p.toNumber(n)), 1));
    assert ImplicitLoop(p, x, Leaf(p.toNumber(n)), 1) == Parsed(x, Ok((Leaf(p.toNumber(n)), 1)));
    assert Factor(p, x, 2) == Ok((Leaf(Zero), 3));
    var tree := Op("/", Leaf(p.toNumber(n)), Leaf(Zero));
    assert OpLoop(p, x, Leaf(p.toNumber(n)), 1) == OpLoop(p, x, tree, 3) == Ok((tree, 3));
    assert Exp(p, x, 0).outcome == Ok((tree, 3));
  }

  /**
   * `(1/0)(` and its like: the group's division by zero is thrown before
   * the `(` left open is noticed.
   */
  lemma GroupErrorFirst(p: Prims, n: string, d: string)
    requires n !in Symbols && d !in Symbols && p.toNumber(d) == Zero && p.toNumber("/").NaN?
    ensures Resolve(p, ["(", n, "/", d, ")", "("]) == Err(DivisionByZero)
  {
    var x := [n, "/", d];
    assert "(" in Symbols && ")" in Symbols && "²" in Symbols;
    ParenFreeUnchanged(p, x);
    OverZero(p, n, d);
    PlainStaysOpen(x, 1);
    assert Count(x, "(") == 0 == Count(x, ")") by {
      CountAbsent(x, "(");
      CountAbsent(x, ")");
    }
    assert [] + ["("] + x + [")"] + ["("] == ["(", n, "/", d, ")", "("];
    GroupCollapses(p, [], x, ["("]);
  }

  /** What the scan keeps after a squared group's `²`: the token after the `²` is passed over. */
  function AfterSquare(toks: seq<string>, m: nat): seq<string>
    requires m + 1 < |toks|
  {
    if m + 2 < |toks| then toks[m + 3..] else []
  }

  /** With the flag set, a `²` at depth 0 is spliced out and the scan goes on one index further. */
  lemma ConsumeSquare(p: Prims, toks: seq<string>, j: nat, results: seq<string>)
    requires j < |toks| && toks[j] == "²"
    ensures Nested(p, toks, j, Scan(results, 0, [], true)) == Nested(p, Splice(toks, j), j + 1, Scan(results, 0, [], false))
  {
    assert Step(p, toks, j, Scan(results, 0, [], true)) == Ok((Splice(toks, j), Scan(results, 0, [], false)));
  }

  /** The `)` at m of a top-level group followed by `²` puts the value of `interior * interior` in the results and sets the flag. */
  lemma CloseSquaredStep(p: Prims, toks: seq<string>, m: nat, results: seq<string>, x: seq<string>)
    requires |x| <= m && m + 1 < |toks| && toks[m] == ")" && toks[m + 1] == "²" && |x| > 0
    ensures var g := GroupValue(p, Resolve(p, x), true);
      Step(p, toks, m, Scan(results, 1, x, false)) ==
        if g.Err? then Err(g.error) else Ok((toks, Scan(results + [g.value], 0, [], true)))
  {
  }

  /**
   * The `)` of a top-level group followed by `²` puts the value of
   * `interior * interior` in the results, the `²` is spliced out, the
   * token that takes its place is never looked at, and the tokens after
   * that are scanned as a list of their own.
   */
  lemma CloseSquaredGroup(p: Prims, toks: seq<string>, m: nat, results: seq<string>, x: seq<string>)
    requires |x| <= m && m + 1 < |toks| && toks[m] == ")" && toks[m + 1] == "²" && |x| > 0
    ensures var g := GroupValue(p, Resolve(p, x), true);
      var q := Resolve(p, AfterSquare(toks, m));
      Nested(p, toks, m, Scan(results, 1, x, false)) ==
        if g.Err? then Err(g.error) else if q.Err? then q else Ok(results + [g.value] + q.value)
  {
    CloseSquaredStep(p, toks, m, results, x);
    var g := GroupValue(p, Resolve(p, x), true);
    var st0 := Scan(results, 1, x, false);
    if g.Ok? {
      var r := results + [g.value];
      assert Nested(p, toks, m, st0) == Nested(p, toks, m + 1, Scan(r, 0, [], true));
      ConsumeSquare(p, toks, m + 1, r);
      var spliced := Splice(toks, m + 1);
      if m + 2 < |toks| {
        var head := spliced[..m + 2];
        assert head + toks[m + 3..] == spliced;
        RestAfter(p, head, toks[m + 3..], r);
      } else {
        assert Nested(p, spliced, m + 2, Scan(r, 0, [], false)) == Ok(r);
        assert Resolve(p, []) == Ok([]) && r + [] == r;
      }
    } else {
      assert Nested(p, toks, m, st0) == Err(g.error);
    }
  }

  /** A group found at positions a and m, followed by `²`. */
  lemma SquaredGroupAt(p: Prims, toks: seq<string>, a: nat, m: nat)
    requires a + 1 < m && m + 1 < |toks| && toks[a] == "(" && toks[m] == ")" && toks[m + 1] == "²" && ParenFree(toks[..a])
    requires StaysOpen(toks[a + 1..m], 1) && Count(toks[a + 1..m], "(") == Count(toks[a + 1..m], ")")
    requires forall k :: a + 1 <= k < m ==> !SquaredClose(toks, k)
    ensures var g := GroupValue(p, Resolve(p, toks[a + 1..m]), true);
      var q := Resolve(p, AfterSquare(toks, m));
      Resolve(p, toks) == if g.Err? then Err(g.error) else if q.Err? then q else Ok(toks[..a] + [g.value] + q.value)
  {
    var pre, x := toks[..a], toks[a + 1..m];
    OpenAfterPlain(p, toks, a);
    WalkInside(p, toks, a + 1, m, Scan(pre, 1, [], false));
    assert Collected(Scan(pre, 1, [], false), x) == Scan(pre, 1, x, false) by {
      assert [] + x == x;
    }
    CloseSquaredGroup(p, toks, m, pre, x);
  }

  /** The positions of a group `( x )` after `pre`, with the conditions on x carried over to the token list. */
  lemma GroupShape(pre: seq<string>, x: seq<string>, toks: seq<string>)
    requires |x| > 0 && |toks| > |pre| + 1 + |x| && toks[..|pre| + 2 + |x|] == pre + ["("] + x + [")"]
    requires forall k :: 0 <= k < |x| ==> !SquaredClose(x, k)
    ensures var a, m := |pre|, |pre| + 1 + |x|;
      toks[..a] == pre && toks[a + 1..m] == x && toks[a] == "(" && toks[m] == ")"
    ensures forall k :: |pre| + 1 <= k < |pre| + 1 + |x| ==> !SquaredClose(toks, k)
  {
    var a, m := |pre|, |pre| + 1 + |x|;
    var head := toks[..m + 1];
    assert toks[..a] == head[..a] && toks[a + 1..m] == head[a + 1..m];
    assert head[..a] == pre && head[a + 1..m] == x;
    forall k | a + 1 <= k < m
      ensures !SquaredClose(toks, k)
    {
      assert toks[k] == head[k] && toks[k + 1] == head[k + 1];
      if k < m - 1 {
        assert head[k] == x[k - a - 1] && head[k + 1] == x[k - a];
        assert !SquaredClose(x, k - a - 1);
      }
    }
  }

  /**
   * A squared group at the end becomes the value of `interior * interior`
   * and the `²` is removed; the interior may nest groups.
   */
  lemma SquaredGroupAtEnd(p: Prims, pre: seq<string>, x: seq<string>)
    requires ParenFree(pre) && |x| > 0 && StaysOpen(x, 1) && Count(x, "(") == Count(x, ")")
    requires forall k :: 0 <= k < |x| ==> !SquaredClose(x, k)
    ensures var g := GroupValue(p, Resolve(p, x), true);
      Resolve(p, pre + ["("] + x + [")", "²"]) == if g.Err? then Err(g.error) else Ok(pre + [g.value])
  {
    var toks := pre + ["("] + x + [")", "²"];
    var m := |pre| + 1 + |x|;
    assert toks[..m + 1] == pre + ["("] + x + [")"];
    GroupShape(pre, x, toks);
    assert toks[m + 1] == "²" && AfterSquare(toks, m) == [];
    SquaredGroupAt(p, toks, |pre|, m);
    assert Resolve(p, []) == Ok([]);
    var g := GroupValue(p, Resolve(p, x), true);
    if g.Ok? {
      assert pre + [g.value] + [] == pre + [g.value];
    }
  }

  /**
   * After a squared group the token that follows the `²` is dropped,
   * whatever it is: `(x)² )` is accepted although its parentheses do not
   * balance, and `(x)² + 3` loses its `+`. The tokens after that one are
   * resolved as a list of their own; the interior may nest groups.
   */
  lemma SquaredGroupSkipsNext(p: Prims, pre: seq<string>, x: seq<string>, next: string, rest: seq<string>)
    requires ParenFree(pre) && |x| > 0 && StaysOpen(x, 1) && Count(x, "(") == Count(x, ")")
    requires forall k :: 0 <= k < |x| ==> !SquaredClose(x, k)
    ensures var g := GroupValue(p, Resolve(p, x), true);
      var q := Resolve(p, rest);
      Resolve(p, pre + ["("] + x + [")", "²", next] + rest) ==
        if g.Err? then Err(g.error) else if q.Err? then q else Ok(pre + [g.value] + q.value)
  {
    var toks := pre + ["("] + x + [")", "²", next] + rest;
    var m := |pre| + 1 + |x|;
    assert toks[..m + 1] == pre + ["("] + x + [")"];
    GroupShape(pre, x, toks);
    assert toks[m + 1] == "²" && AfterSquare(toks, m) == rest;
    SquaredGroupAt(p, toks, |pre|, m);
  }

  /**
   * A nested `)` followed by `²` is not kept in the group, while the `²`
   * is (the flag is only set at depth 0): the group of `((a)²)` is
   * `( a ²`, whose own scan ends at depth 1.
   */
  lemma NestedSquareLosesParen(p: Prims, a: string)
    requires a != "(" && a != ")" && a != "²"
    ensures Resolve(p, ["(", "(", a, ")", "²", ")"]) == Err(MismatchedParentheses)
  {
    var toks := ["(", "(", a, ")", "²", ")"];
    var group := ["(", a, "²"];
    assert [] + [a] == [a] && [a] + ["²"] == [a, "²"];
    assert [] + ["("] == ["("] && ["("] + [a] == ["(", a] && ["(", a] + ["²"] == group;
    assert Nested(p, group, 0, Start) == Nested(p, group, 1, Scan([], 1, [], false));
    assert Nested(p, group, 1, Scan([], 1, [], false)) == Nested(p, group, 2, Scan([], 1, [a], false));
    assert Nested(p, group, 2, Scan([], 1, [a], false)) == Nested(p, group, 3, Scan([], 1, [a, "²"], false));
    assert Resolve(p, group) == Err(MismatchedParentheses);
    assert Nested(p, toks, 0, Start) == Nested(p, toks, 1, Scan([], 1, [], false));
    assert Nested(p, toks, 1, Scan([], 1, [], false)) == Nested(p, toks, 2, Scan([], 2, ["("], false));
    assert Nested(p, toks, 2, Scan([], 2, ["("], false)) == Nested(p, toks, 3, Scan([], 2, ["(", a], false));
    assert Nested(p, toks, 3, Scan([], 2, ["(", a], false)) == Nested(p, toks, 4, Scan([], 1, ["(", a], false));
    assert Nested(p, toks, 4, Scan([], 1, ["(", a], false)) == Nested(p, toks, 5, Scan([], 1, group, false));
  }
}
