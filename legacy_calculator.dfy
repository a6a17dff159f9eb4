/**
 * `calculate` and `parseParentheses` of the root calculator.js.
 *
 * `calculate` tokenizes, runs `parseParentheses` only when some token is
 * `(`, then parses and evaluates. `parseParentheses` copies every token
 * but the parentheses to its output; on `(` it remembers the output
 * length, and on `)` it pops that mark, grows the output by one empty
 * slot, evaluates the TOKENS (not the output) between the mark plus one
 * and the new output length, and appends the value after the slot.
 */
module LegacyCalculator {
  import opened Numbers
  import opened Tree
  import opened Text
  import opened LegacyLexer
  import opened LegacyParser
  import opened LegacyEvaluator

  /** The tokenizer's strings as parser entries. */
  function Texts(ts: seq<string>): (r: seq<Entry>)
    ensures |r| == |ts| && forall k :: 0 <= k < |ts| ==> r[k] == Text(ts[k])
  {
    seq(|ts|, k requires 0 <= k < |ts| => Text(ts[k]))
  }

  /** `tokens.slice(begin, end)` for non-negative bounds. */
  function Slice(ts: seq<string>, begin: nat, end: nat): seq<string>
  {
    var stop := if end <= |ts| then end else |ts|;
    if begin < stop then ts[begin..stop] else []
  }

  /**
   * `evaluate(parse(between))`: how `parseParentheses` values a group.
   * The loop below takes it as a parameter, so that reasoning about the
   * loop does not unfold the parser.
   */
  function Group(p: Prims): seq<string> -> Value
  {
    between => Evaluate(Parse(p, Texts(between)))
  }

  /**
   * The mark `stack.pop()` returns, plus one: an empty stack pops
   * `undefined`, `++` makes it NaN, and `slice` reads NaN as 0.
   */
  function Begin(stack: seq<nat>): nat
  {
    if stack == [] then 0 else stack[|stack| - 1] + 1
  }

  function Pop(stack: seq<nat>): seq<nat>
  {
    if stack == [] then [] else stack[..|stack| - 1]
  }

  /** The output and the stack of marks of `parseParentheses`. */
  datatype Progress = Progress(output: seq<Entry>, stack: seq<nat>)

  /** One round of the loop of `parseParentheses`, on token i. */
  function Step(group: seq<string> -> Value, tokens: seq<string>, i: nat, at: Progress): Progress
    requires i < |tokens|
  {
    if tokens[i] == "(" then
      Progress(at.output, at.stack + [|at.output|])
    else if tokens[i] == ")" then
      var slot := at.output + [Hole];
      Progress(slot + [Held(group(Slice(tokens, Begin(at.stack), |slot|)))], Pop(at.stack))
    else
      Progress(at.output + [Text(tokens[i])], at.stack)
  }

  /** The loop of `parseParentheses` from token i on. */
  function ParensFrom(group: seq<string> -> Value, tokens: seq<string>, i: nat, at: Progress): seq<Entry>
    requires i <= |tokens|
    decreases |tokens| - i
  {
    if i == |tokens| then at.output else ParensFrom(group, tokens, i + 1, Step(group, tokens, i, at))
  }

  /** `parseParentheses(tokens)` */
  function Parens(p: Prims, tokens: seq<string>): seq<Entry>
  {
    ParensFrom(Group(p), tokens, 0, Progress([], []))
  }

  /** `parseParentheses(tokens)`, with its `for` loop. */
  method ParseParentheses(p: Prims, tokens: seq<string>) returns (output: seq<Entry>)
    ensures output == Parens(p, tokens)
  {
    output := [];
    var stack: seq<nat> := [];
    for i := 0 to |tokens|
      invariant ParensFrom(Group(p), tokens, i, Progress(output, stack)) == Parens(p, tokens)
    {
      var token := tokens[i];
      if token == "(" {
        stack := stack + [|output|];
      } else if token == ")" {
        var beginParenthesis := Begin(stack);
        stack := Pop(stack);
        output := output + [Hole];
        var between := Slice(tokens, beginParenthesis, |output|);
        var ast := ParseEntries(p, Texts(between));
        var result := Evaluate(ast);
        output := output + [Held(result)];
      } else {
        output := output + [Text(token)];
      }
    }
  }

  /** The entries `calculate` hands to `parse`. */
  function Entries(p: Prims, tokens: seq<string>): seq<Entry>
  {
    if "(" in tokens then Parens(p, tokens) else Texts(tokens)
  }

  /** `calculate(expression)` */
  function Calculate(p: Prims, expression: string): Value
  {
    Evaluate(Parse(p, Entries(p, Lex(expression))))
  }

  /** `calculate(expression)`, calling the tokenizer, `parseParentheses` and the parser as written. */
  method CalculateExpression(p: Prims, expression: string) returns (result: Value)
    ensures result == Calculate(p, expression)
  {
    var tokens := Tokenize(expression);
    var entries := Texts(tokens);
    if "(" in tokens {
      entries := ParseParentheses(p, tokens);
    }
    var ast := ParseEntries(p, entries);
    result := Evaluate(ast);
  }

  // ---------------------------------------------------------------------
  // The shape of the output of `parseParentheses`.
  // ---------------------------------------------------------------------

  /** What one token contributes to the output, with group values blanked out. */
  function Piece(t: string): seq<Entry>
  {
    if t == "(" then [] else if t == ")" then [Hole, Held(Undefined)] else [Text(t)]
  }

  function Layout(ts: seq<string>): seq<Entry>
  {
    if ts == [] then [] else Piece(ts[0]) + Layout(ts[1..])
  }

  /** The output with every group value replaced by `undefined`. */
  function Blank(out: seq<Entry>): (r: seq<Entry>)
    ensures |r| == |out|
  {
    seq(|out|, k requires 0 <= k < |out| => if out[k].Held? then Held(Undefined) else out[k])
  }

  lemma BlankConcat(a: seq<Entry>, b: seq<Entry>)
    ensures Blank(a + b) == Blank(a) + Blank(b)
  {
  }

  lemma StepLayout(group: seq<string> -> Value, tokens: seq<string>, i: nat, at: Progress)
    requires i < |tokens|
    ensures Blank(Step(group, tokens, i, at).output) == Blank(at.output) + Piece(tokens[i])
  {
    var next := Step(group, tokens, i, at).output;
    if tokens[i] == ")" {
      assert next == at.output + [Hole, next[|next| - 1]];
      BlankConcat(at.output, [Hole, next[|next| - 1]]);
    } else if tokens[i] != "(" {
      BlankConcat(at.output, [Text(tokens[i])]);
    }
  }

  lemma {:induction false} LayoutFrom(group: seq<string> -> Value, tokens: seq<string>, i: nat, at: Progress)
    requires i <= |tokens|
    ensures Blank(ParensFrom(group, tokens, i, at)) == Blank(at.output) + Layout(tokens[i..])
    decreases |tokens| - i
  {
    if i < |tokens| {
      assert tokens[i..][1..] == tokens[i + 1..];
      StepLayout(group, tokens, i, at);
      LayoutFrom(group, tokens, i + 1, Step(group, tokens, i, at));
    }
  }

  /**
   * The output of `parseParentheses`: each token but `(` and `)` in
   * order, and, for each `)`, an empty slot followed by a group value.
   */
  lemma ParensLayout(p: Prims, tokens: seq<string>)
    ensures Blank(Parens(p, tokens)) == Layout(tokens)
  {
    LayoutFrom(Group(p), tokens, 0, Progress([], []));
    assert tokens[0..] == tokens;
  }

  lemma {:induction false} LayoutLength(ts: seq<string>)
    ensures |Layout(ts)| == |ts| - Count(ts, "(") + Count(ts, ")")
  {
    if ts != [] {
      LayoutLength(ts[1..]);
    }
  }

  /** The output is the input, less one entry per `(` and plus one per `)`. */
  lemma ParensLength(p: Prims, tokens: seq<string>)
    ensures |Parens(p, tokens)| == |tokens| - Count(tokens, "(") + Count(tokens, ")")
  {
    ParensLayout(p, tokens);
    LayoutLength(tokens);
  }

  lemma {:induction false} LayoutTexts(ts: seq<string>, k: nat)
    requires k < |Layout(ts)| && Layout(ts)[k].Text?
    ensures Layout(ts)[k].text in ts && Layout(ts)[k].text != "(" && Layout(ts)[k].text != ")"
  {
    if |Piece(ts[0])| <= k {
      LayoutTexts(ts[1..], k - |Piece(ts[0])|);
    }
  }

  /** Each token of the output is a token of the input, and none is a parenthesis. */
  lemma ParensTexts(p: Prims, tokens: seq<string>, k: nat)
    requires k < |Parens(p, tokens)| && Parens(p, tokens)[k].Text?
    ensures Parens(p, tokens)[k].text in tokens
    ensures Parens(p, tokens)[k] != Text("(") && Parens(p, tokens)[k] != Text(")")
  {
    ParensLayout(p, tokens);
    assert Blank(Parens(p, tokens))[k] == Parens(p, tokens)[k];
    LayoutTexts(tokens, k);
  }

  /** Without `)` there is no group: the output is the tokens less each `(`. */
  lemma {:induction false} LayoutWithoutClose(ts: seq<string>)
    requires ")" !in ts
    ensures forall k :: 0 <= k < |Layout(ts)| ==> Layout(ts)[k].Text?
  {
    if ts != [] {
      LayoutWithoutClose(ts[1..]);
    }
  }

  /** Without `)` no group is ever valued: every entry of the output is a token. */
  lemma ParensWithoutClose(p: Prims, tokens: seq<string>)
    requires ")" !in tokens
    ensures forall k :: 0 <= k < |Parens(p, tokens)| ==> Parens(p, tokens)[k].Text?
  {
    ParensLayout(p, tokens);
    LayoutWithoutClose(tokens);
    forall k | 0 <= k < |Parens(p, tokens)|
      ensures Parens(p, tokens)[k].Text?
    {
      assert Blank(Parens(p, tokens))[k] == Layout(tokens)[k];
    }
  }

  // ---------------------------------------------------------------------
  // What `calculate` computes.
  // ---------------------------------------------------------------------

  /** What `calculate` hands to `parse` never holds a `*` or `/` token. */
  lemma EntriesHaveNoProduct(p: Prims, s: string)
    ensures forall k :: 0 <= k < |Entries(p, Lex(s))| ==> !IsMulText(Entries(p, Lex(s))[k])
  {
    var tokens := Lex(s);
    LegacyTokensHaveShape(s);
    forall k | 0 <= k < |Entries(p, tokens)|
      ensures !IsMulText(Entries(p, tokens)[k])
    {
      if "(" !in tokens {
        assert tokens[k] in tokens;
      } else if Parens(p, tokens)[k].Text? {
        ParensTexts(p, tokens, k);
      }
    }
  }

  /**
   * `calculate` never returns `undefined`: no token is `*` or `/`, so
   * the parser builds only `+` and `-` nodes, which `evaluate` handles.
   */
  lemma CalculateIsNumber(p: Prims, s: string)
    ensures Calculate(p, s).Number?
  {
    EntriesHaveNoProduct(p, s);
    NoProductNoUndefined(p, Entries(p, Lex(s)));
  }

  /** Without parentheses, a `+ -` chain of numbers is totalled left to right. */
  lemma CalculateSum(p: Prims, s: string, e: Sum, rest: seq<Entry>)
    requires "(" !in Lex(s) && Texts(Lex(s)) == SumTokens(e) + rest
    requires SumOk(e) && Flat(e) && (rest == [] || Stops(rest[0]))
    ensures Calculate(p, s) == Number(Total(p, NumberOf(p, e.head.head), e.rest))
  {
    ParseRoundTrip(p, e, rest);
    FlatSumValue(p, e);
  }

  /** No token in [i, j) is a parenthesis. */
  predicate FlatBetween(tokens: seq<string>, i: nat, j: nat)
    requires i <= j <= |tokens|
  {
    forall k :: i <= k < j ==> tokens[k] != "(" && tokens[k] != ")"
  }

  /** The tokens up to a paren-free prefix are copied, and the output so far is kept. */
  lemma {:induction false} CopyFlat(group: seq<string> -> Value, tokens: seq<string>, i: nat, j: nat, output: seq<Entry>, stack: seq<nat>)
    requires i <= j <= |tokens| && FlatBetween(tokens, i, j)
    ensures ParensFrom(group, tokens, i, Progress(output, stack)) == ParensFrom(group, tokens, j, Progress(output + Texts(tokens[i..j]), stack))
    decreases j - i
  {
    if i < j {
      CopyFlat(group, tokens, i + 1, j, output + [Text(tokens[i])], stack);
      assert output + [Text(tokens[i])] + Texts(tokens[i + 1..j]) == output + Texts(tokens[i..j]);
    } else {
      assert output + Texts(tokens[i..j]) == output;
    }
  }

  /** The output only grows. */
  lemma {:induction false} OutputGrows(group: seq<string> -> Value, tokens: seq<string>, i: nat, at: Progress)
    requires i <= |tokens|
    ensures |at.output| <= |ParensFrom(group, tokens, i, at)|
    ensures ParensFrom(group, tokens, i, at)[..|at.output|] == at.output
    decreases |tokens| - i
  {
    if i < |tokens| {
      var next := Step(group, tokens, i, at);
      OutputGrows(group, tokens, i + 1, next);
      assert next.output[..|at.output|] == at.output;
    }
  }

  predicate ParenFree(ts: seq<string>)
  {
    "(" !in ts && ")" !in ts
  }

  lemma OpenStep(group: seq<string> -> Value, tokens: seq<string>, i: nat, at: Progress)
    requires i < |tokens| && tokens[i] == "("
    ensures ParensFrom(group, tokens, i, at) == ParensFrom(group, tokens, i + 1, Progress(at.output, at.stack + [|at.output|]))
  {
  }

  lemma CloseStep(group: seq<string> -> Value, tokens: seq<string>, i: nat, at: Progress)
    requires i < |tokens| && tokens[i] == ")"
    ensures ParensFrom(group, tokens, i, at) ==
            ParensFrom(group, tokens, i + 1, Progress(at.output + [Hole, Held(group(Slice(tokens, Begin(at.stack), |at.output| + 1)))], Pop(at.stack)))
  {
    assert at.output + [Hole] + [Held(group(Slice(tokens, Begin(at.stack), |at.output| + 1)))] ==
           at.output + [Hole, Held(group(Slice(tokens, Begin(at.stack), |at.output| + 1)))];
  }

  /** Where the pieces of `pre ( x ) post` sit. */
  lemma GroupTokens(pre: seq<string>, x: seq<string>, post: seq<string>)
    ensures (pre + ["("] + x + [")"] + post)[..|pre|] == pre
    ensures (pre + ["("] + x + [")"] + post)[|pre|] == "("
    ensures (pre + ["("] + x + [")"] + post)[|pre| + 1..|pre| + 1 + |x|] == x
    ensures (pre + ["("] + x + [")"] + post)[|pre| + 1 + |x|] == ")"
  {
    var tokens := pre + ["("] + x + [")"] + post;
    assert tokens == pre + (["("] + x + [")"] + post);
    assert tokens == (pre + ["("] + x) + ([")"] + post);
  }

  /** The output and the empty stack once the first group, at [i, m], is read. */
  function AfterFirstGroup(group: seq<string> -> Value, tokens: seq<string>, i: nat, m: nat): (r: Progress)
    requires i < m <= |tokens|
    ensures |r.output| == m + 1
  {
    Progress(Texts(tokens[..i]) + Texts(tokens[i + 1..m]) + [Hole, Held(group(tokens[i + 1..m]))], [])
  }

  lemma FirstGroupRead(group: seq<string> -> Value, tokens: seq<string>, i: nat, m: nat)
    requires i < m < |tokens| && tokens[i] == "(" && tokens[m] == ")"
    requires FlatBetween(tokens, 0, i) && FlatBetween(tokens, i + 1, m)
    ensures ParensFrom(group, tokens, 0, Progress([], [])) == ParensFrom(group, tokens, m + 1, AfterFirstGroup(group, tokens, i, m))
  {
    var front := Texts(tokens[..i]) + Texts(tokens[i + 1..m]);
    CopyFlat(group, tokens, 0, i, [], []);
    assert [] + Texts(tokens[0..i]) == Texts(tokens[..i]);
    OpenStep(group, tokens, i, Progress(Texts(tokens[..i]), []));
    assert [] + [|Texts(tokens[..i])|] == [i];
    CopyFlat(group, tokens, i + 1, m, Texts(tokens[..i]), [i]);
    CloseStep(group, tokens, m, Progress(front, [i]));
    assert Begin([i]) == i + 1 && Pop([i]) == [] && |front| + 1 == m;
    assert Slice(tokens, i + 1, m) == tokens[i + 1..m];
  }

  /**
   * The first `(`, at i, and the first `)`, at m, with nothing between
   * them nor before them a parenthesis: the output starts with the
   * tokens before and inside the group, the empty slot, and the value of
   * the tokens inside.
   */
  lemma FirstGroupAt(p: Prims, tokens: seq<string>, i: nat, m: nat)
    requires i < m < |tokens| && tokens[i] == "(" && tokens[m] == ")"
    requires FlatBetween(tokens, 0, i) && FlatBetween(tokens, i + 1, m)
    ensures m + 1 <= |Parens(p, tokens)|
    ensures Parens(p, tokens)[..m + 1] ==
            Texts(tokens[..i]) + Texts(tokens[i + 1..m]) + [Hole, Held(Evaluate(Parse(p, Texts(tokens[i + 1..m]))))]
  {
    FirstGroupOutput(Group(p), tokens, i, m);
    assert Group(p)(tokens[i + 1..m]) == Evaluate(Parse(p, Texts(tokens[i + 1..m])));
  }

  lemma FirstGroupOutput(group: seq<string> -> Value, tokens: seq<string>, i: nat, m: nat)
    requires i < m < |tokens| && tokens[i] == "(" && tokens[m] == ")"
    requires FlatBetween(tokens, 0, i) && FlatBetween(tokens, i + 1, m)
    ensures m + 1 <= |ParensFrom(group, tokens, 0, Progress([], []))|
    ensures ParensFrom(group, tokens, 0, Progress([], []))[..m + 1] ==
            Texts(tokens[..i]) + Texts(tokens[i + 1..m]) + [Hole, Held(group(tokens[i + 1..m]))]
  {
    var after := AfterFirstGroup(group, tokens, i, m);
    FirstGroupRead(group, tokens, i, m);
    OutputGrows(group, tokens, m + 1, after);
  }

  /** The parse of the output of `parseParentheses` stops at the slot of the first group. */
  lemma FirstCloseEndsParse(p: Prims, tokens: seq<string>, i: nat, m: nat)
    requires i < m < |tokens| && tokens[i] == "(" && tokens[m] == ")"
    requires FlatBetween(tokens, 0, i) && FlatBetween(tokens, i + 1, m)
    ensures "(" in tokens
    ensures Parse(p, Parens(p, tokens)) == Parse(p, Texts(tokens[..i]) + Texts(tokens[i + 1..m]) + [Hole])
  {
    var out := Parens(p, tokens);
    var front := Texts(tokens[..i]) + Texts(tokens[i + 1..m]);
    var v := Evaluate(Parse(p, Texts(tokens[i + 1..m])));
    FirstGroupAt(p, tokens, i, m);
    assert out == out[..m + 1] + out[m + 1..];
    assert out == front + [Hole, Held(v)] + out[m + 1..];
    ParseStopsAtSlot(p, front, v, out[m + 1..]);
  }

  /**
   * Nothing after the first `)` counts: the slot `parseParentheses`
   * leaves before each value reads as NaN and ends the parse, so the
   * result is that of the tokens before the first `)`, less the `(`,
   * followed by NaN; the group's own value is never used.
   */
  lemma FirstCloseEndsCalculation(p: Prims, s: string, pre: seq<string>, x: seq<string>, post: seq<string>)
    requires Lex(s) == pre + ["("] + x + [")"] + post && ParenFree(pre) && ParenFree(x)
    ensures Calculate(p, s) == Evaluate(Parse(p, Texts(pre + x) + [Hole]))
  {
    FirstCloseEndsGroups(p, Lex(s), pre, x, post);
    CalculateWith(p, s, Texts(pre + x) + [Hole]);
  }

  lemma FirstCloseEndsGroups(p: Prims, tokens: seq<string>, pre: seq<string>, x: seq<string>, post: seq<string>)
    requires tokens == pre + ["("] + x + [")"] + post && ParenFree(pre) && ParenFree(x)
    ensures "(" in tokens && Parse(p, Parens(p, tokens)) == Parse(p, Texts(pre + x) + [Hole])
  {
    var i, m := |pre|, |pre| + 1 + |x|;
    GroupTokens(pre, x, post);
    assert tokens[0..i] == pre;
    FreeFlat(tokens, 0, i, pre);
    FreeFlat(tokens, i + 1, m, x);
    FirstCloseEndsParse(p, tokens, i, m);
    TextsConcat(pre, x);
  }

  /** A paren-free slice has no parenthesis at any of its positions. */
  lemma FreeFlat(tokens: seq<string>, i: nat, j: nat, x: seq<string>)
    requires i <= j <= |tokens| && tokens[i..j] == x && ParenFree(x)
    ensures FlatBetween(tokens, i, j)
  {
    forall k | i <= k < j
      ensures tokens[k] != "(" && tokens[k] != ")"
    {
      assert tokens[k] == x[k - i] && x[k - i] in x;
    }
  }

  lemma TextsConcat(a: seq<string>, b: seq<string>)
    ensures Texts(a) + Texts(b) == Texts(a + b)
  {
    assert forall k :: 0 <= k < |a| + |b| ==> (Texts(a) + Texts(b))[k] == Texts(a + b)[k];
  }

  /** `calculate` once the parse of what `parseParentheses` returns is known. */
  lemma CalculateWith(p: Prims, s: string, entries: seq<Entry>)
    requires "(" in Lex(s) && Parse(p, Parens(p, Lex(s))) == Parse(p, entries)
    ensures Calculate(p, s) == Evaluate(Parse(p, entries))
  {
  }
}
