/**
 * The tokenizer of static/calculator.js.
 *
 * The source runs the global regular expression
 *   -?\d+(?:\.\d+)?(?:[eE][-+]?\d+)?  |  π  |  [+\-÷*\/√×%()^²]  |  [a-zA-Z_]\w*
 * repeatedly over the input and keeps every match. Here the first
 * alternative that matches at a position is computed by hand (`MatchEnd`),
 * a position where none matches is passed over (the search inside each
 * `exec` call), and `Lex` lists the matches from left to right.
 */
module StaticLexer {
  import opened Text
  import opened Scanner

  /** `[+\-÷*\/√×%()^²]` */
  predicate IsSymbolChar(c: char)
  {
    c in "+-÷*/√×%()^²"
  }

  /** End of the optional exponent `[eE][-+]?\d+` that may start at position c. */
  function ExponentEnd(s: string, c: nat): (d: nat)
    requires c <= |s|
    ensures c <= d <= |s|
  {
    if c + 1 < |s| && (s[c] == 'e' || s[c] == 'E') then
      if IsDigit(s[c + 1]) then c + 1 + Run(IsDigit, s, c + 1)
      else if c + 2 < |s| && (s[c + 1] == '-' || s[c + 1] == '+') && IsDigit(s[c + 2])
      then c + 2 + Run(IsDigit, s, c + 2)
      else c
    else c
  }

  /** End of the optional fraction `\.\d+` that may start at position b. */
  function FractionEnd(s: string, b: nat): (c: nat)
    requires b <= |s|
    ensures b <= c <= |s|
  {
    if b + 1 < |s| && s[b] == '.' && IsDigit(s[b + 1]) then b + 1 + Run(IsDigit, s, b + 1) else b
  }

  /** The sign of a number that starts at i is part of it when a digit follows. */
  function DigitsStart(s: string, i: nat): (a: nat)
    requires i <= |s|
    ensures i <= a <= i + 1 && a <= |s|
  {
    if i + 1 < |s| && s[i] == '-' && IsDigit(s[i + 1]) then i + 1 else i
  }

  /** End of `\d+(?:\.\d+)?(?:[eE][-+]?\d+)?` read from position a, where a digit stands. */
  function UnsignedEnd(s: string, a: nat): (e: nat)
    requires a <= |s|
    ensures a <= e <= |s|
  {
    ExponentEnd(s, FractionEnd(s, a + Run(IsDigit, s, a)))
  }

  /** End of the match of `-?\d+(?:\.\d+)?(?:[eE][-+]?\d+)?` at position i, or i if there is none. */
  function NumberEnd(s: string, i: nat): (e: nat)
    requires i <= |s|
    ensures i <= e <= |s|
  {
    var a := DigitsStart(s, i);
    if a < |s| && IsDigit(s[a]) then UnsignedEnd(s, a) else i
  }

  /** End of the match at position i, trying the alternatives in order; i if none matches there. */
  function MatchEnd(s: string, i: nat): (e: nat)
    ensures i <= e
    ensures i <= |s| ==> e <= |s|
  {
    if i >= |s| then i
    else
      var number := NumberEnd(s, i);
      if number > i then number
      else if s[i] == 'π' then i + 1
      else if IsSymbolChar(s[i]) then i + 1
      else if IsIdentStart(s[i]) then i + 1 + Run(IsWordChar, s, i + 1)
      else i
  }

  /** What `tokenize` returns for s. */
  function Lex(s: string): seq<string>
  {
    Matches(MatchEnd, s, 0)
  }

  /** The scanning loop of `tokenize`. */
  method Tokenize(expression: string) returns (tokens: seq<string>)
    ensures tokens == Lex(expression)
  {
    tokens := Scan(MatchEnd, expression);
  }

  // ---------------------------------------------------------------------
  // The kinds of token, written as the grammar of each regex alternative.
  // ---------------------------------------------------------------------

  /** `[eE][-+]?\d+` */
  predicate IsExponent(u: string)
  {
    |u| >= 2 && (u[0] == 'e' || u[0] == 'E') &&
    (AllDigits(u[1..]) || ((u[1] == '-' || u[1] == '+') && AllDigits(u[2..])))
  }

  /** What may follow the digits of a fraction: more digits, then an optional exponent. */
  predicate FractionTail(u: string)
    decreases |u|
  {
    u == [] || IsExponent(u) || (IsDigit(u[0]) && FractionTail(u[1..]))
  }

  /** What may follow the first digit of a number: more digits, an optional fraction, an optional exponent. */
  predicate IntegerTail(u: string)
    decreases |u|
  {
    u == [] || IsExponent(u) ||
    (IsDigit(u[0]) && IntegerTail(u[1..])) ||
    (|u| >= 2 && u[0] == '.' && IsDigit(u[1]) && FractionTail(u[2..]))
  }

  /** `-?\d+(?:\.\d+)?(?:[eE][-+]?\d+)?` */
  predicate IsNumeral(t: string)
  {
    var u := if |t| > 0 && t[0] == '-' then t[1..] else t;
    |u| > 0 && IsDigit(u[0]) && IntegerTail(u[1..])
  }

  /** One of the kinds of token the regular expression can produce. */
  predicate IsToken(t: string)
  {
    IsNumeral(t) || t == "π" || (|t| == 1 && IsSymbolChar(t[0])) || IsIdentifier(t)
  }

  /** A character no token contains, such as white space: it only separates tokens. */
  predicate IsSeparator(c: char)
  {
    !IsWordChar(c) && !IsSymbolChar(c) && c != 'π' && c != '.'
  }

  // ---------------------------------------------------------------------
  // Lemmas
  // ---------------------------------------------------------------------

  lemma {:induction false} FractionTailDigits(ds: string, u: string)
    requires forall k :: 0 <= k < |ds| ==> IsDigit(ds[k])
    requires FractionTail(u)
    ensures FractionTail(ds + u)
    decreases |ds|
  {
    if ds != [] {
      assert (ds + u)[1..] == ds[1..] + u;
      FractionTailDigits(ds[1..], u);
    } else {
      assert ds + u == u;
    }
  }

  lemma {:induction false} IntegerTailDigits(ds: string, u: string)
    requires forall k :: 0 <= k < |ds| ==> IsDigit(ds[k])
    requires IntegerTail(u)
    ensures IntegerTail(ds + u)
    decreases |ds|
  {
    if ds != [] {
      assert (ds + u)[1..] == ds[1..] + u;
      IntegerTailDigits(ds[1..], u);
    } else {
      assert ds + u == u;
    }
  }

  /** The digits of a run from position i, as a slice. */
  lemma DigitSlice(s: string, i: nat, j: nat)
    requires i <= j <= |s| && j <= i + Run(IsDigit, s, i)
    ensures forall k :: 0 <= k < |s[i..j]| ==> IsDigit(s[i..j][k])
  {
    RunSpec(IsDigit, s, i);
    assert forall k :: 0 <= k < |s[i..j]| ==> s[i..j][k] == s[i + k];
  }

  lemma ExponentShape(s: string, c: nat)
    requires c <= |s|
    ensures ExponentEnd(s, c) == c || IsExponent(s[c..ExponentEnd(s, c)])
  {
    var d := ExponentEnd(s, c);
    if d != c {
      var u := s[c..d];
      if IsDigit(s[c + 1]) {
        DigitSlice(s, c + 1, d);
        assert u[1..] == s[c + 1..d];
      } else {
        DigitSlice(s, c + 2, d);
        assert u[2..] == s[c + 2..d];
      }
    }
  }

  /** From position b on, what a number match holds after its integer digits is an `IntegerTail`. */
  lemma TailShape(s: string, b: nat)
    requires b <= |s|
    ensures IntegerTail(s[b..ExponentEnd(s, FractionEnd(s, b))])
  {
    var c := FractionEnd(s, b);
    var n := ExponentEnd(s, c);
    ExponentShape(s, c);
    assert IntegerTail(s[c..n]) && FractionTail(s[c..n]);
    if c != b {
      DigitSlice(s, b + 2, c);
      FractionTailDigits(s[b + 2..c], s[c..n]);
      assert s[b + 2..c] + s[c..n] == s[b + 2..n];
      var u := s[b..n];
      assert u[0] == '.' && u[1] == s[b + 1] && u[2..] == s[b + 2..n];
    }
  }

  /** What the unsigned part of a number match holds after its first digit is an `IntegerTail`. */
  lemma UnsignedShape(s: string, a: nat)
    requires a < |s| && IsDigit(s[a])
    ensures a < UnsignedEnd(s, a) && IntegerTail(s[a + 1..UnsignedEnd(s, a)])
  {
    var n := UnsignedEnd(s, a);
    var b := a + Run(IsDigit, s, a);
    TailShape(s, b);
    RunSpec(IsDigit, s, a);
    DigitSlice(s, a + 1, b);
    IntegerTailDigits(s[a + 1..b], s[b..n]);
    assert s[a + 1..b] + s[b..n] == s[a + 1..n];
  }

  /** Whatever the number alternative matches is a numeral. */
  lemma NumberShape(s: string, i: nat)
    requires i <= |s| && NumberEnd(s, i) > i
    ensures IsNumeral(s[i..NumberEnd(s, i)])
  {
    var a := DigitsStart(s, i);
    var n := UnsignedEnd(s, a);
    UnsignedShape(s, a);
    var t := s[i..n];
    if a == i + 1 {
      assert t[0] == '-' && t[1..] == s[a..n];
    } else {
      assert t[0] == s[a];
    }
    var u := if |t| > 0 && t[0] == '-' then t[1..] else t;
    assert u == s[a..n];
    assert u[1..] == s[a + 1..n];
  }

  /** Every match has the shape of one of the regular expression's alternatives. */
  lemma MatchShape(s: string, i: nat)
    requires i < |s| && MatchEnd(s, i) > i
    ensures IsToken(s[i..MatchEnd(s, i)])
  {
    if NumberEnd(s, i) > i {
      NumberShape(s, i);
    } else if s[i] != 'π' && !IsSymbolChar(s[i]) {
      var t := s[i..MatchEnd(s, i)];
      RunSpec(IsWordChar, s, i + 1);
      assert forall k :: 1 <= k < |t| ==> t[k] == s[i + k];
    }
  }

  lemma MatchEndShaped()
    ensures Shaped(MatchEnd, IsToken)
  {
    forall s: string, i: nat | i < MatchEnd(s, i) <= |s|
      ensures IsToken(s[i..MatchEnd(s, i)])
    {
      MatchShape(s, i);
    }
  }

  /** Every token `tokenize` returns is a number, π, a symbol or an identifier. */
  lemma TokensHaveLexemeShape(s: string)
    ensures forall t :: t in Lex(s) ==> IsToken(t)
  {
    MatchEndShaped();
    MatchesHaveShape(MatchEnd, IsToken, s, 0);
  }

  /** The tokens are pieces of the input, in the input's order. */
  lemma TokensInOrder(s: string)
    ensures InOrderFrom(Lex(s), s, 0)
  {
    MatchesInOrder(MatchEnd, s, 0);
  }

  // What comes before a position does not change what matches there.

  lemma ExponentEndShift(p: string, s: string, c: nat)
    requires c <= |s|
    ensures ExponentEnd(p + s, |p| + c) == |p| + ExponentEnd(s, c)
  {
    var t := p + s;
    if c + 1 < |s| {
      assert t[|p| + c] == s[c] && t[|p| + c + 1] == s[c + 1];
      RunShift(IsDigit, p, s, c + 1);
    }
    if c + 2 < |s| {
      assert t[|p| + c + 2] == s[c + 2];
      RunShift(IsDigit, p, s, c + 2);
    }
  }

  lemma FractionEndShift(p: string, s: string, b: nat)
    requires b <= |s|
    ensures FractionEnd(p + s, |p| + b) == |p| + FractionEnd(s, b)
  {
    var t := p + s;
    if b + 1 < |s| {
      assert t[|p| + b] == s[b] && t[|p| + b + 1] == s[b + 1];
      RunShift(IsDigit, p, s, b + 1);
    }
  }

  lemma UnsignedEndShift(p: string, s: string, a: nat)
    requires a <= |s|
    ensures UnsignedEnd(p + s, |p| + a) == |p| + UnsignedEnd(s, a)
  {
    RunShift(IsDigit, p, s, a);
    var b := a + Run(IsDigit, s, a);
    FractionEndShift(p, s, b);
    ExponentEndShift(p, s, FractionEnd(s, b));
  }

  lemma NumberEndShift(p: string, s: string, i: nat)
    requires i <= |s|
    ensures NumberEnd(p + s, |p| + i) == |p| + NumberEnd(s, i)
  {
    var t := p + s;
    if i + 1 < |s| {
      assert t[|p| + i] == s[i] && t[|p| + i + 1] == s[i + 1];
    }
    var a := DigitsStart(s, i);
    assert DigitsStart(t, |p| + i) == |p| + a;
    if a < |s| {
      assert t[|p| + a] == s[a];
      UnsignedEndShift(p, s, a);
    }
  }

  lemma MatchEndShift(p: string, s: string, i: nat)
    requires i < |s|
    ensures MatchEnd(p + s, |p| + i) == |p| + MatchEnd(s, i)
  {
    var t := p + s;
    NumberEndShift(p, s, i);
    assert t[|p| + i] == s[i];
    RunShift(IsWordChar, p, s, i + 1);
  }

  /** The match at a position depends only on the text from there on. */
  lemma MatchEndLooksAhead()
    ensures LooksAhead(MatchEnd)
  {
    forall p: string, s: string, i: nat
      ensures MatchEnd(p + s, |p| + i) == |p| + MatchEnd(s, i)
    {
      if i < |s| {
        MatchEndShift(p, s, i);
      }
    }
  }

  // A separator ends every match that starts before it.

  lemma ExponentEndStops(x: string, c: char, y: string, k: nat)
    requires IsSeparator(c) && k <= |x|
    ensures ExponentEnd(x + [c] + y, k) == ExponentEnd(x, k)
  {
    var s := x + [c] + y;
    if k < |x| {
      assert s[k] == x[k];
    }
    if k + 1 <= |x| {
      assert s[k + 1] == (if k + 1 < |x| then x[k + 1] else c);
      RunStops(IsDigit, x, c, y, k + 1);
    }
    if k + 2 <= |x| {
      assert s[k + 2] == (if k + 2 < |x| then x[k + 2] else c);
      RunStops(IsDigit, x, c, y, k + 2);
    }
  }

  lemma FractionEndStops(x: string, c: char, y: string, k: nat)
    requires IsSeparator(c) && k <= |x|
    ensures FractionEnd(x + [c] + y, k) == FractionEnd(x, k)
  {
    var s := x + [c] + y;
    if k < |x| {
      assert s[k] == x[k];
    }
    if k + 1 <= |x| {
      assert s[k + 1] == (if k + 1 < |x| then x[k + 1] else c);
      RunStops(IsDigit, x, c, y, k + 1);
    }
  }

  lemma UnsignedEndStops(x: string, c: char, y: string, a: nat)
    requires IsSeparator(c) && a <= |x|
    ensures UnsignedEnd(x + [c] + y, a) == UnsignedEnd(x, a)
  {
    RunStops(IsDigit, x, c, y, a);
    var b := a + Run(IsDigit, x, a);
    FractionEndStops(x, c, y, b);
    ExponentEndStops(x, c, y, FractionEnd(x, b));
  }

  lemma NumberEndStops(x: string, c: char, y: string, i: nat)
    requires IsSeparator(c) && i <= |x|
    ensures NumberEnd(x + [c] + y, i) == NumberEnd(x, i)
  {
    var s := x + [c] + y;
    if i < |x| {
      assert s[i] == x[i];
    } else {
      assert s[i] == c;
    }
    if i + 1 <= |x| {
      assert s[i + 1] == (if i + 1 < |x| then x[i + 1] else c);
    }
    var a := DigitsStart(x, i);
    assert DigitsStart(s, i) == a;
    if a < |x| {
      assert s[a] == x[a];
      UnsignedEndStops(x, c, y, a);
    } else {
      assert s[a] == c;
    }
  }

  /** A match that starts before a separator ends before it. */
  lemma MatchEndStops(x: string, c: char, y: string, i: nat)
    requires IsSeparator(c) && i < |x|
    ensures MatchEnd(x + [c] + y, i) == MatchEnd(x, i)
  {
    var s := x + [c] + y;
    NumberEndStops(x, c, y, i);
    assert s[i] == x[i];
    RunStops(IsWordChar, x, c, y, i + 1);
  }

  /** A separator ends every match that starts before it, and no match starts at it. */
  lemma MatchEndStopsAtSeparators()
    ensures StopsAt(MatchEnd, IsSeparator)
  {
    forall x: string, c: char, y: string, i: nat | IsSeparator(c) && i <= |x|
      ensures MatchEnd(x + [c] + y, i) == MatchEnd(x, i)
    {
      if i < |x| {
        MatchEndStops(x, c, y, i);
      } else {
        NumberEndStops(x, c, y, i);
        assert (x + [c] + y)[i] == c;
      }
    }
  }

  /** White space and other characters no token contains only separate tokens. */
  lemma SeparatorSplits(x: string, c: char, y: string)
    requires IsSeparator(c)
    ensures Lex(x + [c] + y) == Lex(x) + Lex(y)
  {
    MatchEndLooksAhead();
    MatchEndStopsAtSeparators();
    MatchesSplit(MatchEnd, IsSeparator, x, c, y);
  }

  /**
   * A `-` is folded into the number that follows it exactly when a digit
   * follows it; otherwise it is a token of its own.
   */
  lemma MinusSign(s: string)
    requires s != [] && s[0] == '-'
    ensures Lex(s) != []
    ensures Lex(s)[0] == "-" <==> !(|s| >= 2 && IsDigit(s[1]))
    ensures |s| >= 2 && IsDigit(s[1]) ==> IsNumeral(Lex(s)[0]) && Lex(s)[0][..2] == s[..2]
  {
    MinusSignAt(s, 0);
    assert Lex(s)[0] == s[..MatchEnd(s, 0)];
  }

  /**
   * The same rule at any position: a `-` starts a numeral exactly when a
   * digit follows it, whatever comes before it, so `5-3` carries no
   * subtraction and `5+-10` a negative operand.
   */
  lemma MinusSignAt(s: string, i: nat)
    requires i < |s| && s[i] == '-'
    ensures MatchEnd(s, i) == i + 1 <==> !(i + 1 < |s| && IsDigit(s[i + 1]))
    ensures i + 1 < |s| && IsDigit(s[i + 1]) ==> i + 2 <= MatchEnd(s, i) && IsNumeral(s[i..MatchEnd(s, i)])
    ensures !(i + 1 < |s| && IsDigit(s[i + 1])) ==> s[i..MatchEnd(s, i)] == "-"
  {
    if i + 1 < |s| && IsDigit(s[i + 1]) {
      NumberShape(s, i);
    } else {
      assert NumberEnd(s, i) == i;
    }
  }

  /** `5-3` is the number 5 followed by the number -3. */
  lemma MinusBetweenNumbers()
    ensures Lex("5-3") == ["5", "-3"]
  {
    var s := "5-3";
    assert MatchEnd(s, 0) == 1;
    assert MatchEnd(s, 1) == 3;
    assert s[0..1] == "5" && s[1..3] == "-3";
  }

  /** `5+-10` is 5, the operator `+` and the number -10. */
  lemma MinusAfterOperator()
    ensures Lex("5+-10") == ["5", "+", "-10"]
  {
    var s := "5+-10";
    assert MatchEnd(s, 0) == 1;
    assert MatchEnd(s, 1) == 2;
    assert MatchEnd(s, 2) == 5;
    assert s[0..1] == "5" && s[1..2] == "+" && s[2..5] == "-10";
  }
}
