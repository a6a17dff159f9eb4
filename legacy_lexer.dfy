/**
 * The tokenizer of the root calculator.js.
 *
 * The source runs the global regular expression
 *   \s*( [+\-÷√×²%()^] | \d+\.?\d* | \.\d+ | [a-zA-Z_]\w*\(\d+\.?\d*\) | \(\.\d+\) )\s*
 * repeatedly and keeps the captured group of every match. Each search
 * starts where the previous match ended, white space included, and a
 * position where the pattern does not match is passed over. The first
 * alternative that matches at a position is computed by hand (`GroupEnd`).
 * The last alternative is never tried: its `(` is matched by the first.
 */
module LegacyLexer {
  import opened Text
  import opened Scanner

  /** `\s` of a JavaScript regular expression. */
  predicate IsSpace(c: char)
  {
    c == ' ' || c == '\t' || c == '\n' || c == '\U{000B}' || c == '\U{000C}' || c == '\r' ||
    c == '\U{00A0}' || c == '\U{1680}' || ('\U{2000}' <= c <= '\U{200A}') || c == '\U{2028}' ||
    c == '\U{2029}' || c == '\U{202F}' || c == '\U{205F}' || c == '\U{3000}' || c == '\U{FEFF}'
  }

  /** `[\+\-÷√×²%()^]` */
  predicate IsLegacySymbol(c: char)
  {
    c in "+-÷√×²%()^"
  }

  /** End of `\d+\.?\d*` read from position k, where a digit stands. */
  function DecimalEnd(s: string, k: nat): (e: nat)
    requires k <= |s|
    ensures k <= e <= |s|
  {
    var a := k + Run(IsDigit, s, k);
    if a < |s| && s[a] == '.' then a + 1 + Run(IsDigit, s, a + 1) else a
  }

  /** End of `[a-zA-Z_]\w*\(\d+\.?\d*\)` at position k, where an identifier starts; k if it does not match. */
  function CallEnd(s: string, k: nat): (e: nat)
    requires k < |s|
    ensures e == k || k < e <= |s|
  {
    var a := k + 1 + Run(IsWordChar, s, k + 1);
    if a + 1 < |s| && s[a] == '(' && IsDigit(s[a + 1]) then
      var b := DecimalEnd(s, a + 1);
      if b < |s| && s[b] == ')' then b + 1 else k
    else k
  }

  /** End of the captured group at position k, trying the alternatives in order; k if none matches. */
  function GroupEnd(s: string, k: nat): (e: nat)
    ensures k <= e && (k <= |s| ==> e <= |s|)
  {
    if k >= |s| then k
    else if IsLegacySymbol(s[k]) then k + 1
    else if IsDigit(s[k]) then DecimalEnd(s, k)
    else if s[k] == '.' && k + 1 < |s| && IsDigit(s[k + 1]) then k + 1 + Run(IsDigit, s, k + 1)
    else if IsIdentStart(s[k]) then CallEnd(s, k)
    else k
  }

  /**
   * One `exec` from position i: after white space, the first alternative
   * that matches gives the token, and the search after it starts past the
   * trailing white space; where nothing matches, the search moves on by
   * one position.
   */
  function SearchAt(s: string, i: nat): (r: Search)
    requires i < |s|
    ensures i < r.next <= |s|
  {
    Padded(IsSpace, GroupEnd, s, i)
  }

  /** Every search from a position before the end runs and moves forward. */
  lemma SearchAdvances(s: string)
    ensures Advances(SearchAt, s)
  {
  }

  /** What `tokenize` returns for s. */
  function Lex(s: string): seq<string>
  {
    SearchAdvances(s);
    Captures(SearchAt, s, 0)
  }

  /** The `exec` loop of `tokenize`. */
  method Tokenize(e: string) returns (tokens: seq<string>)
    ensures tokens == Lex(e)
  {
    SearchAdvances(e);
    tokens := ScanCaptures(SearchAt, e);
  }

  // ---------------------------------------------------------------------
  // The kinds of token, written as the grammar of each alternative.
  // ---------------------------------------------------------------------

  /** Digits, then optionally a `.` and more digits: the part of `\d+\.?\d*` after its first digit. */
  predicate DecimalTail(u: string)
    decreases |u|
  {
    u == [] || (IsDigit(u[0]) && DecimalTail(u[1..])) ||
    (u[0] == '.' && forall k :: 1 <= k < |u| ==> IsDigit(u[k]))
  }

  /** `\d+\.?\d*` */
  predicate IsDecimal(t: string)
  {
    |t| > 0 && IsDigit(t[0]) && DecimalTail(t[1..])
  }

  /** The part of `[a-zA-Z_]\w*\(\d+\.?\d*\)` after its first character. */
  predicate CallTail(u: string)
    decreases |u|
  {
    |u| > 0 &&
    ((IsWordChar(u[0]) && CallTail(u[1..])) ||
     (u[0] == '(' && |u| >= 3 && u[|u| - 1] == ')' && IsDecimal(u[1..|u| - 1])))
  }

  /** `[a-zA-Z_]\w*\(\d+\.?\d*\)` */
  predicate IsCall(t: string)
  {
    |t| > 0 && IsIdentStart(t[0]) && CallTail(t[1..])
  }

  /** One of the kinds of token the regular expression can capture. */
  predicate IsLegacyToken(t: string)
  {
    (|t| == 1 && IsLegacySymbol(t[0])) || IsDecimal(t) ||
    (|t| >= 2 && t[0] == '.' && AllDigits(t[1..])) || IsCall(t)
  }

  // ---------------------------------------------------------------------
  // Lemmas
  // ---------------------------------------------------------------------

  /** The characters of s from j up to a run's end are of its class. */
  lemma RunSlice(inClass: char -> bool, s: string, i: nat, j: nat)
    requires i <= j <= |s| && j <= i + Run(inClass, s, i)
    ensures forall k :: 0 <= k < |s[i..j]| ==> inClass(s[i..j][k])
  {
    RunSpec(inClass, s, i);
    assert forall k :: 0 <= k < |s[i..j]| ==> s[i..j][k] == s[i + k];
  }

  /** Digits from j up to the end of a decimal's integer digits, then its fraction, make a `DecimalTail`. */
  lemma {:induction false} DecimalTailFrom(s: string, k: nat, j: nat)
    requires k <= |s| && k <= j <= k + Run(IsDigit, s, k)
    ensures DecimalTail(s[j..DecimalEnd(s, k)])
    decreases k + Run(IsDigit, s, k) - j
  {
    var a := k + Run(IsDigit, s, k);
    var e := DecimalEnd(s, k);
    var u := s[j..e];
    RunSpec(IsDigit, s, k);
    if j < a {
      DecimalTailFrom(s, k, j + 1);
      assert u[0] == s[j] && u[1..] == s[j + 1..e];
    } else if e > a {
      RunSpec(IsDigit, s, a + 1);
      assert u[0] == '.';
      assert forall m :: 1 <= m < |u| ==> u[m] == s[a + m];
    } else {
      assert u == [];
    }
  }

  /** Whatever `\d+\.?\d*` matches at a digit is a decimal. */
  lemma DecimalShape(s: string, k: nat)
    requires k < |s| && IsDigit(s[k])
    ensures k < DecimalEnd(s, k) && IsDecimal(s[k..DecimalEnd(s, k)])
  {
    var t := s[k..DecimalEnd(s, k)];
    DecimalTailFrom(s, k, k + 1);
    assert t[1..] == s[k + 1..DecimalEnd(s, k)];
  }

  /** The `(number)` that ends a call match. */
  lemma CallArgShape(s: string, k: nat, a: nat, e: nat)
    requires k < |s| && e == CallEnd(s, k) > k && a == k + 1 + Run(IsWordChar, s, k + 1)
    ensures a + 2 < e && s[a] == '(' && s[e - 1] == ')' && IsDecimal(s[a + 1..e - 1])
  {
    DecimalShape(s, a + 1);
  }

  /** From position j inside the name up to the `(`, what a call match holds is a `CallTail`. */
  lemma {:induction false} CallTailFrom(s: string, k: nat, a: nat, e: nat, j: nat)
    requires k < |s| && e == CallEnd(s, k) > k && a == k + 1 + Run(IsWordChar, s, k + 1)
    requires k + 1 <= j <= a
    ensures CallTail(s[j..e])
    decreases a - j
  {
    var u := s[j..e];
    CallArgShape(s, k, a, e);
    if j < a {
      RunSpec(IsWordChar, s, k + 1);
      CallTailFrom(s, k, a, e, j + 1);
      assert u[0] == s[j] && u[1..] == s[j + 1..e];
    } else {
      assert j == a && |u| == e - a;
      assert u[0] == s[a] && u[|u| - 1] == s[e - 1];
      assert u[1..|u| - 1] == s[a + 1..e - 1];
    }
  }

  /** Every captured group has the shape of one of the alternatives. */
  lemma GroupShape(s: string, k: nat)
    requires k < |s| && GroupEnd(s, k) > k
    ensures IsLegacyToken(s[k..GroupEnd(s, k)])
  {
    var t := s[k..GroupEnd(s, k)];
    if IsLegacySymbol(s[k]) {
    } else if IsDigit(s[k]) {
      DecimalShape(s, k);
    } else if s[k] == '.' && k + 1 < |s| && IsDigit(s[k + 1]) {
      RunSlice(IsDigit, s, k + 1, GroupEnd(s, k));
      assert t[1..] == s[k + 1..GroupEnd(s, k)];
    } else {
      CallTailFrom(s, k, k + 1 + Run(IsWordChar, s, k + 1), GroupEnd(s, k), k + 1);
      assert t[1..] == s[k + 1..GroupEnd(s, k)];
    }
  }

  /** A search that finds a token finds the group at the end of the white space. */
  lemma SearchFinds(s: string, i: nat)
    requires i < |s| && SearchAt(s, i).Found?
    ensures i + Run(IsSpace, s, i) < |s| && GroupEnd(s, i + Run(IsSpace, s, i)) > i + Run(IsSpace, s, i)
    ensures SearchAt(s, i).token == s[i + Run(IsSpace, s, i)..GroupEnd(s, i + Run(IsSpace, s, i))]
  {
  }

  lemma {:induction false} ScanHasShape(s: string, i: nat)
    requires i <= |s|
    ensures forall t :: t in Captures(SearchAt, s, i) ==> IsLegacyToken(t)
    decreases |s| - i
  {
    if i < |s| {
      match SearchAt(s, i)
      case Found(t, n) =>
        SearchFinds(s, i);
        GroupShape(s, i + Run(IsSpace, s, i));
        ScanHasShape(s, n);
        assert Captures(SearchAt, s, i) == [t] + Captures(SearchAt, s, n);
      case Passed(n) =>
        ScanHasShape(s, n);
    }
  }

  /**
   * Every token `tokenize` returns is a symbol, a decimal, a fraction or a
   * call; in particular none is `*` or `/`, which the pattern lacks.
   */
  lemma LegacyTokensHaveShape(s: string)
    ensures forall t :: t in Lex(s) ==> IsLegacyToken(t) && t != "*" && t != "/"
  {
    ScanHasShape(s, 0);
    forall t | t in Lex(s)
      ensures t != "*" && t != "/"
    {
      assert IsLegacyToken(t);
    }
  }

  lemma {:induction false} ScanInOrder(s: string, i: nat)
    requires i <= |s|
    ensures InOrderFrom(Captures(SearchAt, s, i), s, i)
    decreases |s| - i
  {
    if i < |s| {
      var r := SearchAt(s, i);
      ScanInOrder(s, r.next);
      if r.Found? {
        PaddedInOrder(IsSpace, GroupEnd, s, i, Captures(SearchAt, s, r.next));
      } else {
        InOrderEarlier(Captures(SearchAt, s, i), s, i, r.next);
      }
    }
  }

  /** The tokens are pieces of the input, in the input's order: white space around them is not kept. */
  lemma LegacyTokensInOrder(s: string)
    ensures InOrderFrom(Lex(s), s, 0)
  {
    ScanInOrder(s, 0);
  }

  // ---------------------------------------------------------------------
  // Separators: characters at which the scan splits the text.
  // ---------------------------------------------------------------------

  /**
   * White space, or a character that no alternative of the pattern can
   * contain: neither a word character (digits included), nor `.`, nor one
   * of the symbols. `*`, `/`, `,` and `=` are such characters.
   */
  predicate IsLegacySeparator(c: char)
  {
    IsSpace(c) || (!IsWordChar(c) && c != '.' && !IsLegacySymbol(c))
  }

  /** A separator is none of the characters a token is made of. */
  lemma SeparatorClass(c: char)
    requires IsLegacySeparator(c)
    ensures !IsWordChar(c) && !IsDigit(c) && !IsIdentStart(c) && c != '.' && !IsLegacySymbol(c)
  {
  }

  /** `\d+\.?\d*` only looks forward. */
  lemma DecimalEndShift(p: string, s: string, k: nat)
    requires k <= |s|
    ensures DecimalEnd(p + s, |p| + k) == |p| + DecimalEnd(s, k)
  {
    RunShift(IsDigit, p, s, k);
    var a := k + Run(IsDigit, s, k);
    if a < |s| {
      assert (p + s)[|p| + a] == s[a];
      RunShift(IsDigit, p, s, a + 1);
    }
  }

  /** A call match only looks forward. */
  lemma CallEndShift(p: string, s: string, k: nat)
    requires k < |s|
    ensures CallEnd(p + s, |p| + k) == |p| + CallEnd(s, k)
  {
    RunShift(IsWordChar, p, s, k + 1);
    var a := k + 1 + Run(IsWordChar, s, k + 1);
    if a + 1 < |s| {
      assert (p + s)[|p| + a] == s[a] && (p + s)[|p| + a + 1] == s[a + 1];
      if s[a] == '(' && IsDigit(s[a + 1]) {
        DecimalEndShift(p, s, a + 1);
        var b := DecimalEnd(s, a + 1);
        if b < |s| {
          assert (p + s)[|p| + b] == s[b];
        }
      }
    }
  }

  /** The group found at position k of s is found at |p| + k of p + s. */
  lemma GroupEndShift(p: string, s: string, k: nat)
    requires k <= |s|
    ensures GroupEnd(p + s, |p| + k) == |p| + GroupEnd(s, k)
  {
    if k < |s| {
      assert (p + s)[|p| + k] == s[k];
      if k + 1 < |s| {
        assert (p + s)[|p| + k + 1] == s[k + 1];
      }
      if IsDigit(s[k]) {
        DecimalEndShift(p, s, k);
      } else if s[k] == '.' && k + 1 < |s| && IsDigit(s[k + 1]) {
        RunShift(IsDigit, p, s, k + 1);
      } else if IsIdentStart(s[k]) {
        CallEndShift(p, s, k);
      }
    }
  }

  /** The group found at a position does not depend on the text before it. */
  lemma GroupEndLooksAhead()
    ensures LooksAhead(GroupEnd)
  {
    forall p: string, s: string, i: nat
      ensures GroupEnd(p + s, |p| + i) == |p| + GroupEnd(s, i)
    {
      if i <= |s| {
        GroupEndShift(p, s, i);
      }
    }
  }

  /** One search does not depend on the text before its start. */
  lemma SearchShift(p: string, s: string, j: nat)
    requires j < |s|
    ensures SearchAt(p + s, |p| + j) == Moved(SearchAt(s, j), |p|)
  {
    GroupEndLooksAhead();
    PaddedShift(IsSpace, GroupEnd, p, s, j);
  }

  /** The searches of p + s from within s are those of s, moved by |p|. */
  lemma SearchShiftsOver(p: string, s: string)
    ensures ShiftsOver(SearchAt, p, s)
  {
    forall j | 0 <= j < |s| {
      SearchShift(p, s, j);
    }
  }

  /** `\d+\.?\d*` stops at a character that is neither a digit nor `.`. */
  lemma DecimalEndStops(x: string, c: char, y: string, k: nat)
    requires !IsDigit(c) && c != '.' && k <= |x|
    ensures DecimalEnd(x + [c] + y, k) == DecimalEnd(x, k)
  {
    var s := x + [c] + y;
    RunStops(IsDigit, x, c, y, k);
    var a := k + Run(IsDigit, x, k);
    assert s[a] == if a < |x| then x[a] else c;
    if a < |x| && x[a] == '.' {
      RunStops(IsDigit, x, c, y, a + 1);
    }
  }

  /** A call match stops at a separator. */
  lemma CallEndStops(x: string, c: char, y: string, k: nat)
    requires IsLegacySeparator(c) && k < |x|
    ensures CallEnd(x + [c] + y, k) == CallEnd(x, k)
  {
    var s := x + [c] + y;
    SeparatorClass(c);
    RunStops(IsWordChar, x, c, y, k + 1);
    var a := k + 1 + Run(IsWordChar, x, k + 1);
    assert s[a] == if a < |x| then x[a] else c;
    if a < |x| {
      assert s[a + 1] == if a + 1 < |x| then x[a + 1] else c;
      if a + 1 < |x| && x[a] == '(' && IsDigit(x[a + 1]) {
        DecimalEndStops(x, c, y, a + 1);
        var b := DecimalEnd(x, a + 1);
        assert s[b] == if b < |x| then x[b] else c;
      }
    }
  }

  /** No alternative reaches past the separator c, and none starts at it. */
  lemma GroupEndStops(x: string, c: char, y: string, k: nat)
    requires IsLegacySeparator(c) && k <= |x|
    ensures GroupEnd(x + [c] + y, k) == GroupEnd(x, k)
  {
    var s := x + [c] + y;
    SeparatorClass(c);
    assert s[k] == if k < |x| then x[k] else c;
    if k < |x| {
      assert s[k + 1] == if k + 1 < |x| then x[k + 1] else c;
      if IsDigit(x[k]) {
        DecimalEndStops(x, c, y, k);
      } else if x[k] == '.' && k + 1 < |x| && IsDigit(x[k + 1]) {
        RunStops(IsDigit, x, c, y, k + 1);
      } else if IsIdentStart(x[k]) {
        CallEndStops(x, c, y, k);
      }
    }
  }

  /** A search from white space finds what the search after it finds. */
  lemma SpaceTransparent(s: string, m: nat)
    requires m < |s| && IsSpace(s[m])
    ensures Transparent(SearchAt, s, m)
  {
    if m + 1 < |s| {
      assert m + Run(IsSpace, s, m) == m + 1 + Run(IsSpace, s, m + 1);
    }
  }

  /** At the separator itself the scan captures nothing new. */
  lemma SeparatorTransparent(x: string, c: char, y: string)
    requires IsLegacySeparator(c)
    ensures Transparent(SearchAt, x + [c] + y, |x|)
  {
    var s := x + [c] + y;
    assert s[|x|] == c;
    if IsSpace(c) {
      SpaceTransparent(s, |x|);
    } else {
      GroupEndStops(x, c, y, |x|);
    }
  }

  /** No group reaches past a separator, and none starts at one. */
  lemma GroupEndStopsAtSeparators()
    ensures StopsAt(GroupEnd, IsLegacySeparator)
  {
    forall x: string, c: char, y: string, i: nat | IsLegacySeparator(c) && i <= |x|
      ensures GroupEnd(x + [c] + y, i) == GroupEnd(x, i)
    {
      GroupEndStops(x, c, y, i);
    }
  }

  /** Every position of x agrees between the searches of x and those of `x c y`. */
  lemma SearchAgrees(x: string, c: char, y: string, m: nat)
    requires IsLegacySeparator(c) && m < |x|
    ensures Agrees(SearchAt, x, x + [c] + y, m)
  {
    var s := x + [c] + y;
    assert s[m] == x[m];
    if IsSpace(x[m]) {
      SpaceTransparent(x, m);
      SpaceTransparent(s, m);
    } else {
      GroupEndStopsAtSeparators();
      PaddedStops(IsSpace, GroupEnd, IsLegacySeparator, x, c, y, m);
      forall q | SearchAt(x, m).next <= q < SearchAt(s, m).next
        ensures Transparent(SearchAt, s, q)
      {
        SpaceTransparent(s, q);
      }
    }
  }

  /**
   * A separator splits the text: the tokens of `x c y` are the tokens of x
   * followed by those of y. In particular a character that matches nothing
   * is passed over and the scan goes on after it.
   */
  lemma LegacySeparatorSplits(x: string, c: char, y: string)
    requires IsLegacySeparator(c)
    ensures Lex(x + [c] + y) == Lex(x) + Lex(y)
  {
    var s := x + [c] + y;
    SearchAdvances(x);
    SearchAdvances(s);
    forall m | 0 <= m < |x|
      ensures Agrees(SearchAt, x, s, m)
    {
      SearchAgrees(x, c, y, m);
    }
    SeparatorTransparent(x, c, y);
    CapturesSplitFrom(SearchAt, x, s, 0);
    SearchShiftsOver(x + [c], y);
    CapturesShift(SearchAt, x + [c], y, 0);
  }
}
