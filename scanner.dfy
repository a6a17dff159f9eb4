/**
 * The search loop both tokenizers run: a global regular expression is
 * executed again and again, each search starting where the previous match
 * ended, and every match is kept. The regular expressions themselves are
 * given as matchers.
 */
module Scanner {
  import opened Text

  /**
   * A matcher gives the end of the match that a regular expression finds
   * at position i of s, or i itself when it does not match there.
   */
  type Matcher = (string, nat) -> nat

  /**
   * The matches m finds in s from position i on, left to right; positions
   * where nothing matches are passed over, as the search of `exec` does.
   */
  function Matches(m: Matcher, s: string, i: nat): seq<string>
    requires i <= |s|
    decreases |s| - i
  {
    if i == |s| then []
    else
      var e := m(s, i);
      if i < e <= |s| then [s[i..e]] + Matches(m, s, e) else Matches(m, s, i + 1)
  }

  /** The `while ((match = regex.exec(text)) !== null) tokens.push(...)` loop. */
  method Scan(m: Matcher, s: string) returns (tokens: seq<string>)
    ensures tokens == Matches(m, s, 0)
  {
    tokens := [];
    var i := 0;
    while i < |s|
      invariant 0 <= i <= |s|
      invariant tokens + Matches(m, s, i) == Matches(m, s, 0)
    {
      var e := m(s, i);
      if i < e <= |s| {
        var token := s[i..e];
        assert tokens + Matches(m, s, i) == (tokens + [token]) + Matches(m, s, e);
        tokens := tokens + [token];
        i := e;
      } else {
        i := i + 1;
      }
    }
  }

  // ---------------------------------------------------------------------
  // Properties of matchers, and what they give for the list of matches.
  // ---------------------------------------------------------------------

  /** Every match m finds satisfies `shape`. */
  ghost predicate Shaped(m: Matcher, shape: string -> bool)
  {
    forall s: string, i: nat :: i < m(s, i) <= |s| ==> shape(s[i..m(s, i)])
  }

  /** Matches end within the text. */
  ghost predicate Within(m: Matcher)
  {
    forall s: string, i: nat :: i <= |s| ==> m(s, i) <= |s|
  }

  /** m only looks forward: text before a position does not change the match there. */
  ghost predicate LooksAhead(m: Matcher)
  {
    forall p: string, s: string, i: nat {:trigger m(s, i), p + s} :: m(p + s, |p| + i) == |p| + m(s, i)
  }

  /** A character of class `sep` ends every match that starts before it, and no match starts at it. */
  ghost predicate StopsAt(m: Matcher, sep: char -> bool)
  {
    forall x: string, c: char, y: string, i: nat {:trigger m(x + [c] + y, i)} ::
      sep(c) && i <= |x| ==> m(x + [c] + y, i) == m(x, i)
  }

  /** The tokens occur in s from position i on, in their order, one after another, without overlapping. */
  predicate InOrderFrom(ts: seq<string>, s: string, i: nat)
    requires i <= |s|
    decreases |ts| + |s| - i
  {
    ts == [] ||
    (i + |ts[0]| <= |s| && s[i..i + |ts[0]|] == ts[0] && InOrderFrom(ts[1..], s, i + |ts[0]|)) ||
    (i < |s| && InOrderFrom(ts, s, i + 1))
  }

  /** Tokens found from a later position are also found, in order, from an earlier one. */
  lemma {:induction false} InOrderEarlier(ts: seq<string>, s: string, i: nat, j: nat)
    requires i <= j <= |s| && InOrderFrom(ts, s, j)
    ensures InOrderFrom(ts, s, i)
    decreases j - i
  {
    if i < j {
      InOrderEarlier(ts, s, i + 1, j);
    }
  }

  lemma {:induction false} MatchesHaveShape(m: Matcher, shape: string -> bool, s: string, i: nat)
    requires Shaped(m, shape) && i <= |s|
    ensures forall t :: t in Matches(m, s, i) ==> shape(t)
    decreases |s| - i
  {
    if i < |s| {
      var e := m(s, i);
      if i < e <= |s| {
        MatchesHaveShape(m, shape, s, e);
      } else {
        MatchesHaveShape(m, shape, s, i + 1);
      }
    }
  }

  lemma {:induction false} MatchesInOrder(m: Matcher, s: string, i: nat)
    requires i <= |s|
    ensures InOrderFrom(Matches(m, s, i), s, i)
    decreases |s| - i
  {
    if i < |s| {
      var e := m(s, i);
      if i < e <= |s| {
        MatchesInOrder(m, s, e);
        assert Matches(m, s, i)[0] == s[i..e] && Matches(m, s, i)[1..] == Matches(m, s, e);
      } else {
        MatchesInOrder(m, s, i + 1);
      }
    }
  }

  lemma {:induction false} MatchesShift(m: Matcher, p: string, s: string, i: nat)
    requires LooksAhead(m) && i <= |s|
    ensures Matches(m, p + s, |p| + i) == Matches(m, s, i)
    decreases |s| - i
  {
    if i < |s| {
      var e := m(s, i);
      assert m(p + s, |p| + i) == |p| + e;
      if i < e <= |s| {
        assert (p + s)[|p| + i..|p| + e] == s[i..e];
        MatchesShift(m, p, s, e);
      } else {
        MatchesShift(m, p, s, i + 1);
      }
    }
  }

  lemma {:induction false} MatchesSplitFrom(m: Matcher, sep: char -> bool, x: string, c: char, y: string, i: nat)
    requires Within(m) && LooksAhead(m) && StopsAt(m, sep) && sep(c) && i <= |x|
    ensures Matches(m, x + [c] + y, i) == Matches(m, x, i) + Matches(m, y, 0)
    decreases |x| - i
  {
    var s := x + [c] + y;
    assert m(s, i) == m(x, i);
    if i == |x| {
      assert m(x, i) <= |x|;
      assert s == (x + [c]) + y;
      MatchesShift(m, x + [c], y, 0);
    } else {
      var e := m(x, i);
      if i < e <= |x| {
        assert s[i..e] == x[i..e];
        MatchesSplitFrom(m, sep, x, c, y, e);
      } else {
        MatchesSplitFrom(m, sep, x, c, y, i + 1);
      }
    }
  }

  /** A separator only separates: the matches of x, c, y are those of x followed by those of y. */
  lemma MatchesSplit(m: Matcher, sep: char -> bool, x: string, c: char, y: string)
    requires Within(m) && LooksAhead(m) && StopsAt(m, sep) && sep(c)
    ensures Matches(m, x + [c] + y, 0) == Matches(m, x, 0) + Matches(m, y, 0)
  {
    MatchesSplitFrom(m, sep, x, c, y, 0);
  }

  // ---------------------------------------------------------------------
  // Searches that keep a captured group: `match[1]` rather than the whole
  // match. A search may pass over white space before and after the group.
  // ---------------------------------------------------------------------

  /** The outcome of one search: the captured group and where the next search starts, or only where it starts. */
  datatype Search = Found(token: string, next: nat) | Passed(next: nat)

  /** One `exec` of a regular expression with a capture group, from a position of a text. */
  type Searcher = (string, nat) --> Search

  /** The searches of s can run from every position before its end, and each moves forward within s. */
  ghost predicate Advances(f: Searcher, s: string)
  {
    forall i :: 0 <= i < |s| ==> f.requires(s, i) && i < f(s, i).next <= |s|
  }

  /** The groups the searches capture in s from position i on, as `tokens.push(match[1])` collects them. */
  function Captures(f: Searcher, s: string, i: nat): seq<string>
    requires Advances(f, s) && i <= |s|
    decreases |s| - i
  {
    if i == |s| then []
    else
      match f(s, i)
      case Found(t, n) => [t] + Captures(f, s, n)
      case Passed(n) => Captures(f, s, n)
  }

  /** The `while ((match = regex.exec(e)) !== null) tokens.push(match[1])` loop. */
  method ScanCaptures(f: Searcher, s: string) returns (tokens: seq<string>)
    requires Advances(f, s)
    ensures tokens == Captures(f, s, 0)
  {
    tokens := [];
    var i := 0;
    while i < |s|
      invariant i <= |s|
      invariant tokens + Captures(f, s, i) == Captures(f, s, 0)
      decreases |s| - i
    {
      match f(s, i)
      case Found(t, n) =>
        assert tokens + Captures(f, s, i) == (tokens + [t]) + Captures(f, s, n);
        tokens := tokens + [t];
        i := n;
      case Passed(n) =>
        i := n;
    }
  }

  /** A search moved d positions to the right. */
  function Moved(r: Search, d: nat): (q: Search)
    ensures q.Found? == r.Found? && q.next == r.next + d
    ensures r.Found? ==> q.token == r.token
  {
    match r
    case Found(t, n) => Found(t, n + d)
    case Passed(n) => Passed(n + d)
  }

  /**
   * One search of `pad*(group)pad*`, where m matches the group: after the
   * leading padding, a group that matches is captured and the next search
   * starts past the padding after it; where no group matches, the search
   * moves on by one position.
   */
  function Padded(pad: char -> bool, m: Matcher, s: string, i: nat): (r: Search)
    requires i < |s|
    ensures i < r.next <= |s|
  {
    var k := i + Run(pad, s, i);
    var g := m(s, k);
    if k < g <= |s| then Found(s[k..g], g + Run(pad, s, g)) else Passed(i + 1)
  }

  /** A padded search does not depend on the text before its start when its group matcher does not. */
  lemma PaddedShift(pad: char -> bool, m: Matcher, p: string, s: string, j: nat)
    requires LooksAhead(m) && j < |s|
    ensures Padded(pad, m, p + s, |p| + j) == Moved(Padded(pad, m, s, j), |p|)
  {
    RunShift(pad, p, s, j);
    var k := j + Run(pad, s, j);
    assert m(p + s, |p| + k) == |p| + m(s, k);
    var g := m(s, k);
    if k < g <= |s| {
      assert (p + s)[|p| + k..|p| + g] == s[k..g];
      RunShift(pad, p, s, g);
    }
  }

  /**
   * A padded search from a position k of x that is not padding captures
   * the same group in `x c y` as in x, when the group matcher stops at c;
   * in `x c y` the next search may start later, past more padding only.
   */
  lemma PaddedStops(pad: char -> bool, m: Matcher, sep: char -> bool, x: string, c: char, y: string, k: nat)
    requires Within(m) && StopsAt(m, sep) && sep(c) && k < |x| && !pad(x[k])
    ensures Padded(pad, m, x, k).Found? == Padded(pad, m, x + [c] + y, k).Found?
    ensures Padded(pad, m, x, k).Found? ==> Padded(pad, m, x, k).token == Padded(pad, m, x + [c] + y, k).token
    ensures Padded(pad, m, x, k).next <= Padded(pad, m, x + [c] + y, k).next
    ensures forall q :: Padded(pad, m, x, k).next <= q < Padded(pad, m, x + [c] + y, k).next ==> pad((x + [c] + y)[q])
  {
    var s := x + [c] + y;
    assert s[k] == x[k];
    assert m(s, k) == m(x, k);
    var g := m(x, k);
    assert g <= |x|;
    if k < g {
      assert s[k..g] == x[k..g];
      assert s == x + ([c] + y);
      RunGrows(pad, x, [c] + y, g);
    }
  }

  /** A captured group lies between the search's start and the start of the next search. */
  lemma PaddedInOrder(pad: char -> bool, m: Matcher, s: string, i: nat, ts: seq<string>)
    requires i < |s| && Padded(pad, m, s, i).Found? && InOrderFrom(ts, s, Padded(pad, m, s, i).next)
    ensures InOrderFrom([Padded(pad, m, s, i).token] + ts, s, i)
  {
    var k := i + Run(pad, s, i);
    var g := m(s, k);
    InOrderEarlier(ts, s, g, Padded(pad, m, s, i).next);
    var us := [Padded(pad, m, s, i).token] + ts;
    assert us[0] == s[k..g] && us[1..] == ts;
    InOrderEarlier(us, s, i, k);
  }

  /** A search from position m of s captures nothing new: it passes on by one, or finds what the search from m + 1 finds. */
  ghost predicate Transparent(f: Searcher, s: string, m: nat)
    requires Advances(f, s)
  {
    m < |s| && (f(s, m) == Passed(m + 1) || (m + 1 < |s| && f(s, m).Found? && f(s, m) == f(s, m + 1)))
  }

  /** The searches of p + s from within s are those of s, moved by |p|. */
  ghost predicate ShiftsOver(f: Searcher, p: string, s: string)
    requires Advances(f, s) && Advances(f, p + s)
  {
    forall j :: 0 <= j < |s| ==> f(p + s, |p| + j) == Moved(f(s, j), |p|)
  }

  /**
   * A search from position m of x captures the same group in `x c y` as
   * in x; in `x c y` it may start the next search later, but only past
   * positions that capture nothing new. A position from which x and
   * `x c y` both capture nothing new agrees as well.
   */
  ghost predicate Agrees(f: Searcher, x: string, s: string, m: nat)
    requires Advances(f, x) && Advances(f, s) && m < |x| <= |s|
  {
    (Transparent(f, x, m) && Transparent(f, s, m)) ||
    (f(x, m).Found? == f(s, m).Found? && (f(x, m).Found? ==> f(x, m).token == f(s, m).token) &&
     f(x, m).next <= f(s, m).next && forall q :: f(x, m).next <= q < f(s, m).next ==> Transparent(f, s, q))
  }

  lemma CapturesSkip(f: Searcher, s: string, m: nat)
    requires Advances(f, s) && Transparent(f, s, m)
    ensures Captures(f, s, m) == Captures(f, s, m + 1)
  {
  }

  /** The scan from anywhere in a stretch of positions that capture nothing new is the scan from its end. */
  lemma {:induction false} CapturesSkipRange(f: Searcher, s: string, i: nat, j: nat)
    requires Advances(f, s) && i <= j <= |s|
    requires forall m :: i <= m < j ==> Transparent(f, s, m)
    ensures Captures(f, s, i) == Captures(f, s, j)
    decreases j - i
  {
    if i < j {
      CapturesSkip(f, s, i);
      CapturesSkipRange(f, s, i + 1, j);
    }
  }

  /** Scanning a tail of p + s is the scan of that tail of s. */
  lemma {:induction false} CapturesShift(f: Searcher, p: string, s: string, j: nat)
    requires Advances(f, s) && Advances(f, p + s) && ShiftsOver(f, p, s) && j <= |s|
    ensures Captures(f, p + s, |p| + j) == Captures(f, s, j)
    decreases |s| - j
  {
    if j < |s| {
      assert f(p + s, |p| + j) == Moved(f(s, j), |p|);
      CapturesShift(f, p, s, f(s, j).next);
    }
  }

  /** Where every position of x agrees and position |x| of s captures nothing new, s's scan is x's and then the scan after |x|. */
  lemma {:induction false} CapturesSplitFrom(f: Searcher, x: string, s: string, i: nat)
    requires Advances(f, x) && Advances(f, s) && |x| < |s| && i <= |x|
    requires forall m :: i <= m < |x| ==> Agrees(f, x, s, m)
    requires Transparent(f, s, |x|)
    ensures Captures(f, s, i) == Captures(f, x, i) + Captures(f, s, |x| + 1)
    decreases |x| - i
  {
    if i == |x| {
      CapturesSkip(f, s, |x|);
    } else if Transparent(f, x, i) && Transparent(f, s, i) {
      CapturesSkip(f, x, i);
      CapturesSkip(f, s, i);
      CapturesSplitFrom(f, x, s, i + 1);
    } else {
      assert Agrees(f, x, s, i);
      CapturesSkipRange(f, s, f(x, i).next, f(s, i).next);
      CapturesSplitFrom(f, x, s, f(x, i).next);
    }
  }
}
