/** Character classes and scanning helpers shared by the tokenizers and the validator. */
module Text {

  /** `\d` in a JavaScript regular expression without the `u` flag. */
  predicate IsDigit(c: char) { '0' <= c <= '9' }

  /** `[a-zA-Z]` */
  predicate IsAsciiLetter(c: char) { ('a' <= c <= 'z') || ('A' <= c <= 'Z') }

  /** `[a-zA-Z_]` */
  predicate IsIdentStart(c: char) { IsAsciiLetter(c) || c == '_' }

  /** `\w` */
  predicate IsWordChar(c: char) { IsIdentStart(c) || IsDigit(c) }

  /** A non-empty string of digits, `\d+`. */
  predicate AllDigits(t: string)
  {
    |t| > 0 && forall k :: 0 <= k < |t| ==> IsDigit(t[k])
  }

  /** An identifier, `[a-zA-Z_]\w*`. */
  predicate IsIdentifier(t: string)
  {
    |t| > 0 && IsIdentStart(t[0]) && forall k :: 1 <= k < |t| ==> IsWordChar(t[k])
  }

  /**
   * The length of the longest run of characters of class `inClass` in s
   * from position i on, as a greedy `\d*` or `\w*` matches it.
   */
  function Run(inClass: char -> bool, s: string, i: nat): (n: nat)
    requires i <= |s|
    ensures i + n <= |s|
    decreases |s| - i
  {
    if i < |s| && inClass(s[i]) then 1 + Run(inClass, s, i + 1) else 0
  }

  /** A run holds only characters of its class and stops at the first other one. */
  lemma {:induction false} RunSpec(inClass: char -> bool, s: string, i: nat)
    requires i <= |s|
    ensures forall k :: i <= k < i + Run(inClass, s, i) ==> inClass(s[k])
    ensures i + Run(inClass, s, i) < |s| ==> !inClass(s[i + Run(inClass, s, i)])
    decreases |s| - i
  {
    if i < |s| && inClass(s[i]) {
      RunSpec(inClass, s, i + 1);
    }
  }

  /** A run that starts before a character outside its class ends there, whatever follows. */
  lemma {:induction false} RunStops(inClass: char -> bool, x: string, c: char, y: string, i: nat)
    requires !inClass(c) && i <= |x|
    ensures Run(inClass, x + [c] + y, i) == Run(inClass, x, i)
    decreases |x| - i
  {
    var s := x + [c] + y;
    if i < |x| {
      assert s[i] == x[i];
      if inClass(x[i]) {
        RunStops(inClass, x, c, y, i + 1);
      }
    } else {
      assert s[i] == c;
    }
  }

  /** Text after the end of s does not shorten a run, and what it adds is of the run's class. */
  lemma {:induction false} RunGrows(inClass: char -> bool, s: string, z: string, i: nat)
    requires i <= |s|
    ensures Run(inClass, s, i) <= Run(inClass, s + z, i)
    ensures forall k :: i + Run(inClass, s, i) <= k < i + Run(inClass, s + z, i) ==> inClass((s + z)[k])
    decreases |s| - i
  {
    RunSpec(inClass, s + z, i);
    if i < |s| {
      assert (s + z)[i] == s[i];
      if inClass(s[i]) {
        RunGrows(inClass, s, z, i + 1);
      }
    }
  }

  /** A run only looks forward: text before the start does not matter. */
  lemma {:induction false} RunShift(inClass: char -> bool, p: string, s: string, i: nat)
    requires i <= |s|
    ensures Run(inClass, p + s, |p| + i) == Run(inClass, s, i)
    decreases |s| - i
  {
    if i < |s| {
      assert (p + s)[|p| + i] == s[i];
      RunShift(inClass, p, s, i + 1);
    }
  }

  /** How many elements of s equal x. */
  function Count<T(==)>(s: seq<T>, x: T): nat
  {
    if s == [] then 0 else (if s[0] == x then 1 else 0) + Count(s[1..], x)
  }

  lemma {:induction false} CountConcat<T>(a: seq<T>, b: seq<T>, x: T)
    ensures Count(a + b, x) == Count(a, x) + Count(b, x)
  {
    if a == [] {
      assert a + b == b;
    } else {
      assert (a + b)[1..] == a[1..] + b;
      CountConcat(a[1..], b, x);
    }
  }

  lemma CountAbsent<T>(s: seq<T>, x: T)
    requires x !in s
    ensures Count(s, x) == 0
  {
  }
}
