/**
 * The editing state of the `Calculator` class of static/main.js, without
 * its page elements: the text being edited (`expression`), the last
 * value computed (`result`), the number of entries written to the
 * history (`id`) and whether the last action was `=` (`lastClick`).
 *
 * Each operation is a method on the class that updates those fields in
 * place and a function on a snapshot of them that states the new state,
 * so that lemmas can relate several steps.
 */
module UiState {
  import opened Numbers
  import opened Errors
  import opened Text
  import StaticCalculator

  // ---------------------------------------------------------------------
  // expressionValidation
  // ---------------------------------------------------------------------

  /** `{ isValid, message }` */
  datatype Validation = Validation(isValid: bool, message: string)

  /** The checks of `expressionValidation`, in the order it tries them. */
  datatype Check = EmptyCheck | TrailingOperatorCheck | TrailingOpenCheck | CountCheck | DotsCheck

  const Checks: seq<Check> := [EmptyCheck, TrailingOperatorCheck, TrailingOpenCheck, CountCheck, DotsCheck]

  /** The characters of `[+\-×÷^%]`. */
  const OperatorChars: set<char> := {'+', '-', '×', '÷', '^', '%'}

  /** `/[+\-×÷^%]$/`: the last character is an operator. */
  predicate EndsWithOperator(e: string)
  {
    |e| > 0 && e[|e| - 1] in OperatorChars
  }

  /** `/\($/` */
  predicate EndsWithOpen(e: string)
  {
    |e| > 0 && e[|e| - 1] == '('
  }

  /** The number of matches of `/c/g`. */
  function CountChar(e: string, c: char): nat
  {
    if e == [] then 0 else (if e[0] == c then 1 else 0) + CountChar(e[1..], c)
  }

  /** `/\.{2,}/`: two decimal points side by side somewhere. */
  predicate HasDoubleDot(e: string)
  {
    exists k :: 0 <= k < |e| - 1 && e[k] == '.' && e[k + 1] == '.'
  }

  /** The `test` of a check: true when the expression fails it. */
  predicate Fails(c: Check, e: string)
  {
    match c
    case EmptyCheck => |e| == 0
    case TrailingOperatorCheck => EndsWithOperator(e)
    case TrailingOpenCheck => EndsWithOpen(e)
    case CountCheck => CountChar(e, '(') != CountChar(e, ')')
    case DotsCheck => HasDoubleDot(e)
  }

  function Message(c: Check): string
  {
    match c
    case EmptyCheck => "Empty expression"
    case TrailingOperatorCheck => "Expression cannot end with an operator"
    case TrailingOpenCheck => "Unclosed parenthesis"
    case CountCheck => "Mismatched parentheses"
    case DotsCheck => "Multiple consecutive decimal points"
  }

  /** What `expressionValidation` reports, written out as one decision in check order. */
  function Validate(e: string): Validation
  {
    if |e| == 0 then Validation(false, "Empty expression")
    else if EndsWithOperator(e) then Validation(false, "Expression cannot end with an operator")
    else if EndsWithOpen(e) then Validation(false, "Unclosed parenthesis")
    else if CountChar(e, '(') != CountChar(e, ')') then Validation(false, "Mismatched parentheses")
    else if HasDoubleDot(e) then Validation(false, "Multiple consecutive decimal points")
    else Validation(true, "Valid expression")
  }

  /**
   * `expressionValidation(expression)`: the first check that fails gives
   * the message; when none fails the expression is valid.
   */
  method ExpressionValidation(expression: string) returns (r: Validation)
    ensures r == Validate(expression)
    ensures r.isValid <==> forall k :: 0 <= k < |Checks| ==> !Fails(Checks[k], expression)
  {
    for i := 0 to |Checks|
      invariant forall j :: 0 <= j < i ==> !Fails(Checks[j], expression)
    {
      if Fails(Checks[i], expression) {
        FirstFailure(expression, i);
        return Validation(false, Message(Checks[i]));
      }
    }
    assert !Fails(Checks[0], expression) && !Fails(Checks[1], expression) && !Fails(Checks[2], expression);
    assert !Fails(Checks[3], expression) && !Fails(Checks[4], expression);
    return Validation(true, "Valid expression");
  }

  /** The check at i is the first to fail: its message is the one `Validate` reports. */
  lemma FirstFailure(e: string, i: nat)
    requires i < |Checks| && Fails(Checks[i], e)
    requires forall j :: 0 <= j < i ==> !Fails(Checks[j], e)
    ensures Validate(e) == Validation(false, Message(Checks[i]))
  {
    if i > 0 { assert !Fails(Checks[0], e); }
    if i > 1 { assert !Fails(Checks[1], e); }
    if i > 2 { assert !Fails(Checks[2], e); }
    if i > 3 { assert !Fails(Checks[3], e); }
  }

  /** A valid expression is non-empty, ends in neither an operator nor `(`, balances its parentheses and has no `..`. */
  lemma ValidMeans(e: string)
    ensures Validate(e).isValid <==>
            |e| > 0 && !EndsWithOperator(e) && !EndsWithOpen(e) && CountChar(e, '(') == CountChar(e, ')') && !HasDoubleDot(e)
    ensures Validate(e).isValid ==> Validate(e).message == "Valid expression"
  {
  }

  lemma {:induction false} CountCharConcat(a: string, b: string, c: char)
    ensures CountChar(a + b, c) == CountChar(a, c) + CountChar(b, c)
    decreases |a|
  {
    if a == [] {
      assert a + b == b;
    } else {
      assert (a + b)[1..] == a[1..] + b;
      CountCharConcat(a[1..], b, c);
    }
  }

  /** Dots side by side in `( e )` are dots side by side in e. */
  lemma WrappedDots(e: string)
    ensures HasDoubleDot("(" + e + ")") <==> HasDoubleDot(e)
  {
    var w := "(" + e + ")";
    if HasDoubleDot(w) {
      var k :| 0 <= k < |w| - 1 && w[k] == '.' && w[k + 1] == '.';
      assert 1 <= k && k + 1 <= |e|;
      assert e[k - 1] == w[k] && e[k] == w[k + 1];
    }
    if HasDoubleDot(e) {
      var k :| 0 <= k < |e| - 1 && e[k] == '.' && e[k + 1] == '.';
      assert w[k + 1] == e[k] && w[k + 2] == e[k + 1];
    }
  }

  /**
   * Text wrapped in `( … )` is never empty and ends in `)`, so only the
   * count and dot checks can reject it; the wrap adds one to each count,
   * so it is valid exactly when the text balances its parentheses and has
   * no `..`.
   */
  lemma WrappedValidation(e: string)
    ensures CountChar("(" + e + ")", '(') == CountChar(e, '(') + 1
    ensures CountChar("(" + e + ")", ')') == CountChar(e, ')') + 1
    ensures Validate("(" + e + ")").isValid <==> CountChar(e, '(') == CountChar(e, ')') && !HasDoubleDot(e)
    ensures !Validate("(" + e + ")").isValid ==>
      Validate("(" + e + ")").message in {"Mismatched parentheses", "Multiple consecutive decimal points"}
  {
    CountCharConcat("(" + e, ")", '(');
    CountCharConcat("(", e, '(');
    CountCharConcat("(" + e, ")", ')');
    CountCharConcat("(", e, ')');
    WrappedDots(e);
    var w := "(" + e + ")";
    assert w[|w| - 1] == ')';
  }

  // ---------------------------------------------------------------------
  // The editing state machine.
  // ---------------------------------------------------------------------

  /** A snapshot of the fields `expression`, `result`, `id` and `lastClick`. */
  datatype State = State(expression: string, result: Num, id: nat, lastClick: bool)

  /** The fields as the constructor sets them. */
  const Initial: State := State("", Zero, 0, false)

  /** The operators of `updateExpression`. */
  const Operators: set<string> := {"+", "-", "×", "÷", "^", "%"}

  /** `expression.slice(-1)`: the last character, or the empty string. */
  function LastChar(e: string): (r: string)
    ensures |r| <= 1
    ensures r == "" <==> e == ""
  {
    if e == "" then "" else [e[|e| - 1]]
  }

  /** The `x²` button enters `²`. */
  function Key(text: string): string
  {
    if text == "x²" then "²" else text
  }

  /** `/\d/.test(text)` */
  predicate HasDigit(text: string)
  {
    exists k :: 0 <= k < |text| && IsDigit(text[k])
  }

  /** The characters of `[\+\-÷√×²%()^]`. */
  const ResumeChars: set<char> := {'+', '-', '÷', '√', '×', '²', '%', '(', ')', '^'}

  /** `/[\+\-÷√×²%()^]/.test(text)` */
  predicate HasResumeChar(text: string)
  {
    exists k :: 0 <= k < |text| && text[k] in ResumeChars
  }

  /** The last character of the expression and the new text are both operators. */
  predicate ReplacesOperator(e: string, text: string)
  {
    LastChar(e) in Operators && text in Operators
  }

  /** `updateExpression(buttonText)` on a snapshot. */
  function Updated(p: Prims, s: State, text: string): (r: State)
    ensures r.result == s.result && r.id == s.id
    ensures r.lastClick <==> s.lastClick && ReplacesOperator(s.expression, text)
  {
    if ReplacesOperator(s.expression, text) then
      s.(expression := s.expression[..|s.expression| - 1] + text)
    else
      var key := Key(text);
      if s.lastClick then
        if HasDigit(key) then s.(expression := key, lastClick := false)
        else if HasResumeChar(key) then s.(expression := p.toString(s.result) + key, lastClick := false)
        else s.(lastClick := false)
      else
        s.(expression := s.expression + key)
  }

  /** `clearCalculator()`, and `handleError(message)`, which does the same to these fields. */
  function Cleared(s: State): (r: State)
    ensures r.expression == "" && !r.lastClick
    ensures r.result == s.result && r.id == s.id
  {
    s.(expression := "", lastClick := false)
  }

  /**
   * `calculateResult()` on a snapshot: nothing on an empty expression; an
   * exception clears the expression as `handleError` does; a NaN result
   * is stored and then cleared the same way; any other result becomes
   * the expression, and the history grows by one entry.
   */
  function Calculated(p: Prims, s: State): (r: State)
    ensures r.id == s.id || r.id == s.id + 1
    ensures r.id == s.id + 1 ==> r.lastClick && r.expression == p.toString(r.result)
    ensures s.expression != "" ==> (r.lastClick <==> r.id == s.id + 1)
  {
    if s.expression == "" then s
    else
      match StaticCalculator.Calculate(p, s.expression)
      case Err(_) => Cleared(s)
      case Ok(v) =>
        if v.NaN? then Cleared(s.(result := v))
        else State(p.toString(v), v, s.id + 1, true)
  }

  /** Pressing the keys one after the other. */
  function Presses(p: Prims, s: State, keys: seq<string>): State
    decreases |keys|
  {
    if keys == [] then s else Presses(p, Updated(p, s, keys[0]), keys[1..])
  }

  /** The page's `Calculator`, reduced to the fields its logic updates. */
  class Calculator {
    /** The JavaScript primitives `calculate` and `toString` rely on. */
    const p: Prims
    var expression: string
    var result: Num
    var id: nat
    var lastClick: bool

    function Snapshot(): State
      reads this
    {
      State(expression, result, id, lastClick)
    }

    constructor(p: Prims)
      ensures this.p == p && Snapshot() == Initial
    {
      this.p := p;
      expression := "";
      result := Zero;
      id := 0;
      lastClick := false;
    }

    /** `updateExpression(buttonText)`; the validation it then shows on the page is left out. */
    method UpdateExpression(buttonText: string)
      modifies this
      ensures Snapshot() == Updated(p, old(Snapshot()), buttonText)
    {
      if LastChar(expression) in Operators && buttonText in Operators {
        expression := expression[..|expression| - 1] + buttonText;
        return;
      }
      var text := buttonText;
      if text == "x²" {
        text := "²";
      }
      if lastClick {
        if HasDigit(text) {
          expression := text;
        } else if HasResumeChar(text) {
          expression := p.toString(result) + text;
        }
        lastClick := false;
      } else {
        expression := expression + text;
      }
    }

    /** `clearCalculator()` */
    method ClearCalculator()
      modifies this
      ensures Snapshot() == Cleared(old(Snapshot()))
    {
      expression := "";
      lastClick := false;
    }

    /** `handleError(message)`: the message is not shown anywhere. */
    method HandleError(message: string)
      modifies this
      ensures Snapshot() == Cleared(old(Snapshot()))
    {
      expression := "";
      lastClick := false;
    }

    /** `calculateResult()`; the history entry it adds to the page is left out. */
    method CalculateResult()
      modifies this
      ensures Snapshot() == Calculated(p, old(Snapshot()))
    {
      if expression == "" {
        return;
      }
      var outcome := StaticCalculator.CalculateExpression(p, expression);
      if outcome.Err? {
        HandleError("Calculation Error");
        return;
      }
      result := outcome.value;
      if result.NaN? {
        HandleError("Math Error");
        return;
      }
      expression := p.toString(result);
      lastClick := true;
      id := id + 1;
    }
  }

  // ---------------------------------------------------------------------
  // Properties of the state machine.
  // ---------------------------------------------------------------------

  /** Two operators in a row: the second replaces the first, and the length stays the same. */
  lemma OperatorReplacesOperator(p: Prims, s: State, text: string)
    requires LastChar(s.expression) in Operators && text in Operators
    ensures Updated(p, s, text).expression == s.expression[..|s.expression| - 1] + text
    ensures |Updated(p, s, text).expression| == |s.expression|
    ensures Updated(p, s, text).lastClick == s.lastClick
  {
  }

  /** `x²` and `²` are the same key. */
  lemma SquareKey(p: Prims, s: State)
    ensures Updated(p, s, "x²") == Updated(p, s, "²")
  {
    assert "x²" !in Operators && "²" !in Operators;
  }

  /** Right after a result, text with a digit starts a new expression. */
  lemma DigitAfterResult(p: Prims, s: State, text: string)
    requires s.lastClick && HasDigit(text)
    ensures Updated(p, s, text) == s.(expression := text, lastClick := false)
  {
    var k :| 0 <= k < |text| && IsDigit(text[k]);
  }

  /** Right after a result, an operator or a parenthesis continues from the result's text. */
  lemma OperatorAfterResult(p: Prims, s: State, text: string)
    requires s.lastClick && !ReplacesOperator(s.expression, text) && !HasDigit(Key(text)) && HasResumeChar(Key(text))
    ensures Updated(p, s, text) == s.(expression := p.toString(s.result) + Key(text), lastClick := false)
  {
  }

  /** Right after a result, any other text (a decimal point, say) is dropped, and the result stays. */
  lemma OtherAfterResult(p: Prims, s: State, text: string)
    requires s.lastClick && !ReplacesOperator(s.expression, text) && !HasDigit(Key(text)) && !HasResumeChar(Key(text))
    ensures Updated(p, s, text) == s.(lastClick := false)
  {
  }

  /** Otherwise the key is appended. */
  lemma KeyAppended(p: Prims, s: State, text: string)
    requires !s.lastClick && !ReplacesOperator(s.expression, text)
    ensures Updated(p, s, text).expression == s.expression + Key(text)
  {
  }

  /** A run of operator keys after an operator keeps only the last one, at the same length. */
  lemma {:induction false} OperatorRun(p: Prims, s: State, keys: seq<string>)
    requires LastChar(s.expression) in Operators
    requires forall k :: 0 <= k < |keys| ==> keys[k] in Operators
    ensures |Presses(p, s, keys).expression| == |s.expression|
    ensures keys != [] ==> Presses(p, s, keys).expression == s.expression[..|s.expression| - 1] + keys[|keys| - 1]
    ensures Presses(p, s, keys).lastClick == s.lastClick
    decreases |keys|
  {
    if keys != [] {
      var next := Updated(p, s, keys[0]);
      OperatorReplacesOperator(p, s, keys[0]);
      var e := s.expression;
      assert next.expression == e[..|e| - 1] + keys[0];
      assert LastChar(next.expression) == keys[0] by {
        assert |keys[0]| == 1;
        assert next.expression[|next.expression| - 1] == keys[0][0];
      }
      OperatorRun(p, next, keys[1..]);
      if |keys| > 1 {
        assert keys[1..][|keys[1..]| - 1] == keys[|keys| - 1];
        assert next.expression[..|next.expression| - 1] == e[..|e| - 1];
      }
    }
  }

  /** `clearCalculator` and `handleError` leave nothing to replace: the next key starts a fresh expression. */
  lemma KeyAfterClear(p: Prims, s: State, text: string)
    ensures Updated(p, Cleared(s), text).expression == Key(text)
  {
    assert "" + Key(text) == Key(text);
  }

  /** `=` on an empty expression changes nothing. */
  lemma EmptyIgnored(p: Prims, s: State)
    requires s.expression == ""
    ensures Calculated(p, s) == s
  {
  }

  /** A number that is not NaN replaces the expression, and the history grows by one. */
  lemma ResultShown(p: Prims, s: State, v: Num)
    requires s.expression != "" && StaticCalculator.Calculate(p, s.expression) == Ok(v) && !v.NaN?
    ensures Calculated(p, s) == State(p.toString(v), v, s.id + 1, true)
  {
  }

  /** NaN is stored as the result, and the expression is cleared. */
  lemma NaNCleared(p: Prims, s: State)
    requires s.expression != "" && StaticCalculator.Calculate(p, s.expression) == Ok(NaN)
    ensures Calculated(p, s) == State("", NaN, s.id, false)
  {
  }

  /** A thrown error clears the expression and keeps the previous result. */
  lemma ErrorCleared(p: Prims, s: State)
    requires s.expression != "" && StaticCalculator.Calculate(p, s.expression).Err?
    ensures Calculated(p, s) == State("", s.result, s.id, false)
  {
  }

  /** On a non-empty expression, `id` grows exactly when `lastClick` is set. */
  lemma IdCountsResults(p: Prims, s: State)
    requires s.expression != ""
    ensures Calculated(p, s).id == s.id + 1 <==> Calculated(p, s).lastClick
  {
  }

  /**
   * After `=`, an operator key continues from the result's text, unless
   * that text itself ends in an operator, in which case the key replaces it.
   */
  lemma ContinueFromResult(p: Prims, s: State, v: Num, op: string)
    requires s.expression != "" && StaticCalculator.Calculate(p, s.expression) == Ok(v) && !v.NaN?
    requires op in Operators && LastChar(p.toString(v)) !in Operators
    ensures Updated(p, Calculated(p, s), op).expression == p.toString(v) + op
    ensures !Updated(p, Calculated(p, s), op).lastClick
  {
    ResultShown(p, s, v);
    assert HasResumeChar(op) by {
      assert |op| == 1 && op[0] in ResumeChars;
    }
    assert !HasDigit(op) by {
      assert |op| == 1 && !IsDigit(op[0]);
    }
  }
}
