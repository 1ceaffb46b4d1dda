/** The calculator's input buffer: what the display shows, the expression that
    will be evaluated, and the inverse-mode flag, edited in place by each
    button press of `handleInput`. */
module Calculator {
  import opened Text
  import opened Sanitizer
  import Engine

  datatype Option<T> = None | Some(value: T)

  /** `Char.isDigit()`, restricted to the ASCII digits. */
  predicate IsDigit(c: char)
  {
    '0' <= c <= '9'
  }

  /** A character of a numeral: a digit or the decimal point. */
  predicate IsNumeral(c: char)
  {
    IsDigit(c) || c == '.'
  }

  /** The expression ends in a digit: the condition of the `%` and `x!` buttons. */
  predicate EndsInDigit(e: string)
  {
    |e| > 0 && IsDigit(e[|e| - 1])
  }

  /** Where the maximal trailing run of digits and points begins. */
  function NumeralStart(e: string): (k: nat)
    ensures k <= |e|
    ensures forall j :: k <= j < |e| ==> IsNumeral(e[j])
    ensures k == 0 || !IsNumeral(e[k - 1])
  {
    if |e| == 0 || !IsNumeral(e[|e| - 1]) then |e| else NumeralStart(e[..|e| - 1])
  }

  /** The two properties of NumeralStart determine it. */
  lemma NumeralStartUnique(e: string, k: nat)
    requires k <= |e|
    requires forall j :: k <= j < |e| ==> IsNumeral(e[j])
    requires k == 0 || !IsNumeral(e[k - 1])
    ensures k == NumeralStart(e)
  {
  }

  /** `indexOfLast { !it.isDigit() && it != '.' }`, scanning from the end. */
  method IndexOfLastNonNumeral(e: string) returns (idx: int)
    ensures -1 <= idx < |e|
    ensures idx >= 0 ==> !IsNumeral(e[idx])
    ensures forall j :: idx < j < |e| ==> IsNumeral(e[j])
    ensures idx + 1 == NumeralStart(e)
  {
    idx := |e| - 1;
    while idx >= 0 && IsNumeral(e[idx])
      invariant -1 <= idx < |e|
      invariant forall j :: idx < j < |e| ==> IsNumeral(e[j])
    {
      idx := idx - 1;
    }
    NumeralStartUnique(e, idx + 1);
  }

  /** The `%` edit: the trailing numeral `num` of `before + num` becomes `(num/100)`. */
  function PercentWrap(e: string): string
  {
    var k := NumeralStart(e);
    e[..k] + "(" + e[k..] + "/100)"
  }

  /** The `x!` edit: the trailing numeral `num` of `before + num` becomes `fact(num)`. */
  function FactWrap(e: string): string
  {
    var k := NumeralStart(e);
    e[..k] + "fact(" + e[k..] + ")"
  }

  /** The `1/x` edit. */
  function ReciprocalWrap(e: string): string
  {
    "1/(" + e + ")"
  }

  /** What a trigonometric button appends to the expression. */
  function TrigCall(name: string, inverse: bool): string
  {
    if inverse then "a" + name + "(" else name + "("
  }

  /** What a trigonometric button appends to the display. */
  function TrigLabel(name: string, inverse: bool): string
  {
    if inverse then name + "⁻¹(" else name + "("
  }

  // ---------------------------------------------------------------------------
  // The numeral wraps lose nothing: each has an inverse.

  /** Undoes the `%` edit: drops the `/100)` at the end and the `(` in front of
      the numeral that precedes it. */
  function UnwrapPercent(r: string): Option<string>
  {
    if |r| >= 5 && r[|r| - 5..] == "/100)" then
      var b := r[..|r| - 5];
      var k := NumeralStart(b);
      if k > 0 && b[k - 1] == '(' then Some(b[..k - 1] + b[k..]) else None
    else None
  }

  /** Undoes the `x!` edit: drops the `)` at the end and the `fact(` in front of
      the numeral that precedes it. */
  function UnwrapFact(r: string): Option<string>
  {
    if |r| >= 1 && r[|r| - 1] == ')' then
      var b := r[..|r| - 1];
      var k := NumeralStart(b);
      if k >= 5 && b[k - 5..k] == "fact(" then Some(b[..k - 5] + b[k..]) else None
    else None
  }

  /** Appending a numeral to text that ends in a non-numeral character puts the
      numeral start right after that text. */
  lemma NumeralStartAfter(a: string, num: string)
    requires a != [] && !IsNumeral(a[|a| - 1])
    requires forall j :: 0 <= j < |num| ==> IsNumeral(num[j])
    ensures NumeralStart(a + num) == |a|
  {
    var e := a + num;
    forall j | |a| <= j < |e| ensures IsNumeral(e[j]) {
      assert e[j] == num[j - |a|];
    }
    NumeralStartUnique(e, |a|);
  }

  lemma PercentRoundTrip(e: string)
    ensures UnwrapPercent(PercentWrap(e)) == Some(e)
  {
    var k := NumeralStart(e);
    var before, num := e[..k], e[k..];
    var r := PercentWrap(e);
    var b := before + "(" + num;
    assert r == b + "/100)";
    assert r[..|r| - 5] == b;
    assert r[|r| - 5..] == "/100)";
    NumeralStartAfter(before + "(", num);
    assert b[..k] + b[k + 1..] == before + num;
    assert before + num == e;
  }

  lemma FactRoundTrip(e: string)
    ensures UnwrapFact(FactWrap(e)) == Some(e)
  {
    var k := NumeralStart(e);
    var before, num := e[..k], e[k..];
    var r := FactWrap(e);
    var b := before + "fact(" + num;
    assert r == b + ")";
    assert r[..|r| - 1] == b;
    NumeralStartAfter(before + "fact(", num);
    assert b[k..k + 5] == "fact(";
    assert b[..k] + b[k + 5..] == before + num;
    assert before + num == e;
  }

  // ---------------------------------------------------------------------------
  // The edits and the balancing step of the engine.

  lemma CountFront(e: string, c: char)
    ensures Count(e[..NumeralStart(e)], c) + Count(e[NumeralStart(e)..], c) == Count(e, c)
  {
    var k := NumeralStart(e);
    assert e == e[..k] + e[k..];
    CountAppend(e[..k], e[k..], c);
  }

  /** The `%` edit adds one `(` and one `)`. */
  lemma PercentCounts(e: string, c: char)
    requires c == '(' || c == ')'
    ensures Count(PercentWrap(e), c) == Count(e, c) + 1
  {
    var k := NumeralStart(e);
    var before, num := e[..k], e[k..];
    CountFront(e, c);
    CountAppend(before, "(", c);
    CountAppend(before + "(", num, c);
    CountAppend(before + "(" + num, "/100)", c);
    assert Count("/100)", c) == (if c == ')' then 1 else 0) by {
      assert "/100)" == "/100" + ")";
      CountAppend("/100", ")", c);
      assert c !in "/100";
    }
  }

  /** The `x!` edit adds one `(` and one `)`. */
  lemma FactCounts(e: string, c: char)
    requires c == '(' || c == ')'
    ensures Count(FactWrap(e), c) == Count(e, c) + 1
  {
    var k := NumeralStart(e);
    var before, num := e[..k], e[k..];
    CountFront(e, c);
    CountAppend(before, "fact(", c);
    CountAppend(before + "fact(", num, c);
    CountAppend(before + "fact(" + num, ")", c);
    assert Count("fact(", c) == (if c == '(' then 1 else 0) by {
      assert "fact(" == "fact" + "(";
      CountAppend("fact", "(", c);
      assert c !in "fact";
    }
  }

  /** The `1/x` edit adds one `(` and one `)`. */
  lemma ReciprocalCounts(e: string, c: char)
    requires c == '(' || c == ')'
    ensures Count(ReciprocalWrap(e), c) == Count(e, c) + 1
  {
    CountAppend("1/(", e, c);
    CountAppend("1/(" + e, ")", c);
    assert Count("1/(", c) == (if c == '(' then 1 else 0) by {
      assert "1/(" == "1/" + "(";
      CountAppend("1/", "(", c);
      assert c !in "1/";
    }
  }

  /** `%`, `x!` and `1/x` add as many `(` as `)`: they never change how many
      closers the engine appends. */
  lemma WrapsKeepSurplus(e: string)
    ensures Surplus(PercentWrap(e)) == Surplus(e)
    ensures Surplus(FactWrap(e)) == Surplus(e)
    ensures Surplus(ReciprocalWrap(e)) == Surplus(e)
  {
    PercentCounts(e, '(');
    PercentCounts(e, ')');
    FactCounts(e, '(');
    FactCounts(e, ')');
    ReciprocalCounts(e, '(');
    ReciprocalCounts(e, ')');
  }

  /** A trigonometric button leaves exactly one more call open. */
  lemma TrigOpensOne(e: string, name: string, inverse: bool)
    requires name == "sin" || name == "cos" || name == "tan"
    ensures Surplus(e + TrigCall(name, inverse)) == Surplus(e) + 1
  {
    CountAppend(e, TrigCall(name, inverse), '(');
    CountAppend(e, TrigCall(name, inverse), ')');
    CountIsMultiplicity(TrigCall(name, inverse), '(');
    CountIsMultiplicity(TrigCall(name, inverse), ')');
  }

  // ---------------------------------------------------------------------------
  // The state and its buttons.

  class CalculatorState {
    var display: string
    var expression: string
    /** The inverse-mode flag that the button dispatcher reads. */
    var inverse: bool

    constructor ()
      ensures display == "0" && expression == "" && !inverse
    {
      display := "0";
      expression := "";
      inverse := false;
    }

    twostate predicate Cleared()
      reads this
    {
      display == "0" && expression == "" && inverse == old(inverse)
    }

    /** The last character of a non-empty expression is gone and the display
        shows what is left, or "0"; an empty expression stays as it is. */
    twostate predicate BackspaceDone()
      reads this
    {
      inverse == old(inverse) &&
      if old(expression) == [] then
        display == old(display) && expression == old(expression)
      else
        |expression| == |old(expression)| - 1 &&
        expression + [old(expression)[|old(expression)| - 1]] == old(expression) &&
        display == (if expression == [] then "0" else expression)
    }

    /** The display shows what the engine returned; the expression keeps it
        for further editing unless it is the sentinel. */
    twostate predicate Evaluated(lib: string -> Engine.LibOutcome)
      reads this
    {
      var outcome := lib(Normalize(old(expression)));
      inverse == old(inverse) &&
      (outcome.Thrown? ==> display == Engine.ErrorText && expression == "") &&
      (outcome.Value? ==>
         display == outcome.text &&
         expression == (if outcome.text != Engine.ErrorText then outcome.text else ""))
    }

    twostate predicate Toggled()
      reads this
    {
      inverse == !old(inverse) && display == old(display) && expression == old(expression)
    }

    twostate predicate PercentDone()
      reads this
    {
      inverse == old(inverse) &&
      if EndsInDigit(old(expression)) then
        expression == PercentWrap(old(expression)) && display == old(display) + "%"
      else
        expression == old(expression) && display == old(display)
    }

    twostate predicate ReciprocalDone()
      reads this
    {
      inverse == old(inverse) &&
      if old(expression) != "" && old(expression) != "0" then
        expression == ReciprocalWrap(old(expression)) && display == ReciprocalWrap(old(display))
      else
        expression == old(expression) && display == old(display)
    }

    twostate predicate TrigDone(name: string)
      reads this
    {
      inverse == old(inverse) &&
      expression == old(expression) + TrigCall(name, old(inverse)) &&
      display == old(display) + TrigLabel(name, old(inverse))
    }

    twostate predicate PowerDone()
      reads this
    {
      inverse == old(inverse) && expression == old(expression) + "^" && display == old(display) + "^"
    }

    twostate predicate FactorialDone()
      reads this
    {
      inverse == old(inverse) &&
      if EndsInDigit(old(expression)) then
        expression == FactWrap(old(expression)) && display == old(display) + "!"
      else
        expression == old(expression) && display == old(display)
    }

    /** Any other button: its label replaces a display of "0" or "Error" and is
        appended otherwise, to both strings alike. */
    twostate predicate Entered(button: string)
      reads this
    {
      inverse == old(inverse) &&
      if old(display) == "0" || old(display) == Engine.ErrorText then
        expression == button && display == button
      else
        expression == old(expression) + button && display == old(display) + button
    }

    method Clear()
      modifies this
      ensures Cleared()
    {
      display := "0";
      expression := "";
    }

    method Backspace()
      modifies this
      ensures BackspaceDone()
    {
      if |expression| > 0 {
        expression := expression[..|expression| - 1];
        display := if |expression| == 0 then "0" else expression;
      }
    }

    /** The `=` button. */
    method Equals(lib: string -> Engine.LibOutcome)
      modifies this
      ensures Evaluated(lib)
    {
      var result := Engine.Evaluate(expression, lib);
      display := result;
      expression := if result != Engine.ErrorText then result else "";
    }

    /** The `inv` button. */
    method ToggleInverse()
      modifies this
      ensures Toggled()
    {
      inverse := !inverse;
    }

    /** The `%` button. */
    method Percent()
      modifies this
      ensures PercentDone()
    {
      if |expression| > 0 && IsDigit(expression[|expression| - 1]) {
        var idx := IndexOfLastNonNumeral(expression);
        var numberPart := expression[idx + 1..];
        var before := expression[..idx + 1];
        expression := before + "(" + numberPart + "/100)";
        display := display + "%";
      }
    }

    /** The `1/x` button. */
    method Reciprocal()
      modifies this
      ensures ReciprocalDone()
    {
      if |expression| > 0 && expression != "0" {
        expression := "1/(" + expression + ")";
        display := "1/(" + display + ")";
      }
    }

    /** The `sin`, `cos` and `tan` buttons. */
    method Trig(name: string)
      requires name == "sin" || name == "cos" || name == "tan"
      modifies this
      ensures TrigDone(name)
    {
      var func := if inverse then "a" + name + "(" else name + "(";
      var disp := if inverse then name + "⁻¹(" else name + "(";
      expression := expression + func;
      display := display + disp;
    }

    /** The `xʸ` button. */
    method Power()
      modifies this
      ensures PowerDone()
    {
      expression := expression + "^";
      display := display + "^";
    }

    /** The `x!` button. */
    method Factorial()
      modifies this
      ensures FactorialDone()
    {
      if |expression| > 0 && IsDigit(expression[|expression| - 1]) {
        var idx := IndexOfLastNonNumeral(expression);
        var numberPart := expression[idx + 1..];
        var before := expression[..idx + 1];
        expression := before + "fact(" + numberPart + ")";
        display := display + "!";
      }
    }

    /** Every other button: digits, the point, operators, `√`, `ln`, `log`. */
    method Enter(button: string)
      modifies this
      ensures Entered(button)
    {
      if display == "0" || display == Engine.ErrorText {
        expression := button;
        display := button;
      } else {
        expression := expression + button;
        display := display + button;
      }
    }

    /** `handleInput`: dispatches on the button label. */
    method HandleInput(button: string, lib: string -> Engine.LibOutcome)
      modifies this
      ensures button == "AC" ==> Cleared()
      ensures button == "⌫" ==> BackspaceDone()
      ensures button == "=" ==> Evaluated(lib)
      ensures button == "inv" ==> Toggled()
      ensures button == "%" ==> PercentDone()
      ensures button == "1/x" ==> ReciprocalDone()
      ensures button == "sin" || button == "cos" || button == "tan" ==> TrigDone(button)
      ensures button == "xʸ" ==> PowerDone()
      ensures button == "x!" ==> FactorialDone()
      ensures !IsCommand(button) ==> Entered(button)
    {
      match button
      case "AC" => Clear();
      case "⌫" => Backspace();
      case "=" => Equals(lib);
      case "inv" => ToggleInverse();
      case "%" => Percent();
      case "1/x" => Reciprocal();
      case "sin" => Trig("sin");
      case "cos" => Trig("cos");
      case "tan" => Trig("tan");
      case "xʸ" => Power();
      case "x!" => Factorial();
      case _ => Enter(button);
    }
  }

  /** The labels `handleInput` treats specially. */
  predicate IsCommand(button: string)
  {
    button in {"AC", "⌫", "=", "inv", "%", "1/x", "sin", "cos", "tan", "xʸ", "x!"}
  }
}
