/** `CalculatorEngine`: the pre-pass that prepares the typed expression, the
    hand-off to the expression library, the collapse of every exception into the
    sentinel "Error", and the `fact` function the engine registers with the
    library. */
module Engine {
  import opened Text
  import opened Sanitizer

  /** What the expression library does with a prepared string: it either
      yields the formatted result or throws an exception. */
  datatype LibOutcome = Value(text: string) | Thrown

  /** The sentinel every failure becomes. */
  const ErrorText: string := "Error"

  /** `evaluate`: glyph replacement, parenthesis balancing by a loop that appends
      one `)` at a time, then the library call, where any exception becomes "Error".
      `lib` stands for building, evaluating and formatting the expression. */
  method Evaluate(exp: string, lib: string -> LibOutcome) returns (r: string)
    ensures lib(Normalize(exp)).Thrown? ==> r == ErrorText
    ensures lib(Normalize(exp)).Value? ==> r == lib(Normalize(exp)).text
  {
    var sanitized := Glyphs(exp);
    var openCount := Count(sanitized, '(');
    var closeCount := Count(sanitized, ')');
    if openCount > closeCount {
      var i := 0;
      while i < openCount - closeCount
        invariant 0 <= i <= openCount - closeCount
        invariant sanitized == Glyphs(exp) + Closers(i)
      {
        sanitized := sanitized + ")";
        i := i + 1;
      }
    }
    assert sanitized == Normalize(exp) by {
      if openCount <= closeCount {
        assert sanitized == Glyphs(exp);
      }
    }
    match lib(sanitized)
    case Value(text) => r := text;
    case Thrown => r := ErrorText;
  }

  // ---------------------------------------------------------------------------
  // The `fact` function.

  /** Bounds of Kotlin's 32-bit `Int`. */
  const IntMin: int := -0x8000_0000
  const IntMax: int := 0x7fff_ffff

  /** Kotlin's `Double.toInt()`: rounds toward zero and saturates at the bounds of `Int`. */
  function ToInt(x: real): (n: int)
    ensures IntMin <= n <= IntMax
    ensures IntMin as real <= x <= IntMax as real && x >= 0.0 ==> n as real <= x < n as real + 1.0
    ensures IntMin as real <= x <= IntMax as real && x < 0.0 ==> n as real - 1.0 < x <= n as real
    ensures x >= IntMax as real ==> n == IntMax
    ensures x <= IntMin as real ==> n == IntMin
  {
    var t := if x >= 0.0 then x.Floor else -((-x).Floor);
    if t < IntMin then IntMin else if t > IntMax then IntMax else t
  }

  /** `(i..n).fold(acc) { acc, i -> acc * i }`: multiplies `acc` by i, i+1, ..., n in turn. */
  function FoldTimes(acc: int, i: int, n: int): int
    decreases n + 1 - i
  {
    if i > n then acc else FoldTimes(acc * i, i + 1, n)
  }

  /** Reference definition of n!. */
  function Factorial(n: nat): (r: nat)
    ensures r >= 1
  {
    if n == 0 then 1 else n * Factorial(n - 1)
  }

  /** Extending the range of a fold by one multiplies the result by the new bound. */
  lemma {:induction false} FoldTimesSnoc(acc: int, i: int, n: int)
    requires i <= n + 1
    ensures FoldTimes(acc, i, n + 1) == FoldTimes(acc, i, n) * (n + 1)
    decreases n + 1 - i
  {
    if i <= n {
      FoldTimesSnoc(acc * i, i + 1, n);
    }
  }

  /** Folding from 1 over 1..n computes n!. */
  lemma {:induction false} FoldIsFactorial(n: nat)
    ensures FoldTimes(1, 1, n) == Factorial(n)
  {
    if n > 0 {
      FoldIsFactorial(n - 1);
      FoldTimesSnoc(1, 1, n - 1);
    }
  }

  /** The outcome of `fact`: a product, or the IllegalArgumentException. */
  datatype FactOutcome = Product(value: int) | Rejected

  /** `fact` as written: the integrality test compares the truncated argument
      with itself, so only a negative truncated argument is rejected. */
  function Fact(arg: real): FactOutcome
  {
    var n := ToInt(arg);
    if n < 0 || n != ToInt(arg) then Rejected else Product(FoldTimes(1, 1, n))
  }

  /** `fact` rejects exactly a negative truncated argument and otherwise yields
      the factorial of the truncated argument; fact(0) = 1. */
  lemma FactSpec(arg: real)
    ensures Fact(arg).Rejected? <==> ToInt(arg) < 0
    ensures Fact(arg).Product? ==> Fact(arg).value == Factorial(ToInt(arg))
    ensures Fact(0.0) == Product(1)
  {
    if ToInt(arg) >= 0 {
      FoldIsFactorial(ToInt(arg));
    }
  }

  /** A fractional argument is truncated, not rejected. */
  lemma FactTruncates(arg: real)
    requires 0.0 <= arg <= IntMax as real
    ensures Fact(arg) == Product(Factorial(arg.Floor))
  {
    FactSpec(arg);
  }

  /** The input that shows the self-comparison: fact(2.5) is 2, not an error. */
  lemma FactOfFractionAccepted()
    ensures Fact(2.5) == Product(2)
  {
    FactTruncates(2.5);
    assert Factorial(2) == 2;
  }

  /** `fact` with the integrality test its message announces: the argument must
      equal its truncation. */
  function FactChecked(arg: real): FactOutcome
  {
    var n := ToInt(arg);
    if n < 0 || n as real != arg then Rejected else Product(FoldTimes(1, 1, n))
  }

  /** The corrected `fact` accepts exactly the whole numbers from 0 to the
      largest `Int`, and yields their factorial. */
  lemma FactCheckedSpec(arg: real)
    ensures FactChecked(arg).Product? <==> 0.0 <= arg <= IntMax as real && arg == arg.Floor as real
    ensures FactChecked(arg).Product? ==> FactChecked(arg).value == Factorial(arg.Floor)
    ensures FactChecked(2.5) == Rejected
  {
    if FactChecked(arg).Product? {
      FoldIsFactorial(ToInt(arg));
    }
  }
}
