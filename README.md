# Verified model of the calculator's expression engine and input buffer

The calculator app keeps two pieces of logic next to its user interface:

- **`CalculatorEngine`** prepares the typed expression and hands it to an expression
  library. First it rewrites the display glyphs `×`, `÷`, `√` and `xʸ` into the
  tokens `*`, `/`, `sqrt` and `^`. Then it compares the counts of `(` and `)` and
  appends, in a loop, one `)` for each `(` in excess of `)`. Any exception thrown
  while the library builds, evaluates or formats the expression becomes the text
  `"Error"`.
  The engine also registers a factorial function `fact` with the library.
- **`CalculatorState` and `handleInput`** hold the display text, the expression text
  and the inverse-mode flag. Each button press edits these in place: clear, backspace,
  `=`, `inv`, `%`, `1/x`, `sin`/`cos`/`tan`, `xʸ`, `x!` and plain entry.

The Dafny project has four modules:

- `Text` (`text.dfy`): Kotlin's `count` and `replace` on strings.
- `Sanitizer` (`sanitizer.dfy`): the glyph chain `Glyphs`, a one-pass reference
  `Transliterate`, the balancing step `Balance` and the whole pre-pass `Normalize`.
- `Engine` (`engine.dfy`): `evaluate` as the method `Evaluate` with its balancing
  loop. It also holds `fact` as the function `Fact`, over Kotlin's `Double.toInt()`
  and the fold over `1..n`.
- `Calculator` (`calculator.dfy`): the class `CalculatorState`, with three fields, one
  method per button and the dispatcher `HandleInput`. Each button's effect is a
  two-state predicate that the button's method and the dispatcher both ensure.

The expression library (parsing, evaluation, the trigonometric and logarithmic
functions, number formatting) is a parameter `lib: string -> LibOutcome`. It maps the
prepared string to a formatted result or to a thrown exception. The properties proved
hold for every such `lib`.

The flag that `handleInput` reads is the composable-local `isInverse`
(MainActivity.kt line 143). The field `CalculatorState.isInverse` (line 122) is never
read. The model's class keeps one flag, `inverse`, and it stands for the line-143 flag.

The exception message of `fact` says the argument must be an integer. The code does not
check this; see Findings. The model follows the code.

## Model

| member | source | states |
|---|---|---|
| Text.Count | myCalculator/app/src/main/java/com/example/mycalculator/MainActivity.kt:63-64 | the count is at most the length and is zero exactly when the character is absent |
| Text.CountAppend | myCalculator/app/src/main/java/com/example/mycalculator/MainActivity.kt:63-64 | counting distributes over concatenation |
| Text.CountIsMultiplicity | myCalculator/app/src/main/java/com/example/mycalculator/MainActivity.kt:63-64 | the count equals the character's multiplicity in the multiset of the string |
| Text.Replace | myCalculator/app/src/main/java/com/example/mycalculator/MainActivity.kt:57-61 | Kotlin's `String.replace` with a non-empty pattern: every non-overlapping occurrence, found left to right, is replaced; its properties are stated by `ReplaceSkips`, `ReplaceNothing` and `GlyphsIsTransliterate` |
| Text.ReplaceSkips | myCalculator/app/src/main/java/com/example/mycalculator/MainActivity.kt:57-61 | a prefix holding no first character of the pattern passes `replace` unchanged |
| Text.ReplaceNothing | myCalculator/app/src/main/java/com/example/mycalculator/MainActivity.kt:57-61 | `replace` returns its input unchanged when the pattern occurs nowhere in it |
| Sanitizer.Glyphs | myCalculator/app/src/main/java/com/example/mycalculator/MainActivity.kt:57-61 | the four `replace` calls in source order; `GlyphsIsTransliterate` and `GlyphsSpec` state what they produce |
| Sanitizer.Balance | myCalculator/app/src/main/java/com/example/mycalculator/MainActivity.kt:63-70 | appends one `)` per `(` in excess of `)`; `BalanceSpec` states the result |
| Sanitizer.Normalize | myCalculator/app/src/main/java/com/example/mycalculator/MainActivity.kt:57-70 | the glyph chain followed by balancing, the string handed to the library; `NormalizeAppends` and `NormalizeIdempotent` state its properties, and `Evaluate` is proved to compute it |
| Sanitizer.GlyphsIsTransliterate | myCalculator/app/src/main/java/com/example/mycalculator/MainActivity.kt:57-61 | the four-step replace chain equals one left-to-right pass: each `xʸ` becomes `^`, `×` becomes `*`, `÷` becomes `/`, `√` becomes `sqrt`, and every other character is copied |
| Sanitizer.GlyphsSpec | myCalculator/app/src/main/java/com/example/mycalculator/MainActivity.kt:57-61 | after the chain no `×`, `÷`, `√` or `xʸ` is left, and text without them is returned unchanged |
| Sanitizer.GlyphsKeepCount | myCalculator/app/src/main/java/com/example/mycalculator/MainActivity.kt:57-64 | the chain keeps the count of every character outside the glyphs and tokens, parentheses included |
| Sanitizer.BalanceSpec | myCalculator/app/src/main/java/com/example/mycalculator/MainActivity.kt:63-70 | balancing keeps the input as a prefix and appends only `)`, exactly (opens − closes) of them, after which the counts are equal; with opens ≤ closes nothing is appended |
| Sanitizer.NormalizeAppends | myCalculator/app/src/main/java/com/example/mycalculator/MainActivity.kt:57-70 | the number of `)` appended is the surplus of `(` in the raw input |
| Sanitizer.NormalizeIdempotent | myCalculator/app/src/main/java/com/example/mycalculator/MainActivity.kt:57-70 | preparing an already prepared string changes nothing |
| Sanitizer.NormalizeClosesOne | myCalculator/app/src/main/java/com/example/mycalculator/MainActivity.kt:63-70 | `(1+2` is prepared as `(1+2)` |
| Engine.Evaluate | myCalculator/app/src/main/java/com/example/mycalculator/MainActivity.kt:55-116 | the library receives the prepared string; a throw yields exactly `"Error"`, otherwise the library's text is returned |
| Engine.ToInt | myCalculator/app/src/main/java/com/example/mycalculator/MainActivity.kt:48 | `Double.toInt()` truncates toward zero and saturates at the 32-bit bounds |
| Engine.FoldTimes | myCalculator/app/src/main/java/com/example/mycalculator/MainActivity.kt:52 | the fold `(i..n).fold(acc) { acc, i -> acc * i }`; `FoldTimesSnoc` and `FoldIsFactorial` state that it computes n! |
| Engine.FoldTimesSnoc | myCalculator/app/src/main/java/com/example/mycalculator/MainActivity.kt:52 | extending the fold's range by one multiplies its result by the new bound |
| Engine.FoldIsFactorial | myCalculator/app/src/main/java/com/example/mycalculator/MainActivity.kt:52 | the fold over `1..n` starting from 1 computes n! |
| Engine.Fact | myCalculator/app/src/main/java/com/example/mycalculator/MainActivity.kt:46-53 | `fact` as written, with the self-comparing guard; `FactSpec`, `FactTruncates` and `FactOfFractionAccepted` state what it returns |
| Engine.FactSpec | myCalculator/app/src/main/java/com/example/mycalculator/MainActivity.kt:46-53 | `fact` rejects exactly a negative truncated argument, otherwise yields the factorial of the truncated argument; fact(0) = 1 |
| Engine.FactTruncates | myCalculator/app/src/main/java/com/example/mycalculator/MainActivity.kt:48-49 | a fractional non-negative argument is truncated, not rejected |
| Engine.FactOfFractionAccepted | myCalculator/app/src/main/java/com/example/mycalculator/MainActivity.kt:49 | fact(2.5) yields 2 |
| Engine.FactChecked | myCalculator/app/src/main/java/com/example/mycalculator/MainActivity.kt:49-50 | `fact` with the integrality test its exception message announces; `FactCheckedSpec` states what it accepts and returns |
| Engine.FactCheckedSpec | myCalculator/app/src/main/java/com/example/mycalculator/MainActivity.kt:49-50 | the corrected `fact` accepts exactly the whole numbers from 0 to the largest Int and rejects 2.5 |
| Calculator.IsDigit | myCalculator/app/src/main/java/com/example/mycalculator/MainActivity.kt:158 | `isDigit()` on the ASCII digits (see Left out) |
| Calculator.NumeralStart | myCalculator/app/src/main/java/com/example/mycalculator/MainActivity.kt:159-161 | the split point leaves only digits and points after it and a non-numeral (or nothing) before it: the maximal trailing numeral |
| Calculator.IndexOfLastNonNumeral | myCalculator/app/src/main/java/com/example/mycalculator/MainActivity.kt:159 | the scan from the end returns the last index that is neither digit nor point, or -1, which is one before the numeral start |
| Calculator.PercentWrap | myCalculator/app/src/main/java/com/example/mycalculator/MainActivity.kt:159-162 | the `%` edit `before + "(" + num + "/100)"`; `PercentRoundTrip` and `PercentCounts` state its properties |
| Calculator.FactWrap | myCalculator/app/src/main/java/com/example/mycalculator/MainActivity.kt:198-201 | the `x!` edit `before + "fact(" + num + ")"`; `FactRoundTrip` and `FactCounts` state its properties |
| Calculator.ReciprocalWrap | myCalculator/app/src/main/java/com/example/mycalculator/MainActivity.kt:168-169 | the `1/x` edit `1/(…)` of either string; `ReciprocalCounts` states its property |
| Calculator.TrigCall | myCalculator/app/src/main/java/com/example/mycalculator/MainActivity.kt:175-189 | the text a trigonometric button appends to the expression, `a…(` with the flag set and `…(` otherwise; `TrigOpensOne` states its property |
| Calculator.TrigLabel | myCalculator/app/src/main/java/com/example/mycalculator/MainActivity.kt:176-190 | the text a trigonometric button appends to the display, `…⁻¹(` with the flag set and `…(` otherwise |
| Calculator.PercentRoundTrip | myCalculator/app/src/main/java/com/example/mycalculator/MainActivity.kt:157-164 | removing the inserted `(` and `/100)` from the `%` edit gives back the old expression, so `before + num` is the old expression |
| Calculator.FactRoundTrip | myCalculator/app/src/main/java/com/example/mycalculator/MainActivity.kt:196-204 | removing the inserted `fact(` and `)` from the `x!` edit gives back the old expression |
| Calculator.PercentCounts | myCalculator/app/src/main/java/com/example/mycalculator/MainActivity.kt:160-162 | the `%` edit adds one `(` and one `)` |
| Calculator.FactCounts | myCalculator/app/src/main/java/com/example/mycalculator/MainActivity.kt:199-201 | the `x!` edit adds one `(` and one `)` |
| Calculator.ReciprocalCounts | myCalculator/app/src/main/java/com/example/mycalculator/MainActivity.kt:168 | the `1/x` edit adds one `(` and one `)` |
| Calculator.WrapsKeepSurplus | myCalculator/app/src/main/java/com/example/mycalculator/MainActivity.kt:157-204 | `%`, `x!` and `1/x` do not change how many `)` the engine will append |
| Calculator.TrigOpensOne | myCalculator/app/src/main/java/com/example/mycalculator/MainActivity.kt:174-191 | a trigonometric button leaves exactly one more `(` open, whatever the flag |
| Calculator.CalculatorState.constructor | myCalculator/app/src/main/java/com/example/mycalculator/MainActivity.kt:120-122 | the display starts as `"0"`, the expression empty, the flag off |
| Calculator.CalculatorState.Clear | myCalculator/app/src/main/java/com/example/mycalculator/MainActivity.kt:124-127 | display `"0"`, expression empty, flag unchanged |
| Calculator.CalculatorState.Backspace | myCalculator/app/src/main/java/com/example/mycalculator/MainActivity.kt:129-134 | a non-empty expression loses exactly its last character and the display shows the rest, or `"0"` if nothing is left; an empty expression changes nothing |
| Calculator.CalculatorState.Equals | myCalculator/app/src/main/java/com/example/mycalculator/MainActivity.kt:149-153 | the display shows the engine's result for the prepared expression; the expression keeps it unless it is `"Error"`, in which case it becomes empty |
| Calculator.CalculatorState.ToggleInverse | myCalculator/app/src/main/java/com/example/mycalculator/MainActivity.kt:154-156 | only the flag changes, to its negation |
| Calculator.CalculatorState.Percent | myCalculator/app/src/main/java/com/example/mycalculator/MainActivity.kt:157-164 | when the expression ends in a digit, its maximal trailing numeral is wrapped as `(num/100)` and the display gains `%`; otherwise nothing changes |
| Calculator.CalculatorState.Reciprocal | myCalculator/app/src/main/java/com/example/mycalculator/MainActivity.kt:166-171 | unless the expression is empty or `"0"`, both strings are wrapped as `1/(…)`; otherwise nothing changes |
| Calculator.CalculatorState.Trig | myCalculator/app/src/main/java/com/example/mycalculator/MainActivity.kt:174-191 | the expression gains `asin(`/`acos(`/`atan(` when the flag is set and `sin(`/`cos(`/`tan(` otherwise; the display gains the matching label; the flag is unchanged |
| Calculator.CalculatorState.Power | myCalculator/app/src/main/java/com/example/mycalculator/MainActivity.kt:192-195 | both strings gain `^` |
| Calculator.CalculatorState.Factorial | myCalculator/app/src/main/java/com/example/mycalculator/MainActivity.kt:196-204 | when the expression ends in a digit, its maximal trailing numeral is wrapped as `fact(num)` and the display gains `!`; otherwise nothing changes |
| Calculator.CalculatorState.Enter | myCalculator/app/src/main/java/com/example/mycalculator/MainActivity.kt:205-212 | the label replaces both strings when the display is `"0"` or `"Error"` and is appended to both otherwise |
| Calculator.CalculatorState.HandleInput | myCalculator/app/src/main/java/com/example/mycalculator/MainActivity.kt:145-217 | each label gets exactly its button's effect, every other label is entered, and only `inv` changes the flag |

## Left out

- The expression library: tokenizing, parsing, operator precedence, the registered
  `sin`, `cos`, `tan`, `asin`, `acos`, `atan`, `log` and `ln` objects, and
  the `#.########` formatting (lines 72-112). They are floating-point numerics and
  foreign code, so they are the parameter `lib`.
- Engine.Evaluate: the catch clause takes only `Exception`s; a JVM `Error` (such as
  running out of memory) would escape `evaluate`, and `lib` has no such outcome.
- Engine.Fact: multiplies exact integers, while the source folds in double precision.
  The source is exact only up to 22! and yields Infinity from 171! on.
- Engine.ToInt: takes a real number, so the NaN and infinite arguments of
  `Double.toInt()` are not modelled.
- Calculator.IsDigit: accepts only the ASCII digits. Kotlin's `isDigit()` also accepts
  the other Unicode decimal digits.
- The user interface: `MainActivity`, the layout, button colours, the scientific panel
  toggle and its animation, and the recomposition behaviour of `mutableStateOf` and
  `remember`. The state is plain fields.
- The unused field `CalculatorState.isInverse` (line 122).

## Findings

| source | as written | input that shows it | evidently intended | confidence | as-written member | corrected member |
|---|---|---|---|---|---|---|
| myCalculator/app/src/main/java/com/example/mycalculator/MainActivity.kt:49 | `n != args[0].toInt()` compares the truncated argument with itself, so it is always false | `fact(2.5)` returns 2 instead of throwing | reject an argument that is not a whole number, as the exception message says | high; not executed | Engine.FactOfFractionAccepted | Engine.FactCheckedSpec |

`fact` is only reached through the expression library, so nothing else in the model
calls either version.
