# Rust exercises: Fibonacci, greeting, array indexing

This project is a Dafny model of the three pieces of logic in a set of small
Rust exercises. Each piece has its own module.

- `Fibonacci` (`fibonacci.dfy`): `fibonacci(n: u32) -> String`. It
  answers 0 and 1 directly. Otherwise it runs the loop `for _ in 2..=n` over
  two `BigUint` accumulators. On each turn it computes `temp = a + b`, then
  sets `a = b` and `b = temp`. At the end it renders `b` in base 10. The model
  is a method with a `for` loop over two `nat` accumulators. `nat` is exact like
  `BigUint`. The loop invariants tie the accumulators both to the recursive
  definition `Fib` and to `Steps`, which is the loop body applied a given
  number of times.
- `Decimal` (`decimal.dfy`): the base-10 rendering that `to_string` produces.
  `NatToDecimal` renders a number. `DecimalValue` is its inverse: it reads the
  number back from the digits. `IsCanonicalDecimal` says what the output looks
  like: no leading zeros.
- `HelloNapi` (`hello_napi.dfy`): `hello_napi(input: Option<String>)`. A missing
  input becomes `"napi-rs"` and the result is `"Hello, " + input + "!"`. The
  partner function `GreetedName` reads the name back out of a greeting.
- `Arrays` (`arrays.dfy`): the wrapped lookup `a[num % a.len()]` into
  `[1, 2, 3, 4, 5]`, and `modulo(num)`. In the model, `modulo` returns a
  `Divisibility` value instead of printing a message. A table of the twelve
  residues modulo 12 gives an independent reference for the classification.

`Fibonacci.Fibonacci`'s postcondition fixes its result as a function of `n`.
So repeated calls with the same `n` give the same text.

## Model

| member | source | states |
|---|---|---|
| `Fibonacci.Fibonacci` | src/playground/fibonacci.rs:8-26 | The result is the canonical decimal text of Fib(n). For n = 0 it is "0" and for n = 1 it is "1", both without entering the loop. For n >= 2 it is the text of `b` after exactly n - 1 turns of the loop body from (0, 1). The loop invariant is (a, b) = (Fib(i-2), Fib(i-1)) before the turn for i. |
| `Fibonacci.StepsFromStart` | src/playground/fibonacci.rs:19-23 | After k turns of `temp = a + b; a = b; b = temp` from (0, 1), the pair is exactly (Fib(k), Fib(k+1)). |
| `Fibonacci.FibPositive` | src/playground/fibonacci.rs:20-22 | Every term from index 1 on is positive. |
| `Fibonacci.FibMonotone` | src/playground/fibonacci.rs:20-22 | The result never decreases as n grows: m <= n implies Fib(m) <= Fib(n). |
| `Fibonacci.TextRecurrence` | src/playground/fibonacci.rs:19-25 | For n >= 2, the number denoted by the returned text for n is the sum of the numbers denoted by the texts for n-1 and n-2. |
| `Fibonacci.FibAddition` | src/playground/fibonacci.rs:20-22 | The addition law Fib(m+n+1) = Fib(m+1)·Fib(n+1) + Fib(m)·Fib(n), which follows from the recurrence. |
| `Fibonacci.FibDoubling` | src/playground/fibonacci.rs:20-22 | The doubling laws for Fib(2k) and Fib(2k+1). These are what reach the large known values. |
| `Fibonacci.ValuesAt20And100` | src/playground/fibonacci.rs:9-22 | Fib(20) = 6765 and Fib(100) = 354224848179261915075. The second value is far beyond 64 bits, so exact accumulators are required. |
| `Fibonacci.KnownValues` | src/playground/fibonacci.rs:12-25 | The texts for indices 0, 1, 2, 10, 20 and 100 are "0", "1", "1", "55", "6765" and "354224848179261915075". |
| `Fibonacci.TextOfFib100` | src/playground/fibonacci.rs:25 | The value of Fib(100) renders as exactly "354224848179261915075". |
| `Fibonacci.ExceedsMachineWords` | src/playground/fibonacci.rs:4-10 | Fib(48) does not fit in 32 bits and Fib(94) does not fit in 64 bits. This happens well inside the u32 index range, so only unbounded accumulators give correct results. |
| `Decimal.NatToDecimal` | src/playground/fibonacci.rs:25 | The rendering is non-empty and contains only digits. It has no leading zero unless it is "0". It denotes exactly the value rendered. |
| `Decimal.CanonicalRoundTrip` | src/playground/fibonacci.rs:25 | Every canonical digit string is the rendering of the number it denotes. So the rendering is the only canonical text for its value. |
| `Decimal.AppendDigit` | src/playground/fibonacci.rs:25 | For a positive number, the text of ten times it plus a digit is its text with that digit appended. |
| `Decimal.LeadingDigitPositive` | src/playground/fibonacci.rs:25 | A digit string whose first digit is not zero denotes a positive number. |
| `HelloNapi.HelloNapi` | src/playground/hello_napi.rs:6-9 | The result is a greeting: it starts with "Hello, " and ends with "!". Its length is the name's length plus 8. The text between prefix and suffix is the input, or "napi-rs" when the input is missing. With no input the result is exactly "Hello, napi-rs!". |
| `HelloNapi.GreetedName` | src/playground/hello_napi.rs:8 | The name read back formats to the text it came from. Reading succeeds exactly on texts that have the greeting's shape. |
| `HelloNapi.GreetingRoundTrip` | src/playground/hello_napi.rs:8 | The name can be read back from the greeting made of it. |
| `HelloNapi.GreetingFromName` | src/playground/hello_napi.rs:8 | Each greeting is the formatting of the name read out of it. Together with the round trip this is a bijection. |
| `HelloNapi.GreetingInjective` | src/playground/hello_napi.rs:8 | Different names give different greetings. |
| `HelloNapi.MissingInputIsDefault` | src/playground/hello_napi.rs:7 | A missing input gives the same result as passing "napi-rs". |
| `HelloNapi.EmptyInputKept` | src/playground/hello_napi.rs:7 | An empty name is kept, so the result is "Hello, !". It differs from the default greeting. |
| `HelloNapi.HostTestCases` | __test__/index.spec.ts:5-12 | With no argument the result is "Hello, napi-rs!". With "rusty" it is "Hello, rusty!". |
| `Arrays.WrapIndex` | src/bin/arrays.rs:18 | The wrapped index is below the array length, so `a[index]` is always in bounds. It leaves the same remainder as `num` modulo the length. |
| `Arrays.ElementAt` | src/bin/arrays.rs:4-23 | The element read for `num` is one of the array's elements, and it equals `num % 5 + 1`. |
| `Arrays.WrapIndexSmall` | src/bin/arrays.rs:18 | An index already in bounds is used unchanged. |
| `Arrays.ElementAtPeriodic` | src/bin/arrays.rs:18-23 | Indices five apart read the same element. |
| `Arrays.Modulo` | src/bin/arrays.rs:29-38 | "By 4" holds exactly for multiples of 4. "By 3" holds exactly for multiples of 3 that are not multiples of 4. "By 2" holds exactly for multiples of 2 that are multiples of neither 4 nor 3. "Not divisible" holds exactly when none of 4, 3, 2 divides. Exactly one answer holds for each `num`. |
| `Arrays.ModuloByResidue` | src/bin/arrays.rs:29-38 | The classification agrees with the reference table of residues modulo 12, so it depends only on `num % 12`. |
| `Arrays.By2MeansTwoModFour` | src/bin/arrays.rs:34-35 | "Divisible by 2" is reported only for numbers that are 2 modulo 4. |
| `Arrays.MultiplesOfFour` | src/bin/arrays.rs:30-31 | 0, 12 and 24 are classified "divisible by 4" even though 3 and 2 divide all three. |

## Left out

- The stdin read loops, with their parse-or-`continue` handling, in `src/bin/fibonacci.rs` and `src/bin/arrays.rs`: console I/O. `Fibonacci` and `Arrays` take the parsed number as a parameter.
- The `println!` messages of `modulo` and of the array loop: printing. `Modulo` returns which message would be printed.
- `src/bin/hello_rust.rs`: console I/O. It prints the greeting `hello_napi` makes for the first program argument, or the default greeting when there is none.
- `src/playground/hello_rust/hello_napi.rs`: console I/O. It prints the same greeting as `HelloNapi` instead of returning it, and returns nothing.
- `src/bin/shadowing.rs`: console I/O. It prints values derived from constants (5 + 1, 5 * 2, 5, and the length 3 of a string of three spaces) to show variable shadowing.
- `src/lib.rs` (`plus_100`, `get_array_length`) and `src/playground/mod.rs`: export glue. Their behaviour depends on the host marshalling and on build settings.
- The host boundary, including the exception raised for a non-string argument (`__test__/index.spec.ts:15-18`): host marshalling.
- The internals of `BigUint`, such as limb storage and carries: the accumulators are modelled as mathematical `nat`.
- Rust's `String` is UTF-8 bytes. The model uses sequences of characters, which is the same thing for these ASCII texts and for any name passed in.
- `Arrays.Usize`: models a 64-bit target. The exercise does not depend on the width, beyond which numbers parse.
