/** The iterative arbitrary-precision Fibonacci computation: two unbounded
    accumulators advanced by repeated addition, rendered in base 10. */
module Fibonacci {
  import opened Decimal

  /** The index is a Rust `u32`. */
  const U32_LIMIT: nat := 0x1_0000_0000
  type U32 = n: nat | n < U32_LIMIT

  /** Bound of a Rust `u64`, for stating that results outgrow machine words. */
  const U64_LIMIT: nat := 0x1_0000_0000_0000_0000

  /** The Fibonacci sequence: 0, 1, and then each term the sum of the two before. */
  function Fib(n: nat): nat {
    if n == 0 then 0 else if n == 1 then 1 else Fib(n - 1) + Fib(n - 2)
  }

  /** One turn of the loop body on the accumulator pair (a, b):
      `temp = a + b; a = b; b = temp`. */
  function Step(p: (nat, nat)): (nat, nat) {
    (p.1, p.0 + p.1)
  }

  /** The accumulator pair after `k` turns of the loop body from `p`. */
  function Steps(k: nat, p: (nat, nat)): (nat, nat) {
    if k == 0 then p else Step(Steps(k - 1, p))
  }

  /** From the initial pair (0, 1), `k` turns leave (Fib(k), Fib(k + 1)). */
  lemma {:induction false} StepsFromStart(k: nat)
    ensures Steps(k, (0, 1)) == (Fib(k), Fib(k + 1))
  {
    if k > 0 {
      StepsFromStart(k - 1);
    }
  }

  /** `fibonacci(n)`: 0 and 1 are answered before the loop; otherwise the loop
      `for _ in 2..=n` makes exactly n - 1 turns and `b` is rendered. */
  method Fibonacci(n: U32) returns (s: string)
    ensures s == NatToDecimal(Fib(n))
    ensures n == 0 ==> s == "0"
    ensures n == 1 ==> s == "1"
    ensures n >= 2 ==> s == NatToDecimal(Steps(n - 1, (0, 1)).1)
  {
    var a: nat := 0;
    var b: nat := 1;
    if n == 0 {
      return NatToDecimal(a);
    }
    if n == 1 {
      return NatToDecimal(b);
    }
    for i := 2 to n + 1
      invariant (a, b) == Steps(i - 2, (0, 1))
      invariant a == Fib(i - 2) && b == Fib(i - 1)
    {
      var temp := a + b;
      a := b;
      b := temp;
    }
    s := NatToDecimal(b);
  }

  /** Every term from index 1 on is positive. */
  lemma {:induction false} FibPositive(n: nat)
    requires n >= 1
    ensures Fib(n) > 0
  {
    if n > 2 {
      FibPositive(n - 1);
    }
  }

  /** The sequence never decreases: a later index never gives a smaller value. */
  lemma {:induction false} FibMonotone(m: nat, n: nat)
    requires m <= n
    ensures Fib(m) <= Fib(n)
  {
    if m < n {
      FibMonotone(m, n - 1);
    }
  }

  /** The value denoted by the text for n is the sum of the values denoted by
      the texts for n - 1 and n - 2. */
  lemma TextRecurrence(n: nat)
    requires n >= 2
    ensures DecimalValue(NatToDecimal(Fib(n)))
         == DecimalValue(NatToDecimal(Fib(n - 1))) + DecimalValue(NatToDecimal(Fib(n - 2)))
  {
  }

  /** Addition law: Fib(m + n + 1) == Fib(m + 1) * Fib(n + 1) + Fib(m) * Fib(n). */
  lemma {:induction false} FibAddition(m: nat, n: nat)
    ensures Fib(m + n + 1) == Fib(m + 1) * Fib(n + 1) + Fib(m) * Fib(n)
  {
    if n >= 2 {
      FibAddition(m, n - 1);
      FibAddition(m, n - 2);
      Regroup(Fib(m + n), Fib(m + n - 1), Fib(m + 1), Fib(m), Fib(n - 1), Fib(n - 2));
    }
  }

  /** The rearrangement of products behind one step of the addition law.
      Stated over plain numbers so that the solver does not search through the
      products of Fib terms; FibAddition runs out of resource without it. */
  lemma Regroup(s: nat, t: nat, x: nat, y: nat, p: nat, q: nat)
    requires s == x * (p + q) + y * p && t == x * p + y * q
    ensures s + t == x * ((p + q) + p) + y * (p + q)
  {
  }

  /** Doubling laws, the addition law with both indices near k. */
  lemma FibDoubling(k: nat)
    requires k >= 1
    ensures Fib(2 * k) == Fib(k) * (Fib(k + 1) + Fib(k - 1))
    ensures Fib(2 * k + 1) == Fib(k + 1) * Fib(k + 1) + Fib(k) * Fib(k)
  {
    FibAddition(k - 1, k);
    Factor(Fib(2 * k), Fib(k), Fib(k + 1), Fib(k - 1));
    FibAddition(k, k);
  }

  /** Taking out a common factor, stated over plain numbers; it keeps the
      proofs that use FibDoubling stable across solver seeds. */
  lemma Factor(s: nat, x: nat, p: nat, q: nat)
    requires s == x * p + q * x
    ensures s == x * (p + q)
  {
  }

  /** The terms up to index 13, evaluated directly from the definition. */
  lemma SmallValues()
    ensures Fib(9) == 34 && Fib(10) == 55 && Fib(11) == 89 && Fib(12) == 144 && Fib(13) == 233
  {
  }

  /** Terms at indices 24 to 26, reached through the doubling laws. */
  lemma ValuesNear25()
    ensures Fib(24) == 46368 && Fib(25) == 75025 && Fib(26) == 121393
  {
    SmallValues();
    FibDoubling(12);
    assert Fib(26) == Fib(25) + Fib(24);
  }

  /** Terms at indices 46 to 51, reached through the doubling laws. */
  lemma ValuesNear50()
    ensures Fib(46) == 1836311903 && Fib(47) == 2971215073 && Fib(48) == 4807526976
    ensures Fib(49) == 7778742049 && Fib(50) == 12586269025 && Fib(51) == 20365011074
  {
    ValuesNear25();
    FibDoubling(25);
    assert Fib(51) == Fib(50) + Fib(49);
    assert Fib(50) == Fib(49) + Fib(48);
    assert Fib(49) == Fib(48) + Fib(47);
    assert Fib(48) == Fib(47) + Fib(46);
  }

  /** Terms at indices 20 and 100. */
  lemma ValuesAt20And100()
    ensures Fib(20) == 6765
    ensures Fib(100) == 354224848179261915075
  {
    SmallValues();
    FibDoubling(10);
    ValuesNear50();
    FibDoubling(50);
  }

  /** The text of Fib(100)'s value, built one leading prefix at a time: each
      step is the previous text with one digit appended. */
  lemma TextOfFib100()
    ensures NatToDecimal(354224848179261915075) == "354224848179261915075"
  {
    AppendDigit(3, 5);
    AppendDigit(35, 4);
    AppendDigit(354, 2);
    AppendDigit(3542, 2);
    AppendDigit(35422, 4);
    AppendDigit(354224, 8);
    AppendDigit(3542248, 4);
    AppendDigit(35422484, 8);
    AppendDigit(354224848, 1);
    AppendDigit(3542248481, 7);
    AppendDigit(35422484817, 9);
    AppendDigit(354224848179, 2);
    AppendDigit(3542248481792, 6);
    AppendDigit(35422484817926, 1);
    AppendDigit(354224848179261, 9);
    AppendDigit(3542248481792619, 1);
    AppendDigit(35422484817926191, 5);
    AppendDigit(354224848179261915, 0);
    AppendDigit(3542248481792619150, 7);
    AppendDigit(35422484817926191507, 5);
  }

  /** The texts for the known values Fib(0..20) and Fib(100). */
  lemma KnownValues()
    ensures NatToDecimal(Fib(0)) == "0"
    ensures NatToDecimal(Fib(1)) == "1"
    ensures NatToDecimal(Fib(2)) == "1"
    ensures NatToDecimal(Fib(10)) == "55"
    ensures NatToDecimal(Fib(20)) == "6765"
    ensures NatToDecimal(Fib(100)) == "354224848179261915075"
  {
    SmallValues();
    ValuesAt20And100();
    TextOfFib100();
  }

  /** Results outgrow 32- and 64-bit words well inside the u32 index range, so
      the accumulators must be unbounded to stay exact. */
  lemma ExceedsMachineWords()
    ensures Fib(48) >= U32_LIMIT
    ensures Fib(94) >= U64_LIMIT
  {
    ValuesNear50();
    FibDoubling(47);
  }
}
