/** The array-indexing exercise: an index read as a `usize` is wrapped into
    the bounds of a fixed five-element array, and classified by whether 4, 3
    or 2 divides it. */
module Arrays {

  /** Range of a Rust `usize` on a 64-bit target. */
  const USIZE_LIMIT: nat := 0x1_0000_0000_0000_0000
  type Usize = n: nat | n < USIZE_LIMIT

  /** The array `a` of the exercise. */
  const Elements: seq<int> := [1, 2, 3, 4, 5]

  /** `num % a.len()`: the index actually used. It is in bounds and leaves
      the same remainder as `num` modulo the length. */
  function WrapIndex(num: Usize): (i: nat)
    ensures i < |Elements|
    ensures i <= num && (num - i) % |Elements| == 0
  {
    num % |Elements|
  }

  /** `a[index]` after wrapping: never out of bounds, and for the array
      [1, 2, 3, 4, 5] it is the remainder plus one. */
  function ElementAt(num: Usize): (e: int)
    ensures e in Elements
    ensures e == num % 5 + 1
  {
    Elements[WrapIndex(num)]
  }

  /** An index below the length is used unchanged. */
  lemma WrapIndexSmall(num: Usize)
    requires num < |Elements|
    ensures WrapIndex(num) == num
  {
  }

  /** Indices five apart read the same element. */
  lemma ElementAtPeriodic(num: Usize)
    requires num + 5 < USIZE_LIMIT
    ensures ElementAt(num + 5) == ElementAt(num)
  {
  }

  /** The message `modulo` prints, as a value. */
  datatype Divisibility = By4 | By3 | By2 | NotDivisible

  /** `modulo(num)`: the first of 4, 3, 2 that divides `num` wins. */
  function Modulo(num: Usize): (d: Divisibility)
    ensures d == By4 <==> num % 4 == 0
    ensures d == By3 <==> num % 3 == 0 && num % 4 != 0
    ensures d == By2 <==> num % 2 == 0 && num % 4 != 0 && num % 3 != 0
    ensures d == NotDivisible <==> num % 4 != 0 && num % 3 != 0 && num % 2 != 0
  {
    if num % 4 == 0 then By4
    else if num % 3 == 0 then By3
    else if num % 2 == 0 then By2
    else NotDivisible
  }

  /** Independent reference: the classification of each residue modulo 12,
      the least common multiple of 4, 3 and 2. */
  const ByResidue: seq<Divisibility> :=
    [By4, NotDivisible, By2, By3, By4, NotDivisible, By3, NotDivisible, By4, By3, By2, NotDivisible]

  /** Adding a multiple of 4, 3 or 2 keeps the remainder by that number.
      With a fixed divisor each is linear; ResiduesOf12 uses them because the
      solver does not reliably prove it on its own. */
  lemma AddMultipleOf4(m: nat, r: nat)
    ensures (4 * m + r) % 4 == r % 4
  {
  }

  lemma AddMultipleOf3(m: nat, r: nat)
    ensures (3 * m + r) % 3 == r % 3
  {
  }

  lemma AddMultipleOf2(m: nat, r: nat)
    ensures (2 * m + r) % 2 == r % 2
  {
  }

  /** Remainders by 4, 3 and 2 are determined by the remainder by 12. */
  lemma ResiduesOf12(num: nat)
    ensures num % 4 == (num % 12) % 4
    ensures num % 3 == (num % 12) % 3
    ensures num % 2 == (num % 12) % 2
  {
    var q, r := num / 12, num % 12;
    assert num == 12 * q + r;
    AddMultipleOf4(3 * q, r);
    AddMultipleOf3(4 * q, r);
    AddMultipleOf2(6 * q, r);
  }

  /** The reference table agrees with the priority chain on each residue. */
  lemma TableMatchesChain(r: nat)
    requires r < 12
    ensures r < |ByResidue|
    ensures ByResidue[r] == Modulo(r)
  {
  }

  /** The classification of `num` depends only on `num % 12`, and agrees with
      the reference table. */
  lemma ModuloByResidue(num: Usize)
    ensures Modulo(num) == ByResidue[num % 12]
  {
    ResiduesOf12(num);
    TableMatchesChain(num % 12);
  }

  /** "Divisible by 2" is reported only for numbers that are 2 modulo 4. */
  lemma By2MeansTwoModFour(num: Usize)
    requires Modulo(num) == By2
    ensures num % 4 == 2
  {
    ModuloByResidue(num);
    ResiduesOf12(num);
  }

  /** Multiples of 4 are reported as such even when 3 or 2 divides them too. */
  lemma MultiplesOfFour()
    ensures Modulo(0) == By4 && Modulo(12) == By4 && Modulo(24) == By4
  {
  }
}
