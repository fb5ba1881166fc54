/** Java's 32-bit `int`: its range, its wrap-around addition and the left fold
    that `IntStream.sum()` performs on a sequential stream. */
module JavaInt {

  const MinInt: int := -0x8000_0000
  const MaxInt: int := 0x7fff_ffff
  const Modulus: int := 0x1_0000_0000

  type Int32 = x: int | -0x8000_0000 <= x <= 0x7fff_ffff

  /** The int that Java stores for the mathematical integer x (two's complement truncation). */
  function Wrap(x: int): (r: Int32)
  {
    (x - MinInt) % Modulus + MinInt
  }

  lemma WrapInRange(x: int)
    requires MinInt <= x <= MaxInt
    ensures Wrap(x) == x
  {
  }

  lemma WrapPeriodic(x: int)
    ensures Wrap(x + Modulus) == Wrap(x)
    ensures Wrap(x - Modulus) == Wrap(x)
  {
  }

  /** Java `a + b` on two ints: overflow wraps around. */
  function AddInt(a: Int32, b: Int32): (r: Int32)
    ensures r == Wrap(a + b)
  {
    var s := a + b;
    if s > MaxInt then
      WrapPeriodic(s - Modulus);
      s - Modulus
    else if s < MinInt then
      WrapPeriodic(s);
      s + Modulus
    else
      s
  }

  /** The mathematical sum, with no width limit. */
  function Sum(xs: seq<int>): int
  {
    if xs == [] then 0 else xs[0] + Sum(xs[1..])
  }

  /** `IntStream.sum()` on a sequential stream: `reduce(0, Integer::sum)`, a left
      fold with wrap-around at every step. */
  function IntStreamSum(xs: seq<Int32>): Int32
  {
    SumFrom(0, xs)
  }

  function SumFrom(acc: Int32, xs: seq<Int32>): Int32
    decreases |xs|
  {
    if xs == [] then acc else SumFrom(AddInt(acc, xs[0]), xs[1..])
  }

  lemma {:induction false} SumFromIsWrappedSum(acc: Int32, xs: seq<Int32>)
    ensures SumFrom(acc, xs) == Wrap(acc + Sum(xs))
    decreases |xs|
  {
    if xs == [] {
      WrapInRange(acc);
    } else {
      var next := AddInt(acc, xs[0]);
      SumFromIsWrappedSum(next, xs[1..]);
      var s := acc + xs[0];
      if s > MaxInt {
        WrapPeriodic(acc + Sum(xs));
      } else if s < MinInt {
        WrapPeriodic(acc + Sum(xs) + Modulus);
      }
    }
  }

  /** The stream sum is the true sum truncated to 32 bits once, at the end. */
  lemma IntStreamSumIsWrappedSum(xs: seq<Int32>)
    ensures IntStreamSum(xs) == Wrap(Sum(xs))
  {
    SumFromIsWrappedSum(0, xs);
  }

  /** When the true total fits in an int, the stream sum is exactly the true total. */
  lemma IntStreamSumExact(xs: seq<Int32>)
    requires MinInt <= Sum(xs) <= MaxInt
    ensures IntStreamSum(xs) == Sum(xs)
  {
    IntStreamSumIsWrappedSum(xs);
    WrapInRange(Sum(xs));
  }

  lemma {:induction false} SumConcat(a: seq<int>, b: seq<int>)
    ensures Sum(a + b) == Sum(a) + Sum(b)
    decreases |a|
  {
    if a == [] {
      assert a + b == b;
    } else {
      assert (a + b)[1..] == a[1..] + b;
      SumConcat(a[1..], b);
    }
  }

  lemma {:induction false} SumPermutation(xs: seq<int>, ys: seq<int>)
    requires multiset(xs) == multiset(ys)
    ensures Sum(xs) == Sum(ys)
    decreases |xs|
  {
    if xs != [] {
      assert xs[0] in multiset(ys);
      var i :| 0 <= i < |ys| && ys[i] == xs[0];
      var rest := ys[..i] + ys[i + 1..];
      assert ys == ys[..i] + [ys[i]] + ys[i + 1..];
      assert xs == [xs[0]] + xs[1..];
      assert multiset(ys) == multiset(ys[..i]) + multiset{ys[i]} + multiset(ys[i + 1..]);
      assert multiset(rest) == multiset(ys[..i]) + multiset(ys[i + 1..]);
      assert multiset(xs) == multiset{xs[0]} + multiset(xs[1..]);
      assert multiset(rest) == multiset(ys) - multiset{ys[i]};
      assert multiset(xs[1..]) == multiset(xs) - multiset{xs[0]};
      SumPermutation(xs[1..], rest);
      SumConcat(ys[..i] + [ys[i]], ys[i + 1..]);
      SumConcat(ys[..i], [ys[i]]);
      SumConcat(ys[..i], ys[i + 1..]);
    }
  }

  /** The stream sum does not depend on the order of its elements. */
  lemma IntStreamSumOrderIndependent(xs: seq<Int32>, ys: seq<Int32>)
    requires multiset(xs) == multiset(ys)
    ensures IntStreamSum(xs) == IntStreamSum(ys)
  {
    IntStreamSumIsWrappedSum(xs);
    IntStreamSumIsWrappedSum(ys);
    SumPermutation(xs, ys);
  }
}
