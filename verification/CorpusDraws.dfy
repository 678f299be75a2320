/** The corpus planner's seeded stream: a 32-bit generator, bounded draws and an in-place shuffle. */
module CorpusDraws {
  const WORD: nat := 0x1_0000_0000

  /** One step of the generator, `Math.imul` and `>>> 0` written as arithmetic modulo 2^32. */
  function Next(value: nat): (r: nat)
    ensures r < WORD
  {
    (value * 1664525 + 1013904223) % WORD
  }

  const INVERSE: nat := 4276115653

  /** Every state is left by some draw: the generator's factor has an inverse modulo 2^32. */
  lemma Reached(state: nat) returns (value: nat)
    requires state < WORD
    ensures value < WORD && Next(value) == state
  {
    var x := state + WORD - 1013904223;
    var product := x * INVERSE;
    value := product % WORD;
    var quotient := product / WORD;
    var wraps := x * 1657219 - quotient * 1664525 + 1;
    assert INVERSE * 1664525 == 1657219 * WORD + 1;
    assert value * 1664525 + 1013904223 == state + wraps * WORD by {
      assert value == x * INVERSE - quotient * WORD;
      assert value * 1664525 == x * (INVERSE * 1664525) - quotient * 1664525 * WORD;
      assert x * (1657219 * WORD + 1) == x * 1657219 * WORD + x;
    }
    Wrapped(state, wraps);
  }

  lemma Wrapped(state: nat, wraps: int)
    requires state < WORD
    ensures (state + wraps * WORD) % WORD == state
  {
  }

  /** The state after `n` draws. */
  function Advance(value: nat, n: nat): (r: nat)
    decreases n
  {
    if n == 0 then value else Advance(Next(value), n - 1)
  }

  /** The number drawn by the step that leaves `value`. */
  function Drawn(value: nat, low: int, high: int): (r: int)
    requires low <= high
    ensures low <= r <= high
  {
    low + (value / 256) % (high - low + 1)
  }

  /** The bits a draw keeps of the generator state. */
  const REACH: nat := 0x100_0000

  lemma SmallMod(n: nat, m: nat)
    requires m > 0
    ensures n % m <= n && (n < m ==> n % m == n)
  {
  }

  /** A draw reaches only the places below 2^24, ... */
  lemma DrawnBelow(state: nat, length: nat)
    requires state < WORD && length > 0
    ensures 0 <= Drawn(state, 0, length - 1) < length && Drawn(state, 0, length - 1) < REACH
  {
    SmallMod(state / 256, length);
  }

  /** ... and each of those. */
  lemma DrawnAt(state: nat, length: nat, i: nat)
    requires i < length && state == i * 256
    ensures Drawn(state, 0, length - 1) == i
  {
    SmallMod(i, length);
    assert state / 256 == i;
  }

  function Swap<T>(s: seq<T>, i: nat, j: nat): (r: seq<T>)
    requires i < |s| && j < |s|
    ensures |r| == |s|
  {
    s[i := s[j]][j := s[i]]
  }

  /** Fisher-Yates from position `i` down, from generator state `value`. */
  function ShuffleFrom<T>(s: seq<T>, i: nat, value: nat): (r: seq<T>)
    requires i < |s| || i == 0
    ensures |r| == |s|
    decreases i
  {
    if i == 0 then s
    else ShuffleFrom(Swap(s, i, Drawn(Next(value), 0, i)), i - 1, Next(value))
  }

  function Shuffled<T>(s: seq<T>, value: nat): (r: seq<T>)
    ensures |r| == |s|
  {
    if s == [] then s else ShuffleFrom(s, |s| - 1, value)
  }

  /** A shuffle draws once for every position but the first, whatever it shuffles. */
  function AfterShuffle(length: nat, value: nat): (r: nat) {
    if length == 0 then value else Advance(value, length - 1)
  }

  lemma SwapPermutes<T>(s: seq<T>, i: nat, j: nat)
    requires i < |s| && j < |s|
    ensures multiset(Swap(s, i, j)) == multiset(s)
  {
  }

  lemma {:induction false} ShuffleFromPermutes<T>(s: seq<T>, i: nat, value: nat)
    requires i < |s| || i == 0
    ensures multiset(ShuffleFrom(s, i, value)) == multiset(s)
    decreases i
  {
    if i > 0 {
      var j := Drawn(Next(value), 0, i);
      SwapPermutes(s, i, j);
      ShuffleFromPermutes(Swap(s, i, j), i - 1, Next(value));
    }
  }

  /** A shuffle is a permutation, for every seed. */
  lemma ShufflePermutes<T>(s: seq<T>, value: nat)
    ensures multiset(Shuffled(s, value)) == multiset(s)
  {
    if s != [] { ShuffleFromPermutes(s, |s| - 1, value); }
  }

  class Draws {
    var value: nat

    constructor (seed: nat)
      ensures value == seed % WORD
    {
      value := seed % WORD;
    }

    method Integer(low: int, high: int) returns (r: int)
      requires low <= high
      modifies this
      ensures value == Next(old(value)) && r == Drawn(value, low, high)
    {
      value := Next(value);
      r := low + (value / 256) % (high - low + 1);
    }

    /** Swaps in place, from the last position down. */
    method Shuffle<T>(values: array<T>)
      modifies this, values
      ensures values[..] == Shuffled(old(values[..]), old(value))
      ensures value == AfterShuffle(values.Length, old(value))
    {
      ghost var all, seed := values[..], value;
      var i := values.Length - 1;
      while i > 0
        invariant values.Length > 0 ==> 0 <= i < values.Length
        invariant values.Length > 0 ==> ShuffleFrom(all, |all| - 1, seed) == ShuffleFrom(values[..], i, value)
        invariant values.Length > 0 ==> Advance(seed, |all| - 1) == Advance(value, i)
        invariant values.Length == 0 ==> value == seed && i == -1
      {
        ghost var before := values[..];
        var j := Integer(0, i);
        values[i], values[j] := values[j], values[i];
        assert values[..] == Swap(before, i, j);
        i := i - 1;
      }
    }
  }
}
