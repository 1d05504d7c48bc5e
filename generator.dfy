/**
 * numpy's random Generator, as the core uses it: every draw reads the next raw number of a
 * stream fixed by the seed and moves a cursor. The bit generator (PCG64) is not modelled: the
 * stream is whatever function of the seed the caller supplies.
 */
module Generator {
  import opened Outcomes

  const TwoTo53: nat := 0x20_0000_0000_0000

  /** What a draw consumed: its result and the stream position after it. */
  datatype Drawn<+T> = Drawn(result: Result<T>, next: nat)

  /** A float draw: 53 bits of the raw number, scaled into [0, 1). */
  function Unit(raw: nat): (x: real)
    ensures 0.0 <= x < 1.0
  {
    ((raw / 2048) % TwoTo53) as real / TwoTo53 as real
  }

  /** Number of raw draws a permutation of `n` elements consumes: one per position but the first. */
  function ShuffleDraws(n: nat): nat
  {
    if n == 0 then 0 else n - 1
  }

  /**
   * Fisher-Yates shuffle from the last position down: position i is exchanged with a
   * position j <= i drawn from the stream, then the prefix before i is shuffled.
   */
  function Shuffled<T>(s: seq<T>, draws: nat -> nat, pos: nat): (r: seq<T>)
    ensures |r| == |s|
    ensures multiset(r) == multiset(s)
    decreases |s|
  {
    if |s| <= 1 then s
    else
      var i := |s| - 1;
      var j := draws(pos) % |s|;
      var swapped := s[i := s[j]][j := s[i]];
      assert multiset(swapped) == multiset(s);
      assert swapped == swapped[..i] + [swapped[i]];
      Shuffled(swapped[..i], draws, pos + 1) + [swapped[i]]
  }

  class Rng {
    /** The raw numbers the bit generator produces, in order. */
    const stream: nat -> nat
    /** How many raw numbers have been consumed. */
    var pos: nat

    constructor (seed: int, bitGenerator: int -> (nat -> nat))
      ensures stream == bitGenerator(seed) && pos == 0
    {
      stream := bitGenerator(seed);
      pos := 0;
    }

    /** random(): a float in [0, 1). */
    method Random() returns (x: real)
      modifies this
      ensures x == Unit(stream(old(pos))) && 0.0 <= x < 1.0
      ensures pos == old(pos) + 1
    {
      x := Unit(stream(pos));
      pos := pos + 1;
    }

    /** choice over a list of n elements: the index drawn, or a failure when the list is empty. */
    method Choice(n: nat) returns (r: Result<nat>)
      modifies this
      ensures n == 0 ==> r == Err(EmptyChoice) && pos == old(pos)
      ensures n > 0 ==> r == Ok(stream(old(pos)) % n) && r.value < n && pos == old(pos) + 1
    {
      if n == 0 {
        return Err(EmptyChoice);
      }
      r := Ok(stream(pos) % n);
      pos := pos + 1;
    }

    /** integers(low, high): a number in [low, high), or a failure when the range is empty. */
    method Integers(low: int, high: int) returns (r: Result<int>)
      modifies this
      ensures high <= low ==> r == Err(EmptyRange) && pos == old(pos)
      ensures low < high ==> r == Ok(low + stream(old(pos)) % (high - low)) && low <= r.value < high
      ensures low < high ==> pos == old(pos) + 1
    {
      if high <= low {
        return Err(EmptyRange);
      }
      r := Ok(low + stream(pos) % (high - low));
      pos := pos + 1;
    }

    /** permutation(s): a shuffled copy of s; s itself is a value and stays as it was. */
    method Permutation<T>(s: seq<T>) returns (r: seq<T>)
      modifies this
      ensures r == Shuffled(s, stream, old(pos))
      ensures pos == old(pos) + ShuffleDraws(|s|)
    {
      r := Shuffled(s, stream, pos);
      pos := pos + ShuffleDraws(|s|);
    }
  }
}
