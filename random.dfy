/** The engine's global random number generator, as the generator uses it
    (WorldMapGenerator.cs:49, 73, 108). Its algorithm is not modelled: a
    seed is mapped to the sequence of values that Range then returns, and
    the generator only ever sees that sequence through a cursor. */
module Randomness {

  class Random {
    /** The values Range returns, in order, after InitState(seed). */
    const sequenceFor: int -> seq<int>
    /** The sequence of the last seed, and how much of it has been used. */
    var draws: seq<int>
    var pos: nat

    ghost predicate Valid()
      reads this
    {
      pos <= |draws|
    }

    constructor (sequenceFor: int -> seq<int>)
      ensures Valid() && this.sequenceFor == sequenceFor
      ensures draws == [] && pos == 0
    {
      this.sequenceFor := sequenceFor;
      draws := [];
      pos := 0;
    }

    /** Random.InitState: restart the sequence of `seed`. */
    method InitState(seed: int)
      modifies this
      ensures Valid() && draws == sequenceFor(seed) && pos == 0
    {
      draws := sequenceFor(seed);
      pos := 0;
    }

    /** Random.Range(lo, hi) on integers: the next value of the sequence,
        which the engine keeps in [lo, hi). */
    method Range(lo: int, hi: int) returns (r: int)
      requires Valid() && pos < |draws| && lo <= draws[pos] < hi
      modifies this
      ensures Valid() && draws == old(draws) && pos == old(pos) + 1
      ensures r == old(draws[pos]) && lo <= r < hi
    {
      r := draws[pos];
      pos := pos + 1;
    }
  }
}
