/** The stream of values that `kotlin.random.Random.nextDouble()` hands out.
    The generator itself is not modelled: its i-th answer is `source(i)`,
    supplied by whoever creates the stream, so that every transition is a
    deterministic function of the draws it reads and of the order it reads them in. */
module Draws {

  class DrawStream {
    /** The values the generator returns, in the order it returns them. */
    const source: nat -> real
    /** How many values have been drawn so far. */
    var position: nat

    constructor (source: nat -> real)
      ensures this.source == source && position == 0
    {
      this.source := source;
      position := 0;
    }

    /** `Random.nextDouble()`: the next value of the stream. */
    method NextDouble() returns (d: real)
      modifies this
      ensures d == source(old(position))
      ensures position == old(position) + 1
    {
      d := source(position);
      position := position + 1;
    }
  }
}
