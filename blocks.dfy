/** `Block` of MainActivity.kt: a stripe of `stripeWidth` raised threads starting
    at `offset`, inside a cell of `blockWidth` threads. `newOffset()` and
    `newWidth()` update the two `var` fields in place; `next()` applies one of them
    to a copy and leaves the receiver alone. */
module Blocks {
  import opened Signs
  import opened Draws
  import opened Stripes

  class Block {
    var stripeWidth: int
    var offset: int
    const blockWidth: int
    const minStripeWidth: int
    const maxStripeWidth: int
    const preferredStripeWidth: int

    /** The block as a value. */
    function Snapshot(): Stripe
      reads this
    {
      Stripe(stripeWidth, offset, blockWidth, minStripeWidth, maxStripeWidth, preferredStripeWidth)
    }

    /** The primary constructor of the data class, with its default arguments. */
    constructor (stripeWidth: int := 3, offset: int := 2, blockWidth: int := 8,
                 minStripeWidth: int := 2, maxStripeWidth: int := 5,
                 preferredStripeWidth: int := 2)
      ensures Snapshot() == Stripe(stripeWidth, offset, blockWidth,
                                   minStripeWidth, maxStripeWidth, preferredStripeWidth)
    {
      this.stripeWidth := stripeWidth;
      this.offset := offset;
      this.blockWidth := blockWidth;
      this.minStripeWidth := minStripeWidth;
      this.maxStripeWidth := maxStripeWidth;
      this.preferredStripeWidth := preferredStripeWidth;
    }

    /** The data class's `copy()`: a new block with the same six properties. */
    method Copy() returns (b: Block)
      ensures fresh(b) && b.Snapshot() == Snapshot()
    {
      b := new Block(stripeWidth, offset, blockWidth, minStripeWidth, maxStripeWidth,
                     preferredStripeWidth);
    }

    /** `next()`: draw once, then change the width, move the offset or do nothing,
        on a copy; the receiver is never modified. */
    method Next(rng: DrawStream) returns (b: Block)
      modifies rng
      ensures fresh(b)
      ensures Snapshot() == old(Snapshot())
      ensures NextState(old(Snapshot()), rng.source, old(rng.position)) == Step(b.Snapshot(), rng.position)
    {
      b := Copy();
      var r := rng.NextDouble();
      if r < ChangeWidthChance {
        b.NewWidth(rng);
      } else if r < MoveChance {
        b.NewOffset(rng);
      }
    }

    /** `newOffset()`. */
    method NewOffset(rng: DrawStream)
      modifies this, rng
      ensures MovedOffset(old(Snapshot()), rng.source, old(rng.position)) == Step(Snapshot(), rng.position)
    {
      if offset == 0 {
        offset := 1;
      } else if offset == blockWidth - stripeWidth {
        offset := offset - 1;
      } else {
        var d := rng.NextDouble();
        offset := offset + RealSign(d - 0.5);
      }
    }

    /** `newWidth()`. */
    method NewWidth(rng: DrawStream)
      modifies this, rng
      ensures ChangedWidth(old(Snapshot()), rng.source, old(rng.position)) == Step(Snapshot(), rng.position)
    {
      var currentWidth := stripeWidth;
      if stripeWidth == minStripeWidth {
        stripeWidth := stripeWidth + 1;
      } else if stripeWidth == maxStripeWidth {
        stripeWidth := stripeWidth - 1;
      } else if stripeWidth == preferredStripeWidth {
        var d := rng.NextDouble();
        stripeWidth := stripeWidth + RealSign(d - 0.5);
      } else {
        var dir := IntSign(preferredStripeWidth - stripeWidth);
        var d := rng.NextDouble();
        stripeWidth := stripeWidth + dir * RealSign(d - 0.25);
      }
      if offset > blockWidth - stripeWidth {
        offset := blockWidth - stripeWidth;
      } else if offset > 0 && offset < blockWidth - stripeWidth {
        var d := rng.NextDouble();
        var goRight := d > 0.5;
        var isWider := stripeWidth > currentWidth;
        if isWider && !goRight {
          offset := offset - 1;
        } else if !isWider && goRight {
          offset := offset + 1;
        }
      }
    }

    /** `picks()`: a fresh list of `blockWidth` zeros with the stripe's threads set to 1. */
    method Picks() returns (r: seq<int>)
      requires InCell(Snapshot())
      ensures |r| == blockWidth
      ensures forall i :: 0 <= i < blockWidth ==> (r[i] == 1 <==> offset <= i < offset + stripeWidth)
      ensures forall i :: 0 <= i < blockWidth ==> (r[i] == 0 <==> !(offset <= i < offset + stripeWidth))
      ensures r == Mask(Snapshot())
    {
      var a := new int[blockWidth](_ => 0);
      var i := offset;
      while i < offset + stripeWidth
        invariant offset <= i
        invariant 0 < stripeWidth ==> i <= offset + stripeWidth
        invariant stripeWidth <= 0 ==> i == offset
        invariant forall j :: 0 <= j < blockWidth ==> a[j] == if offset <= j < i then 1 else 0
      {
        a[i] := 1;
        i := i + 1;
      }
      r := a[..];
    }
  }
}
