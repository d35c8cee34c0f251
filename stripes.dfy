/** The state of one `Block` of MainActivity.kt taken as a value, and its
    transitions as functions of that value and of the random draws they read.
    The `Block` class in module Blocks is proved to follow these functions. */
module Stripes {
  import opened Signs

  /** A snapshot of a `Block`: the two `var` fields and the four `val` parameters. */
  datatype Stripe = Stripe(stripeWidth: int, offset: int, blockWidth: int,
                           minStripeWidth: int, maxStripeWidth: int,
                           preferredStripeWidth: int)

  /** What a transition produces: the new snapshot and the index of the next unread draw. */
  datatype Step = Step(stripe: Stripe, next: nat)

  /** `Block()` with every argument left at its default. */
  const DefaultStripe := Stripe(3, 2, 8, 2, 5, 2)

  const ChangeWidthChance: real := 0.15
  const MoveChance: real := 0.4

  /** The parameters `next()` needs to keep a block valid; the source never checks them.
      `newWidth()` alone needs only `minStripeWidth < maxStripeWidth <= blockWidth`; `newOffset()` needs
      the strict bound so that a stripe never fills its cell. */
  predicate WellFormed(s: Stripe)
  {
    s.minStripeWidth < s.maxStripeWidth < s.blockWidth
  }

  /** The block invariant: the width within its bounds and the stripe inside the cell. */
  predicate Valid(s: Stripe)
  {
    s.minStripeWidth <= s.stripeWidth <= s.maxStripeWidth &&
    0 <= s.offset <= s.blockWidth - s.stripeWidth
  }

  /** The four `val` parameters of `t` are those of `s`. */
  predicate SameParameters(s: Stripe, t: Stripe)
  {
    t.blockWidth == s.blockWidth &&
    t.minStripeWidth == s.minStripeWidth &&
    t.maxStripeWidth == s.maxStripeWidth &&
    t.preferredStripeWidth == s.preferredStripeWidth
  }

  /** `picks()` does not throw: the list size is not negative and, when the loop
      runs at all, every index it writes lies inside the list. */
  predicate InCell(s: Stripe)
  {
    0 <= s.blockWidth &&
    (s.stripeWidth <= 0 || (0 <= s.offset && s.offset + s.stripeWidth <= s.blockWidth))
  }

  function Distance(a: int, b: int): nat
  {
    if a <= b then b - a else a - b
  }

  /** `newOffset()`: bounce off either edge, otherwise move by the sign of a fair coin. */
  function MovedOffset(s: Stripe, draws: nat -> real, at: nat): (t: Step)
    ensures t.stripe.stripeWidth == s.stripeWidth && SameParameters(s, t.stripe)
    ensures Distance(t.stripe.offset, s.offset) <= 1
    ensures at <= t.next <= at + 1
  {
    if s.offset == 0 then
      Step(s.(offset := 1), at)
    else if s.offset == s.blockWidth - s.stripeWidth then
      Step(s.(offset := s.offset - 1), at)
    else
      Step(s.(offset := s.offset + RealSign(draws(at) - 0.5)), at + 1)
  }

  /** The first half of `newWidth()`: the new stripe width and the next unread draw. */
  function ResizedWidth(s: Stripe, draws: nat -> real, at: nat): (r: (int, nat))
    ensures Distance(r.0, s.stripeWidth) <= 1
    ensures at <= r.1 <= at + 1
  {
    if s.stripeWidth == s.minStripeWidth then
      (s.stripeWidth + 1, at)
    else if s.stripeWidth == s.maxStripeWidth then
      (s.stripeWidth - 1, at)
    else if s.stripeWidth == s.preferredStripeWidth then
      (s.stripeWidth + RealSign(draws(at) - 0.5), at + 1)
    else
      var dir := IntSign(s.preferredStripeWidth - s.stripeWidth);
      (s.stripeWidth + dir * RealSign(draws(at) - 0.25), at + 1)
  }

  /** `newWidth()`: resize, then repair the offset against the new width. */
  function ChangedWidth(s: Stripe, draws: nat -> real, at: nat): (t: Step)
    ensures SameParameters(s, t.stripe)
    ensures t.stripe.stripeWidth == ResizedWidth(s, draws, at).0
    ensures at <= t.next <= at + 2
  {
    var (width, at') := ResizedWidth(s, draws, at);
    var limit := s.blockWidth - width;
    if s.offset > limit then
      Step(s.(stripeWidth := width, offset := limit), at')
    else if 0 < s.offset < limit then
      var goRight := draws(at') > 0.5;
      var isWider := width > s.stripeWidth;
      var offset :=
        if isWider && !goRight then s.offset - 1
        else if !isWider && goRight then s.offset + 1
        else s.offset;
      Step(s.(stripeWidth := width, offset := offset), at' + 1)
    else
      Step(s.(stripeWidth := width), at')
  }

  /** `next()`: one draw picks a width change, an offset move or no change at all. */
  function NextState(s: Stripe, draws: nat -> real, at: nat): (t: Step)
    ensures SameParameters(s, t.stripe)
    ensures at + 1 <= t.next <= at + 3
  {
    var r := draws(at);
    if r < ChangeWidthChance then ChangedWidth(s, draws, at + 1)
    else if r < MoveChance then MovedOffset(s, draws, at + 1)
    else Step(s, at + 1)
  }

  /** `n` successive calls of `next()`, each on the block the previous one returned. */
  function Run(s: Stripe, draws: nat -> real, at: nat, n: nat): (t: Step)
    ensures SameParameters(s, t.stripe)
    ensures at + n <= t.next <= at + 3 * n
    decreases n
  {
    if n == 0 then Step(s, at)
    else
      var step := NextState(s, draws, at);
      Run(step.stripe, draws, step.next, n - 1)
  }

  /** `picks()`: 1 for every thread the stripe raises, 0 for the others. */
  function Mask(s: Stripe): (m: seq<int>)
    requires InCell(s)
    ensures |m| == s.blockWidth
    ensures forall i :: 0 <= i < |m| ==> m[i] == 0 || m[i] == 1
    ensures forall i :: 0 <= i < |m| ==> (m[i] == 1 <==> s.offset <= i < s.offset + s.stripeWidth)
  {
    seq(s.blockWidth, i requires 0 <= i < s.blockWidth =>
      if s.offset <= i < s.offset + s.stripeWidth then 1 else 0)
  }

  // ---------------------------------------------------------------------------
  // newOffset()

  /** `newOffset()` moves only the offset: to 1 from the left edge, one step left
      from the right edge, and by the sign of the coin in between. */
  lemma MovedOffsetRules(s: Stripe, draws: nat -> real, at: nat)
    ensures var t := MovedOffset(s, draws, at).stripe;
      t.stripeWidth == s.stripeWidth && SameParameters(s, t) &&
      (s.offset == 0 ==> t.offset == 1) &&
      (s.offset != 0 && s.offset == s.blockWidth - s.stripeWidth ==> t.offset == s.offset - 1)
    ensures s.offset != 0 && s.offset != s.blockWidth - s.stripeWidth ==>
      var t := MovedOffset(s, draws, at).stripe;
      (t.offset == s.offset + 1 <==> draws(at) > 0.5) &&
      (t.offset == s.offset - 1 <==> draws(at) < 0.5) &&
      (t.offset == s.offset <==> draws(at) == 0.5)
  {
  }

  /** Only the interior case reads a draw. */
  lemma MovedOffsetDraws(s: Stripe, draws: nat -> real, at: nat)
    ensures MovedOffset(s, draws, at).next ==
      if s.offset == 0 || s.offset == s.blockWidth - s.stripeWidth then at else at + 1
  {
  }

  /** While the stripe is narrower than the cell, `newOffset()` keeps it inside the cell. */
  lemma MovedOffsetStaysInCell(s: Stripe, draws: nat -> real, at: nat)
    requires s.stripeWidth < s.blockWidth
    requires 0 <= s.offset <= s.blockWidth - s.stripeWidth
    ensures var t := MovedOffset(s, draws, at).stripe;
      0 <= t.offset <= t.blockWidth - t.stripeWidth
  {
  }

  /** A valid stripe as wide as its cell sits at offset 0, and the forced step to 1
      pushes it out: `offset > blockWidth - stripeWidth` afterwards. */
  lemma MovedOffsetEscapesFullStripe(s: Stripe, draws: nat -> real, at: nat)
    requires Valid(s) && s.stripeWidth == s.blockWidth
    ensures var t := MovedOffset(s, draws, at).stripe;
      s.offset == 0 && t.offset == 1 && t.offset > t.blockWidth - t.stripeWidth
  {
  }

  /** Such a stripe exists among blocks with in-range parameters: `Block(8, 0, 8, 2, 8, 2)`. */
  lemma FullStripeIsValid()
    ensures Valid(DefaultStripe.(stripeWidth := 8, offset := 0, maxStripeWidth := 8))
  {
  }

  // ---------------------------------------------------------------------------
  // newWidth()

  /** The width stays within its bounds, bounces off them by exactly one, and
      otherwise changes by at most one. */
  lemma ResizedWidthBounds(s: Stripe, draws: nat -> real, at: nat)
    requires s.minStripeWidth < s.maxStripeWidth
    requires s.minStripeWidth <= s.stripeWidth <= s.maxStripeWidth
    ensures var (width, _) := ResizedWidth(s, draws, at);
      s.minStripeWidth <= width <= s.maxStripeWidth &&
      Distance(width, s.stripeWidth) <= 1 &&
      (s.stripeWidth == s.minStripeWidth ==> width == s.minStripeWidth + 1) &&
      (s.stripeWidth == s.maxStripeWidth ==> width == s.maxStripeWidth - 1)
  {
  }

  /** At the preferred width, a fair coin widens, narrows or (on exactly 0.5) keeps it. */
  lemma ResizedWidthAtPreferred(s: Stripe, draws: nat -> real, at: nat)
    requires s.stripeWidth != s.minStripeWidth && s.stripeWidth != s.maxStripeWidth
    requires s.stripeWidth == s.preferredStripeWidth
    ensures var (width, _) := ResizedWidth(s, draws, at);
      (width == s.stripeWidth + 1 <==> draws(at) > 0.5) &&
      (width == s.stripeWidth - 1 <==> draws(at) < 0.5) &&
      (width == s.stripeWidth <==> draws(at) == 0.5)
  {
  }

  /** Off the bounds and off the preferred width, a draw above 0.25 moves the width
      one step towards the preferred width, one below 0.25 one step away from it,
      and a draw of exactly 0.25 keeps it. */
  lemma ResizedWidthDrift(s: Stripe, draws: nat -> real, at: nat)
    requires s.stripeWidth != s.minStripeWidth && s.stripeWidth != s.maxStripeWidth
    requires s.stripeWidth != s.preferredStripeWidth
    ensures var (width, _) := ResizedWidth(s, draws, at);
      var towards := IntSign(s.preferredStripeWidth - s.stripeWidth);
      (draws(at) > 0.25 ==> width == s.stripeWidth + towards) &&
      (draws(at) < 0.25 ==> width == s.stripeWidth - towards)
    ensures var (width, _) := ResizedWidth(s, draws, at);
      var before := Distance(s.stripeWidth, s.preferredStripeWidth);
      (draws(at) > 0.25 ==> Distance(width, s.preferredStripeWidth) == before - 1) &&
      (draws(at) < 0.25 ==> Distance(width, s.preferredStripeWidth) == before + 1) &&
      (draws(at) == 0.25 ==> width == s.stripeWidth)
  {
  }

  /** Resizing reads a draw unless the width sits on one of its bounds. */
  lemma ResizedWidthDraws(s: Stripe, draws: nat -> real, at: nat)
    ensures ResizedWidth(s, draws, at).1 ==
      if s.stripeWidth == s.minStripeWidth || s.stripeWidth == s.maxStripeWidth then at else at + 1
  {
  }

  /** After `newWidth()` the stripe is inside the cell again: an overflowing offset
      is clamped to the new right edge; an interior offset reads one more draw and
      steps left exactly when the stripe grew and the draw is at most 0.5, right
      exactly when it did not grow (an unchanged width included) and the draw is
      above 0.5; offset 0 stays 0. Only the width and the offset change. */
  lemma ChangedWidthRepairsOffset(s: Stripe, draws: nat -> real, at: nat)
    requires s.minStripeWidth < s.maxStripeWidth <= s.blockWidth
    requires s.minStripeWidth <= s.stripeWidth <= s.maxStripeWidth
    requires 0 <= s.offset
    ensures var t := ChangedWidth(s, draws, at).stripe;
      SameParameters(s, t) &&
      t.stripeWidth == ResizedWidth(s, draws, at).0 &&
      Valid(t) &&
      (s.offset > t.blockWidth - t.stripeWidth ==> t.offset == t.blockWidth - t.stripeWidth) &&
      (s.offset == 0 ==> t.offset == 0)
    ensures var (width, at') := ResizedWidth(s, draws, at);
      var t := ChangedWidth(s, draws, at);
      0 < s.offset < s.blockWidth - width ==>
        t.next == at' + 1 &&
        (t.stripe.offset == s.offset - 1 <==> width > s.stripeWidth && !(draws(at') > 0.5)) &&
        (t.stripe.offset == s.offset + 1 <==> width <= s.stripeWidth && draws(at') > 0.5) &&
        (t.stripe.offset == s.offset <==>
           (width > s.stripeWidth && draws(at') > 0.5) || (width <= s.stripeWidth && !(draws(at') > 0.5)))
    ensures var (width, at') := ResizedWidth(s, draws, at);
      !(0 < s.offset < s.blockWidth - width) ==> ChangedWidth(s, draws, at).next == at'
  {
    ResizedWidthBounds(s, draws, at);
  }

  // ---------------------------------------------------------------------------
  // next()

  /** A choice draw of at least `moveChance` returns the block unchanged. */
  lemma NextStateIdle(s: Stripe, draws: nat -> real, at: nat)
    requires draws(at) >= MoveChance
    ensures NextState(s, draws, at) == Step(s, at + 1)
  {
  }

  /** `next()` keeps a well-formed block valid and never touches its parameters. */
  lemma NextStateValid(s: Stripe, draws: nat -> real, at: nat)
    requires WellFormed(s) && Valid(s)
    ensures var t := NextState(s, draws, at).stripe;
      SameParameters(s, t) && WellFormed(t) && Valid(t)
  {
    var r := draws(at);
    if r < ChangeWidthChance {
      ChangedWidthRepairsOffset(s, draws, at + 1);
    } else if r < MoveChance {
      MovedOffsetRules(s, draws, at + 1);
      MovedOffsetStaysInCell(s, draws, at + 1);
    }
  }

  /** Every block reachable from a valid, well-formed one by calls of `next()` is
      valid, has the same parameters, and took between one and three draws per call. */
  lemma {:induction false} RunValid(s: Stripe, draws: nat -> real, at: nat, n: nat)
    requires WellFormed(s) && Valid(s)
    ensures var t := Run(s, draws, at, n);
      SameParameters(s, t.stripe) && WellFormed(t.stripe) && Valid(t.stripe) &&
      at + n <= t.next <= at + 3 * n
    decreases n
  {
    if n > 0 {
      var step := NextState(s, draws, at);
      NextStateValid(s, draws, at);
      RunValid(step.stripe, draws, step.next, n - 1);
    }
  }

  /** With a width bound of at least 0, as `Block()` has, every block reachable by
      calls of `next()` keeps its width and its offset within `[0, blockWidth]`. */
  lemma RunInRange(s: Stripe, draws: nat -> real, at: nat, n: nat)
    requires WellFormed(s) && Valid(s) && 0 <= s.minStripeWidth
    ensures var t := Run(s, draws, at, n).stripe;
      0 <= t.stripeWidth < t.blockWidth &&
      0 <= t.offset && t.offset + t.stripeWidth <= t.blockWidth
  {
    RunValid(s, draws, at, n);
  }

  // ---------------------------------------------------------------------------
  // picks()

  /** `n` copies of `v`. */
  function Repeat(v: int, n: nat): (r: seq<int>)
    ensures |r| == n
    ensures forall i :: 0 <= i < n ==> r[i] == v
  {
    if n == 0 then [] else [v] + Repeat(v, n - 1)
  }

  lemma {:induction false} RepeatCount(v: int, n: nat, w: int)
    ensures multiset(Repeat(v, n))[w] == if w == v then n else 0
  {
    if n > 0 {
      RepeatCount(v, n - 1, w);
      assert Repeat(v, n) == [v] + Repeat(v, n - 1);
    }
  }

  /** A stripe inside its cell raises exactly `stripeWidth` threads and lowers the rest. */
  lemma MaskCounts(s: Stripe)
    requires 0 <= s.stripeWidth && 0 <= s.offset && s.offset + s.stripeWidth <= s.blockWidth
    ensures InCell(s)
    ensures multiset(Mask(s))[1] == s.stripeWidth
    ensures multiset(Mask(s))[0] == s.blockWidth - s.stripeWidth
  {
    var rest := s.blockWidth - s.offset - s.stripeWidth;
    assert Mask(s) == Repeat(0, s.offset) + Repeat(1, s.stripeWidth) + Repeat(0, rest);
    RepeatCount(0, s.offset, 1);
    RepeatCount(1, s.stripeWidth, 1);
    RepeatCount(0, rest, 1);
    RepeatCount(0, s.offset, 0);
    RepeatCount(1, s.stripeWidth, 0);
    RepeatCount(0, rest, 0);
  }

  /** The default block raises threads 2, 3 and 4 of eight. */
  lemma DefaultMask()
    ensures Valid(DefaultStripe) && WellFormed(DefaultStripe)
    ensures Mask(DefaultStripe) == [0, 0, 1, 1, 1, 0, 0, 0]
  {
  }
}
