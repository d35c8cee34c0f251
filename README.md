# RandomPicks: the stripe blocks and the carpet grid, in Dafny

RandomPicks draws a woven "carpet". Each of two `Block`s holds a stripe of
`stripeWidth` raised threads that starts at `offset` inside a cell `blockWidth`
threads wide. Step by step the stripe drifts: `next()` draws a number and then
changes the width (`newWidth()`), moves the offset (`newOffset()`) or leaves the
block alone. `picks()` turns a block into a 0/1 mask of its cell. `makeCarpet()`
advances both blocks once per row and lays their masks side by side, in the order
a fixed threading list gives. This project models those parts of
`app/src/main/java/dev/annachiara/randompicks/MainActivity.kt` and proves their
bounds.

Files and modules:

- `signs.dfy`, module `Signs`: Kotlin's `sign` on `Double` (followed by `toInt()`)
  and on `Int`.
- `draws.dfy`, module `Draws`: `DrawStream` stands for the shared
  `Random.nextDouble()` generator. Its i-th answer is `source(i)`, a function the
  creator supplies. `position` counts the draws read so far. Every transition is
  therefore a deterministic function of the draws and of the order it reads them in.
- `stripes.dfy`, module `Stripes`: a `Block` taken as a value (`Stripe`). It holds
  the transitions as functions of a snapshot, the stream and the index of the next
  unread draw: `MovedOffset`, `ResizedWidth`, `ChangedWidth`, `NextState`, `Run`
  and `Mask`. The lemmas about them are here too.
- `blocks.dfy`, module `Blocks`: the `Block` class. Its `var` fields are
  `stripeWidth` and `offset`; its four `val`s are `const`s. `NewOffset` and
  `NewWidth` update the fields in place, and `Next` copies the block and mutates
  the copy. Each method is proved equal to its function in `Stripes`. `Picks` fills
  an array in a loop.
- `weaving.dfy`, module `Weaving`: the cell grid of `makeCarpet()`. It is an
  `array2<int>` with `threading.size * 8` rows and as many columns. Each cell holds
  the palette index (`interlacing[thread]`) that the source paints there.

Invariants and their assumptions. `Valid` means
`minStripeWidth <= stripeWidth <= maxStripeWidth` and
`0 <= offset <= blockWidth - stripeWidth`. The source never checks the parameters,
and each transition keeps `Valid` under a different condition on them:

- `newWidth()` needs `minStripeWidth < maxStripeWidth <= blockWidth` and
  `0 <= offset` (`ChangedWidthRepairsOffset`).
- `newOffset()` needs `stripeWidth < blockWidth`. A valid stripe as wide as its
  cell sits at offset 0, and the forced step to 1 pushes it out of the cell
  (`MovedOffsetEscapesFullStripe`).
- `next()` therefore needs `WellFormed`, that is
  `minStripeWidth < maxStripeWidth < blockWidth` (`NextStateValid`, `RunValid`).
- `picks()` needs only `InCell`: a list size of at least 0, and in-range writes
  whenever the stripe is wider than 0. `Block()` meets it (`DefaultMask`), and so
  do both blocks of `makeCarpet()` at every row (`AdvanceValid`).

Notes on the source itself:

- The comments at MainActivity.kt:88 ("randomly up or down") and :95 (75% towards
  the preferred width, 25% away) describe coin flips. The code takes the sign of
  `draw - 0.5` or `draw - 0.25`, so a draw exactly on the threshold gives 0 and
  leaves the width or the offset where it was. The model keeps that case
  (`MovedOffsetRules`, `ResizedWidthAtPreferred`, `ResizedWidthDrift`).
- The offset repair at MainActivity.kt:104-109 tests `isWider`, not "narrower". So
  when the draw is above 0.5, it also moves the offset right after a resize that
  left the width unchanged (`ChangedWidthRepairsOffset`).
- MainActivity.kt:134 sizes the grid with a literal 8 (`threading.size*8`), not
  with `blockWidth`. This is exact only because `makeCarpet()` builds its blocks
  with `Block()`, whose `blockWidth` is 8 (`AdvanceValid`, `PaintRow`). For the
  43-entry threading the grid is 344 cells a side (`ThreadingGrid`).

## Model

| member | source | states |
|---|---|---|
| `Signs.RealSign` | app/src/main/java/dev/annachiara/randompicks/MainActivity.kt:78 | `(x).sign.toInt()` is 1 exactly for positive x, -1 exactly for negative x, otherwise 0 |
| `Signs.IntSign` | app/src/main/java/dev/annachiara/randompicks/MainActivity.kt:94 | `(x).sign` on an Int is a unit with the sign of x, and 0 exactly at 0 |
| `Blocks.Block.constructor` | app/src/main/java/dev/annachiara/randompicks/MainActivity.kt:51-56 | `Block(...)` with defaults 3, 2, 8, 2, 5, 2 stores exactly its six arguments |
| `Blocks.Block.Copy` | app/src/main/java/dev/annachiara/randompicks/MainActivity.kt:61 | `copy()` yields a fresh block with the same six properties |
| `Blocks.Block.Next` | app/src/main/java/dev/annachiara/randompicks/MainActivity.kt:60-70 | `next()` returns a fresh block equal to `NextState` of the old one; the receiver is unchanged; the stream advances past exactly the draws `NextState` reads |
| `Blocks.Block.NewOffset` | app/src/main/java/dev/annachiara/randompicks/MainActivity.kt:72-80 | the in-place update leaves the block and the stream exactly where `MovedOffset` says |
| `Blocks.Block.NewWidth` | app/src/main/java/dev/annachiara/randompicks/MainActivity.kt:82-112 | the in-place update leaves the block and the stream exactly where `ChangedWidth` says |
| `Blocks.Block.Picks` | app/src/main/java/dev/annachiara/randompicks/MainActivity.kt:114-120 | for a stripe the source can write without an index error, the list has `blockWidth` entries, each 0 or 1, and entry i is 1 exactly when `offset <= i < offset + stripeWidth` |
| `Stripes.MovedOffset` | app/src/main/java/dev/annachiara/randompicks/MainActivity.kt:72-80 | `newOffset()` as a value: only the offset changes, by at most one, and at most one draw is read |
| `Stripes.ResizedWidth` | app/src/main/java/dev/annachiara/randompicks/MainActivity.kt:84-97 | the resize step of `newWidth()`: the width changes by at most one and at most one draw is read |
| `Stripes.ChangedWidth` | app/src/main/java/dev/annachiara/randompicks/MainActivity.kt:82-112 | `newWidth()` as a value: the parameters stay, the width is the resized one, and at most two draws are read |
| `Stripes.NextState` | app/src/main/java/dev/annachiara/randompicks/MainActivity.kt:60-70 | `next()` as a value: the parameters stay and one to three draws are read |
| `Stripes.Run` | app/src/main/java/dev/annachiara/randompicks/MainActivity.kt:60-70 | `n` calls of `next()`, each on the block the previous call returned: the parameters stay and `n` to `3n` draws are read |
| `Stripes.Mask` | app/src/main/java/dev/annachiara/randompicks/MainActivity.kt:114-120 | `picks()` as a value: `blockWidth` entries, each 0 or 1, and entry i is 1 exactly when `offset <= i < offset + stripeWidth` |
| `Stripes.MovedOffsetRules` | app/src/main/java/dev/annachiara/randompicks/MainActivity.kt:72-80 | `newOffset()` changes only the offset: 0 becomes 1, the right edge steps left by one, and an interior offset goes up, down or stays exactly as the draw is above, below or equal to 0.5 |
| `Stripes.MovedOffsetDraws` | app/src/main/java/dev/annachiara/randompicks/MainActivity.kt:73-79 | `newOffset()` reads a draw only for an interior offset |
| `Stripes.MovedOffsetStaysInCell` | app/src/main/java/dev/annachiara/randompicks/MainActivity.kt:72-80 | when `stripeWidth < blockWidth`, `newOffset()` keeps `0 <= offset <= blockWidth - stripeWidth` |
| `Stripes.MovedOffsetEscapesFullStripe` | app/src/main/java/dev/annachiara/randompicks/MainActivity.kt:73-74 | every valid stripe as wide as its cell is at offset 0, and the forced move to 1 breaks `offset <= blockWidth - stripeWidth` |
| `Stripes.FullStripeIsValid` | app/src/main/java/dev/annachiara/randompicks/MainActivity.kt:51-56 | a block with `stripeWidth == maxStripeWidth == blockWidth` and offset 0, such as `Block(8, 0, 8, 2, 8, 2)`, is valid, so the escape is reachable from a valid block |
| `Stripes.ResizedWidthBounds` | app/src/main/java/dev/annachiara/randompicks/MainActivity.kt:84-97 | with `min < max` and the width in `[min, max]`, the new width stays in `[min, max]`, differs by at most one, is exactly `min + 1` from `min` and exactly `max - 1` from `max` |
| `Stripes.ResizedWidthAtPreferred` | app/src/main/java/dev/annachiara/randompicks/MainActivity.kt:88-90 | at the preferred width (off the bounds) the width grows, shrinks or stays exactly as the draw is above, below or equal to 0.5 |
| `Stripes.ResizedWidthDrift` | app/src/main/java/dev/annachiara/randompicks/MainActivity.kt:91-97 | off the bounds and off the preferred width, a draw above 0.25 gives `stripeWidth + sign(preferred - stripeWidth)` (one step closer), a draw below 0.25 gives `stripeWidth - sign(preferred - stripeWidth)` (one step further), and exactly 0.25 keeps the width |
| `Stripes.ResizedWidthDraws` | app/src/main/java/dev/annachiara/randompicks/MainActivity.kt:84-97 | the resize reads a draw exactly when the width is on neither bound |
| `Stripes.ChangedWidthRepairsOffset` | app/src/main/java/dev/annachiara/randompicks/MainActivity.kt:98-111 | with `min < max <= blockWidth`, the width in bounds and `offset >= 0`, `newWidth()` gives a valid block with the same parameters; an overflowing offset is clamped to `blockWidth - stripeWidth`; an interior offset reads one more draw and moves left exactly when the stripe grew and the draw is at most 0.5, right exactly when it did not grow and the draw is above 0.5, and otherwise stays; offset 0 stays 0; no draw is read outside the interior case |
| `Stripes.NextStateIdle` | app/src/main/java/dev/annachiara/randompicks/MainActivity.kt:60-70 | a choice draw of at least 0.4 returns the block unchanged and reads only that draw |
| `Stripes.NextStateValid` | app/src/main/java/dev/annachiara/randompicks/MainActivity.kt:60-70 | `next()` of a valid, well-formed block is valid, well-formed and has the same four parameters |
| `Stripes.RunValid` | app/src/main/java/dev/annachiara/randompicks/MainActivity.kt:60-70 | every block reached from a valid, well-formed one by `n` calls of `next()` is valid with the same parameters, after between `n` and `3n` draws |
| `Stripes.RunInRange` | app/src/main/java/dev/annachiara/randompicks/MainActivity.kt:60-111 | for a well-formed valid block with `minStripeWidth >= 0`, as `Block()` has, every block reached by calls of `next()` keeps its width in `[0, blockWidth)` and its stripe `[offset, offset + stripeWidth)` inside `[0, blockWidth]` |
| `Stripes.MaskCounts` | app/src/main/java/dev/annachiara/randompicks/MainActivity.kt:114-120 | a stripe inside its cell gives a mask with exactly `stripeWidth` ones and `blockWidth - stripeWidth` zeros |
| `Stripes.DefaultMask` | app/src/main/java/dev/annachiara/randompicks/MainActivity.kt:51-56 | the default `Block()` is valid and well-formed, and its picks are `[0,0,1,1,1,0,0,0]` |
| `Weaving.Row` | app/src/main/java/dev/annachiara/randompicks/MainActivity.kt:151-158 | a row is the concatenation of the selected blocks' picks; for equally wide blocks it holds `threading.size * blockWidth` cells |
| `Weaving.ThreadingGrid` | app/src/main/java/dev/annachiara/randompicks/MainActivity.kt:127-135 | the threading list has 43 entries, each 1 or 2, so the grid is 344 cells a side |
| `Weaving.Select` | app/src/main/java/dev/annachiara/randompicks/MainActivity.kt:152 | entry 1 selects `block1` and any other entry `block2`; the result is always one of the two |
| `Weaving.RowAt` | app/src/main/java/dev/annachiara/randompicks/MainActivity.kt:152-156 | column `k * blockWidth + t` of a row is below the row length and holds thread t of block 1 when `threading[k] == 1`, of block 2 otherwise |
| `Weaving.Weft` | app/src/main/java/dev/annachiara/randompicks/MainActivity.kt:149-150 | one row advances `block1` and then `block2` on one stream: their parameters stay and two to six draws are read |
| `Weaving.Advance` | app/src/main/java/dev/annachiara/randompicks/MainActivity.kt:148-150 | after any number of rows, both blocks have the `Block()` parameters, and each row read two to six draws |
| `Weaving.RowAfter` | app/src/main/java/dev/annachiara/randompicks/MainActivity.kt:149-158 | the row painted after one more step of both blocks has `threading.size * 8` cells |
| `Weaving.WeftValid` | app/src/main/java/dev/annachiara/randompicks/MainActivity.kt:149-150 | advancing both blocks keeps them valid with the `Block()` parameters and reads two to six draws |
| `Weaving.AdvanceValid` | app/src/main/java/dev/annachiara/randompicks/MainActivity.kt:148-150 | after any number of rows both blocks are valid with the `Block()` parameters, and each row read two to six draws |
| `Weaving.Woven` | app/src/main/java/dev/annachiara/randompicks/MainActivity.kt:134 | each row of the carpet has `threading.size * 8` cells |
| `Weaving.MakeCarpet` | app/src/main/java/dev/annachiara/randompicks/MainActivity.kt:124-165 | the grid is `threading.size * 8` cells square; cell (row, column) is column `column` of the row built from both blocks after `row + 1` steps; the stream ends past exactly the draws those steps read |
| `Weaving.WeaveRow` | app/src/main/java/dev/annachiara/randompicks/MainActivity.kt:148-162 | one outer iteration advances block 1, then block 2, on one stream, paints exactly that row with their concatenated picks, and leaves every other row alone |
| `Weaving.PaintRow` | app/src/main/java/dev/annachiara/randompicks/MainActivity.kt:151-162 | the inner loops write cell `k * blockWidth + t` from thread t of the selected block's picks, every column index stays below `threadCount`, and other rows are untouched |

## Left out

- `MainActivity.onCreate` and `onSaveInstanceState`: Android lifecycle glue.
- The `RandomCarpet` and `RandomPick` composables: UI state, layout and buttons.
  Their manual width buttons raise `stripeWidth` without moving `offset`, so they
  can leave a block that `picks()` cannot write. The model does not claim the
  invariant across those edits.
- `Bitmap`, `Canvas`, `Paint`, `Color` and `toArgb`: foreign graphics calls. The
  grid holds the palette index of each cell. It does not model the 4×4 pixel
  rectangles or the colours.
- `Random.nextDouble()`: the generator is replaced by the supplied `source`.
  Probabilities are not modelled, and no property needs the draws to lie in [0, 1).
  The draws are exact reals, compared with exact `0.15` and `0.4` where Kotlin
  compares doubles with the nearest doubles to those constants. The two comparisons
  differ only on the double nearest to 0.15, which is not a multiple of 2^-53 and so
  is never returned by `nextDouble()`. `0.5` and `0.25` are exact in binary, and the
  sign of `d - 0.5` or `d - 0.25` computed in doubles is the exact sign.
- Signs.RealSign: does not model `NaN` or `-0.0`, because the draws are reals
  and no draw can be `NaN`.
- Blocks.Block.Picks: requires a list size of at least 0 and in-range writes
  (`InCell`). The source throws an exception in the other cases, and the model
  does not represent that exception.
- Kotlin's 32-bit `Int` wrap-around is not modelled. For parameters with
  `0 <= minStripeWidth`, such as `Block()`'s (the only ones `makeCarpet()` uses),
  `RunInRange` keeps every width and offset within `[0, blockWidth]`. With
  `preferredStripeWidth >= 0` as well, as `Block()` has, the difference
  `preferredStripeWidth - stripeWidth` cannot wrap either. For other parameters
  (for example `Block(3, 2, 8, 2, 5, Int.MIN_VALUE)`, whose difference wraps to a
  positive value in Kotlin) the model's arithmetic is unbounded where the source's
  `Int` would wrap.
- Weaving.MakeCarpet: takes the threading as a parameter. The source's 43-entry
  list is the constant `Weaving.Threading`. The blocks are always `Block()`, as in
  the source, so blocks of different widths in one carpet are not modelled.
- The data class's generated `equals`, `hashCode`, `toString` and named-argument
  `copy(...)` are used only by the UI and are not modelled.
