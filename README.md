# Point-finding game: verified model

This project models `line-game.js`, a browser game. Each round places two
random integer points on a Cartesian board, and the player clicks on a
500×500 canvas until both are found. The model covers four parts of the game:

- **Board geometry** (`geometry.dfy`, module `Geometry`). The visible range
  is [-6, 6]. The graph origin is at the canvas centre (250, 250), and one
  unit is 40 pixels. `GraphToCanvas` and `CanvasToGraph` map between graph
  units and pixels, and they flip the y axis.
- **Random integers.** `RandInt` turns a sample r in [0, 1) into an integer
  in [min, max].
- **Click tolerance.** `WithinTolerance` says whether a click lies within
  0.3 units of a target. It compares squared distances.
- **Round state** (`game.dfy`, module `LineGame`). The state is the
  `points` array of `{x, y, found}` records. Here it is the field
  `Game.points`, a `seq<Target>`. Two methods change it:
  - `Game.NewGame` is the rejection loop. It keeps drawing candidate points
    until it has kept two distinct ones.
  - `Game.Click` is the click handler. It marks the first target that is
    not yet found and lies within tolerance. It reports a miss, a hit, or a
    hit after which all targets are found.

`Math.random` is not called. `NewGame` takes a sequence of `Draw`s instead.
Each draw is a pair of samples in [0, 1), one for x and one for y.
The JavaScript loop ends only if some later draw gives a point different from
the first one. That condition is `NewGame`'s precondition
(`EventuallyDistinct`).

`line-game.js` matches a click to targets by Euclidean distance, with no
snapping to a grid point; `ToleranceSeparatesGridPoints` proves that one
click is within tolerance of at most one integer point.

## Model

| member | source | states |
|---|---|---|
| `Geometry.GraphToCanvas` | line-game.js:196-208 | Mapping a graph point to the canvas and back with `CanvasToGraph` gives the same point exactly (origin 250, 250; 40 px per unit; y flipped) |
| `Geometry.CanvasRoundTrip` | line-game.js:196-208 | The other direction of the round trip: a canvas position mapped to the graph and back is unchanged |
| `Geometry.GridPointVisible` | line-game.js:11-13 | Every integer point with both coordinates in [-6, 6] is drawn between pixel 10 and pixel 490 on both axes, strictly inside the 500×500 canvas |
| `Geometry.RandInt` | line-game.js:210-212 | For a sample 0 <= r < 1 and min <= max, the result is an integer in [min, max] |
| `Geometry.RandIntReaches` | line-game.js:210-212 | Every integer n in [min, max] is produced by some sample in [0, 1), namely (n - min) / (max - min + 1) |
| `Geometry.WithinToleranceBox` | line-game.js:214-216 | A click within Euclidean distance 0.3 of a point is within 0.3 of it along each axis |
| `Geometry.NearClickWithinTolerance` | line-game.js:214-216 | A click within 0.2 of a point along both axes (a sample bound below 0.3/√2, not a constant of the source) is within distance 0.3 |
| `Geometry.ToleranceSeparatesGridPoints` | line-game.js:83-85 | If one click is within tolerance of two integer points, the two points are equal |
| `LineGame.Candidate` | line-game.js:56-57 | The point drawn in one loop iteration has both coordinates in [COORD_MIN, COORD_MAX] |
| `LineGame.FirstDifferent` | line-game.js:55-61 | Gives the index of the first draw at or after `from` whose point differs from the first draw's point; every draw before it repeats the first point |
| `LineGame.Generated` | line-game.js:52-61 | A new board has exactly two targets; they differ in (x, y), all their coordinates are in [-6, 6], and neither is found |
| `LineGame.Game.constructor` | line-game.js:22 | The game starts with no targets, which is a valid board |
| `LineGame.Game.NewGame` | line-game.js:52-61 | After the rejection loop, `points` is the first draw's point followed by the first later point that differs from it, both not found; the board is valid |
| `LineGame.FindUnfound` | line-game.js:83-85 | Gives -1 exactly when no target is both not found and within tolerance of the click; otherwise gives the lowest index of such a target |
| `LineGame.Mark` | line-game.js:89 | Marking target `idx` sets its flag to true; every coordinate and every other flag is unchanged |
| `LineGame.MarkCountsOne` | line-game.js:89 | Marking a target that is not found raises the number of found targets by exactly one |
| `LineGame.AllFoundCount` | line-game.js:93 | Every target is found exactly when the number of found targets equals the number of targets |
| `LineGame.CatchIsUnique` | line-game.js:83-85 | On a board of distinct targets, at most one target catches a click, so the first match is the only match |
| `LineGame.ClickExamples` | line-game.js:84 | A click at graph (2.2, 2.1) catches a target at (2, 2) that is not found. A click at (2.4, 2.1) does not catch it. A target already found is never caught |
| `LineGame.Game.Click` | line-game.js:79-102 | The click is a miss exactly when no target is caught, and a miss leaves `points` unchanged; a hit marks only the lowest-index caught target, raising the found count by one; all-found is reported exactly when every target is found afterwards; once all are found every later click misses; a valid board stays valid, and on it no target other than the one marked catches the click |

## Left out

- Rendering is not modelled: `draw`, `drawGrid`, `drawPoint` and
  `setupCanvas`. They only draw and change the page, and they have no
  logic to verify. Canvas size and origin are the constants that
  `setupCanvas` sets.
- Page wiring is not modelled: event listeners, the points list and the
  feedback text. `Click` returns an `Outcome` (`Miss` or `Hit(index,
  allFound)`) in place of the feedback messages.
- `Math.random` is not modelled. The samples it would give are the
  `draws` parameter of `NewGame`.
- The JavaScript loop in `newGame` can in principle run forever. The model
  covers only draw sequences on which it ends (`EventuallyDistinct`).
- Floating-point rounding is not modelled. Coordinates are reals.
  `Math.sqrt(d) <= 0.3` becomes `d <= 0.09`, which is equivalent for a
  non-negative `d`. `Math.floor` becomes `Floor` on reals.
- `RandInt` requires `min <= max`. The source calls it only with
  COORD_MIN = -6 and COORD_MAX = 6.
- Code outside `line-game.js` is not part of this model. The file itself
  keeps no score, runs no timer and never locks input, so the model has
  none of these either.
