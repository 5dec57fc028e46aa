# OrbitDrag in Dafny

OrbitDrag is an iOS widget. It shows a stack of score discs on a center
disc. The user pulls discs off the center onto a circular orbit around it,
or pushes them back. This project models the bookkeeping of the two live
widgets, `OrbitView` and `ScoringOrbitView`:

- rebuilding the disc stack when `scores` is assigned;
- the geometry memo in `layoutSubviews`;
- the gate of a pan gesture;
- the preparation of a pull: the reference score, each disc's relative
  score (`scorePct`) and the walk of pending angles (`nextDegrees`) from
  90 degrees;
- the commit-or-reverse decision on release, and the commit itself.

The project has three modules:

- `Orbit` (`orbit.dfy`) holds what both widgets share:
  - the disc record and the layout constants;
  - the orbit geometry and the animator's fraction complete;
  - the angle walk and its closed form and bounds;
  - the descending sort and the maximum that the widgets take from the
    platform library.
- `PlainOrbit` (`orbit_view.dfy`) models `OrbitView`. Its stack is sorted by
  descending score, and discs can be pulled down and pushed back up.
- `ScoringOrbit` (`scoring_orbit_view.dfy`) models `ScoringOrbitView`. Its
  stack keeps the input order, only downward pulls exist, and a commit
  hides the discs below 1% of the reference score.

The disc objects become a `Disc` value in a sequence field of the widget
class. `activeDisc`, an object the source finds with `firstIndex(of:)`,
becomes its index `active`. Each `.began` loop and each completion loop is
a method over sequences (`Prepare`, `Settle`), proved against a
specification function (`Retargeted`, `Settled`). The rebuild loop
`BuildDiscs` is a method over sequences too, specified disc by disc: one
`FreshDisc` per score. The class methods state the new state in terms of
those functions and keep the invariant `Valid()`:

- the stack is non-empty;
- every score is positive;
- the `OrbitView` stack is sorted by descending score;
- the active index lies in the stack;
- the discs already out on the orbit rest in a fan: the first at 90
  degrees, each later one strictly before the previous one;
- a gesture in flight has a fan of pending angles.

On a downward pull `OrbitView` measures the participants against the disc
before the dragged one (`discViews[idx - 1]`), not against the dragged disc.
For example, a downward pull from index 7 of `[100, 90, 80, 75, 75, 75, 60, 60]`
measures disc 7 (score 60) against `discViews[6]` (score 60), so its
relative score is 1.

## Model

| member | source | states |
|---|---|---|
| Orbit.OrbitGeometry | OrbitDrag/OrbitView.swift:38-45 | The center disc's radius is 0.15 of the side and the orbit's radius is 2.15 times the center disc's. So a full-size disc on the orbit clears the center disc and stays inside the square. |
| Orbit.FractionComplete | OrbitDrag/OrbitView.swift:292-296 | The drag distance over the orbit radius, kept in [0, 1]: 0 for a drag the wrong way, 1 beyond the orbit. |
| Orbit.FractionExact | OrbitDrag/OrbitView.swift:292-296 | Inside the orbit the fraction is exact: the fraction times the radius is the drag distance. |
| Orbit.FractionMonotone | OrbitDrag/OrbitView.swift:292-296 | A longer drag never gives a smaller fraction complete. |
| Orbit.Commits | OrbitDrag/OrbitView.swift:300 | A release commits exactly when the fraction is at least 0.333. A drag to the end always commits, and a drag that never got going never does. |
| Orbit.WalkClosedForm | OrbitDrag/OrbitView.swift:186-206 | The walk's angle for participant i is 90 minus 30 times (twice the sum of the relative scores up to i, less the first and the i-th). |
| Orbit.WalkEvenSpacing | OrbitDrag/OrbitView.swift:117-121 | Consecutive full-size discs are 60 degrees apart: participant i is at 90 - 60i. |
| Orbit.WalkFalls | OrbitDrag/OrbitView.swift:193-206 | With positive relative scores the walk strictly falls, so no two participants share an angle. |
| Orbit.WalkBounds | OrbitDrag/OrbitView.swift:193-206 | With relative scores in (0, 1], participant i lies between 90 - 60i and 90 degrees. |
| Orbit.WalkIsFan | OrbitDrag/OrbitView.swift:186-206 | The walk starts at 90 degrees and each participant comes strictly before the previous one. |
| Orbit.RatiosInUnitRange | OrbitDrag/OrbitView.swift:189-195 | Scores measured against a reference no smaller than any of them lie in (0, 1]. |
| Orbit.Insert | OrbitDrag/OrbitView.swift:86 | Insertion adds exactly the new score. The head of the result is the larger of the new score and the old head. |
| Orbit.InsertKeepsDescending | OrbitDrag/OrbitView.swift:86 | Inserting into a descending list keeps it descending. |
| Orbit.SortDescending | OrbitDrag/OrbitView.swift:86 | The result is a permutation of the scores, in descending order. |
| Orbit.SortKeepsBound | OrbitDrag/OrbitView.swift:86 | Sorting keeps a lower bound that holds of every score. |
| Orbit.MaxOf | OrbitDrag/ScoringOrbitView.swift:59-61 | The maximum is one of the scores and no score exceeds it. |
| PlainOrbit.UpAngle | OrbitDrag/OrbitView.swift:202-205 | On an upward pull the dragged disc gets 90 degrees. Every later participant gets the downward walk's angle plus its own spacing from its predecessor, so it lags the downward walk by one step. |
| PlainOrbit.Reference | OrbitDrag/OrbitView.swift:180-183 | The reference is a score of the stack (the disc before the dragged one on a downward pull, the dragged disc on an upward pull). In a descending stack no participant's score exceeds it. |
| PlainOrbit.RetargetedFrame | OrbitDrag/OrbitView.swift:178-195 | Preparing a gesture leaves the discs before the dragged disc alone. On each participant it changes only the relative score (score over the reference) and the pending angle. |
| PlainOrbit.RetargetedSteps | OrbitDrag/OrbitView.swift:186-206 | Downward pull: the dragged disc gets 90 and each later participant the previous angle minus its own and its predecessor's spacing. Upward pull: the first two participants get 90 and each later one the previous angle minus the spacing of the two participants before it. |
| PlainOrbit.RetargetedPctsAtMostOne | OrbitDrag/OrbitView.swift:178-195 | In a stack sorted by descending positive score, every participant's relative score is in (0, 1] against either reference. |
| PlainOrbit.RetargetedFan | OrbitDrag/OrbitView.swift:186-206 | The pending angles form a fan from 90 degrees: all participants on a downward pull, all but the dragged disc on an upward pull. |
| PlainOrbit.SettledCurrents | OrbitDrag/OrbitView.swift:278-280 | A commit moves each participant's pending angle into its resting angle. |
| PlainOrbit.RetargetedCurrents | OrbitDrag/OrbitView.swift:178-206 | Preparing a gesture changes no resting angle. |
| PlainOrbit.Prepare | OrbitDrag/OrbitView.swift:178-206 | The `.began` loop computes exactly the prepared stack `Retargeted`. |
| PlainOrbit.Settle | OrbitDrag/OrbitView.swift:278-280 | The completion loop computes exactly the settled stack `Settled`. |
| PlainOrbit.BuildDiscs | OrbitDrag/OrbitView.swift:89-97 | The rebuild loop gives one fresh disc per score, in the order given. |
| PlainOrbit.BuiltStackOk | OrbitDrag/OrbitView.swift:86-101 | A stack built from a non-empty descending list of positive scores is at rest, with its last disc active. |
| PlainOrbit.PreparedOk | OrbitDrag/OrbitView.swift:149-206 | Preparing a gesture the gate accepted keeps the stack invariant. It sets up a well-formed gesture whose relative scores are in (0, 1]. |
| PlainOrbit.PreparedStackOk | OrbitDrag/OrbitView.swift:178-206 | Preparing a gesture keeps the stack at rest: scores, order and resting angles are unchanged. |
| PlainOrbit.SettledOk | OrbitDrag/OrbitView.swift:273-283 | A commit leaves a stack at rest. The new active disc is the one before the dragged disc (down) or the dragged disc (up). |
| PlainOrbit.Gate | OrbitDrag/OrbitView.swift:149-172 | A preset direction skips the gate. A downward pull needs a touch in the active disc moving down and an active index above 0. An upward pull needs a touch in the next disc moving up and an active index below the last. It drags the next disc. |
| PlainOrbit.OrbitView.constructor | OrbitDrag/OrbitView.swift:20-28 | A new widget holds seven discs of score 1, the last one active. |
| PlainOrbit.OrbitView.SetScores | OrbitDrag/OrbitView.swift:73-106 | One fresh disc per score, a permutation in descending order. The last disc becomes active and the size memo is cleared. An empty list is fatal, because the default list is never used. |
| PlainOrbit.OrbitView.LayoutSubviews | OrbitDrag/OrbitView.swift:30-71 | The geometry is recomputed from the smaller side only when the size changed. Only then are the discs after the active one re-placed. |
| PlainOrbit.OrbitView.Began | OrbitDrag/OrbitView.swift:137-206 | A gesture starts exactly when the gate accepts. A refused gesture changes nothing. An accepted one holds the prepared stack for the reference of its direction, with relative scores in (0, 1]. |
| PlainOrbit.OrbitView.Start | OrbitDrag/OrbitView.swift:174-206 | An accepted gesture sets its direction and dragged index, resets the fraction and prepares the stack against its reference. |
| PlainOrbit.OrbitView.Changed | OrbitDrag/OrbitView.swift:289-296 | During a gesture the fraction complete follows the drag distance, taken as a magnitude on an upward pull. |
| PlainOrbit.OrbitView.Release | OrbitDrag/OrbitView.swift:273-304 | A gesture commits exactly when its fraction is not below 0.333. A commit moves the active index to `idx - 1` (down) or `idx` (up) and settles the participants. A reversal changes neither. The direction is undetermined afterwards either way. |
| PlainOrbit.OrbitView.Pan | OrbitDrag/OrbitView.swift:137-308 | A whole pan from rest keeps the invariant and ends undetermined. It starts exactly when the gate accepts, and commits exactly when it started and the drag, taken as a magnitude upward, reaches 0.333 of the orbit. A downward pull prepares the stack against the disc before the active one, an upward pull against the next disc. A commit settles that prepared stack and moves the active index down by one (down) or up by one (up). A reversed pan leaves the prepared stack with every resting angle unchanged. A pan that does not start changes nothing. |
| ScoringOrbit.Prepare | OrbitDrag/ScoringOrbitView.swift:133-158 | The `.began` loop computes exactly the prepared stack `Retargeted`. |
| ScoringOrbit.Settle | OrbitDrag/ScoringOrbitView.swift:227-239 | The completion loop computes exactly the settled stack `Settled`. |
| ScoringOrbit.BuildDiscs | OrbitDrag/ScoringOrbitView.swift:62-73 | One disc per score, in input order, each with its score over the maximum. |
| ScoringOrbit.SameDownwardLayout | OrbitDrag/ScoringOrbitView.swift:133-158 | On every participant after the center disc, the prepared stack equals the plain widget's downward pull of the same stack. |
| ScoringOrbit.CommitVisibility | OrbitDrag/ScoringOrbitView.swift:227-239 | After a commit the discs before the center disc are untouched. The center disc is at 100% and visible. Every other participant is hidden exactly when its score is below 1% of the center disc's. |
| ScoringOrbit.BuiltStackOk | OrbitDrag/ScoringOrbitView.swift:59-77 | Relative scores against the maximum lie in (0, 1] and are exactly 1 for a largest score. The built stack is at rest. |
| ScoringOrbit.RetargetedFrame | OrbitDrag/ScoringOrbitView.swift:133-158 | Preparing a pull changes no score and no resting angle. |
| ScoringOrbit.RetargetedWalk | OrbitDrag/ScoringOrbitView.swift:145-158 | The pending angles of the participants after the center disc are the walk of their scores over the center disc's score. |
| ScoringOrbit.PreparedOk | OrbitDrag/ScoringOrbitView.swift:111-158 | Preparing a pull keeps the stack invariant. It sets up a pull whose center disc is at 100% with a fan of pending angles. |
| ScoringOrbit.PreparedStackOk | OrbitDrag/ScoringOrbitView.swift:133-158 | Preparing a pull keeps the stack at rest: scores and resting angles are unchanged. |
| ScoringOrbit.PreparedSessionOk | OrbitDrag/ScoringOrbitView.swift:139-158 | The prepared pull keeps the center disc at 100% and gives the participants after it a fan of pending angles. |
| ScoringOrbit.SettledOk | OrbitDrag/ScoringOrbitView.swift:227-239 | A commit leaves a stack at rest with the center disc active. |
| ScoringOrbit.ScoringOrbitView.constructor | OrbitDrag/ScoringOrbitView.swift:13-25 | A new widget has no disc and an empty geometry. |
| ScoringOrbit.ScoringOrbitView.SetScores | OrbitDrag/ScoringOrbitView.swift:51-82 | The maximum is the largest score. The discs keep the input order, with relative scores in (0, 1] that are exactly 1 for a largest score. The last disc becomes active and the width memo is cleared. An empty list is fatal and keeps the old maximum. |
| ScoringOrbit.ScoringOrbitView.LayoutSubviews | OrbitDrag/ScoringOrbitView.swift:27-47 | The geometry is recomputed from the width only when the width changed. |
| ScoringOrbit.ScoringOrbitView.Began | OrbitDrag/ScoringOrbitView.swift:111-161 | A pull starts exactly when the active index is above 0 and the touch is in the center disc. A refused pull changes nothing. An accepted one keeps the disc before the active one in the center and prepares the stack. |
| ScoringOrbit.ScoringOrbitView.Changed | OrbitDrag/ScoringOrbitView.swift:245-248 | During a pull the fraction complete follows the signed drag distance. |
| ScoringOrbit.ScoringOrbitView.Release | OrbitDrag/ScoringOrbitView.swift:227-258 | A pull commits exactly when its fraction is not below 0.333. A commit makes the center disc active and settles the participants. A reversal changes neither. Dragging ends either way. |
| ScoringOrbit.ScoringOrbitView.Pan | OrbitDrag/ScoringOrbitView.swift:111-262 | A whole pull from rest keeps the invariant and ends not dragging. It starts exactly when the active index is above 0 and the touch is in the center disc, and commits exactly when it started and the drag reaches 0.333 of the orbit. A commit settles the stack prepared around the disc before the active one, makes that disc active, and leaves it at 100% and visible. A reversed pull leaves the prepared stack. A pull that does not commit changes no resting angle, and one that does not start changes nothing. |

## Left out

- The UIKit view hierarchy is not modelled: `addSubview`, `removeFromSuperview`, `setNeedsLayout`, frames, transforms, centers and label text (`Metric(...).formattedValue` and the score labels). It is rendering only.
- `UIViewPropertyAnimator` and the keyframe loops are not modelled. The fraction complete is a real in [0, 1]. The animator's completion is taken to run at the release, as part of `Release`.
- `CGPoint.pointOnCircle` and `degreesToRadians` are not modelled, nor the re-placement of the orbiting discs after a resize. This is sin/cos floating-point work. `PlainOrbit.OrbitView.LayoutSubviews` keeps only which discs are re-placed.
- The hit tests (`UIBezierPath(ovalIn:).contains`) are boolean inputs.
- `Double` and `CGFloat` arithmetic is exact `real` arithmetic, with no rounding.
- Scores are required to be positive. A zero or negative score would divide by zero or turn the fan around. The source does not check this.
- PlainOrbit.OrbitView.SetScores: requires no gesture in flight. Assigning scores mid-gesture would leave the animator acting on discs that were removed.
- ScoringOrbit.ScoringOrbitView.SetScores: requires no pull in flight, for the same reason.
- In `OrbitView` a `.changed` or `.ended` that follows a refused `.began` is a no-op here. The source then drives the previous, already finished animator, which changes no disc.
- ScoringOrbit.ScoringOrbitView.Pan: covers a pull from rest to `.ended` only. A `.cancelled` pull in `ScoringOrbitView` does nothing (`default: ()`): the pull stays in flight, with `isDragging` still set and the animator paused. As in the source, the next gesture's `.changed` and `.ended` then drive that pull, even when that gesture's `.began` is refused (`Began` refuses, `Changed` sets its fraction, `Release` commits or reverses it). An accepted new `.began` while such a pull is paused abandons the paused animator: `Began` prepares the stack afresh and the old pull never completes.
- The race between a still-running completion and the next `.began` is not modelled. Gestures are taken to be sequential.
- `isDragging` marks a pull in flight. The source only writes it, and never reads it.
- PlainOrbit.OrbitView.Changed and ScoringOrbit.ScoringOrbitView.Changed: require a positive orbit radius during a gesture, that is, a layout pass before the first pan.
- The gesture methods of `ScoringOrbitView` require a built stack. The source traps when the widget has no active disc.
- Disc identity is an index. `discViews.firstIndex(of: activeDisc)` always finds the active disc in the source, so the guard that fails is not modelled.
- The classes `zzzScoringOrbitView` and `zScoringOrbitView` and the commented-out code in `ScoringOrbitView.swift` are not part of this model. They are abandoned variants.
- `ViewController.swift`, `OrbitViewController.swift` and `DiscView.swift` are not part of this model. They are host-screen wiring and styling. The disc record's fields are rebuilt from how the two widgets use them.
- The upward walk of `OrbitView` is modelled as written. Each disc gets the angle reached one participant earlier. See `PlainOrbit.RetargetedSteps`.
