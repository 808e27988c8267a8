# Climbing pose coach: scoring and tips

The application films a climber, takes the body landmarks a pose-estimation
model finds in each video frame, and turns eight of them (shoulders, wrists,
hips, ankles) into three coaching scores:

- **stability**: how far the hip center sits off the middle of the feet;
- **coordination**: how far the wrist spread differs from the ankle spread;
- **hip extension**: how far the vertical hip-to-shoulder gap is from 0.2.

Each score is shown as a percentage (rounded, clamped to 0..100). The tips are
chosen from the raw, unclamped scores by a three-row table with threshold 65,
checked in a fixed order, with a "rhythm and balance look good" tip when no
row fires.

The Dafny project models that per-frame pipeline of `app.js`:

- `geometry.dfy`: landmarks and `distance`;
- `scoring.dfy`: the score arithmetic of `evaluatePose`;
- `display.dfy`: `toPercent`, including its decimal text;
- `advice.dfy`: the tip list of `updateSuggestions`;
- `frame.dfy`: one whole `evaluatePose` call and the worked example;
- `wrappers.dfy`: an `Option` type.

Coordinates and scores are `real`. `Math.hypot` is a parameter `hypot`. The
lemmas that need it require `IsHypot(hypot)`: the result is the non-negative
square root of `dx*dx + dy*dy`. Symmetry, non-negativity and "zero only
between equal points" are proved from that law. They are not assumed.

The source reads `landmarks[11]` … `landmarks[28]` without a guard. A pose
with fewer than 29 entries makes `evaluatePose` raise an error before it shows
anything. In the model that case is `None`.

The source rounds and then clamps (`Math.max(0, Math.min(100, Math.round(v)))`).
A description that clamps first and rounds after gives the same numbers. The
model follows the code's order. `Math.round` is `floor(v + 0.5)`.

## Model

| member | source | states |
|---|---|---|
| `Geometry.HypotBySquares` | app.js:33 | hypot gives equal results for offsets with equal sums of squares |
| `Geometry.HypotAxis` | app.js:33 | hypot of an axis-aligned offset is the absolute value of that offset |
| `Geometry.DistanceNonNegative` | app.js:32-34 | `distance(a, b) >= 0` |
| `Geometry.DistanceSymmetric` | app.js:32-34 | `distance(a, b) == distance(b, a)` |
| `Geometry.DistanceZeroIff` | app.js:32-34 | the distance is 0 exactly when the two points coincide |
| `PoseScoring.Stable` | app.js:72-79 | `stable <= 100`; it is 100 iff the hip-center x equals the feet-center x; it is below 65 iff that offset exceeds 7/36 |
| `PoseScoring.Coordinated` | app.js:81-84 | `coordinated <= 100`; it is 100 iff the wrist spread equals the ankle spread; it is below 65 iff they differ by more than 7/52 |
| `PoseScoring.HipOpen` | app.js:86-87 | `hipOpen <= 100`; it is 100 iff the hip-to-shoulder gap is exactly 0.2; it is below 65 iff the gap misses 0.2 by more than 7/48 |
| `PoseScoring.Score` | app.js:57-65 | fails exactly when one of landmarks 11, 12, 15, 16, 23, 24, 27, 28 is missing; otherwise all three scores are at most 100 |
| `PoseScoring.ScoresLocal` | app.js:58-65 | two poses that agree on the eight landmarks read get the same scores |
| `PoseScoring.OtherLandmarkIrrelevant` | app.js:58-65 | overwriting any other landmark leaves the result unchanged, failure included |
| `PoseScoring.ScoresTranslationInvariant` | app.js:67-87 | shifting every landmark by the same offset leaves all three scores unchanged |
| `PoseScoring.ScoresMirrorInvariant` | app.js:67-87 | flipping the frame left to right leaves all three scores unchanged |
| `PoseScoring.ScoresSideInvariant` | app.js:67-87 | exchanging left and right landmarks leaves all three scores unchanged |
| `Display.Round` | app.js:37 | `Math.round`: the result is within half of `v`, with halves rounded up |
| `Display.ToPercent` | app.js:36-38 | the result is in 0..100; it is 100 iff `v >= 99.5`; it is 0 iff `v < 0.5`; in between it is the nearest integer |
| `Display.ToPercentMonotone` | app.js:36-38 | a larger raw score never shows a smaller percentage |
| `Display.ToPercentIdentity` | app.js:36-38 | a whole number in 0..100 is shown unchanged |
| `Display.Decimal` | app.js:37 | the integer is written as one or more decimal digits with no leading zero |
| `Display.DecimalRoundTrip` | app.js:37 | reading back the decimal text of `n` gives `n` |
| `Display.PercentTextReadsBack` | app.js:36-38 | the text is 1 to 3 digits and a `%`, and the digits read back as the clamped, rounded score |
| `Display.PercentTextFull` | app.js:36-38 | the text is `100%` exactly when the score is at least 99.5, so for every score of 100 or more |
| `Display.PercentTextEmpty` | app.js:36-38 | the text is `0%` exactly when the score is below 0.5, so for every negative score |
| `Coaching.SelectMembers` | app.js:42-44 | a row's tip is selected iff the row is in the table and its score is below 65 |
| `Coaching.SelectRanked` | app.js:42-44 | selecting rows keeps the table order |
| `Coaching.SelectRules` | app.js:42-44 | the selection over the whole table is the three conditional appends in order |
| `Coaching.Advice` | app.js:40-47 | the tip list has 1 to 3 entries |
| `Coaching.AdviceMembers` | app.js:41-47 | each warning is present iff its raw score is below 65; the fallback is present iff none is |
| `Coaching.AdviceOrdered` | app.js:42-44 | tips follow the order balance, coordination, hip, and none appears twice |
| `Coaching.GoodExclusive` | app.js:45-47 | the fallback appears only as the whole list `[Good]`, and that happens exactly when no threshold fired |
| `Coaching.UpdateSuggestions` | app.js:40-47 | the appended list equals `Advice(s)` |
| `Coaching.AdviceBySides` | app.js:42-44 | scores on the same side of 65 select the same tips |
| `Coaching.ClampKeepsAdvice` | app.js:89-93 | the raw scores and the scores clamped to 0..100 select the same tips (120 acts like 100, -30 like 0) |
| `Coaching.AdviceExamples` | app.js:40-47 | scores (50, 80, 50) give `[Balance, Hip]`; scores (90, 90, 90) give `[Good]` |
| `Frame.EvaluatePose` | app.js:57-93 | fails exactly on a pose missing a required landmark; otherwise shows the percentage text of each raw score and the tips of the raw scores |
| `Frame.TipsFromGeometry` | app.js:77-87 | each warning appears exactly when its body measurement strays past its tolerance (7/36, 7/52, 7/48); the fallback appears only alone |
| `Frame.EvaluatePoseLocal` | app.js:58-65 | a landmark the scorer does not read has no effect on the displayed result |
| `Frame.ThresholdOnRawScore` | app.js:89-93 | a raw 64.5 is shown as `65%` and still draws the balance tip, because tips use raw scores |
| `Frame.SampleFrame` | app.js:57-93 | the worked example scores (100, -30, 100) and shows `100%`, `0%`, `100%` with only the coordination tip |

## Left out

- Model loading (`initPoseModel`, app.js:17-30): a foreign library fetched over the network.
- Camera start-up, the click handler and its error message (app.js:123-151): browser media I/O and async code.
- `predictLoop` (app.js:109-121): frame scheduling and the opaque pose-detection model. A failure of `evaluatePose` there is shown in the model only as `None`, not as the loop stopping.
- `drawPose` (app.js:96-107): canvas drawing through a foreign library. The model scores one pose per call, with no state carried between calls.
- The DOM writes of `updateSuggestions` (app.js:49-54) and `evaluatePose` (app.js:89-91). The model returns the values those writes would show.
- The `beforeunload` cleanup (app.js:153-160): lifecycle and I/O.
- IEEE-754 arithmetic. Coordinates and scores are exact reals, so NaN, infinities and floating-point rounding of the formulas are not modelled.
- `Math.hypot` is a parameter constrained by `IsHypot`, not a computed square root. Real square roots cannot be computed over Dafny's `real`.
- The tip texts (Traditional Chinese strings) are represented by the `Tip` kinds `Balance`, `Coordination`, `Hip` and `Good`.
