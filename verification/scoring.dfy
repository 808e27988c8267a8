/**
 * The per-frame score arithmetic of `evaluatePose` (app.js): three linear
 * heuristics computed from eight landmarks of one detected pose.
 */
module PoseScoring {
  import opened Wrappers
  import opened Geometry

  // The landmark indices the scorer reads, in the pose model's 33-point topology.
  const LeftShoulder: nat := 11
  const RightShoulder: nat := 12
  const LeftWrist: nat := 15
  const RightWrist: nat := 16
  const LeftHip: nat := 23
  const RightHip: nat := 24
  const LeftAnkle: nat := 27
  const RightAnkle: nat := 28

  const Required: set<nat> :=
    {LeftShoulder, RightShoulder, LeftWrist, RightWrist, LeftHip, RightHip, LeftAnkle, RightAnkle}

  // The fixed weights and the hip-to-shoulder target of the three formulas.
  const StableWeight: real := 180.0
  const CoordinationWeight: real := 260.0
  const HipWeight: real := 240.0
  const HipTarget: real := 0.2

  /** The three raw (unclamped) scores of one frame. */
  datatype ScoreSet = ScoreSet(stable: real, coordinated: real, hipOpen: real)

  /** Every landmark the scorer reads exists; the highest index read is the right ankle. */
  predicate HasRequired(pose: Pose)
  {
    |pose| > RightAnkle
  }

  function Midpoint(a: Point, b: Point): Point
  {
    Point((a.x + b.x) / 2.0, (a.y + b.y) / 2.0)
  }

  function ShoulderCenter(pose: Pose): Point
    requires HasRequired(pose)
  {
    Midpoint(pose[LeftShoulder], pose[RightShoulder])
  }

  function HipCenter(pose: Pose): Point
    requires HasRequired(pose)
  {
    Midpoint(pose[LeftHip], pose[RightHip])
  }

  function FeetCenterX(pose: Pose): real
    requires HasRequired(pose)
  {
    (pose[LeftAnkle].x + pose[RightAnkle].x) / 2.0
  }

  /** Horizontal distance between the hip center and the middle of the feet. */
  function CenterOffset(pose: Pose): real
    requires HasRequired(pose)
  {
    Abs(HipCenter(pose).x - FeetCenterX(pose))
  }

  function HandSpread(hypot: (real, real) -> real, pose: Pose): real
    requires HasRequired(pose)
  {
    Distance(hypot, pose[LeftWrist], pose[RightWrist])
  }

  function FootSpread(hypot: (real, real) -> real, pose: Pose): real
    requires HasRequired(pose)
  {
    Distance(hypot, pose[LeftAnkle], pose[RightAnkle])
  }

  /** Vertical gap between the hip center and the shoulder center. */
  function HipToShoulder(pose: Pose): real
    requires HasRequired(pose)
  {
    Abs(HipCenter(pose).y - ShoulderCenter(pose).y)
  }

  /** `stable`: full marks exactly when the hips are centred over the feet. */
  function Stable(pose: Pose): (r: real)
    requires HasRequired(pose)
    ensures r <= 100.0
    ensures r == 100.0 <==> HipCenter(pose).x == FeetCenterX(pose)
    ensures r < 65.0 <==> CenterOffset(pose) > 7.0 / 36.0
  {
    100.0 - CenterOffset(pose) * StableWeight
  }

  /** `coordinated`: full marks exactly when the wrists are as far apart as the ankles. */
  function Coordinated(hypot: (real, real) -> real, pose: Pose): (r: real)
    requires HasRequired(pose)
    ensures r <= 100.0
    ensures r == 100.0 <==> HandSpread(hypot, pose) == FootSpread(hypot, pose)
    ensures r < 65.0 <==> Abs(HandSpread(hypot, pose) - FootSpread(hypot, pose)) > 7.0 / 52.0
  {
    100.0 - Abs(HandSpread(hypot, pose) - FootSpread(hypot, pose)) * CoordinationWeight
  }

  /** `hipOpen`: full marks exactly when the hips hang 0.2 below (or above) the shoulders. */
  function HipOpen(pose: Pose): (r: real)
    requires HasRequired(pose)
    ensures r <= 100.0
    ensures r == 100.0 <==> HipToShoulder(pose) == HipTarget
    ensures r < 65.0 <==> Abs(HipTarget - HipToShoulder(pose)) > 7.0 / 48.0
  {
    100.0 - Abs(HipTarget - HipToShoulder(pose)) * HipWeight
  }

  function Scores(hypot: (real, real) -> real, pose: Pose): ScoreSet
    requires HasRequired(pose)
  {
    ScoreSet(Stable(pose), Coordinated(hypot, pose), HipOpen(pose))
  }

  /**
   * Scoring of one detected pose. The source reads the landmarks without a
   * guard, so a pose missing one of them raises an error there; here that is None.
   */
  function Score(hypot: (real, real) -> real, pose: Pose): (r: Option<ScoreSet>)
    ensures r.None? <==> exists i :: i in Required && i >= |pose|
    ensures r.Some? ==> r.value.stable <= 100.0 && r.value.coordinated <= 100.0 && r.value.hipOpen <= 100.0
  {
    if HasRequired(pose) then Some(Scores(hypot, pose)) else None
  }

  /** Two poses that agree on the eight landmarks the scorer reads. */
  predicate AgreeOnRequired(p: Pose, q: Pose)
    requires HasRequired(p) && HasRequired(q)
  {
    forall i :: i in Required ==> p[i] == q[i]
  }

  /** The scores depend on the eight required landmarks and nothing else. */
  lemma ScoresLocal(hypot: (real, real) -> real, p: Pose, q: Pose)
    requires HasRequired(p) && HasRequired(q) && AgreeOnRequired(p, q)
    ensures Scores(hypot, p) == Scores(hypot, q)
  {
    assert p[LeftShoulder] == q[LeftShoulder] && p[RightShoulder] == q[RightShoulder];
    assert p[LeftWrist] == q[LeftWrist] && p[RightWrist] == q[RightWrist];
    assert p[LeftHip] == q[LeftHip] && p[RightHip] == q[RightHip];
    assert p[LeftAnkle] == q[LeftAnkle] && p[RightAnkle] == q[RightAnkle];
  }

  /** Overwriting a landmark the scorer does not read changes nothing, not even failure. */
  lemma OtherLandmarkIrrelevant(hypot: (real, real) -> real, pose: Pose, j: nat, v: Point)
    requires j < |pose| && j !in Required
    ensures Score(hypot, pose[j := v]) == Score(hypot, pose)
  {
    if HasRequired(pose) {
      ScoresLocal(hypot, pose[j := v], pose);
    }
  }

  /** Every landmark shifted by the same offset. */
  function Translate(pose: Pose, dx: real, dy: real): (r: Pose)
    ensures |r| == |pose|
  {
    seq(|pose|, i requires 0 <= i < |pose| => Point(pose[i].x + dx, pose[i].y + dy))
  }

  /** The scores are unchanged when the climber moves within the frame. */
  lemma ScoresTranslationInvariant(hypot: (real, real) -> real, pose: Pose, dx: real, dy: real)
    requires HasRequired(pose)
    ensures Scores(hypot, Translate(pose, dx, dy)) == Scores(hypot, pose)
  {
    var t := Translate(pose, dx, dy);
    assert HandSpread(hypot, t) == HandSpread(hypot, pose) by {
      assert t[LeftWrist].x - t[RightWrist].x == pose[LeftWrist].x - pose[RightWrist].x;
      assert t[LeftWrist].y - t[RightWrist].y == pose[LeftWrist].y - pose[RightWrist].y;
    }
    assert FootSpread(hypot, t) == FootSpread(hypot, pose) by {
      assert t[LeftAnkle].x - t[RightAnkle].x == pose[LeftAnkle].x - pose[RightAnkle].x;
      assert t[LeftAnkle].y - t[RightAnkle].y == pose[LeftAnkle].y - pose[RightAnkle].y;
    }
    assert HipCenter(t).x - FeetCenterX(t) == HipCenter(pose).x - FeetCenterX(pose);
    assert HipCenter(t).y - ShoulderCenter(t).y == HipCenter(pose).y - ShoulderCenter(pose).y;
  }

  /** The frame flipped left to right, as a mirrored (selfie) camera view shows it. */
  function Mirror(pose: Pose): (r: Pose)
    ensures |r| == |pose|
  {
    seq(|pose|, i requires 0 <= i < |pose| => Point(-pose[i].x, pose[i].y))
  }

  /** The scores do not depend on whether the camera image is mirrored. */
  lemma ScoresMirrorInvariant(hypot: (real, real) -> real, pose: Pose)
    requires IsHypot(hypot) && HasRequired(pose)
    ensures Scores(hypot, Mirror(pose)) == Scores(hypot, pose)
  {
    var m := Mirror(pose);
    HypotBySquares(hypot, m[LeftWrist].x - m[RightWrist].x, m[LeftWrist].y - m[RightWrist].y,
                   pose[LeftWrist].x - pose[RightWrist].x, pose[LeftWrist].y - pose[RightWrist].y);
    HypotBySquares(hypot, m[LeftAnkle].x - m[RightAnkle].x, m[LeftAnkle].y - m[RightAnkle].y,
                   pose[LeftAnkle].x - pose[RightAnkle].x, pose[LeftAnkle].y - pose[RightAnkle].y);
    assert HipCenter(m).x - FeetCenterX(m) == -(HipCenter(pose).x - FeetCenterX(pose));
  }

  /** The pose with every left landmark exchanged for its right counterpart. */
  function SwapSides(pose: Pose): (r: Pose)
    requires HasRequired(pose)
    ensures |r| == |pose|
  {
    pose[LeftShoulder := pose[RightShoulder]][RightShoulder := pose[LeftShoulder]]
        [LeftWrist := pose[RightWrist]][RightWrist := pose[LeftWrist]]
        [LeftHip := pose[RightHip]][RightHip := pose[LeftHip]]
        [LeftAnkle := pose[RightAnkle]][RightAnkle := pose[LeftAnkle]]
  }

  /** The scores treat the left and right sides of the body alike. */
  lemma ScoresSideInvariant(hypot: (real, real) -> real, pose: Pose)
    requires IsHypot(hypot) && HasRequired(pose)
    ensures Scores(hypot, SwapSides(pose)) == Scores(hypot, pose)
  {
    DistanceSymmetric(hypot, pose[LeftWrist], pose[RightWrist]);
    DistanceSymmetric(hypot, pose[LeftAnkle], pose[RightAnkle]);
  }
}
