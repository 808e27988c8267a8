/**
 * `evaluatePose` (app.js) as a whole: the three raw scores of one pose, the
 * percentages shown for them, and the tips chosen from the raw scores.
 */
module Frame {
  import opened Wrappers
  import opened Geometry
  import opened PoseScoring
  import opened Display
  import opened Coaching

  /** What one scored pose puts on screen. */
  datatype Report = Report(stability: string, coordination: string, hipExtension: string, tips: seq<Tip>)

  /**
   * One call of `evaluatePose`. The texts are the clamped, rounded scores;
   * the tips are chosen from the raw scores. A pose lacking one of the
   * landmarks read makes the source raise an error: None here.
   */
  function EvaluatePose(hypot: (real, real) -> real, pose: Pose): (r: Option<Report>)
    ensures r.None? <==> !HasRequired(pose)
    ensures r.Some? ==> r.value.tips == Advice(Scores(hypot, pose))
    ensures r.Some? ==>
      r.value.stability == PercentText(Stable(pose)) &&
      r.value.coordination == PercentText(Coordinated(hypot, pose)) &&
      r.value.hipExtension == PercentText(HipOpen(pose))
  {
    match Score(hypot, pose)
    case None => None
    case Some(s) =>
      var tips := Advice(s);
      Some(Report(PercentText(s.stable), PercentText(s.coordinated), PercentText(s.hipOpen), tips))
  }

  /**
   * The tips in terms of the body: each warning appears exactly when its
   * measurement strays past the tolerance the weight and the threshold imply.
   */
  lemma TipsFromGeometry(hypot: (real, real) -> real, pose: Pose)
    requires HasRequired(pose)
    ensures var tips := Advice(Scores(hypot, pose));
      (Balance in tips <==> CenterOffset(pose) > 7.0 / 36.0) &&
      (Coordination in tips <==> Abs(HandSpread(hypot, pose) - FootSpread(hypot, pose)) > 7.0 / 52.0) &&
      (Hip in tips <==> Abs(HipTarget - HipToShoulder(pose)) > 7.0 / 48.0) &&
      (Good in tips <==> tips == [Good])
  {
    var s := Scores(hypot, pose);
    AdviceMembers(s, Balance);
    AdviceMembers(s, Coordination);
    AdviceMembers(s, Hip);
    GoodExclusive(s);
  }

  /** A landmark the scorer does not read has no effect on what is shown. */
  lemma EvaluatePoseLocal(hypot: (real, real) -> real, pose: Pose, j: nat, v: Point)
    requires j < |pose| && j !in Required
    ensures EvaluatePose(hypot, pose[j := v]) == EvaluatePose(hypot, pose)
  {
    OtherLandmarkIrrelevant(hypot, pose, j, v);
  }

  /**
   * Thresholds apply to the raw score, not to the shown percentage: a raw
   * 64.5 is shown as "65%" yet still draws the balance tip.
   */
  lemma ThresholdOnRawScore()
    ensures var s := ScoreSet(64.5, 90.0, 90.0);
      PercentText(s.stable) == "65%" && Advice(s) == [Balance]
  {
    var s := ScoreSet(64.5, 90.0, 90.0);
    SelectRules(s);
    assert ToPercent(64.5) == 65;
    assert Decimal(65) == Decimal(6) + ['5'];
  }

  /** A 33-landmark pose holding the worked example's eight points. */
  function SamplePose(): (p: Pose)
    ensures HasRequired(p)
  {
    seq(33, i => Point(0.0, 0.0))
      [LeftShoulder := Point(0.4, 0.3)][RightShoulder := Point(0.6, 0.3)]
      [LeftWrist := Point(0.2, 0.4)][RightWrist := Point(0.8, 0.4)]
      [LeftHip := Point(0.45, 0.5)][RightHip := Point(0.55, 0.5)]
      [LeftAnkle := Point(0.45, 0.9)][RightAnkle := Point(0.55, 0.9)]
  }

  /**
   * The worked example: centred hips give 100, a hand spread of 0.6 against
   * a foot spread of 0.1 gives -30 (shown as 0%), a 0.2 hip gap gives 100.
   */
  lemma SampleFrame(hypot: (real, real) -> real)
    requires IsHypot(hypot)
    ensures Score(hypot, SamplePose()) == Some(ScoreSet(100.0, -30.0, 100.0))
    ensures EvaluatePose(hypot, SamplePose()) == Some(Report("100%", "0%", "100%", [Coordination]))
  {
    var p := SamplePose();
    HypotAxis(hypot, 0.2 - 0.8);
    HypotAxis(hypot, 0.45 - 0.55);
    assert HandSpread(hypot, p) == 0.6;
    assert FootSpread(hypot, p) == 0.1;
    var s := Scores(hypot, p);
    assert s == ScoreSet(100.0, -30.0, 100.0);
    PercentTextFull(100.0);
    PercentTextEmpty(-30.0);
    SelectRules(s);
    assert Advice(s) == [Coordination];
    assert Score(hypot, p) == Some(s);
  }
}
