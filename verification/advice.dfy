/**
 * The coaching tips of `updateSuggestions` (app.js): a three-row threshold
 * table checked in a fixed order on the raw scores, with a fallback tip
 * when no row fires. The tip texts are represented by their kind.
 */
module Coaching {
  import opened PoseScoring

  datatype Tip =
    | Balance       // keep the hips centred over the feet
    | Coordination  // place the feet first, then pull with the hands
    | Hip           // turn the hip before reaching
    | Good          // rhythm and balance are fine

  /** A score below this draws its tip. */
  const Threshold: real := 65.0

  /** The warning rows of the table, in the order they are checked. */
  const Rules: seq<Tip> := [Balance, Coordination, Hip]

  /** Whether the row for tip t fires on the raw scores s. */
  predicate Fires(t: Tip, s: ScoreSet)
  {
    match t
    case Balance => s.stable < Threshold
    case Coordination => s.coordinated < Threshold
    case Hip => s.hipOpen < Threshold
    case Good => false
  }

  predicate NoneFired(s: ScoreSet)
  {
    !Fires(Balance, s) && !Fires(Coordination, s) && !Fires(Hip, s)
  }

  /** Position of a tip in the table; the fallback comes last. */
  function Rank(t: Tip): nat
  {
    match t
    case Balance => 0
    case Coordination => 1
    case Hip => 2
    case Good => 3
  }

  /** Each tip comes after all tips ranked before it, and no tip twice. */
  predicate StrictlyRanked(tips: seq<Tip>)
  {
    forall i, j :: 0 <= i < j < |tips| ==> Rank(tips[i]) < Rank(tips[j])
  }

  /** The rows of `rules` that fire on s, in table order. */
  function Select(rules: seq<Tip>, s: ScoreSet): (r: seq<Tip>)
    ensures |r| <= |rules|
  {
    if rules == [] then []
    else (if Fires(rules[0], s) then [rules[0]] else []) + Select(rules[1..], s)
  }

  lemma {:induction false} SelectMembers(rules: seq<Tip>, s: ScoreSet, t: Tip)
    ensures t in Select(rules, s) <==> t in rules && Fires(t, s)
  {
    if rules != [] {
      SelectMembers(rules[1..], s, t);
      assert rules == [rules[0]] + rules[1..];
    }
  }

  lemma {:induction false} SelectRanked(rules: seq<Tip>, s: ScoreSet)
    requires StrictlyRanked(rules)
    ensures StrictlyRanked(Select(rules, s))
  {
    if rules != [] {
      SelectRanked(rules[1..], s);
      var rest := Select(rules[1..], s);
      forall k | 0 <= k < |rest|
        ensures Rank(rules[0]) < Rank(rest[k])
      {
        SelectMembers(rules[1..], s, rest[k]);
        var m :| 0 <= m < |rules[1..]| && rules[1..][m] == rest[k];
        assert rules[m + 1] == rest[k];
      }
    }
  }

  /** Select over the whole table, one row at a time. */
  lemma SelectRules(s: ScoreSet)
    ensures Select(Rules, s) ==
      (if Fires(Balance, s) then [Balance] else []) +
      (if Fires(Coordination, s) then [Coordination] else []) +
      (if Fires(Hip, s) then [Hip] else [])
  {
    assert Rules[1..] == [Coordination, Hip] && Rules[1..][1..] == [Hip] && Rules[1..][1..][1..] == [];
    assert Select([Hip], s) == (if Fires(Hip, s) then [Hip] else []) + Select([], s);
    assert Select([Coordination, Hip], s) ==
      (if Fires(Coordination, s) then [Coordination] else []) + Select([Hip], s);
  }

  /** The tip list shown for the raw scores s. */
  function Advice(s: ScoreSet): (tips: seq<Tip>)
    ensures 1 <= |tips| <= 3
  {
    var fired := Select(Rules, s);
    if fired == [] then [Good] else fired
  }

  /** Each warning appears exactly when its score is below the threshold; the fallback exactly when none is. */
  lemma AdviceMembers(s: ScoreSet, t: Tip)
    ensures t in Advice(s) <==> if t == Good then NoneFired(s) else Fires(t, s)
  {
    SelectMembers(Rules, s, Balance);
    SelectMembers(Rules, s, Coordination);
    SelectMembers(Rules, s, Hip);
    SelectMembers(Rules, s, Good);
    var fired := Select(Rules, s);
    if fired != [] {
      SelectMembers(Rules, s, fired[0]);
    }
  }

  /** The tips keep the table's order and none repeats. */
  lemma AdviceOrdered(s: ScoreSet)
    ensures StrictlyRanked(Advice(s))
    ensures forall i, j :: 0 <= i < j < |Advice(s)| ==> Advice(s)[i] != Advice(s)[j]
  {
    SelectRanked(Rules, s);
  }

  /** The fallback tip is never combined with another tip. */
  lemma GoodExclusive(s: ScoreSet)
    ensures Good in Advice(s) <==> Advice(s) == [Good]
    ensures Advice(s) == [Good] <==> NoneFired(s)
  {
    AdviceMembers(s, Good);
    SelectMembers(Rules, s, Good);
  }

  /**
   * The tip building of `updateSuggestions`: an empty list, one conditional
   * append per row, then the fallback if the list is still empty.
   */
  method UpdateSuggestions(s: ScoreSet) returns (tips: seq<Tip>)
    ensures tips == Advice(s)
  {
    tips := [];
    if s.stable < Threshold {
      tips := tips + [Balance];
    }
    if s.coordinated < Threshold {
      tips := tips + [Coordination];
    }
    if s.hipOpen < Threshold {
      tips := tips + [Hip];
    }
    if |tips| == 0 {
      tips := tips + [Good];
    }
    SelectRules(s);
  }

  /** Only which side of the threshold each score lies on matters, not its size. */
  lemma AdviceBySides(s: ScoreSet, s': ScoreSet)
    requires s.stable < Threshold <==> s'.stable < Threshold
    requires s.coordinated < Threshold <==> s'.coordinated < Threshold
    requires s.hipOpen < Threshold <==> s'.hipOpen < Threshold
    ensures Advice(s) == Advice(s')
  {
    SelectRules(s);
    SelectRules(s');
  }

  function Clamp(v: real): real
  {
    if v < 0.0 then 0.0 else if v > 100.0 then 100.0 else v
  }

  /** The scores clamped to 0..100, as the display range shows them. */
  function ClampScores(s: ScoreSet): ScoreSet
  {
    ScoreSet(Clamp(s.stable), Clamp(s.coordinated), Clamp(s.hipOpen))
  }

  /** Thresholding the raw scores picks the same tips as thresholding clamped ones (120 acts as 100, -30 as 0). */
  lemma ClampKeepsAdvice(s: ScoreSet)
    ensures Advice(ClampScores(s)) == Advice(s)
  {
    AdviceBySides(ClampScores(s), s);
  }

  /** The two rule-table cases given as examples for this component. */
  lemma AdviceExamples()
    ensures Advice(ScoreSet(50.0, 80.0, 50.0)) == [Balance, Hip]
    ensures Advice(ScoreSet(90.0, 90.0, 90.0)) == [Good]
  {
    SelectRules(ScoreSet(50.0, 80.0, 50.0));
    SelectRules(ScoreSet(90.0, 90.0, 90.0));
  }
}
