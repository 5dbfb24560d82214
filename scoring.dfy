/** The heuristic risk scorer run when an assessment is submitted. */
module Scoring {

  /** The raw signals the scorer reads. */
  datatype Signals = Signals(
    answerLength: nat,
    timeSpentSeconds: int,
    mouseMoves: nat,
    hoverCount: nat,
    totalWords: nat)

  /** The three heuristic rules, in the order the scorer checks them. */
  datatype Rule = FewMouseMoves | UnrevealedWords | FastLongAnswer

  const MouseMoveThreshold: nat := 100
  const LongAnswerLength: nat := 150
  const FastAnswerSeconds: int := 30
  const ScoreCap: real := 1.0

  /** Whether `rule` is triggered by the signals. */
  function Fires(rule: Rule, s: Signals): (fires: bool)
    ensures rule == FewMouseMoves ==> (fires <==> s.mouseMoves < 100)
    ensures rule == UnrevealedWords ==> (fires <==> s.hoverCount < s.totalWords)
    ensures rule == FastLongAnswer ==> (fires <==> s.answerLength > 150 && s.timeSpentSeconds < 30)
  {
    match rule
    case FewMouseMoves => s.mouseMoves < MouseMoveThreshold
    case UnrevealedWords => s.hoverCount < s.totalWords
    case FastLongAnswer => s.answerLength > LongAnswerLength && s.timeSpentSeconds < FastAnswerSeconds
  }

  /** What a triggered rule adds to the score. */
  function Weight(rule: Rule): (w: real)
    ensures w == (if rule == UnrevealedWords then 0.3 else 0.4)
    ensures 0.0 < w < 0.5
  {
    match rule
    case FewMouseMoves => 0.4
    case UnrevealedWords => 0.3
    case FastLongAnswer => 0.4
  }

  /** The triggered rules, each once, in checking order. */
  function FiredRules(s: Signals): (fired: seq<Rule>)
    ensures forall rule :: rule in fired <==> Fires(rule, s)
    ensures |fired| <= 3
  {
    (if Fires(FewMouseMoves, s) then [FewMouseMoves] else [])
    + (if Fires(UnrevealedWords, s) then [UnrevealedWords] else [])
    + (if Fires(FastLongAnswer, s) then [FastLongAnswer] else [])
  }

  /** Total weight of a list of rules. */
  function SumWeights(rules: seq<Rule>): (total: real)
    ensures total >= 0.0
    ensures rules != [] ==> total >= 0.3
  {
    if rules == [] then 0.0 else Weight(rules[0]) + SumWeights(rules[1..])
  }

  lemma {:induction false} SumWeightsAppend(a: seq<Rule>, b: seq<Rule>)
    ensures SumWeights(a + b) == SumWeights(a) + SumWeights(b)
  {
    if a != [] {
      assert (a + b)[1..] == a[1..] + b;
      SumWeightsAppend(a[1..], b);
    } else {
      assert a + b == b;
    }
  }

  /** What one rule contributes: its weight when it fires, nothing otherwise. */
  function Contribution(rule: Rule, s: Signals): real
  {
    if Fires(rule, s) then Weight(rule) else 0.0
  }

  /** The score before the cap: the weights of the triggered rules added up. */
  function UncappedScore(s: Signals): (total: real)
    ensures total == Contribution(FewMouseMoves, s) + Contribution(UnrevealedWords, s) + Contribution(FastLongAnswer, s)
  {
    var a := if Fires(FewMouseMoves, s) then [FewMouseMoves] else [];
    var b := if Fires(UnrevealedWords, s) then [UnrevealedWords] else [];
    var c := if Fires(FastLongAnswer, s) then [FastLongAnswer] else [];
    SumWeightsAppend(a + b, c);
    SumWeightsAppend(a, b);
    SumWeights(FiredRules(s))
  }

  function Min(a: real, b: real): real
  {
    if a <= b then a else b
  }

  /**
   * The risk score: the triggered weights added up and capped at 1.0.
   * It is 0.0 exactly when no rule fires.
   */
  function RiskScore(s: Signals): (score: real)
    ensures 0.0 <= score <= ScoreCap
    ensures score == 0.0 <==> forall rule :: !Fires(rule, s)
  {
    Min(UncappedScore(s), ScoreCap)
  }

  /**
   * The scorer as the form runs it: an accumulator starting at 0 that each
   * triggered rule increments, capped at the end.
   */
  method ComputeRiskScore(answer: string, timeSpentSeconds: int, mouseMoves: nat, hoverCount: nat, totalWords: nat)
    returns (riskScore: real)
    ensures riskScore == RiskScore(Signals(|answer|, timeSpentSeconds, mouseMoves, hoverCount, totalWords))
  {
    riskScore := 0.0;
    if mouseMoves < 100 {
      riskScore := riskScore + 0.4;
    }
    if hoverCount < totalWords {
      riskScore := riskScore + 0.3;
    }
    if |answer| > 150 && timeSpentSeconds < 30 {
      riskScore := riskScore + 0.4;
    }
    riskScore := Min(riskScore, 1.0);
  }

  /** A rule that starts firing, all else equal, adds exactly its weight before the cap. */
  lemma RuleAddsItsWeight(s: Signals, s': Signals, rule: Rule)
    requires !Fires(rule, s) && Fires(rule, s')
    requires forall other :: other != rule ==> (Fires(other, s) <==> Fires(other, s'))
    ensures UncappedScore(s') == UncappedScore(s) + Weight(rule)
    ensures RiskScore(s') == Min(UncappedScore(s) + Weight(rule), ScoreCap)
  {
  }

  /** A single triggered rule scores exactly its weight: 0.4 or 0.3. */
  lemma SingleRuleScoresItsWeight(s: Signals, rule: Rule)
    requires FiredRules(s) == [rule]
    ensures RiskScore(s) == Weight(rule)
    ensures RiskScore(s) == 0.3 || RiskScore(s) == 0.4
  {
  }

  /** All three rules add up to 1.1, which the cap turns into exactly 1.0. */
  lemma AllRulesAreCapped(s: Signals)
    requires forall rule :: Fires(rule, s)
    ensures UncappedScore(s) == 1.1
    ensures RiskScore(s) == 1.0
  {
  }

  /** Triggering more rules never lowers the score. */
  lemma RiskScoreMonotone(s: Signals, s': Signals)
    requires forall rule :: Fires(rule, s) ==> Fires(rule, s')
    ensures RiskScore(s) <= RiskScore(s')
  {
  }

  /** The score is above one half exactly when at least two rules fire. */
  lemma AboveHalfIffTwoRules(s: Signals)
    ensures RiskScore(s) > 0.5 <==> |FiredRules(s)| >= 2
  {
  }

  /**
   * Whole seconds between two millisecond clock readings, rounded down
   * (also when the clock went backwards).
   */
  function ElapsedSeconds(startMs: int, endMs: int): (seconds: int)
    ensures seconds * 1000 <= endMs - startMs < seconds * 1000 + 1000
    ensures startMs <= endMs ==> seconds >= 0
  {
    (endMs - startMs) / 1000
  }
}
