/** The results page: which submission it shows and how it classifies it. */
module Results {
  import opened Schema
  import opened Scoring

  /** Scores strictly above this are high risk. */
  const HighRiskThreshold: real := 0.5

  /**
   * The most recent submission: the last one of the fetched list, or none
   * when the list has not arrived or is empty.
   */
  function LatestSubmission(data: Option<seq<Submission>>): (latest: Option<Submission>)
    ensures latest.None? <==> data.None? || data.value == []
    ensures latest.Some? ==> latest.value in data.value
    ensures latest.Some? ==> latest.value == data.value[|data.value| - 1]
  {
    if data.Some? && |data.value| > 0 then Some(data.value[|data.value| - 1]) else None
  }

  /** A record just stored at the end of the list is the one the page shows. */
  lemma LatestIsJustCreated(earlier: seq<Submission>, created: Submission)
    ensures LatestSubmission(Some(earlier + [created])) == Some(created)
  {
  }

  /** The page's verdict: strictly above one half is high risk, one half itself is not. */
  function IsHighRisk(riskScore: real): (highRisk: bool)
    ensures highRisk <==> riskScore > 0.5
  {
    riskScore > HighRiskThreshold
  }

  /** Exactly one half is not high risk; anything above it is. */
  lemma HalfIsNotHighRisk(riskScore: real)
    ensures !IsHighRisk(0.5)
    ensures riskScore > 0.5 ==> IsHighRisk(riskScore)
  {
  }

  /** The badge on the score card. */
  function Badge(highRisk: bool): (badge: string)
    ensures badge == "Flagged" <==> highRisk
    ensures badge == "Passed" <==> !highRisk
  {
    if highRisk then "Flagged" else "Passed"
  }

  /** The sentence under the score. */
  function Explanation(highRisk: bool): (text: string)
    ensures text == "Anomalous behavior patterns detected during assessment session." <==> highRisk
  {
    if highRisk
    then "Anomalous behavior patterns detected during assessment session."
    else "Behavior patterns consistent with standard human interaction."
  }

  /** What the page shows. */
  datatype View =
    | Loading
    | NotFound
    | Report(submission: Submission, highRisk: bool, badge: string, explanation: string)

  /**
   * The page's branch order: while loading, the spinner; then, on an error
   * or without a submission, the not-found card; otherwise the report of
   * the latest submission.
   */
  function ResultsView(isLoading: bool, isError: bool, data: Option<seq<Submission>>): (view: View)
    ensures view.Loading? <==> isLoading
    ensures view.NotFound? <==> !isLoading && (isError || data.None? || data.value == [])
    ensures view.Report? ==> data.Some? && view.submission == data.value[|data.value| - 1]
    ensures view.Report? ==> (view.highRisk <==> view.submission.riskScore > 0.5)
    ensures view.Report? ==> view.badge == Badge(view.highRisk)
    ensures view.Report? ==> view.explanation == Explanation(view.highRisk)
  {
    if isLoading then Loading
    else
      var latest := LatestSubmission(data);
      if isError || latest.None? then NotFound
      else
        var highRisk := IsHighRisk(latest.value.riskScore);
        Report(latest.value, highRisk, Badge(highRisk), Explanation(highRisk))
  }

  /**
   * A submission scored by the form is flagged exactly when at least two of
   * the three rules fired: one rule gives 0.3 or 0.4, two give 0.7 or 0.8,
   * three give 1.1, capped to 1.0.
   */
  lemma FlaggedIffTwoRulesFire(s: Signals)
    ensures IsHighRisk(RiskScore(s)) <==> |FiredRules(s)| >= 2
    ensures Badge(IsHighRisk(RiskScore(s))) == "Flagged" <==> |FiredRules(s)| >= 2
  {
  }

  /** The report for a freshly stored, scored submission carries that verdict. */
  lemma ReportOfScoredSubmission(earlier: seq<Submission>, created: Submission, s: Signals)
    requires created.riskScore == RiskScore(s)
    ensures ResultsView(false, false, Some(earlier + [created])).Report?
    ensures ResultsView(false, false, Some(earlier + [created])).submission == created
    ensures ResultsView(false, false, Some(earlier + [created])).highRisk <==> |FiredRules(s)| >= 2
  {
  }
}
