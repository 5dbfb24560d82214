# Assessment form tracker, risk scorer and results view

This project models the interactive assessment form of a small screening
web app and the page that shows its result.

The form shows a fixed question whose words are hidden until hovered. While
it is on screen it tracks three signals:

- a mouse-move counter that only ever increments;
- a grow-only set of word indices that were ever hovered;
- a separate set of the words currently revealed, which gains a word on
  hover-enter and loses it on hover-leave.

On submit it computes the elapsed whole seconds and a heuristic risk score.
The score adds 0.4 for fewer than 100 mouse moves, 0.3 when not every word
was hovered, and 0.4 for an answer longer than 150 characters written in
under 30 seconds. The total is capped at 1.0. The submit button is enabled
only for an answer that is not blank after trimming, and only while no
submission is in flight. The results page shows the last submission of the
fetched list. It flags the submission as high risk when its score is above
0.5.

Modules:

- `Schema` (schema.dfy): the submission record and the posted payload.
- `Question` (question.dfy): the question, split on spaces into its nine words.
- `Scoring` (scoring.dfy): the rules, their weights, the capped score and
  elapsed seconds. `ComputeRiskScore` is the form's accumulator; it is
  proved equal to `RiskScore`, which is defined from the table of triggered
  rules.
- `SubmitGuard` (submit_guard.dfy): JavaScript-style trimming and the
  submit-enable condition.
- `Tracker` (assessment_card.dfy): the tracker as a value (`Telemetry`,
  `Apply`, `Run`) with lemmas over any event sequence. The form itself is
  the class `AssessmentCard`; each of its handlers is proved to change the
  state exactly as `Apply` does.
- `Results` (results.dfy): latest-submission selection, the page's branch
  order, and the high-risk verdict with its badge and explanation.

## Model

| member | source | states |
|---|---|---|
| `Question.Split` | Repl-Document/client/src/components/AssessmentCard.tsx:11 | splitting on a one-character separator gives one more piece than there are separators, and no piece contains the separator |
| `Question.SplitJoin` | Repl-Document/client/src/components/AssessmentCard.tsx:10-11 | splitting a space-join of space-free words gives back exactly those words |
| `Question.JoinSplit` | Repl-Document/client/src/components/AssessmentCard.tsx:10-11 | re-joining the pieces of a split gives back the original text |
| `Question.QuestionHasNineWords` | Repl-Document/client/src/components/AssessmentCard.tsx:10-11 | the question text splits on spaces into its nine words, so the total word count is 9 |
| `Scoring.Fires` | Repl-Document/client/src/components/AssessmentCard.tsx:64-66 | the three rule conditions: fewer than 100 mouse moves; a hover count below the total word count; an answer longer than 150 characters together with under 30 seconds |
| `Scoring.Weight` | Repl-Document/client/src/components/AssessmentCard.tsx:64-66 | the unrevealed-words rule weighs 0.3 and the other two weigh 0.4; every weight lies strictly between 0 and 0.5 |
| `Scoring.FiredRules` | Repl-Document/client/src/components/AssessmentCard.tsx:64-66 | a rule is in the list exactly when its condition holds on the signals; at most three rules fire |
| `Scoring.SumWeights` | Repl-Document/client/src/components/AssessmentCard.tsx:63-66 | the summed weight is never negative, and at least 0.3 once any rule fired |
| `Scoring.SumWeightsAppend` | Repl-Document/client/src/components/AssessmentCard.tsx:63-66 | the weight of two rule lists together is the sum of their weights, so the additions are order-independent |
| `Scoring.UncappedScore` | Repl-Document/client/src/components/AssessmentCard.tsx:63-66 | the uncapped score is the sum of each rule's contribution: its weight if it fires, nothing otherwise |
| `Scoring.RiskScore` | Repl-Document/client/src/components/AssessmentCard.tsx:63-69 | the score lies in [0, 1] for every input, and is 0 exactly when no rule fires |
| `Scoring.ComputeRiskScore` | Repl-Document/client/src/components/AssessmentCard.tsx:63-69 | the accumulator that starts at 0, adds 0.4, 0.3 and 0.4 under the three conditions and takes the minimum with 1.0 returns `RiskScore` of the signals |
| `Scoring.RuleAddsItsWeight` | Repl-Document/client/src/components/AssessmentCard.tsx:64-66 | a rule that starts firing, all other rules unchanged, raises the uncapped score by exactly its weight |
| `Scoring.SingleRuleScoresItsWeight` | Repl-Document/client/src/components/AssessmentCard.tsx:63-66 | when exactly one rule fires the score is that rule's weight, 0.3 or 0.4 |
| `Scoring.AllRulesAreCapped` | Repl-Document/client/src/components/AssessmentCard.tsx:64-69 | when all three rules fire the uncapped sum is 1.1 and the score is exactly 1.0 |
| `Scoring.RiskScoreMonotone` | Repl-Document/client/src/components/AssessmentCard.tsx:63-69 | triggering a superset of rules never gives a lower score |
| `Scoring.AboveHalfIffTwoRules` | Repl-Document/client/src/components/AssessmentCard.tsx:63-69 | the score is above 0.5 exactly when at least two rules fire |
| `Scoring.ElapsedSeconds` | Repl-Document/client/src/components/AssessmentCard.tsx:56-57 | the result is the floor of the millisecond difference divided by 1000, also for a negative difference; it is non-negative when the end is not before the start |
| `SubmitGuard.IsWhitespace` | Repl-Document/client/src/components/AssessmentCard.tsx:150 | the characters `trim` removes; among ASCII characters exactly tab, line feed, vertical tab, form feed, carriage return and space, and never a letter or digit |
| `SubmitGuard.TrimStart` | Repl-Document/client/src/components/AssessmentCard.tsx:150 | the result is a suffix of the input, everything dropped is whitespace, and it does not start with whitespace |
| `SubmitGuard.TrimEnd` | Repl-Document/client/src/components/AssessmentCard.tsx:150 | the result is a prefix of the input, everything dropped is whitespace, and it does not end with whitespace |
| `SubmitGuard.Trim` | Repl-Document/client/src/components/AssessmentCard.tsx:150 | the trimmed answer is empty exactly when every character of the answer is whitespace |
| `SubmitGuard.SubmitEnabled` | Repl-Document/client/src/components/AssessmentCard.tsx:150 | submit is enabled exactly when no submission is in flight and the answer has a character that is not whitespace |
| `Tracker.Apply` | Repl-Document/client/src/components/AssessmentCard.tsx:27-51 | no event removes a hovered index; the counter rises by one on a mouse move and on no other event |
| `Tracker.EnterRecordsAndReveals` | Repl-Document/client/src/components/AssessmentCard.tsx:35-42 | hovering word i puts i into both the hovered set and the visible set |
| `Tracker.EnterIsIdempotent` | Repl-Document/client/src/components/AssessmentCard.tsx:35-42 | hovering the same word twice gives the same state, and the same hover count, as hovering it once |
| `Tracker.LeaveTouchesOnlyVisible` | Repl-Document/client/src/components/AssessmentCard.tsx:45-51 | leaving word i removes i from the visible set and changes no other visible word, the hovered set or the counter |
| `Tracker.RunNeverShrinksHovered` | Repl-Document/client/src/components/AssessmentCard.tsx:36 | over any sequence of events the hovered set never loses an index |
| `Tracker.RunCountsMouseMoves` | Repl-Document/client/src/components/AssessmentCard.tsx:27-29 | over any sequence of events the counter grows by exactly the number of mouse-move events |
| `Tracker.RunKeepsWellformed` | Repl-Document/client/src/components/AssessmentCard.tsx:113-117 | events naming words of the question keep every hovered index below the word count and every visible word hovered |
| `Tracker.IndicesBelowBound` | Repl-Document/client/src/components/AssessmentCard.tsx:59-60 | a set of indices all below n has at most n elements |
| `Tracker.HoverCountAtMostTotalWords` | Repl-Document/client/src/components/AssessmentCard.tsx:59-60 | from the initial state, any events on the question's words leave a hover count of at most the total word count, 9 |
| `Tracker.Payload` | Repl-Document/client/src/components/AssessmentCard.tsx:56-78 | the posted payload carries the answer, the counter, the size of the ever-hovered set as hover count and the elapsed whole seconds; the hover count is at most 9 and a score in [0, 1], and at least 0.3 when some word was never hovered |
| `Tracker.AssessmentCard.constructor` | Repl-Document/client/src/components/AssessmentCard.tsx:16-23 | a mounted form has an empty answer, nothing tracked, no submission in flight and the start time read once |
| `Tracker.AssessmentCard.CanSubmit` | Repl-Document/client/src/components/AssessmentCard.tsx:150 | the button is enabled exactly when no submission is in flight and the current answer has a character that is not whitespace |
| `Tracker.AssessmentCard.HandleMouseMove` | Repl-Document/client/src/components/AssessmentCard.tsx:27-29 | the counter rises by exactly one and nothing else changes |
| `Tracker.AssessmentCard.HandleWordHover` | Repl-Document/client/src/components/AssessmentCard.tsx:35-42 | the word joins both sets, the counter, answer and submit flag are unchanged, and the invariant is kept |
| `Tracker.AssessmentCard.HandleWordLeave` | Repl-Document/client/src/components/AssessmentCard.tsx:45-51 | the word leaves the visible set only; the hovered set is unchanged |
| `Tracker.AssessmentCard.SetAnswer` | Repl-Document/client/src/components/AssessmentCard.tsx:136 | the answer becomes the typed text and the tracker is unchanged |
| `Tracker.AssessmentCard.HandleSubmit` | Repl-Document/client/src/components/AssessmentCard.tsx:54-78 | submitting marks a submission in flight, leaves the tracker unchanged, and posts `Payload` of the answer, start time, clock reading and tracker |
| `Tracker.AssessmentCard.FinishSubmit` | Repl-Document/client/src/components/AssessmentCard.tsx:79-84 | only a failed submission clears the in-flight flag; after a success the flag keeps its value; the tracker and answer are unchanged |
| `Results.LatestSubmission` | Repl-Document/client/src/pages/Results.tsx:12-14 | there is no latest submission exactly when the list is missing or empty; otherwise it is the list's last element |
| `Results.LatestIsJustCreated` | Repl-Document/client/src/pages/Results.tsx:11-14 | a record stored at the end of the list is the one selected |
| `Results.IsHighRisk` | Repl-Document/client/src/pages/Results.tsx:44 | a score is high risk exactly when it is strictly above 0.5 |
| `Results.HalfIsNotHighRisk` | Repl-Document/client/src/pages/Results.tsx:44 | a score of exactly 0.5 is not high risk; any score above 0.5 is |
| `Results.Badge` | Repl-Document/client/src/pages/Results.tsx:95 | the badge reads "Flagged" exactly when high risk and "Passed" exactly when not |
| `Results.Explanation` | Repl-Document/client/src/pages/Results.tsx:105-107 | the anomaly sentence is shown exactly when high risk |
| `Results.ResultsView` | Repl-Document/client/src/pages/Results.tsx:12-44 | the spinner is shown exactly while loading; after it, an error or a missing latest submission gives the not-found view; otherwise the report shows the last submission, high risk iff its score is above 0.5, with the matching badge and explanation |
| `Results.FlaggedIffTwoRulesFire` | Repl-Document/client/src/pages/Results.tsx:44 | a score produced by the form's scorer is high risk, and badged "Flagged", exactly when at least two of the three rules fired |
| `Results.ReportOfScoredSubmission` | Repl-Document/client/src/pages/Results.tsx:12-44 | once loaded without error, a scored submission stored last is reported, flagged exactly when at least two rules fired |

## Left out

- Network and persistence: posting the payload, the server's validation and
  storage, and fetching the list are not modelled. The outcome of the post
  is the parameter of `FinishSubmit`, and the fetched list is a parameter
  of `ResultsView`. The list is assumed to arrive in creation order, which
  the database provides.
- Clock: `Date.now()` readings are integer millisecond parameters (the
  constructor's `now` and `HandleSubmit`'s `now`).
- Registering and removing the window mouse-move listener, navigation to
  the results page, console logging, markup, CSS classes, `toFixed(2)`
  formatting and the JSON dump of the record are not modelled.
- Floating point: the weights, cap and threshold are exact `real` values.
  In IEEE-754 doubles the reachable sums are 0, 0.3, 0.4, 0.7, 0.8 and 1.1
  (capped to 1.0). The stored column is a 4-byte float. None of these values
  is near 0.5, so rounding never changes the verdict. The model does not
  show that.
- Integer width: the mouse-move counter and the clock are unbounded
  integers. JavaScript numbers lose precision above 2^53.
- Answer length: the model counts characters (Unicode scalar values).
  JavaScript's `length` counts UTF-16 code units, so a character outside
  the Basic Multilingual Plane counts twice in the source.
- Question text: the model states the question as its nine words, and the
  text is their space-join. The source writes the text as a literal and
  splits it. The split of that join is proved to give back the nine words.
- Tracker.AssessmentCard.HandleWordHover: requires an index below the word
  count. The only callers are the per-word handlers created by mapping over
  the question's words.
- React state scheduling: the functional updates of the visible set are
  applied at once and in event order. React applies queued updaters in
  order too, so the resulting set is the same.
- Tracker.AssessmentCard.HandleSubmit: does not itself check that submitting
  is enabled, and neither does the source. It relies on the disabled
  button, which `CanSubmit` models.
