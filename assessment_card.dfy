/**
 * The assessment form: the interaction tracker it keeps while the question
 * is on screen, and the submit step that scores the session.
 */
module Tracker {
  import opened Schema
  import opened Question
  import opened Scoring
  import opened SubmitGuard

  /** The interaction events the form reacts to, in arrival order. */
  datatype Event = MouseMove | WordEnter(index: nat) | WordLeave(index: nat)

  /**
   * The tracker's state as a value: the mouse-move counter, the grow-only
   * set of word indices ever hovered, and the set currently revealed.
   */
  datatype Telemetry = Telemetry(mouseMoves: nat, hovered: set<nat>, visible: set<nat>)

  const InitialTelemetry: Telemetry := Telemetry(0, {}, {})

  /** The effect of one event on the tracker. */
  function Apply(t: Telemetry, e: Event): (t': Telemetry)
    ensures t.hovered <= t'.hovered
    ensures t'.mouseMoves == if e.MouseMove? then t.mouseMoves + 1 else t.mouseMoves
  {
    match e
    case MouseMove => t.(mouseMoves := t.mouseMoves + 1)
    case WordEnter(i) => t.(hovered := t.hovered + {i}, visible := t.visible + {i})
    case WordLeave(i) => t.(visible := t.visible - {i})
  }

  /** The effect of a sequence of events, first to last. */
  function Run(t: Telemetry, events: seq<Event>): Telemetry
    decreases |events|
  {
    if events == [] then t else Run(Apply(t, events[0]), events[1..])
  }

  /** Number of mouse-move events in `events`. */
  function MouseMoveCount(events: seq<Event>): nat
  {
    if events == [] then 0 else (if events[0].MouseMove? then 1 else 0) + MouseMoveCount(events[1..])
  }

  /** Every hover event names one of the first `n` words. */
  predicate WordsInRange(events: seq<Event>, n: nat)
  {
    forall k | 0 <= k < |events| :: !events[k].MouseMove? ==> events[k].index < n
  }

  /**
   * The tracker's invariant for a question of `n` words: every hovered
   * index names a word, and a revealed word has been hovered.
   */
  predicate Wellformed(t: Telemetry, n: nat)
  {
    && t.visible <= t.hovered
    && forall i | i in t.hovered :: i < n
  }

  /** Hovering a word reveals it and records it as hovered. */
  lemma EnterRecordsAndReveals(t: Telemetry, i: nat)
    ensures i in Apply(t, WordEnter(i)).hovered && i in Apply(t, WordEnter(i)).visible
    ensures Apply(t, WordEnter(i)).hovered == t.hovered + {i}
  {
  }

  /** Hovering the same word twice is the same as hovering it once. */
  lemma EnterIsIdempotent(t: Telemetry, i: nat)
    ensures Apply(Apply(t, WordEnter(i)), WordEnter(i)) == Apply(t, WordEnter(i))
    ensures |Apply(Apply(t, WordEnter(i)), WordEnter(i)).hovered| == |Apply(t, WordEnter(i)).hovered|
  {
  }

  /** Leaving a word hides that word only; the hover history and the counter stay. */
  lemma LeaveTouchesOnlyVisible(t: Telemetry, i: nat)
    ensures Apply(t, WordLeave(i)).hovered == t.hovered
    ensures Apply(t, WordLeave(i)).mouseMoves == t.mouseMoves
    ensures i !in Apply(t, WordLeave(i)).visible
    ensures forall j :: j != i ==> (j in Apply(t, WordLeave(i)).visible <==> j in t.visible)
  {
  }

  /** Over any events the hover history never loses an index. */
  lemma {:induction false} RunNeverShrinksHovered(t: Telemetry, events: seq<Event>)
    ensures t.hovered <= Run(t, events).hovered
    decreases |events|
  {
    if events != [] {
      RunNeverShrinksHovered(Apply(t, events[0]), events[1..]);
    }
  }

  /** The counter grows by exactly the number of mouse-move events. */
  lemma {:induction false} RunCountsMouseMoves(t: Telemetry, events: seq<Event>)
    ensures Run(t, events).mouseMoves == t.mouseMoves + MouseMoveCount(events)
    decreases |events|
  {
    if events != [] {
      RunCountsMouseMoves(Apply(t, events[0]), events[1..]);
    }
  }

  /** Events that name words of the question keep the invariant. */
  lemma {:induction false} RunKeepsWellformed(t: Telemetry, events: seq<Event>, n: nat)
    requires Wellformed(t, n) && WordsInRange(events, n)
    ensures Wellformed(Run(t, events), n)
    decreases |events|
  {
    if events != [] {
      assert WordsInRange(events[1..], n) by {
        forall k | 0 <= k < |events[1..]| && !events[1..][k].MouseMove?
          ensures events[1..][k].index < n
        {
          assert events[1..][k] == events[k + 1];
        }
      }
      RunKeepsWellformed(Apply(t, events[0]), events[1..], n);
    }
  }

  /** A set of indices all below `n` has at most `n` elements. */
  lemma {:induction false} IndicesBelowBound(s: set<nat>, n: nat)
    requires forall i | i in s :: i < n
    ensures |s| <= n
  {
    if n == 0 {
      assert s == {};
    } else {
      IndicesBelowBound(s - {n - 1}, n - 1);
    }
  }

  /** However the user moves over the question, at most all nine words count as hovered. */
  lemma HoverCountAtMostTotalWords(events: seq<Event>)
    requires WordsInRange(events, |QuestionWords|)
    ensures |Run(InitialTelemetry, events).hovered| <= |Split(QuestionText, ' ')|
    ensures |Run(InitialTelemetry, events).hovered| <= 9
  {
    RunKeepsWellformed(InitialTelemetry, events, |QuestionWords|);
    IndicesBelowBound(Run(InitialTelemetry, events).hovered, |QuestionWords|);
    QuestionHasNineWords();
  }

  /**
   * The submit payload for an answer, a start and end time and the
   * tracker's state. Its hover count is at most the number of words, its
   * score lies in [0, 1], and a word never hovered costs at least 0.3.
   */
  function Payload(answer: string, startMs: int, endMs: int, t: Telemetry): (p: InsertSubmission)
    requires Wellformed(t, |QuestionWords|)
    ensures 0 <= p.hoverCount <= 9
    ensures 0.0 <= p.riskScore <= 1.0
    ensures p.hoverCount < 9 ==> p.riskScore >= 0.3
    ensures p.answer == answer && p.mouseMoves == t.mouseMoves
    ensures p.hoverCount == |t.hovered| && p.timeSpentSeconds == ElapsedSeconds(startMs, endMs)
  {
    IndicesBelowBound(t.hovered, |QuestionWords|);
    var seconds := ElapsedSeconds(startMs, endMs);
    InsertSubmission(answer, seconds, t.mouseMoves, |t.hovered|,
      RiskScore(Signals(|answer|, seconds, t.mouseMoves, |t.hovered|, |QuestionWords|)))
  }

  /** The assessment form's state while it is on screen. */
  class AssessmentCard {
    var answer: string
    var visibleIndices: set<nat>
    var hoveredIndices: set<nat>
    var mouseMoves: nat
    const startTime: int
    var isSubmitting: bool

    /** The tracker part of the state, as a value. */
    function State(): Telemetry
      reads this
    {
      Telemetry(mouseMoves, hoveredIndices, visibleIndices)
    }

    ghost predicate Valid()
      reads this
    {
      Wellformed(State(), |QuestionWords|)
    }

    /** Whether the submit button is enabled. */
    function CanSubmit(): (enabled: bool)
      reads this
      ensures enabled <==> !isSubmitting && exists i | 0 <= i < |answer| :: !IsWhitespace(answer[i])
    {
      SubmitEnabled(answer, isSubmitting)
    }

    /** Mounting the form: nothing tracked yet, the clock read once as `now`. */
    constructor (now: int)
      ensures Valid()
      ensures State() == InitialTelemetry
      ensures answer == [] && !isSubmitting && startTime == now
    {
      answer := [];
      visibleIndices := {};
      hoveredIndices := {};
      mouseMoves := 0;
      startTime := now;
      isSubmitting := false;
    }

    method HandleMouseMove()
      requires Valid()
      modifies this
      ensures Valid()
      ensures State() == Apply(old(State()), MouseMove)
      ensures mouseMoves == old(mouseMoves) + 1
      ensures answer == old(answer) && isSubmitting == old(isSubmitting)
    {
      mouseMoves := mouseMoves + 1;
    }

    method HandleWordHover(index: nat)
      requires Valid() && index < |QuestionWords|
      modifies this
      ensures Valid()
      ensures State() == Apply(old(State()), WordEnter(index))
      ensures index in hoveredIndices && index in visibleIndices
      ensures answer == old(answer) && isSubmitting == old(isSubmitting)
    {
      hoveredIndices := hoveredIndices + {index};
      var next := visibleIndices;
      next := next + {index};
      visibleIndices := next;
    }

    method HandleWordLeave(index: nat)
      requires Valid()
      modifies this
      ensures Valid()
      ensures State() == Apply(old(State()), WordLeave(index))
      ensures hoveredIndices == old(hoveredIndices) && index !in visibleIndices
      ensures answer == old(answer) && isSubmitting == old(isSubmitting)
    {
      var next := visibleIndices;
      next := next - {index};
      visibleIndices := next;
    }

    /** The answer box changed. */
    method SetAnswer(text: string)
      requires Valid()
      modifies this
      ensures Valid()
      ensures answer == text
      ensures State() == old(State()) && isSubmitting == old(isSubmitting)
    {
      answer := text;
    }

    /**
     * Submitting at clock reading `now`: marks a submission in flight and
     * builds the payload from the elapsed time, the tracker and the score.
     */
    method HandleSubmit(now: int) returns (payload: InsertSubmission)
      requires Valid()
      modifies this
      ensures Valid()
      ensures isSubmitting
      ensures State() == old(State()) && answer == old(answer)
      ensures payload == Payload(answer, startTime, now, State())
      ensures payload.hoverCount <= |QuestionWords|
      ensures 0.0 <= payload.riskScore <= 1.0
    {
      isSubmitting := true;
      var endTime := now;
      var timeSpentSeconds := (endTime - startTime) / 1000;
      var moves := mouseMoves;
      var hoverCount := |hoveredIndices|;
      var totalWords := |QuestionWords|;
      var riskScore := ComputeRiskScore(answer, timeSpentSeconds, moves, hoverCount, totalWords);
      payload := InsertSubmission(answer, timeSpentSeconds, moves, hoverCount, riskScore);
    }

    /**
     * The outcome of the posted submission: only a failure re-enables
     * submitting; after a success the form is left for the results page.
     */
    method FinishSubmit(succeeded: bool)
      requires Valid()
      modifies this
      ensures Valid()
      ensures isSubmitting == (old(isSubmitting) && succeeded)
      ensures State() == old(State()) && answer == old(answer)
    {
      if !succeeded {
        isSubmitting := false;
      }
    }
  }
}
