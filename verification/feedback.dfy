/** The results screen of an interview
    (`client/src/components/interview/InterviewFeedback.jsx`): the score's
    rating, the times as minutes and seconds, the success rate and the
    performance insights. */
module Feedback {
  import opened Wrappers
  import opened Strings
  import opened Seqs
  import opened InterviewClient

  /** JavaScript's `seconds % 60`: the remainder takes the sign of the
      dividend. */
  function TruncRemainder(seconds: int): (r: int)
    ensures -60 < r < 60 && (seconds - r) % 60 == 0
    ensures seconds >= 0 ==> r >= 0
    ensures seconds < 0 ==> r <= 0
  {
    if seconds >= 0 then seconds % 60
    else
      var q := (-seconds) / 60;
      assert seconds + (-seconds) % 60 == -60 * q;
      -((-seconds) % 60)
  }

  /** `formatTime(seconds)`: `Math.floor(seconds / 60)`, `m `, then
      `seconds % 60`, `s`. */
  function FormatDuration(seconds: int): (t: string)
    ensures |t| >= 5 && t[|t| - 1] == 's'
  {
    IntToString(seconds / 60) + "m " + IntToString(TruncRemainder(seconds)) + "s"
  }

  /** Minutes and seconds laid out as `<m>m <s>s` split back at the
      first `m`. */
  lemma MinutesLayout(m: string, s: string)
    requires 'm' !in m
    ensures var t := m + "m " + s + "s";
      IndexOfChar(t, 'm') == |m| && t[|m| + 1] == ' ' &&
      t[..|m|] == m && t[|m| + 2..|t| - 1] == s
  {
    var t := m + "m " + s + "s";
    assert t[..|m|] == m;
    assert t[|m|] == 'm';
    assert t[|m| + 2..|t| - 1] == s;
  }

  /** The floor of the minutes and JavaScript's remainder, as numbers. */
  lemma MinutesArithmetic(seconds: int)
    ensures (seconds / 60) * 60 <= seconds < (seconds / 60 + 1) * 60
    ensures seconds >= 0 ==>
      (seconds / 60) * 60 + TruncRemainder(seconds) == seconds && 0 <= TruncRemainder(seconds) < 60
    ensures seconds < 0 && seconds % 60 != 0 ==>
      (seconds / 60) * 60 + TruncRemainder(seconds) == seconds - 60
  {
    if seconds < 0 && seconds % 60 != 0 {
      assert (-seconds) % 60 == 60 - seconds % 60;
    }
  }

  /** The text reads back: the numeral up to the first `m` is the floor of
      the minutes and the one between `m ` and the final `s` is the
      remainder with the sign of the duration. A duration that is not
      negative is minutes and seconds below a minute; a negative one that
      is not whole minutes reads a minute short, as in `-1m -5s` for -5. */
  lemma DurationReads(seconds: int)
    ensures var t := FormatDuration(seconds);
      var i := IndexOfChar(t, 'm');
      0 < i < |t| - 3 && t[i + 1] == ' ' &&
      IsNumeral(t[..i]) && IsNumeral(t[i + 2..|t| - 1]) &&
      ParseInt(t[..i]) * 60 <= seconds < (ParseInt(t[..i]) + 1) * 60 &&
      ParseInt(t[i + 2..|t| - 1]) == TruncRemainder(seconds) &&
      (seconds >= 0 ==>
        ParseInt(t[..i]) * 60 + ParseInt(t[i + 2..|t| - 1]) == seconds &&
        0 <= ParseInt(t[i + 2..|t| - 1]) < 60) &&
      (seconds < 0 && seconds % 60 != 0 ==>
        ParseInt(t[..i]) * 60 + ParseInt(t[i + 2..|t| - 1]) == seconds - 60)
  {
    var m := IntToString(seconds / 60);
    var s := IntToString(TruncRemainder(seconds));
    assert 'm' !in m;
    MinutesLayout(m, s);
    ParseIntToString(seconds / 60);
    ParseIntToString(TruncRemainder(seconds));
    MinutesArithmetic(seconds);
  }

  /** Five seconds short of the start reads as minus one minute and minus
      five seconds. */
  lemma NegativeDuration()
    ensures FormatDuration(-5) == "-1m -5s"
  {
    assert IntToString(-1) == "-1";
    assert IntToString(-5) == "-5";
  }

  // ------------------------------------------------------------ rating

  datatype Rating = Excellent | Great | Good | Fair | Poor {
    /** The rating's position from worst (0) to best (4). */
    function Rank(): nat {
      match this
      case Poor => 0
      case Fair => 1
      case Good => 2
      case Great => 3
      case Excellent => 4
    }

    /** `rating.text` */
    function Text(): string {
      match this
      case Excellent => "Excellent! \U{1F389}"
      case Great => "Great Job! \U{1F44F}"
      case Good => "Good Effort \U{1F44D}"
      case Fair => "Keep Practicing \U{1F4AA}"
      case Poor => "Needs Improvement \U{1F4DA}"
    }

    /** `rating.class` */
    function Class(): string {
      match this
      case Excellent => "excellent"
      case Great => "great"
      case Good => "good"
      case Fair => "fair"
      case Poor => "poor"
    }
  }

  /** `getScoreRating(score)`: 90 and above excellent, 75 great, 60 good,
      40 fair, anything lower poor; a score that is not a number compares
      false everywhere and is poor. */
  function ScoreRating(score: Option<int>): (r: Rating)
    ensures r == Excellent <==> score.Some? && score.value >= 90
    ensures r == Great <==> score.Some? && 75 <= score.value < 90
    ensures r == Good <==> score.Some? && 60 <= score.value < 75
    ensures r == Fair <==> score.Some? && 40 <= score.value < 60
    ensures r == Poor <==> score.None? || score.value < 40
  {
    match score
    case None => Poor
    case Some(s) =>
      if s >= 90 then Excellent
      else if s >= 75 then Great
      else if s >= 60 then Good
      else if s >= 40 then Fair
      else Poor
  }

  /** A higher score never gets a lower rating. */
  lemma RatingMonotone(a: int, b: int)
    requires a <= b
    ensures ScoreRating(Some(a)).Rank() <= ScoreRating(Some(b)).Rank()
  {
  }

  /** The five ratings have five different classes. */
  lemma RatingClassesDistinct(a: Rating, b: Rating)
    ensures a.Class() == b.Class() ==> a == b
  {
    if a != b {
      assert a.Class()[0] != b.Class()[0] || a.Class()[1] != b.Class()[1];
    }
  }

  // ------------------------------------------------------ success rate

  /** The success rate shown: the percentage of tests passed, rounded half
      up, and 0 when there is no summary or no test ran. */
  function SuccessRate(summary: Option<Summary>): (rate: nat)
    ensures summary.None? || summary.value.total == 0 ==> rate == 0
  {
    if summary.None? || summary.value.total == 0 then 0
    else RoundHalfUp(100 * summary.value.passed, summary.value.total)
  }

  /** The rate is a percentage, and it is 100 exactly when all of at least
      one test passed. */
  lemma SuccessRateRange(summary: Option<Summary>)
    requires summary.Some? ==> summary.value.passed <= summary.value.total
    ensures SuccessRate(summary) <= 100
    ensures summary.Some? && 0 < summary.value.total == summary.value.passed ==> SuccessRate(summary) == 100
  {
    if summary.Some? && summary.value.total > 0 {
      var Summary(passed, total) := summary.value;
      MulMono(passed, total, 100);
      RoundAtMost(100 * passed, total, 100);
      if passed == total {
        RoundExact(total, 100);
      }
    }
  }

  // ---------------------------------------------------------- insights

  datatype Insight = Outstanding | GoodWork | AllPassed | FastFinish | Slow | EdgeCasesFailed

  /** `timeTaken < totalTime * 0.5`; no duration is not a number. */
  predicate Fast(timeTaken: int, totalTime: Option<nat>) {
    totalTime.Some? && 2 * timeTaken < totalTime.value
  }

  /** `timeTaken > totalTime * 0.9` */
  predicate Late(timeTaken: int, totalTime: Option<nat>) {
    totalTime.Some? && 10 * timeTaken > 9 * totalTime.value
  }

  /** The insights in the order the list shows them. */
  const AllInsights: seq<Insight> := [Outstanding, GoodWork, AllPassed, FastFinish, Slow, EdgeCasesFailed]

  lemma EveryInsightListed()
    ensures forall i :: i in AllInsights
  {
    forall i ensures i in AllInsights {
      match i
      case Outstanding => assert AllInsights[0] == i;
      case GoodWork => assert AllInsights[1] == i;
      case AllPassed => assert AllInsights[2] == i;
      case FastFinish => assert AllInsights[3] == i;
      case Slow => assert AllInsights[4] == i;
      case EdgeCasesFailed => assert AllInsights[5] == i;
    }
  }

  /** When each line is shown, the all-passed line only for a summary whose
      tests all passed. */
  predicate Shown(insight: Insight, score: Option<int>, summary: Option<Summary>, timeTaken: int, totalTime: Option<nat>) {
    match insight
    case Outstanding => score.Some? && score.value >= 90
    case GoodWork => score.Some? && 70 <= score.value < 90
    case AllPassed => summary.Some? && summary.value.passed == summary.value.total
    case FastFinish => Fast(timeTaken, totalTime)
    case Slow => Late(timeTaken, totalTime)
    case EdgeCasesFailed => summary.Some? && summary.value.passed < summary.value.total
  }

  /** The conditions as written: the all-passed line compares
      `summary?.passed` with `summary?.total`, which also holds when there
      is no summary at all. */
  predicate ShownAsWritten(insight: Insight, score: Option<int>, summary: Option<Summary>, timeTaken: int, totalTime: Option<nat>) {
    if insight == AllPassed then summary.None? || summary.value.passed == summary.value.total
    else Shown(insight, score, summary, timeTaken, totalTime)
  }

  /** The insights list as written. */
  function InsightsAsWritten(score: Option<int>, summary: Option<Summary>, timeTaken: int, totalTime: Option<nat>): (r: seq<Insight>)
    ensures forall i :: i in r <==> ShownAsWritten(i, score, summary, timeTaken, totalTime)
  {
    EveryInsightListed();
    Filter(AllInsights, i => ShownAsWritten(i, score, summary, timeTaken, totalTime))
  }

  /** An interview submitted before any test ran has no summary: it scores
      0, is rated poor, and is still told that all test cases passed. */
  lemma NoTestsClaimAllPassed(timeTaken: int, totalTime: Option<nat>)
    ensures var score := Score(None, timeTaken, totalTime);
      score == Some(0) && ScoreRating(score) == Poor &&
      AllPassed in InsightsAsWritten(score, None, timeTaken, totalTime)
  {
  }

  /** The insights list: each line appears exactly under its condition,
      in the list's order. */
  function Insights(score: Option<int>, summary: Option<Summary>, timeTaken: int, totalTime: Option<nat>): (r: seq<Insight>)
    ensures forall i :: i in r <==> Shown(i, score, summary, timeTaken, totalTime)
    ensures SubsequenceOf(r, AllInsights)
  {
    EveryInsightListed();
    FilterSubsequence(AllInsights, i => Shown(i, score, summary, timeTaken, totalTime));
    Filter(AllInsights, i => Shown(i, score, summary, timeTaken, totalTime))
  }

  /** The insights never contradict each other: at most one of the two
      praise lines, of the two timing lines and of the two test lines, and
      with tests run and no more passed than ran, exactly one test line,
      agreeing with the success rate. */
  lemma InsightsConsistent(score: Option<int>, summary: Option<Summary>, timeTaken: int, totalTime: Option<nat>)
    requires summary.Some? ==> summary.value.passed <= summary.value.total
    ensures var r := Insights(score, summary, timeTaken, totalTime);
      !(Outstanding in r && GoodWork in r) &&
      !(FastFinish in r && Slow in r) &&
      !(AllPassed in r && EdgeCasesFailed in r) &&
      (summary.Some? ==> (AllPassed in r || EdgeCasesFailed in r)) &&
      (AllPassed in r && summary.value.total > 0 ==> SuccessRate(summary) == 100)
  {
    SuccessRateRange(summary);
  }
}
