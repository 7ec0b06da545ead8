/** The interview session of one client
    (`client/src/contexts/InterviewContext.jsx`): starting an interview
    picks a problem, its starter code and a countdown; the countdown ticks
    once a second while the timer runs and signals the server when it
    runs out; ending or submitting turns interview mode off, submitting
    also records the results and a score. */
module InterviewClient {
  import opened Wrappers
  import opened Strings
  import opened Constants

  /** The fields of an interview problem the session uses. */
  datatype Problem = Problem(title: string, starterCode: Option<map<string, string>>)

  /** `testResults.summary`: how many test cases passed out of how many. */
  datatype Summary = Summary(passed: nat, total: nat)

  /** `interviewResults` */
  datatype Results = Results(
    code: string,
    summary: Option<Summary>,
    timeTaken: int,
    totalTime: Option<nat>,
    score: Option<int>,
    difficulty: string,
    problem: Option<Problem>)

  /** The state hooks of `InterviewProvider`. */
  datatype Session = Session(
    isInterviewMode: bool,
    currentProblem: Option<Problem>,
    difficulty: string,
    timeRemaining: nat,
    isTimerRunning: bool,
    interviewResults: Option<Results>,
    startTime: Option<int>,
    interviewCode: string,
    interviewLanguage: string)

  /** What the session sends to the server. */
  datatype Sent =
    | StartInterviewSent(roomId: string, problem: Problem, difficulty: string, duration: Option<nat>)
    | EndInterviewSent(roomId: string, timeout: bool)
    | SubmitInterviewSent(roomId: string, code: string, summary: Option<Summary>, timeTaken: int,
                          totalTime: Option<nat>, difficulty: string, currentProblem: Option<Problem>)

  /** The initial values of the state hooks. */
  function Initial(): (s: Session)
    ensures !s.isInterviewMode && !s.isTimerRunning && s.timeRemaining == 0
    ensures s.currentProblem.None? && s.interviewResults.None? && s.startTime.None?
  {
    Session(false, None, "easy", 0, false, None, None, "", "javascript")
  }

  // ------------------------------------------------------- starter code

  /** The stub written when a problem has no starter code. */
  function Stub(title: string): (code: string)
    ensures code == "// " + title + "\n" + "// Write your solution here\n\nfunction solve() {\n    // Your code here\n}\n"
  {
    "// " + title + "\n" + "// Write your solution here\n\nfunction solve() {\n    // Your code here\n}\n"
  }

  /** `problem.starterCode?.[key]` */
  function StarterEntry(problem: Problem, key: string): (r: Option<string>)
    ensures r.Some? <==> problem.starterCode.Some? && key in problem.starterCode.value
    ensures r.Some? ==> r.value == problem.starterCode.value[key]
  {
    match problem.starterCode
    case Some(codes) => if key in codes then Some(codes[key]) else None
    case None => None
  }

  /** The starter code of an interview: the problem's non-empty entry for
      the language, else its non-empty JavaScript entry, else the stub
      naming the problem. It is never empty. */
  function StarterCode(problem: Problem, language: string): (code: string)
    ensures Truthy(StarterEntry(problem, language)) ==> code == StarterEntry(problem, language).value
    ensures !Truthy(StarterEntry(problem, language)) && Truthy(StarterEntry(problem, "javascript")) ==>
      code == StarterEntry(problem, "javascript").value
    ensures !Truthy(StarterEntry(problem, language)) && !Truthy(StarterEntry(problem, "javascript")) ==>
      code == Stub(problem.title)
    ensures code != ""
  {
    var own := StarterEntry(problem, language);
    var js := StarterEntry(problem, "javascript");
    if Truthy(own) then own.value else if Truthy(js) then js.value else Stub(problem.title)
  }

  /** The stub names the problem: its first line is a comment holding the
      title. */
  lemma StubNamesProblem(title: string)
    ensures Stub(title)[..3 + |title|] == "// " + title && Stub(title)[3 + |title|] == '\n'
  {
    var head := "// " + title;
    var rest := "// Write your solution here\n\nfunction solve() {\n    // Your code here\n}\n";
    assert Stub(title) == head + "\n" + rest;
    assert (head + "\n" + rest)[|head|] == '\n';
  }

  // ---------------------------------------------------------- transitions

  /** `startInterview(selectedDifficulty, problem, selectedLanguage)` once
      the problem is chosen: the session shows the problem with its starter
      code, the countdown starts from the difficulty's duration (a
      difficulty without one leaves no time to count down) and earlier
      results are cleared. */
  function Started(s: Session, selectedDifficulty: string, problem: Problem, selectedLanguage: string, now: int): (r: Session)
    ensures r.isInterviewMode && r.isTimerRunning && r.interviewResults.None?
    ensures r.currentProblem == Some(problem) && r.difficulty == selectedDifficulty
    ensures r.interviewLanguage == selectedLanguage
    ensures r.interviewCode == StarterCode(problem, selectedLanguage)
    ensures InterviewDuration(selectedDifficulty).Some? ==> r.timeRemaining == InterviewDuration(selectedDifficulty).value
    ensures InterviewDuration(selectedDifficulty).None? ==> r.timeRemaining == 0
    ensures r.startTime == Some(now)
  {
    var duration := InterviewDuration(selectedDifficulty);
    Session(true, Some(problem), selectedDifficulty, if duration.Some? then duration.value else 0,
            true, None, Some(now), StarterCode(problem, selectedLanguage), selectedLanguage)
  }

  /** `handleEndInterview`: interview mode and timer off, code and problem
      cleared; the countdown, the results and the language stay. */
  function Ended(s: Session): (r: Session)
    ensures !r.isInterviewMode && !r.isTimerRunning && r.interviewCode == "" && r.currentProblem.None?
    ensures r.timeRemaining == s.timeRemaining && r.interviewResults == s.interviewResults
    ensures r.difficulty == s.difficulty && r.startTime == s.startTime && r.interviewLanguage == s.interviewLanguage
  {
    s.(isInterviewMode := false, isTimerRunning := false, interviewCode := "", currentProblem := None)
  }

  /** Whether the interval is armed: the timer runs and time is left. */
  predicate Ticking(s: Session) {
    s.isTimerRunning && s.timeRemaining > 0
  }

  /** Whether the next tick is the one that runs out of time. */
  predicate TimeUp(s: Session) {
    Ticking(s) && s.timeRemaining <= 1
  }

  /** One second of the interval: the countdown drops by one, never below
      zero; the tick that reaches zero stops the timer (`handleTimeUp`).
      Without a running timer or with no time left nothing happens. */
  function Ticked(s: Session): (r: Session)
    ensures !Ticking(s) ==> r == s
    ensures Ticking(s) ==> r.timeRemaining == s.timeRemaining - 1
    ensures Ticking(s) ==> (r.isTimerRunning <==> !TimeUp(s))
    ensures r == s.(timeRemaining := r.timeRemaining, isTimerRunning := r.isTimerRunning)
  {
    if !Ticking(s) then s
    else if s.timeRemaining <= 1 then s.(timeRemaining := 0, isTimerRunning := false)
    else s.(timeRemaining := s.timeRemaining - 1)
  }

  /** The session after `n` seconds. */
  function Ticks(s: Session, n: nat): Session {
    if n == 0 then s else Ticked(Ticks(s, n - 1))
  }

  /** How many of the first `n` ticks ran out of time. */
  function TimeUps(s: Session, n: nat): nat {
    if n == 0 then 0 else TimeUps(s, n - 1) + (if TimeUp(Ticks(s, n - 1)) then 1 else 0)
  }

  /** A running countdown from `t` seconds shows `t - n` after `n` seconds
      and stays at zero once there; the timer stops exactly when it reaches
      zero, and time runs out exactly once. Nothing but the countdown and
      the timer changes. */
  lemma {:induction false} Countdown(s: Session, n: nat)
    requires s.isTimerRunning
    ensures Ticks(s, n).timeRemaining == if n >= s.timeRemaining then 0 else s.timeRemaining - n
    ensures Ticks(s, n).isTimerRunning <==> s.timeRemaining == 0 || n < s.timeRemaining
    ensures TimeUps(s, n) == if 0 < s.timeRemaining <= n then 1 else 0
    ensures Ticks(s, n) == s.(timeRemaining := Ticks(s, n).timeRemaining, isTimerRunning := Ticks(s, n).isTimerRunning)
  {
    if n > 0 {
      Countdown(s, n - 1);
    }
  }

  /** A paused timer does not move. */
  lemma {:induction false} PausedTimerStays(s: Session, n: nat)
    requires !s.isTimerRunning
    ensures Ticks(s, n) == s && TimeUps(s, n) == 0
  {
    if n > 0 {
      PausedTimerStays(s, n - 1);
    }
  }

  /** An interview at a known difficulty runs out exactly when its duration
      has passed: the timer stops at zero, time runs out once, and the
      interview stays open until the server ends it. */
  lemma InterviewRunsOut(s: Session, selectedDifficulty: string, problem: Problem, selectedLanguage: string, now: int)
    requires selectedDifficulty in Difficulties
    ensures var t := Started(s, selectedDifficulty, problem, selectedLanguage, now);
      var n := InterviewDuration(selectedDifficulty).value;
      Ticks(t, n).timeRemaining == 0 && !Ticks(t, n).isTimerRunning && TimeUps(t, n) == 1 &&
      Ticks(t, n).isInterviewMode && Ticks(t, n - 1).isTimerRunning
  {
    var t := Started(s, selectedDifficulty, problem, selectedLanguage, now);
    var n := InterviewDuration(selectedDifficulty).value;
    DurationsIncrease();
    assert n > 0;
    Countdown(t, n);
    Countdown(t, n - 1);
  }

  /** `Math.round(num / den)` for a non-negative fraction: half rounds up. */
  function RoundHalfUp(num: nat, den: nat): (r: nat)
    requires den > 0
  {
    (2 * num + den) / (2 * den)
  }

  lemma MulMono(a: nat, b: nat, c: nat)
    requires a <= b
    ensures a * c <= b * c
  {
  }

  /** A quotient below `k + 1` times the divisor is at most `k`. */
  lemma DivAtMost(x: nat, m: nat, k: nat)
    requires m > 0 && x < (k + 1) * m
    ensures x / m <= k
  {
    var q := x / m;
    if q > k {
      MulMono(k + 1, q, m);
    }
  }

  /** A fraction at most `k` rounds to at most `k`. */
  lemma RoundAtMost(num: nat, den: nat, k: nat)
    requires den > 0 && num <= k * den
    ensures RoundHalfUp(num, den) <= k
  {
    assert 2 * num + den < (k + 1) * (2 * den);
    DivAtMost(2 * num + den, 2 * den, k);
  }

  /** A fraction equal to `k` rounds to `k`. */
  lemma RoundExact(den: nat, k: nat)
    requires den > 0
    ensures RoundHalfUp(k * den, den) == k
  {
    var x := 2 * (k * den) + den;
    var m := 2 * den;
    assert x == k * m + den;
    DivAtMost(x, m, k);
    var q := x / m;
    if q < k {
      MulMono(q + 1, k, m);
    }
  }

  /** Rounding keeps the order of fractions over the same denominator. */
  lemma RoundMono(a: nat, b: nat, den: nat)
    requires den > 0 && a <= b
    ensures RoundHalfUp(a, den) <= RoundHalfUp(b, den)
  {
    var m := 2 * den;
    var x := 2 * a + den;
    var y := 2 * b + den;
    var p := x / m;
    var q := y / m;
    if p > q {
      MulMono(q + 1, p, m);
    }
  }

  /** `calculateScore`: no summary scores 0; otherwise 70 points for the
      share of tests passed and up to 30 for the share of time left, summed
      and rounded half up. No tests or no duration give no number. */
  function Score(summary: Option<Summary>, timeTaken: int, totalTime: Option<nat>): (r: Option<int>)
    ensures summary.None? ==> r == Some(0)
    ensures summary.Some? ==> (r.Some? <==> summary.value.total > 0 && totalTime.Some? && totalTime.value > 0)
  {
    match summary
    case None => Some(0)
    case Some(Summary(passed, total)) =>
      if total == 0 || totalTime.None? || totalTime.value == 0 then None
      else Some(RoundHalfUp(ScoreNumerator(passed, total, timeTaken, totalTime.value), total * totalTime.value))
  }

  /** The score before rounding, over `total * totalTime`. */
  function ScoreNumerator(passed: nat, total: nat, timeTaken: int, totalTime: nat): nat {
    var timeLeft := if totalTime - timeTaken > 0 then totalTime - timeTaken else 0;
    70 * passed * totalTime + 30 * timeLeft * total
  }

  /** A score is between 0 and 100 when no more tests passed than ran and
      the time taken is not negative. */
  lemma ScoreRange(summary: Option<Summary>, timeTaken: int, totalTime: Option<nat>)
    requires summary.Some? ==> summary.value.passed <= summary.value.total
    requires timeTaken >= 0
    ensures Score(summary, timeTaken, totalTime).Some? ==> 0 <= Score(summary, timeTaken, totalTime).value <= 100
  {
    if Score(summary, timeTaken, totalTime).Some? && summary.Some? {
      var Summary(passed, total) := summary.value;
      var T := totalTime.value;
      var timeLeft := if T - timeTaken > 0 then T - timeTaken else 0;
      MulMono(passed, total, T);
      MulMono(timeLeft, T, total);
      assert ScoreNumerator(passed, total, timeTaken, T) <= 100 * (total * T);
      RoundAtMost(ScoreNumerator(passed, total, timeTaken, T), total * T, 100);
    }
  }

  /** All tests passed with no time spent is a perfect score. */
  lemma PerfectScore(total: nat, totalTime: nat)
    requires total > 0 && totalTime > 0
    ensures Score(Some(Summary(total, total)), 0, Some(totalTime)) == Some(100)
  {
    assert ScoreNumerator(total, total, 0, totalTime) == 100 * (total * totalTime);
    RoundExact(total * totalTime, 100);
  }

  /** Passing more tests never lowers the score. */
  lemma ScoreMonotone(passed: nat, more: nat, total: nat, timeTaken: int, totalTime: nat)
    requires passed <= more && total > 0 && totalTime > 0
    ensures Score(Some(Summary(passed, total)), timeTaken, Some(totalTime)).value <=
            Score(Some(Summary(more, total)), timeTaken, Some(totalTime)).value
  {
    MulMono(passed, more, totalTime);
    RoundMono(ScoreNumerator(passed, total, timeTaken, totalTime), ScoreNumerator(more, total, timeTaken, totalTime), total * totalTime);
  }

  /** `submitInterview(testResults)`: the results record the code being
      written, the seconds since the start (0 without a start) and the
      score; interview mode and timer go off and the code is cleared. */
  function Submitted(s: Session, summary: Option<Summary>, now: int): (r: Session)
    ensures r.interviewResults.Some?
    ensures r.interviewResults.value.code == s.interviewCode && r.interviewResults.value.summary == summary
    ensures s.startTime.None? ==> r.interviewResults.value.timeTaken == 0
    ensures s.startTime.Some? ==> r.interviewResults.value.timeTaken * 1000 <= now - s.startTime.value <
                                  (r.interviewResults.value.timeTaken + 1) * 1000
    ensures r.interviewResults.value.totalTime == InterviewDuration(s.difficulty)
    ensures r.interviewResults.value.difficulty == s.difficulty && r.interviewResults.value.problem == s.currentProblem
    ensures r.interviewResults.value.score ==
            Score(summary, r.interviewResults.value.timeTaken, r.interviewResults.value.totalTime)
    ensures summary.None? ==> r.interviewResults.value.score == Some(0)
    ensures !r.isInterviewMode && !r.isTimerRunning && r.interviewCode == ""
    ensures r.currentProblem == s.currentProblem && r.timeRemaining == s.timeRemaining && r.startTime == s.startTime
  {
    var timeTaken := if s.startTime.Some? then (now - s.startTime.value) / 1000 else 0;
    var totalTime := InterviewDuration(s.difficulty);
    var results := Results(s.interviewCode, summary, timeTaken, totalTime, Score(summary, timeTaken, totalTime),
                           s.difficulty, s.currentProblem);
    s.(interviewResults := Some(results), isInterviewMode := false, isTimerRunning := false, interviewCode := "")
  }

  /** A submission made no earlier than the start, with no more tests
      passed than ran, stores a score between 0 and 100 when it stores
      one. */
  lemma SubmittedScoreRange(s: Session, summary: Option<Summary>, now: int)
    requires summary.Some? ==> summary.value.passed <= summary.value.total
    requires s.startTime.Some? ==> s.startTime.value <= now
    ensures var score := Submitted(s, summary, now).interviewResults.value.score;
      score.Some? ==> 0 <= score.value <= 100
  {
    var results := Submitted(s, summary, now).interviewResults.value;
    ScoreRange(summary, results.timeTaken, results.totalTime);
  }

  /** Ending twice is ending once, and a submitted interview is already
      ended apart from the problem shown with the results. */
  lemma EndedAndSubmitted(s: Session, summary: Option<Summary>, now: int)
    ensures Ended(Ended(s)) == Ended(s)
    ensures Ended(Submitted(s, summary, now)) == Submitted(s, summary, now).(currentProblem := None)
  {
  }

  // ------------------------------------------------------------- clock

  /** `formatTime(seconds)`: zero-padded minutes, a colon, zero-padded
      seconds. */
  function FormatClock(seconds: nat): (t: string)
    ensures |t| >= 5 && t[|t| - 3] == ':'
    ensures |t| == 5 <==> seconds < 6000
  {
    PadTwo(seconds / 60) + ":" + PadTwo(seconds % 60)
  }

  /** The clock reads back: the digits before the colon are the minutes,
      the two after it the seconds below a minute. */
  lemma ClockReads(seconds: nat)
    ensures var t := FormatClock(seconds);
      AllDigits(t[..|t| - 3]) && AllDigits(t[|t| - 2..]) &&
      ParseNat(t[..|t| - 3]) * 60 + ParseNat(t[|t| - 2..]) == seconds &&
      ParseNat(t[|t| - 2..]) < 60
  {
    var q, r := seconds / 60, seconds % 60;
    assert q * 60 + r == seconds && r < 60;
    var t, m, c := FormatClock(seconds), PadTwo(q), PadTwo(r);
    assert |c| == 2;
    assert t[..|t| - 3] == m && t[|t| - 2..] == c by {
      assert t == m + ":" + c;
    }
    PadTwoReads(q);
    PadTwoReads(r);
  }

  // ------------------------------------------------------------ provider

  /** `InterviewProvider`: the session's state hooks, changed in place. */
  class Provider {
    var isInterviewMode: bool
    var currentProblem: Option<Problem>
    var difficulty: string
    var timeRemaining: nat
    var isTimerRunning: bool
    var interviewResults: Option<Results>
    var startTime: Option<int>
    var interviewCode: string
    var interviewLanguage: string
    const roomId: string

    ghost function State(): Session
      reads this
    {
      Session(isInterviewMode, currentProblem, difficulty, timeRemaining, isTimerRunning,
              interviewResults, startTime, interviewCode, interviewLanguage)
    }

    constructor (roomId: string)
      ensures State() == Initial() && this.roomId == roomId
    {
      this.roomId := roomId;
      isInterviewMode := false;
      currentProblem := None;
      difficulty := "easy";
      timeRemaining := 0;
      isTimerRunning := false;
      interviewResults := None;
      startTime := None;
      interviewCode := "";
      interviewLanguage := "javascript";
    }

    /** `startInterview`: the given problem or else `randomProblem` (the
        pick of `getRandomProblem`), the state set before the server is
        told. */
    method StartInterview(selectedDifficulty: string, problem: Option<Problem>, selectedLanguage: string,
                          randomProblem: Problem, now: int)
      returns (starterCode: string, selectedProblem: Problem, sent: Sent)
      modifies this
      ensures selectedProblem == if problem.Some? then problem.value else randomProblem
      ensures starterCode == StarterCode(selectedProblem, selectedLanguage)
      ensures State() == Started(old(State()), selectedDifficulty, selectedProblem, selectedLanguage, now)
      ensures sent == StartInterviewSent(roomId, selectedProblem, selectedDifficulty, InterviewDuration(selectedDifficulty))
    {
      selectedProblem := if problem.Some? then problem.value else randomProblem;
      var duration := InterviewDuration(selectedDifficulty);
      starterCode := StarterCode(selectedProblem, selectedLanguage);
      interviewCode := starterCode;
      interviewLanguage := selectedLanguage;
      currentProblem := Some(selectedProblem);
      difficulty := selectedDifficulty;
      timeRemaining := if duration.Some? then duration.value else 0;
      isInterviewMode := true;
      isTimerRunning := true;
      startTime := Some(now);
      interviewResults := None;
      sent := StartInterviewSent(roomId, selectedProblem, selectedDifficulty, duration);
    }

    /** `handleEndInterview` */
    method HandleEndInterview()
      modifies this
      ensures State() == Ended(old(State()))
    {
      isInterviewMode := false;
      isTimerRunning := false;
      interviewCode := "";
      currentProblem := None;
    }

    /** `endInterview`: the server is told, then the session ends. */
    method EndInterview() returns (sent: Sent)
      modifies this
      ensures State() == Ended(old(State()))
      ensures sent == EndInterviewSent(roomId, false)
    {
      sent := EndInterviewSent(roomId, false);
      HandleEndInterview();
    }

    /** One firing of the interval; the tick that runs out of time stops
        the timer and tells the server (`handleTimeUp`). */
    method Tick() returns (sent: Option<Sent>)
      modifies this
      ensures State() == Ticked(old(State()))
      ensures sent.Some? <==> TimeUp(old(State()))
      ensures sent.Some? ==> sent.value == EndInterviewSent(roomId, true)
    {
      sent := None;
      if isTimerRunning && timeRemaining > 0 {
        var prev := timeRemaining;
        if prev <= 1 {
          isTimerRunning := false;
          sent := Some(EndInterviewSent(roomId, true));
          timeRemaining := 0;
        } else {
          timeRemaining := prev - 1;
        }
      }
    }

    /** `pauseTimer` */
    method PauseTimer()
      modifies this
      ensures State() == old(State()).(isTimerRunning := false)
    {
      isTimerRunning := false;
    }

    /** `resumeTimer` */
    method ResumeTimer()
      modifies this
      ensures State() == old(State()).(isTimerRunning := true)
    {
      isTimerRunning := true;
    }

    /** `updateInterviewCode(newCode)` */
    method UpdateInterviewCode(newCode: string)
      modifies this
      ensures State() == old(State()).(interviewCode := newCode)
    {
      interviewCode := newCode;
    }

    /** `submitInterview(testResults)` */
    method SubmitInterview(summary: Option<Summary>, now: int) returns (sent: Sent)
      modifies this
      ensures State() == Submitted(old(State()), summary, now)
      ensures sent == SubmitInterviewSent(roomId, old(interviewCode), summary, interviewResults.value.timeTaken,
                                          InterviewDuration(difficulty), difficulty, currentProblem)
    {
      var timeTaken := if startTime.Some? then (now - startTime.value) / 1000 else 0;
      var totalTime := InterviewDuration(difficulty);
      sent := SubmitInterviewSent(roomId, interviewCode, summary, timeTaken, totalTime, difficulty, currentProblem);
      var score := Score(summary, timeTaken, totalTime);
      interviewResults := Some(Results(interviewCode, summary, timeTaken, totalTime, score, difficulty, currentProblem));
      isInterviewMode := false;
      isTimerRunning := false;
      interviewCode := "";
    }
  }
}
