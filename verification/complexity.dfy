/** The Big-O estimate of a piece of code
    (`client/src/components/complexity/ComplexityAnalyzer.jsx`): the code is
    scanned line by line, keeping a loop-nesting depth and four flags, and a
    fixed decision tree turns them into a time and a space complexity. The
    regular expressions that recognise loops, sorting, divide-and-conquer
    and hash structures on a line are parameters of the model, and so is the
    function name the whole-text regular expression finds. */
module Complexity {
  import opened Wrappers
  import opened Strings
  import opened Seqs

  /** The four pattern lists, each as "some pattern of the list matches the
      trimmed line". */
  datatype Detectors = Detectors(
    isLoop: string -> bool, isSort: string -> bool, isDivide: string -> bool, isHash: string -> bool)

  /** The variables the `forEach` over the lines updates. */
  datatype Counters = Counters(
    maxLoopDepth: nat, currentDepth: nat,
    hasRecursion: bool, hasSorting: bool, hasDivideConquer: bool, hasHashMap: bool)

  const Start: Counters := Counters(0, 0, false, false, false, false)

  /** A blank line or a `//` or `#` comment, after trimming. */
  predicate Ignored(trimmed: string) {
    trimmed == "" || StartsWith(trimmed, "//") || StartsWith(trimmed, "#")
  }

  /** `(s.match(/c/g) || []).length` */
  function Occurrences(s: string, c: char): nat {
    Count(s, x => x == c)
  }

  /** The recursion test: a (non-empty) function name followed by `(`,
      after the first three lines. */
  predicate CallsItself(functionName: Option<string>, trimmed: string, i: nat) {
    Truthy(functionName) && Contains(trimmed, functionName.value + "(") && i > 2
  }

  /** The depth a line raises the nesting to before its braces are counted. */
  function Raised(st: Counters, det: Detectors, trimmed: string): nat {
    if !Ignored(trimmed) && det.isLoop(trimmed) then st.currentDepth + 1 else st.currentDepth
  }

  /** The body of the `forEach` for line `i`. */
  function ScanLine(st: Counters, det: Detectors, functionName: Option<string>, line: string, i: nat): (r: Counters)
    ensures Ignored(Trim(line)) ==> r == st
    ensures st.currentDepth <= st.maxLoopDepth ==>
      r.maxLoopDepth == Max(st.maxLoopDepth, Raised(st, det, Trim(line))) && r.currentDepth <= r.maxLoopDepth
  {
    var trimmed := Trim(line);
    if Ignored(trimmed) then st
    else
      var currentDepth := if det.isLoop(trimmed) then st.currentDepth + 1 else st.currentDepth;
      var maxLoopDepth := if det.isLoop(trimmed) then Max(st.maxLoopDepth, currentDepth) else st.maxLoopDepth;
      var opens := Occurrences(trimmed, '{');
      var closes := Occurrences(trimmed, '}');
      var currentDepth :=
        if closes > opens && currentDepth > 0 then
          (if currentDepth >= closes - opens then currentDepth - (closes - opens) else 0)
        else currentDepth;
      Counters(maxLoopDepth, currentDepth,
        st.hasRecursion || CallsItself(functionName, trimmed, i),
        st.hasSorting || det.isSort(trimmed),
        st.hasDivideConquer || det.isDivide(trimmed),
        st.hasHashMap || det.isHash(trimmed))
  }

  /** The counters after the first `n` lines. */
  function ScanUpTo(lines: seq<string>, det: Detectors, functionName: Option<string>, n: nat): Counters
    requires n <= |lines|
  {
    if n == 0 then Start
    else ScanLine(ScanUpTo(lines, det, functionName, n - 1), det, functionName, lines[n - 1], n - 1)
  }

  /** The depth reached on line `k`, before its closing braces. */
  function PeakAt(lines: seq<string>, det: Detectors, functionName: Option<string>, k: nat): nat
    requires k < |lines|
  {
    Raised(ScanUpTo(lines, det, functionName, k), det, Trim(lines[k]))
  }

  /** The depth never exceeds the recorded maximum. */
  lemma {:induction false} DepthWithinMax(lines: seq<string>, det: Detectors, functionName: Option<string>, n: nat)
    requires n <= |lines|
    ensures ScanUpTo(lines, det, functionName, n).currentDepth <= ScanUpTo(lines, det, functionName, n).maxLoopDepth
  {
    if n > 0 {
      DepthWithinMax(lines, det, functionName, n - 1);
    }
  }

  /** One more line raises the maximum to that line's peak, if higher. */
  lemma MaxStep(lines: seq<string>, det: Detectors, functionName: Option<string>, n: nat)
    requires 0 < n <= |lines|
    ensures ScanUpTo(lines, det, functionName, n).maxLoopDepth ==
      Max(ScanUpTo(lines, det, functionName, n - 1).maxLoopDepth, PeakAt(lines, det, functionName, n - 1))
  {
    DepthWithinMax(lines, det, functionName, n - 1);
  }

  /** No line's peak exceeds the recorded maximum. */
  lemma {:induction false} PeaksWithinMax(lines: seq<string>, det: Detectors, functionName: Option<string>, n: nat)
    requires n <= |lines|
    ensures forall k :: 0 <= k < n ==> PeakAt(lines, det, functionName, k) <= ScanUpTo(lines, det, functionName, n).maxLoopDepth
  {
    if n > 0 {
      PeaksWithinMax(lines, det, functionName, n - 1);
      MaxStep(lines, det, functionName, n);
    }
  }

  /** A non-zero maximum is the peak of some line. */
  lemma {:induction false} MaxIsReached(lines: seq<string>, det: Detectors, functionName: Option<string>, n: nat)
    requires n <= |lines|
    ensures var max := ScanUpTo(lines, det, functionName, n).maxLoopDepth;
      max == 0 || exists k :: 0 <= k < n && PeakAt(lines, det, functionName, k) == max
  {
    if n > 0 {
      MaxIsReached(lines, det, functionName, n - 1);
      MaxStep(lines, det, functionName, n);
      var prev := ScanUpTo(lines, det, functionName, n - 1).maxLoopDepth;
      var max := ScanUpTo(lines, det, functionName, n).maxLoopDepth;
      if max != 0 && max != PeakAt(lines, det, functionName, n - 1) {
        var k :| 0 <= k < n - 1 && PeakAt(lines, det, functionName, k) == prev;
        assert 0 <= k < n && PeakAt(lines, det, functionName, k) == max;
      }
    }
  }

  /** The maximum is the largest depth any line reached (0 when no line
      raised it), and the current depth never exceeds it. */
  lemma MaxIsPeak(lines: seq<string>, det: Detectors, functionName: Option<string>, n: nat)
    requires n <= |lines|
    ensures var c := ScanUpTo(lines, det, functionName, n);
      c.currentDepth <= c.maxLoopDepth &&
      (forall k :: 0 <= k < n ==> PeakAt(lines, det, functionName, k) <= c.maxLoopDepth) &&
      (c.maxLoopDepth == 0 || exists k :: 0 <= k < n && PeakAt(lines, det, functionName, k) == c.maxLoopDepth)
  {
    DepthWithinMax(lines, det, functionName, n);
    PeaksWithinMax(lines, det, functionName, n);
    MaxIsReached(lines, det, functionName, n);
  }

  /** A loop was seen exactly when some line that is not blank or a
      comment matches a loop pattern. */
  lemma {:induction false} LoopSeenIffLoopLine(lines: seq<string>, det: Detectors, functionName: Option<string>, n: nat)
    requires n <= |lines|
    ensures ScanUpTo(lines, det, functionName, n).maxLoopDepth > 0 <==>
      exists k :: 0 <= k < n && !Ignored(Trim(lines[k])) && det.isLoop(Trim(lines[k]))
  {
    MaxIsPeak(lines, det, functionName, n);
    var c := ScanUpTo(lines, det, functionName, n);
    if exists k :: 0 <= k < n && !Ignored(Trim(lines[k])) && det.isLoop(Trim(lines[k])) {
      var k :| 0 <= k < n && !Ignored(Trim(lines[k])) && det.isLoop(Trim(lines[k]));
      assert PeakAt(lines, det, functionName, k) > 0;
    } else {
      NoLoopKeepsZero(lines, det, functionName, n);
    }
  }

  lemma {:induction false} NoLoopKeepsZero(lines: seq<string>, det: Detectors, functionName: Option<string>, n: nat)
    requires n <= |lines|
    requires forall k :: 0 <= k < n ==> Ignored(Trim(lines[k])) || !det.isLoop(Trim(lines[k]))
    ensures ScanUpTo(lines, det, functionName, n).maxLoopDepth == 0
    ensures ScanUpTo(lines, det, functionName, n).currentDepth == 0
  {
    if n > 0 {
      NoLoopKeepsZero(lines, det, functionName, n - 1);
    }
  }

  datatype Flag = Recursion | Sorting | DivideConquer | HashMap

  function FlagOf(c: Counters, f: Flag): bool {
    match f
    case Recursion => c.hasRecursion
    case Sorting => c.hasSorting
    case DivideConquer => c.hasDivideConquer
    case HashMap => c.hasHashMap
  }

  /** Line `k` is counted and shows the pattern of flag `f`. */
  predicate LineShows(lines: seq<string>, det: Detectors, functionName: Option<string>, k: nat, f: Flag)
    requires k < |lines|
  {
    var trimmed := Trim(lines[k]);
    !Ignored(trimmed) &&
    match f
    case Recursion => CallsItself(functionName, trimmed, k)
    case Sorting => det.isSort(trimmed)
    case DivideConquer => det.isDivide(trimmed)
    case HashMap => det.isHash(trimmed)
  }

  /** A flag, once set, stays set, and a line sets it when it shows its
      pattern. */
  lemma FlagStep(lines: seq<string>, det: Detectors, functionName: Option<string>, n: nat, f: Flag)
    requires 0 < n <= |lines|
    ensures FlagOf(ScanUpTo(lines, det, functionName, n), f) ==
      (FlagOf(ScanUpTo(lines, det, functionName, n - 1), f) || LineShows(lines, det, functionName, n - 1, f))
  {
  }

  /** Each flag is set exactly when some counted line shows its pattern. */
  lemma {:induction false} FlagIffSomeLine(lines: seq<string>, det: Detectors, functionName: Option<string>, n: nat, f: Flag)
    requires n <= |lines|
    ensures FlagOf(ScanUpTo(lines, det, functionName, n), f) <==>
      exists k :: 0 <= k < n && LineShows(lines, det, functionName, k, f)
  {
    if n > 0 {
      FlagIffSomeLine(lines, det, functionName, n - 1, f);
      FlagStep(lines, det, functionName, n, f);
      if exists k :: 0 <= k < n - 1 && LineShows(lines, det, functionName, k, f) {
        var k :| 0 <= k < n - 1 && LineShows(lines, det, functionName, k, f);
        assert 0 <= k < n && LineShows(lines, det, functionName, k, f);
      }
    }
  }

  // ---------------------------------------------------------- verdict

  datatype Complexity = Constant | Logarithmic | Linear | Linearithmic | Quadratic | Cubic | Exponential

  /** The strings the analyzer shows. */
  function Notation(c: Complexity): string {
    match c
    case Constant => "O(1)"
    case Logarithmic => "O(log n)"
    case Linear => "O(n)"
    case Linearithmic => "O(n log n)"
    case Quadratic => "O(n\U{00B2})"
    case Cubic => "O(n\U{00B3})"
    case Exponential => "O(2\U{207F})"
  }

  /** The `if` chain that sets `timeComplexity`: nesting first, then
      recursion with divide-and-conquer, sorting, divide-and-conquer alone,
      recursion alone and a single loop. */
  function TimeComplexity(c: Counters): (t: Complexity)
    ensures t == Cubic <==> c.maxLoopDepth >= 3
    ensures t == Quadratic <==> c.maxLoopDepth == 2
    ensures t == Linearithmic <==>
      c.maxLoopDepth < 2 && ((c.hasRecursion && c.hasDivideConquer) || c.hasSorting)
    ensures t == Logarithmic <==>
      c.maxLoopDepth < 2 && c.hasDivideConquer && !c.hasRecursion && !c.hasSorting
    ensures t == Exponential <==>
      c.maxLoopDepth < 2 && c.hasRecursion && !c.hasDivideConquer && !c.hasSorting
    ensures t == Linear <==>
      c.maxLoopDepth == 1 && !c.hasRecursion && !c.hasDivideConquer && !c.hasSorting
    ensures t == Constant <==>
      c.maxLoopDepth == 0 && !c.hasRecursion && !c.hasDivideConquer && !c.hasSorting
  {
    if c.maxLoopDepth >= 3 then Cubic
    else if c.maxLoopDepth == 2 then Quadratic
    else if c.hasRecursion && c.hasDivideConquer then Linearithmic
    else if c.hasSorting then Linearithmic
    else if c.hasDivideConquer then Logarithmic
    else if c.hasRecursion then Exponential
    else if c.maxLoopDepth == 1 then Linear
    else Constant
  }

  /** The `if` chain that sets `spaceComplexity`. */
  function SpaceComplexity(c: Counters): (s: Complexity)
    ensures s == Linear <==> c.hasRecursion || c.hasHashMap || c.maxLoopDepth >= 2
    ensures s == Constant <==> !(c.hasRecursion || c.hasHashMap || c.maxLoopDepth >= 2)
  {
    if c.hasRecursion then Linear
    else if c.hasHashMap then Linear
    else if c.maxLoopDepth >= 2 then Linear
    else Constant
  }

  /** The reason pushed for each verdict; the one for deep nesting quotes
      the depth, which reads back from the text. */
  function Reason(t: Complexity, c: Counters): (r: string)
    ensures t == Cubic ==>
      |r| > 32 && AllDigits(r[..|r| - 32]) && ParseNat(r[..|r| - 32]) == c.maxLoopDepth
  {
    match t
    case Cubic =>
      var d := NatToString(c.maxLoopDepth);
      assert (d + " levels of nested loops detected")[..|d|] == d;
      ParseNatToString(c.maxLoopDepth);
      d + " levels of nested loops detected"
    case Quadratic => "2 levels of nested loops detected"
    case Linearithmic =>
      if c.hasRecursion && c.hasDivideConquer then "Recursive divide-and-conquer pattern detected"
      else "Sorting operation detected (.sort / sorted)"
    case Logarithmic => "Binary search or logarithmic pattern detected"
    case Exponential => "Recursion detected without memoization"
    case Linear => "Single loop detected"
    case Constant => "No loops or recursion found"
  }

  /** Different verdicts give different reasons, as long as a cubic
      verdict comes with a nesting depth other than 2, as the verdict
      chain guarantees. */
  lemma ReasonsDistinct(t1: Complexity, t2: Complexity, c: Counters)
    requires t1 != t2
    requires t1 == Cubic || t2 == Cubic ==> c.maxLoopDepth != 2
    ensures Reason(t1, c) != Reason(t2, c)
  {
    if t1 == Cubic || t2 == Cubic {
      var o := if t1 == Cubic then t2 else t1;
      CubicReasonEnd(c);
      OtherReasonEnd(o, c);
    } else {
      FixedReasonsDistinct(t1, t2, c);
    }
  }

  lemma CubicReasonEnd(c: Counters)
    ensures var r := Reason(Cubic, c);
      |r| > 32 && r[|r| - 32] == ' ' && r[|r| - 31] == 'l' && ParseNat(r[..|r| - 32]) == c.maxLoopDepth
  {
    var d := NatToString(c.maxLoopDepth);
    var r := Reason(Cubic, c);
    assert r == d + " levels of nested loops detected";
    assert r[|d|] == ' ' && r[|d| + 1] == 'l';
  }

  /** The reason of any other verdict either reads 2 before the nesting
      text, or does not end with it. */
  lemma OtherReasonEnd(t: Complexity, c: Counters)
    requires t != Cubic
    ensures var q := Reason(t, c);
      t == Quadratic ==> |q| > 32 && AllDigits(q[..|q| - 32]) && ParseNat(q[..|q| - 32]) == 2
    ensures var q := Reason(t, c);
      t != Quadratic ==> |q| <= 32 || q[|q| - 32] != ' ' || q[|q| - 31] != 'l'
  {
    var q := Reason(t, c);
    if t == Quadratic {
      assert q[..|q| - 32] == "2";
      assert ParseNat("2") == 2;
    }
  }

  lemma FixedReasonsDistinct(t1: Complexity, t2: Complexity, c: Counters)
    requires t1 != t2 && t1 != Cubic && t2 != Cubic
    ensures Reason(t1, c) != Reason(t2, c)
  {
  }

  /** The warnings pushed for the slow verdicts. */
  function Warnings(t: Complexity): (w: seq<string>)
    ensures |w| <= 1
    ensures |w| == 1 <==> t == Cubic || t == Quadratic || t == Exponential
  {
    match t
    case Cubic => ["Triple nested loops are very slow for large inputs"]
    case Quadratic => ["Quadratic complexity \U{2014} consider optimizing with a hash map"]
    case Exponential => ["Exponential recursion \U{2014} consider adding memoization or DP"]
    case _ => []
  }

  /** The object `analyzeComplexity` returns. */
  datatype Analysis = Analysis(
    timeComplexity: Complexity, spaceComplexity: Complexity,
    reasons: seq<string>, warnings: seq<string>,
    maxLoopDepth: nat, hasRecursion: bool, hasSorting: bool)

  function Report(c: Counters): (a: Analysis)
    ensures |a.reasons| == 1
    ensures |a.warnings| == 1 <==> a.timeComplexity in {Cubic, Quadratic, Exponential}
    ensures |a.warnings| <= 1
    ensures a.spaceComplexity in {Constant, Linear}
  {
    var t := TimeComplexity(c);
    Analysis(t, SpaceComplexity(c), [Reason(t, c)], Warnings(t),
             c.maxLoopDepth, c.hasRecursion, c.hasSorting)
  }

  /** `analyzeComplexity(code, language)`: `None` is the `null` returned for
      empty or blank code; otherwise the counters of the whole scan go
      through the decision tree. */
  method AnalyzeComplexity(code: string, det: Detectors, functionName: Option<string>) returns (r: Option<Analysis>)
    ensures r.None? <==> AllSpace(code)
    ensures r.Some? ==>
      var lines := Split(code, '\n');
      r.value == Report(ScanUpTo(lines, det, functionName, |lines|))
  {
    TrimEmptyIffBlank(code);
    if code == "" || Trim(code) == "" {
      return None;
    }
    var lines := Split(code, '\n');
    var maxLoopDepth: nat := 0;
    var currentDepth: nat := 0;
    var hasRecursion, hasSorting, hasDivideConquer, hasHashMap := false, false, false, false;
    var i := 0;
    while i < |lines|
      invariant 0 <= i <= |lines|
      invariant Counters(maxLoopDepth, currentDepth, hasRecursion, hasSorting, hasDivideConquer, hasHashMap)
        == ScanUpTo(lines, det, functionName, i)
    {
      assert ScanUpTo(lines, det, functionName, i + 1) ==
        ScanLine(ScanUpTo(lines, det, functionName, i), det, functionName, lines[i], i);
      maxLoopDepth, currentDepth, hasRecursion, hasSorting, hasDivideConquer, hasHashMap :=
        ScanOne(det, functionName, lines[i], i,
          maxLoopDepth, currentDepth, hasRecursion, hasSorting, hasDivideConquer, hasHashMap);
      i := i + 1;
    }
    r := Some(Report(Counters(maxLoopDepth, currentDepth, hasRecursion, hasSorting, hasDivideConquer, hasHashMap)));
  }

  /** The body of the `forEach` over the lines: the counters after line `i`. */
  method ScanOne(det: Detectors, functionName: Option<string>, line: string, i: nat,
                 maxLoopDepth0: nat, currentDepth0: nat,
                 hasRecursion0: bool, hasSorting0: bool, hasDivideConquer0: bool, hasHashMap0: bool)
    returns (maxLoopDepth: nat, currentDepth: nat,
             hasRecursion: bool, hasSorting: bool, hasDivideConquer: bool, hasHashMap: bool)
    ensures Counters(maxLoopDepth, currentDepth, hasRecursion, hasSorting, hasDivideConquer, hasHashMap) ==
      ScanLine(Counters(maxLoopDepth0, currentDepth0, hasRecursion0, hasSorting0, hasDivideConquer0, hasHashMap0),
        det, functionName, line, i)
  {
    maxLoopDepth, currentDepth := maxLoopDepth0, currentDepth0;
    hasRecursion, hasSorting, hasDivideConquer, hasHashMap := hasRecursion0, hasSorting0, hasDivideConquer0, hasHashMap0;
    var trimmed := Trim(line);
    if !Ignored(trimmed) {
      if det.isLoop(trimmed) {
        currentDepth := currentDepth + 1;
        maxLoopDepth := Max(maxLoopDepth, currentDepth);
      }
      var opens := Occurrences(trimmed, '{');
      var closes := Occurrences(trimmed, '}');
      if closes > opens && currentDepth > 0 {
        currentDepth := if currentDepth >= closes - opens then currentDepth - (closes - opens) else 0;
      }
      if CallsItself(functionName, trimmed, i) {
        hasRecursion := true;
      }
      if det.isSort(trimmed) {
        hasSorting := true;
      }
      if det.isDivide(trimmed) {
        hasDivideConquer := true;
      }
      if det.isHash(trimmed) {
        hasHashMap := true;
      }
    }
  }

  // ----------------------------------------------------------- rating

  datatype Rating = Excellent | Great | Good | Fair | Poor | Bad

  /** The ratings `getRating` gives, in the order of `RatedNotations`. */
  const RatingsInOrder: seq<Rating> := [Excellent, Great, Good, Fair, Poor]

  /** `getRating(complexity)`: the rating of the first notation the string
      contains, and bad when it contains none. */
  function GetRating(complexity: string): (r: Rating)
    ensures forall k :: 0 <= k < |RatedNotations| ==>
      (r == RatingsInOrder[k] <==>
        Contains(complexity, RatedNotations[k]) && forall j :: 0 <= j < k ==> !Contains(complexity, RatedNotations[j]))
    ensures r == Bad <==> forall k :: 0 <= k < |RatedNotations| ==> !Contains(complexity, RatedNotations[k])
  {
    if Contains(complexity, RatedNotations[0]) then Excellent
    else if Contains(complexity, RatedNotations[1]) then Great
    else if Contains(complexity, RatedNotations[2]) then Good
    else if Contains(complexity, RatedNotations[3]) then Fair
    else if Contains(complexity, RatedNotations[4]) then Poor
    else Bad
  }

  /** When the first character of `p` appears in `s` only at the front,
      `s` contains `p` exactly when it starts with it. */
  lemma ContainsOnlyAtFront(s: string, p: string)
    requires |p| > 0 && forall i :: 0 < i < |s| ==> s[i] != p[0]
    ensures Contains(s, p) <==> StartsWith(s, p)
  {
    if Contains(s, p) {
      var i: nat :| i <= |s| && OccursAt(s, p, i);
      assert s[i] == p[0];
    }
    if StartsWith(s, p) {
      assert OccursAt(s, p, 0);
    }
  }

  /** The notations `getRating` looks for, in its order. */
  const RatedNotations: seq<string> := ["O(1)", "O(log n)", "O(n log n)", "O(n)", "O(n\U{00B2})"]

  /** In a string whose only `O` is its first character, each rated
      notation is contained exactly when it is a prefix. */
  lemma RatedPrefixes(s: string)
    requires forall i :: 0 < i < |s| ==> s[i] != 'O'
    ensures forall p :: p in RatedNotations ==> (Contains(s, p) <==> StartsWith(s, p))
  {
    forall p | p in RatedNotations ensures Contains(s, p) <==> StartsWith(s, p) {
      ContainsOnlyAtFront(s, p);
    }
  }

  /** A prefix test fails at the first character that differs. */
  lemma DiffersAt(s: string, p: string, i: nat)
    requires i < |s| && i < |p| && s[i] != p[i]
    ensures !StartsWith(s, p)
  {
  }

  /** The ratings of the fast verdicts: constant time is excellent,
      logarithmic great, linearithmic good and linear fair. */
  lemma RatingOfFastVerdicts()
    ensures GetRating(Notation(Constant)) == Excellent
    ensures GetRating(Notation(Logarithmic)) == Great
    ensures GetRating(Notation(Linearithmic)) == Good
    ensures GetRating(Notation(Linear)) == Fair
  {
    var one, log, nlog, n := RatedNotations[0], RatedNotations[1], RatedNotations[2], RatedNotations[3];
    RatedPrefixes(Notation(Constant));
    assert StartsWith(Notation(Constant), one);
    RatedPrefixes(Notation(Logarithmic));
    DiffersAt(Notation(Logarithmic), one, 2);
    assert StartsWith(Notation(Logarithmic), log);
    RatedPrefixes(Notation(Linearithmic));
    DiffersAt(Notation(Linearithmic), one, 2);
    DiffersAt(Notation(Linearithmic), log, 2);
    assert StartsWith(Notation(Linearithmic), nlog);
    RatedPrefixes(Notation(Linear));
    DiffersAt(Notation(Linear), one, 2);
    assert StartsWith(Notation(Linear), n);
  }

  /** The ratings of the slow verdicts: quadratic time is poor, and cubic
      and exponential time, which `getRating` does not name, are bad. */
  lemma RatingOfSlowVerdicts()
    ensures GetRating(Notation(Quadratic)) == Poor
    ensures GetRating(Notation(Cubic)) == Bad
    ensures GetRating(Notation(Exponential)) == Bad
  {
    var one, n, n2 := RatedNotations[0], RatedNotations[3], RatedNotations[4];
    RatedPrefixes(Notation(Quadratic));
    DiffersAt(Notation(Quadratic), one, 2);
    DiffersAt(Notation(Quadratic), n, 3);
    assert StartsWith(Notation(Quadratic), n2);
    RatedPrefixes(Notation(Cubic));
    DiffersAt(Notation(Cubic), one, 2);
    DiffersAt(Notation(Cubic), n, 3);
    DiffersAt(Notation(Cubic), n2, 3);
    RatedPrefixes(Notation(Exponential));
    DiffersAt(Notation(Exponential), one, 2);
    DiffersAt(Notation(Exponential), n, 2);
    DiffersAt(Notation(Exponential), n2, 2);
  }
}
