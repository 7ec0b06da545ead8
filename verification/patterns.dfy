/** The regular expressions of the bundlers, each written as a scanner that
    decides whether the pattern matches at one position, and the two ways
    JavaScript applies a global pattern: scanning for successive matches
    (`exec` in a loop, `matchAll`) and replacing every match (`replace`
    with the `g` flag). Every pattern here needs at least one character, so
    a match never has length zero and a global scan always advances. */
module Patterns {
  import opened Wrappers
  import opened Strings

  datatype Pattern =
      /** `export`, whitespace, `function`, whitespace, a word (group 1),
          optional whitespace, `(`, any text without `)` (group 2), `)`,
          optional whitespace, `{`. */
    | ExportFunction
      /** `export`, whitespace, `const`, whitespace, a word (group 1),
          optional whitespace, `=`, optional whitespace, a non-empty text
          without `;` (group 2), `;`. */
    | ExportConst
      /** `import`, optional whitespace, `{`, a non-empty text without `}`
          (group 1), `}`, optional whitespace, `from`, optional whitespace,
          a quote, `./`, a non-empty text without quotes (group 2), a quote. */
    | EsImport
      /** `export` followed by whitespace. */
    | ExportKeyword
      /** `from`, whitespace, `.`, a word (group 1), whitespace, `import`,
          whitespace, a non-empty text without a line break (group 2). */
    | PyImport
      /** A `PyImport` match together with the line break that follows it. */
    | PyImportLine
      /** `package`, whitespace, a dotted name (group 1), `;`. */
    | JavaPackage
      /** `import`, whitespace, a dotted name possibly with `*` (group 1), `;`. */
    | JavaImport
      /** `#include`, whitespace, a double-quoted non-empty file name. */
    | CppLocalInclude

  /** A match: the text `s[start..end]` and its capture groups. */
  datatype Match = Match(start: nat, end: nat, groups: seq<string>)

  /** Every character of `w` satisfies `p`. */
  predicate AllOf(w: string, p: char -> bool) {
    forall k :: 0 <= k < |w| ==> p(w[k])
  }

  /** The end of the longest run of characters satisfying `p` from `i`. */
  function SkipWhile(s: string, i: nat, p: char -> bool): (j: nat)
    requires i <= |s|
    ensures i <= j <= |s| && AllOf(s[i..j], p)
    ensures j == |s| || !p(s[j])
    decreases |s| - i
  {
    if i < |s| && p(s[i]) then
      var j := SkipWhile(s, i + 1, p);
      assert s[i..j] == [s[i]] + s[i + 1..j];
      j
    else i
  }

  /** The end of the run starting at `i` of characters other than `c`:
      the first `c` at or after `i`, or the end of the text. */
  function SkipUntil(s: string, i: nat, c: char): (j: nat)
    requires i <= |s|
    ensures i <= j <= |s| && c !in s[i..j]
    ensures j == |s| || s[j] == c
    decreases |s| - i
  {
    if i < |s| && s[i] != c then
      var j := SkipUntil(s, i + 1, c);
      assert s[i..j] == [s[i]] + s[i + 1..j];
      j
    else i
  }

  predicate IsDottedNameChar(c: char) {
    IsWordChar(c) || c == '.'
  }

  predicate IsImportNameChar(c: char) {
    IsWordChar(c) || c == '.' || c == '*'
  }

  predicate IsQuote(c: char) {
    c == '\'' || c == '"'
  }

  predicate IsNotQuote(c: char) {
    !IsQuote(c)
  }

  /** The last index in `[lo, hi)` whose character is not a line break. */
  function LastNonNewline(s: string, lo: nat, hi: nat): (r: Option<nat>)
    requires lo <= hi <= |s|
    ensures r.Some? ==> lo <= r.value < hi && s[r.value] != '\n'
    ensures r.Some? ==> forall k :: r.value < k < hi ==> s[k] == '\n'
    ensures r.None? ==> forall k :: lo <= k < hi ==> s[k] == '\n'
    decreases hi - lo
  {
    if hi == lo then None
    else if s[hi - 1] != '\n' then Some(hi - 1)
    else LastNonNewline(s, lo, hi - 1)
  }

  /** `export`, whitespace, the keyword `kw`, whitespace and a word: the
      bounds of the word, the first group of both export patterns. */
  function ExportedName(s: string, i: nat, kw: string): (r: Option<(nat, nat)>)
    requires i <= |s|
    ensures r.Some? ==> OccursAt(s, "export", i) && i + 6 < r.value.0 < r.value.1 <= |s|
    ensures r.Some? ==> AllOf(s[r.value.0..r.value.1], IsWordChar)
  {
    if !OccursAt(s, "export", i) then None
    else
      var a := i + 6;
      var b := SkipWhile(s, a, IsSpace);
      if b == a || !OccursAt(s, kw, b) then None
      else
        var c := b + |kw|;
        var d := SkipWhile(s, c, IsSpace);
        var e := SkipWhile(s, d, IsWordChar);
        if d == c || e == d then None
        else Some((d, e))
  }

  function MatchExportFunction(s: string, i: nat): (r: Option<Match>)
    requires i <= |s|
    ensures r.Some? ==> r.value.start == i && i < r.value.end <= |s| && |r.value.groups| == 2
    ensures r.Some? ==> OccursAt(s, "export", i) && s[r.value.end - 1] == '{'
    ensures r.Some? ==> |r.value.groups[0]| > 0 && AllOf(r.value.groups[0], IsWordChar)
    ensures r.Some? ==> ')' !in r.value.groups[1]
  {
    match ExportedName(s, i, "function")
    case None => None
    case Some((d, e)) =>
      var f := SkipWhile(s, e, IsSpace);
      if f == |s| || s[f] != '(' then None
      else
        var g := SkipUntil(s, f + 1, ')');
        if g == |s| then None
        else
          var h := SkipWhile(s, g + 1, IsSpace);
          if h == |s| || s[h] != '{' then None
          else Some(Match(i, h + 1, [s[d..e], s[f + 1..g]]))
  }

  /** When only whitespace stands between `=` and `;`, the pattern still
      matches: the optional whitespace gives its last character back to
      the value group, which is then that one character. */
  function MatchExportConst(s: string, i: nat): (r: Option<Match>)
    requires i <= |s|
    ensures r.Some? ==> r.value.start == i && i < r.value.end <= |s| && |r.value.groups| == 2
    ensures r.Some? ==> OccursAt(s, "export", i) && s[r.value.end - 1] == ';'
    ensures r.Some? ==> |r.value.groups[1]| > 0 && ';' !in r.value.groups[1]
  {
    match ExportedName(s, i, "const")
    case None => None
    case Some((d, e)) =>
      var f := SkipWhile(s, e, IsSpace);
      if f == |s| || s[f] != '=' then None
      else
        var g := SkipWhile(s, f + 1, IsSpace);
        var h := SkipUntil(s, g, ';');
        if h == |s| then None
        else if h > g then Some(Match(i, h + 1, [s[d..e], s[g..h]]))
        else if g > f + 1 then
          assert IsSpace(s[g - 1]) by {
            assert s[g - 1] == s[f + 1..g][g - 2 - f];
          }
          assert s[g - 1..g] == [s[g - 1]];
          Some(Match(i, h + 1, [s[d..e], s[g - 1..g]]))
        else None
  }

  function MatchEsImport(s: string, i: nat): (r: Option<Match>)
    requires i <= |s|
    ensures r.Some? ==> r.value.start == i && i < r.value.end <= |s| && |r.value.groups| == 2
    ensures r.Some? ==> OccursAt(s, "import", i)
    ensures r.Some? ==> |r.value.groups[1]| > 0
  {
    if !OccursAt(s, "import", i) then None
    else
      var a := SkipWhile(s, i + 6, IsSpace);
      if a == |s| || s[a] != '{' then None
      else
        var b := SkipUntil(s, a + 1, '}');
        if b == a + 1 || b == |s| then None
        else
          var c := SkipWhile(s, b + 1, IsSpace);
          if !OccursAt(s, "from", c) then None
          else
            var d := SkipWhile(s, c + 4, IsSpace);
            if d + 3 > |s| || !IsQuote(s[d]) || s[d + 1] != '.' || s[d + 2] != '/' then None
            else
              var e := SkipWhile(s, d + 3, IsNotQuote);
              if e == d + 3 || e == |s| then None
              else Some(Match(i, e + 1, [s[a + 1..b], s[d + 3..e]]))
  }

  function MatchExportKeyword(s: string, i: nat): (r: Option<Match>)
    requires i <= |s|
    ensures r.Some? ==> r.value.start == i && i + 6 < r.value.end <= |s| && OccursAt(s, "export", i)
    ensures r.Some? ==> AllSpace(s[i + 6..r.value.end])
    ensures r.Some? <==> OccursAt(s, "export", i) && i + 6 < |s| && IsSpace(s[i + 6])
  {
    if !OccursAt(s, "export", i) then None
    else
      var b := SkipWhile(s, i + 6, IsSpace);
      if b == i + 6 then None else Some(Match(i, b, []))
  }

  /** The trailing text group is a maximal run up to the end of the line;
      when the whitespace after `import` reaches the end of the text, it
      gives back its last character that is not a line break. */
  function MatchPyImport(s: string, i: nat): (r: Option<Match>)
    requires i <= |s|
    ensures r.Some? ==> r.value.start == i && i < r.value.end <= |s| && |r.value.groups| == 2
    ensures r.Some? ==> OccursAt(s, "from", i)
    ensures r.Some? ==> |r.value.groups[0]| > 0 && AllOf(r.value.groups[0], IsWordChar)
  {
    if !OccursAt(s, "from", i) then None
    else
      var a := SkipWhile(s, i + 4, IsSpace);
      if a == i + 4 || a == |s| || s[a] != '.' then None
      else
        var b := SkipWhile(s, a + 1, IsWordChar);
        var c := SkipWhile(s, b, IsSpace);
        if b == a + 1 || c == b || !OccursAt(s, "import", c) then None
        else
          var d := c + 6;
          var e := SkipWhile(s, d, IsSpace);
          if e == d then None
          else if e < |s| then
            var f := SkipUntil(s, e, '\n');
            Some(Match(i, f, [s[a + 1..b], s[e..f]]))
          else
            match LastNonNewline(s, d + 1, e)
            case None => None
            case Some(k) => Some(Match(i, k + 1, [s[a + 1..b], s[k..k + 1]]))
  }

  function MatchPyImportLine(s: string, i: nat): (r: Option<Match>)
    requires i <= |s|
    ensures r.Some? ==> r.value.start == i && i < r.value.end <= |s|
    ensures r.Some? <==> MatchPyImport(s, i).Some?
  {
    match MatchPyImport(s, i)
    case None => None
    case Some(m) => Some(Match(i, if m.end < |s| && s[m.end] == '\n' then m.end + 1 else m.end, []))
  }

  function MatchJavaPackage(s: string, i: nat): (r: Option<Match>)
    requires i <= |s|
    ensures r.Some? ==> r.value.start == i && i < r.value.end <= |s| && |r.value.groups| == 1
    ensures r.Some? ==> OccursAt(s, "package", i) && s[r.value.end - 1] == ';' && |r.value.groups[0]| > 0
  {
    if !OccursAt(s, "package", i) then None
    else
      var a := SkipWhile(s, i + 7, IsSpace);
      var b := SkipWhile(s, a, IsDottedNameChar);
      if a == i + 7 || b == a || b == |s| || s[b] != ';' then None
      else Some(Match(i, b + 1, [s[a..b]]))
  }

  function MatchJavaImport(s: string, i: nat): (r: Option<Match>)
    requires i <= |s|
    ensures r.Some? ==> r.value.start == i && i < r.value.end <= |s| && |r.value.groups| == 1
    ensures r.Some? ==> OccursAt(s, "import", i) && s[r.value.end - 1] == ';'
  {
    if !OccursAt(s, "import", i) then None
    else
      var a := SkipWhile(s, i + 6, IsSpace);
      var b := SkipWhile(s, a, IsImportNameChar);
      if a == i + 6 || b == a || b == |s| || s[b] != ';' then None
      else Some(Match(i, b + 1, [s[a..b]]))
  }

  function MatchCppLocalInclude(s: string, i: nat): (r: Option<Match>)
    requires i <= |s|
    ensures r.Some? ==> r.value.start == i && i < r.value.end <= |s|
    ensures r.Some? ==> OccursAt(s, "#include", i) && s[r.value.end - 1] == '"'
  {
    if !OccursAt(s, "#include", i) then None
    else
      var a := SkipWhile(s, i + 8, IsSpace);
      if a == i + 8 || a == |s| || s[a] != '"' then None
      else
        var b := SkipUntil(s, a + 1, '"');
        if b == a + 1 || b == |s| then None
        else Some(Match(i, b + 1, []))
  }

  /** A matcher tells whether and how a pattern matches at an index. */
  type Matcher = (string, nat) -> Option<Match>

  /** A match found at `i` starts at `i` and is not empty. */
  ghost predicate Advances(m: Matcher) {
    forall s: string, i: nat :: m(s, i).Some? ==> m(s, i).value.start == i && i < m(s, i).value.end <= |s|
  }

  /** The scanner of each pattern. */
  function MatcherOf(pat: Pattern): (m: Matcher)
    ensures Advances(m)
  {
    match pat
    case ExportFunction => (s: string, i: nat) => if i <= |s| then MatchExportFunction(s, i) else None
    case ExportConst => (s: string, i: nat) => if i <= |s| then MatchExportConst(s, i) else None
    case EsImport => (s: string, i: nat) => if i <= |s| then MatchEsImport(s, i) else None
    case ExportKeyword => (s: string, i: nat) => if i <= |s| then MatchExportKeyword(s, i) else None
    case PyImport => (s: string, i: nat) => if i <= |s| then MatchPyImport(s, i) else None
    case PyImportLine => (s: string, i: nat) => if i <= |s| then MatchPyImportLine(s, i) else None
    case JavaPackage => (s: string, i: nat) => if i <= |s| then MatchJavaPackage(s, i) else None
    case JavaImport => (s: string, i: nat) => if i <= |s| then MatchJavaImport(s, i) else None
    case CppLocalInclude => (s: string, i: nat) => if i <= |s| then MatchCppLocalInclude(s, i) else None
  }

  /** `m` is a match of `pat` in `c`. */
  predicate IsMatch(pat: Pattern, c: string, m: Match) {
    m.start <= |c| && MatcherOf(pat)(c, m.start) == Some(m)
  }

  /** `re.exec(s)` with `re.lastIndex == from`: the leftmost match at or
      after `from` (see `ExecFinds`). */
  function Exec(m: Matcher, s: string, from: nat): (r: Option<Match>)
    requires Advances(m) && from <= |s|
    ensures r.Some? ==> from <= r.value.start < r.value.end <= |s|
    decreases |s| - from
  {
    var r := m(s, from);
    if r.Some? then r
    else if from == |s| then None
    else Exec(m, s, from + 1)
  }

  /** `Exec` finds a match of `m` and no match starts before it. */
  lemma {:induction false} ExecFinds(m: Matcher, s: string, from: nat)
    requires Advances(m) && from <= |s|
    ensures var r := Exec(m, s, from);
      (r.Some? ==> m(s, r.value.start) == r && forall p :: from <= p < r.value.start ==> m(s, p).None?) &&
      (r.None? ==> forall p :: from <= p <= |s| ==> m(s, p).None?)
    decreases |s| - from
  {
    if m(s, from).None? && from < |s| {
      ExecFinds(m, s, from + 1);
    }
  }
  /** What `Exec` returns is a match of `m` at its own start. */
  lemma ExecMatch(m: Matcher, s: string, from: nat)
    requires Advances(m) && from <= |s|
    ensures var r := Exec(m, s, from); r.Some? ==> m(s, r.value.start) == r
  {
    ExecFinds(m, s, from);
  }


  /** The successive matches of a global pattern from `from`, each search
      resuming where the previous match ended. */
  function AllMatches(m: Matcher, s: string, from: nat): (ms: seq<Match>)
    requires Advances(m) && from <= |s|
    ensures forall k :: 0 <= k < |ms| ==> from <= ms[k].start < ms[k].end <= |s|
    ensures forall k :: 0 < k < |ms| ==> ms[k - 1].end <= ms[k].start
    ensures |ms| == 0 <==> Exec(m, s, from).None?
    decreases |s| - from
  {
    match Exec(m, s, from)
    case None => []
    case Some(x) =>
      var rest := AllMatches(m, s, x.end);
      var ms := [x] + rest;
      assert forall k :: 0 < k < |ms| ==> ms[k] == rest[k - 1];
      ms
  }

  /** Every element of `AllMatches` is a match of `m`. */
  lemma {:induction false} AllMatchesFound(m: Matcher, s: string, from: nat)
    requires Advances(m) && from <= |s|
    ensures var ms := AllMatches(m, s, from);
      forall k :: 0 <= k < |ms| ==> m(s, ms[k].start) == Some(ms[k])
    decreases |s| - from
  {
    ExecFinds(m, s, from);
    match Exec(m, s, from)
    case None =>
    case Some(x) =>
      AllMatchesFound(m, s, x.end);
      var ms := AllMatches(m, s, from);
      assert forall k :: 0 < k < |ms| ==> ms[k] == AllMatches(m, s, x.end)[k - 1];
  }

  /** `s.replace(re, rep)` for a global pattern and a replacement without
      `$` patterns, applied to the text from index `from`. */
  function ReplaceFrom(m: Matcher, s: string, from: nat, rep: string): string
    requires Advances(m) && from <= |s|
    decreases |s| - from
  {
    match Exec(m, s, from)
    case None => s[from..]
    case Some(x) => s[from..x.start] + rep + ReplaceFrom(m, s, x.end, rep)
  }

  /** `s.replace(re, rep)` for a global pattern. */
  function ReplaceMatches(pat: Pattern, s: string, rep: string): string {
    ReplaceFrom(MatcherOf(pat), s, 0, rep)
  }

  /** `ms` are ordered, non-overlapping, non-empty segments of `s` after `from`. */
  ghost predicate Segments(s: string, from: nat, ms: seq<Match>) {
    (forall k :: 0 <= k < |ms| ==> ms[k].start < ms[k].end <= |s|) &&
    (|ms| > 0 ==> from <= ms[0].start) &&
    (forall k :: 0 < k < |ms| ==> ms[k - 1].end <= ms[k].start)
  }

  /** `s[from..]` with every segment of `ms` replaced by `rep`. */
  ghost function Splice(s: string, from: nat, ms: seq<Match>, rep: string): string
    requires from <= |s| && Segments(s, from, ms)
    decreases |ms|
  {
    if |ms| == 0 then s[from..]
    else s[from..ms[0].start] + rep + Splice(s, ms[0].end, ms[1..], rep)
  }

  /** The total length of the segments. */
  function Covered(ms: seq<Match>): int {
    if |ms| == 0 then 0 else ms[0].end - ms[0].start + Covered(ms[1..])
  }

  /** A global replacement replaces exactly the successive matches of the
      scan and keeps the text between them. */
  lemma {:induction false} ReplaceIsSplice(m: Matcher, s: string, from: nat, rep: string)
    requires Advances(m) && from <= |s|
    ensures Segments(s, from, AllMatches(m, s, from))
    ensures ReplaceFrom(m, s, from, rep) == Splice(s, from, AllMatches(m, s, from), rep)
    decreases |s| - from
  {
    var ms := AllMatches(m, s, from);
    match Exec(m, s, from)
    case None =>
    case Some(x) =>
      ReplaceIsSplice(m, s, x.end, rep);
      assert ms[1..] == AllMatches(m, s, x.end);
  }

  /** The length of a spliced text. */
  lemma {:induction false} SpliceLength(s: string, from: nat, ms: seq<Match>, rep: string)
    requires from <= |s| && Segments(s, from, ms)
    ensures |Splice(s, from, ms, rep)| == |s| - from - Covered(ms) + |ms| * |rep|
    decreases |ms|
  {
    if |ms| > 0 {
      SpliceLength(s, ms[0].end, ms[1..], rep);
      assert |ms| * |rep| == |rep| + |ms[1..]| * |rep| by {
        assert |ms| == 1 + |ms[1..]|;
      }
    }
  }

  /** Deleting the matches of a pattern removes exactly their characters;
      a text without a match is left as it is. */
  lemma Deletion(pat: Pattern, s: string)
    ensures |ReplaceMatches(pat, s, "")| == |s| - Covered(Matches(pat, s))
    ensures |Matches(pat, s)| == 0 ==> ReplaceMatches(pat, s, "") == s
  {
    ReplaceIsSplice(MatcherOf(pat), s, 0, "");
    SpliceLength(s, 0, Matches(pat, s), "");
  }

  /** `s.match(re)` for a pattern without the `g` flag: the first match. */
  function FirstMatch(pat: Pattern, s: string): (r: Option<Match>)
    ensures r.Some? ==> r.value.start < r.value.end <= |s|
  {
    Exec(MatcherOf(pat), s, 0)
  }

  /** The successive matches of a global pattern over the whole text. */
  function Matches(pat: Pattern, s: string): (ms: seq<Match>)
    ensures forall k :: 0 <= k < |ms| ==> ms[k].start < ms[k].end <= |s|
    ensures forall k :: 0 < k < |ms| ==> ms[k - 1].end <= ms[k].start
  {
    AllMatches(MatcherOf(pat), s, 0)
  }
}
