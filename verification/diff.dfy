/** The line-by-line comparison of two versions of a file
    (`client/src/components/version/DiffViewer.jsx`): line `i` of the old
    text is set against line `i` of the new one, a missing line counting as
    the empty line, and each pair is classified. */
module Diff {
  import opened Strings
  import opened Seqs

  datatype Kind = Same | Added | Removed | Modified

  datatype DiffLine = DiffLine(kind: Kind, oldLine: string, newLine: string, lineNum: nat)

  /** `lines[i] || ""` */
  function LineAt(lines: seq<string>, i: nat): (r: string)
    ensures i < |lines| ==> r == lines[i]
    ensures i >= |lines| ==> r == ""
  {
    if i < |lines| then lines[i] else ""
  }

  /** The `if` chain of the loop body: equal lines are the same line, an
      empty old line was added, an empty new line removed, and any other
      pair modified. */
  function Classify(oldLine: string, newLine: string): (k: Kind)
    ensures k == Same <==> oldLine == newLine
    ensures k == Added <==> oldLine != newLine && oldLine == ""
    ensures k == Removed <==> oldLine != newLine && oldLine != "" && newLine == ""
    ensures k == Modified <==> oldLine != newLine && oldLine != "" && newLine != ""
  {
    if oldLine == newLine then Same
    else if oldLine == "" then Added
    else if newLine == "" then Removed
    else Modified
  }

  /** The entry for line `i` (numbered from 1). */
  function Entry(oldLines: seq<string>, newLines: seq<string>, i: nat): DiffLine {
    var o := LineAt(oldLines, i);
    var n := LineAt(newLines, i);
    DiffLine(Classify(o, n), o, n, i + 1)
  }

  /** The whole comparison of two texts: one entry per line of the longer
      text, numbered from 1, holding both texts' (padded) lines at that
      position and their classification. */
  function DiffOf(oldCode: string, newCode: string): (d: seq<DiffLine>)
    ensures |d| == Max(|Split(oldCode, '\n')|, |Split(newCode, '\n')|)
    ensures forall i :: 0 <= i < |d| ==>
      d[i].lineNum == i + 1 &&
      d[i].oldLine == LineAt(Split(oldCode, '\n'), i) &&
      d[i].newLine == LineAt(Split(newCode, '\n'), i) &&
      d[i].kind == Classify(d[i].oldLine, d[i].newLine)
  {
    var oldLines := Split(oldCode, '\n');
    var newLines := Split(newCode, '\n');
    seq(Max(|oldLines|, |newLines|), i requires 0 <= i => Entry(oldLines, newLines, i))
  }

  /** `computeDiff()`: one entry per line of the longer text, line numbers
      counting from 1, each entry holding the two (padded) lines and their
      classification. */
  method ComputeDiff(oldCode: string, newCode: string) returns (diff: seq<DiffLine>)
    ensures diff == DiffOf(oldCode, newCode)
    ensures |diff| == Max(|Split(oldCode, '\n')|, |Split(newCode, '\n')|)
    ensures forall i :: 0 <= i < |diff| ==>
      diff[i].lineNum == i + 1 &&
      diff[i].oldLine == LineAt(Split(oldCode, '\n'), i) &&
      diff[i].newLine == LineAt(Split(newCode, '\n'), i) &&
      diff[i].kind == Classify(diff[i].oldLine, diff[i].newLine)
  {
    var oldLines := Split(oldCode, '\n');
    var newLines := Split(newCode, '\n');
    var maxLines := Max(|oldLines|, |newLines|);
    diff := [];
    for i := 0 to maxLines
      invariant |diff| == i
      invariant forall j :: 0 <= j < i ==> diff[j] == Entry(oldLines, newLines, j)
    {
      var oldLine := LineAt(oldLines, i);
      var newLine := LineAt(newLines, i);
      if oldLine == newLine {
        diff := diff + [DiffLine(Same, oldLine, newLine, i + 1)];
      } else if oldLine == "" {
        diff := diff + [DiffLine(Added, oldLine, newLine, i + 1)];
      } else if newLine == "" {
        diff := diff + [DiffLine(Removed, oldLine, newLine, i + 1)];
      } else {
        diff := diff + [DiffLine(Modified, oldLine, newLine, i + 1)];
      }
    }
  }

  // ------------------------------------------------------------- stats

  predicate IsKind(k: Kind, d: DiffLine) {
    d.kind == k
  }

  /** `stats`: how many entries were added, removed and modified. */
  datatype Stats = Stats(added: nat, removed: nat, modified: nat)

  function StatsOf(diff: seq<DiffLine>): (s: Stats)
    ensures s.added == Count(diff, d => IsKind(Added, d))
    ensures s.removed == Count(diff, d => IsKind(Removed, d))
    ensures s.modified == Count(diff, d => IsKind(Modified, d))
  {
    Stats(Count(diff, d => IsKind(Added, d)),
          Count(diff, d => IsKind(Removed, d)),
          Count(diff, d => IsKind(Modified, d)))
  }

  /** Every entry is counted once: the three counts and the unchanged lines
      make up the whole diff. */
  lemma {:induction false} StatsAddUp(diff: seq<DiffLine>)
    ensures var s := StatsOf(diff);
      s.added + s.removed + s.modified + Count(diff, d => IsKind(Same, d)) == |diff|
  {
    if |diff| > 0 {
      StatsAddUp(diff[1..]);
    }
  }

  /** A version compared with itself: every entry is unchanged and the
      stats are all zero. */
  lemma {:induction false} IdenticalTextsAreSame(code: string)
    ensures forall d :: d in DiffOf(code, code) ==> d.kind == Same
    ensures StatsOf(DiffOf(code, code)) == Stats(0, 0, 0)
  {
    var diff := DiffOf(code, code);
    forall d | d in diff ensures d.kind == Same {
      var i :| 0 <= i < |diff| && diff[i] == d;
    }
    NoneCounted(diff, Added);
    NoneCounted(diff, Removed);
    NoneCounted(diff, Modified);
  }

  lemma {:induction false} NoneCounted(diff: seq<DiffLine>, k: Kind)
    requires k != Same && forall d :: d in diff ==> d.kind == Same
    ensures Count(diff, d => IsKind(k, d)) == 0
  {
    if |diff| > 0 {
      assert diff[0] in diff;
      NoneCounted(diff[1..], k);
    }
  }

  /** The diff loses neither text: the old lines of its first entries are
      the old text's lines, so joining them gives the old text back, and
      likewise for the new text. */
  lemma DiffKeepsBothTexts(oldCode: string, newCode: string)
    ensures var diff := DiffOf(oldCode, newCode);
      var oldLines := Split(oldCode, '\n');
      |oldLines| <= |diff| &&
      Join(seq(|oldLines|, i requires 0 <= i < |oldLines| => diff[i].oldLine), '\n') == oldCode
    ensures var diff := DiffOf(oldCode, newCode);
      var newLines := Split(newCode, '\n');
      |newLines| <= |diff| &&
      Join(seq(|newLines|, i requires 0 <= i < |newLines| => diff[i].newLine), '\n') == newCode
  {
    var diff := DiffOf(oldCode, newCode);
    var oldLines := Split(oldCode, '\n');
    var newLines := Split(newCode, '\n');
    assert seq(|oldLines|, i requires 0 <= i < |oldLines| => diff[i].oldLine) == oldLines;
    assert seq(|newLines|, i requires 0 <= i < |newLines| => diff[i].newLine) == newLines;
    JoinSplit(oldCode, '\n');
    JoinSplit(newCode, '\n');
  }
}
