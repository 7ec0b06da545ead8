/** The Python bundler (`bundlePython`): every file once, each file's
    relative imports (`from .x import …`, resolved to `x.py`) before it, the
    entry file last, with the relative-import lines removed. */
module PyBundler {
  import opened Seqs
  import opened Dict
  import opened Files
  import opened Patterns
  import opened DependencyWalk

  lemma PyImportShape(c: string, m: Match)
    requires IsMatch(PyImport, c, m)
    ensures |m.groups| == 2 && m.start < m.end <= |c|
  {
  }

  /** The file names the `from .x import` statements of `c` name, from
      index `pos` on, in the order the `exec` loop finds them. */
  function RelativeImportsFrom(c: string, pos: nat): seq<string>
    requires pos <= |c|
    decreases |c| - pos
  {
    match Exec(MatcherOf(PyImport), c, pos)
    case None => []
    case Some(m) =>
      ExecMatch(MatcherOf(PyImport), c, pos);
      PyImportShape(c, m);
      [m.groups[0] + ".py"] + RelativeImportsFrom(c, m.end)
  }

  /** The edges the walk follows: the named files that exist. */
  function PyDeps(files: FileMap): (deps: map<string, seq<string>>)
    ensures deps.Keys == files.vals.Keys
    ensures forall f, d :: f in deps && d in deps[f] ==> d in files.vals
  {
    map f | f in files.vals :: Filter(RelativeImportsFrom(files.vals[f].content, 0), d => d in files.vals)
  }

  /** The section a file contributes: its text without the relative-import
      lines, under a banner. */
  function PySection(name: string, c: string): string {
    "\n# \U{2550}\U{2550}\U{2550} " + name + " \U{2550}\U{2550}\U{2550}\n" + ReplaceMatches(PyImportLine, c, "") + "\n"
  }

  function PySections(files: FileMap): (sections: map<string, string>)
    ensures sections.Keys == files.vals.Keys
  {
    map f | f in files.vals :: PySection(f, files.vals[f].content)
  }

  /** `bundlePython(files, entryPoint)`: visit every other file in key
      order, then the entry. Every file is emitted exactly once, a file's
      imports come before it unless they import it back, and the entry
      comes last unless another file imports it. */
  method BundlePython(files: FileMap, entry: string) returns (bundled: string, ghost order: seq<string>)
    requires files.Valid()
    ensures Distinct(order) && forall x :: x in order <==> x in files.vals
    ensures bundled == Emit(PySections(files), order)
    ensures entry in files.vals && Unimported(PyDeps(files), entry) ==> order[|order| - 1] == entry
    ensures forall i :: 0 <= i < |order| ==> Settled(PyDeps(files), PySections(files), order, i)
  {
    var deps := PyDeps(files);
    var sections := PySections(files);
    bundled, order := WalkAllThenEntry(deps, sections, files.keys, entry);
  }
}
