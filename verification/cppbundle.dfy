/** The C/C++ bundler (`bundleCpp`): the header files (`.h`, `.hpp`) first,
    verbatim, then every other file with its `#include "…"` lines removed;
    within each group the files keep their key order. */
module CppBundler {
  import opened Wrappers
  import opened Strings
  import opened Seqs
  import opened Dict
  import opened Files
  import opened Patterns

  predicate IsHeader(name: string) {
    EndsWith(name, ".h") || EndsWith(name, ".hpp")
  }

  predicate IsImplementation(name: string) {
    !IsHeader(name)
  }

  /** A header's section: its text, unchanged, under a banner. */
  function HeaderSection(name: string, c: string): string {
    "\n// \U{2550}\U{2550}\U{2550} " + name + " \U{2550}\U{2550}\U{2550}\n" + c + "\n"
  }

  /** Any other file's section: its text without local includes. */
  function ImplementationSection(name: string, c: string): string {
    "\n// \U{2550}\U{2550}\U{2550} " + name + " \U{2550}\U{2550}\U{2550}\n" + ReplaceMatches(CppLocalInclude, c, "") + "\n"
  }

  /** The order in which files reach the bundle. */
  function CppOrder(files: FileMap): seq<string> {
    Filter(files.keys, IsHeader) + Filter(files.keys, IsImplementation)
  }

  /** `[...headers, ...implementations]` */
  function CppParts(files: FileMap): seq<string>
    requires files.Valid()
  {
    Sections(files, Filter(files.keys, IsHeader), HeaderSection) +
    Sections(files, Filter(files.keys, IsImplementation), ImplementationSection)
  }

  /** Every file is bundled exactly once, and no header comes after a
      non-header. */
  lemma CppOrderIsPermutation(files: FileMap)
    ensures multiset(CppOrder(files)) == multiset(files.keys)
    ensures forall i, j :: 0 <= i < j < |CppOrder(files)| && IsHeader(CppOrder(files)[j]) ==>
      IsHeader(CppOrder(files)[i])
  {
    FilterPartition(files.keys, IsHeader, IsImplementation);
    var hs := Filter(files.keys, IsHeader);
    var order := CppOrder(files);
    forall i, j | 0 <= i < j < |order| && IsHeader(order[j])
      ensures IsHeader(order[i])
    {
      if j >= |hs| {
        assert false;
      }
      assert order[i] in hs;
    }
  }

  /** The section of a file made the way its kind requires. */
  function CppSection(name: string, c: string): string {
    if IsHeader(name) then HeaderSection(name, c) else ImplementationSection(name, c)
  }

  /** The bundle is the section of every file in `CppOrder`, each made the
      header way or the implementation way according to its name. */
  lemma CppLayout(files: FileMap)
    requires files.Valid()
    ensures |CppOrder(files)| == |files.keys|
    ensures CppParts(files) == Sections(files, CppOrder(files), CppSection)
  {
    var hs := Filter(files.keys, IsHeader);
    var impls := Filter(files.keys, IsImplementation);
    FilterPartition(files.keys, IsHeader, IsImplementation);
    assert |multiset(hs)| + |multiset(impls)| == |multiset(files.keys)|;
    SectionsAgree(files, hs, HeaderSection, CppSection);
    SectionsAgree(files, impls, ImplementationSection, CppSection);
    SectionsAppend(files, hs, impls, CppSection);
  }

  lemma CppIncludeShape(c: string, m: Match)
    requires IsMatch(CppLocalInclude, c, m)
    ensures m.start < m.end <= |c| && c[m.end - 1] == '"'
  {
  }

  /** A file without a double quote holds no local include, so its
      implementation section keeps its text unchanged. */
  lemma NoQuoteUnchanged(c: string)
    requires '"' !in c
    ensures ReplaceMatches(CppLocalInclude, c, "") == c
  {
    var ms := Matches(CppLocalInclude, c);
    if |ms| > 0 {
      AllMatchesFound(MatcherOf(CppLocalInclude), c, 0);
      assert ms == AllMatches(MatcherOf(CppLocalInclude), c, 0);
      assert MatcherOf(CppLocalInclude)(c, ms[0].start) == Some(ms[0]);
      CppIncludeShape(c, ms[0]);
      assert false;
    }
    Deletion(CppLocalInclude, c);
  }

  /** The two lists after the first `i` files of the `forEach`. */
  ghost predicate Split(files: FileMap, i: nat, headers: seq<string>, implementations: seq<string>)
    requires files.Valid() && i <= |files.keys|
  {
    headers == Sections(files, Filter(files.keys[..i], IsHeader), HeaderSection) &&
    implementations == Sections(files, Filter(files.keys[..i], IsImplementation), ImplementationSection)
  }

  /** One more file of the `forEach`: its section joins exactly one of
      the two lists. */
  lemma CppStep(files: FileMap, i: nat, headers: seq<string>, implementations: seq<string>)
    requires files.Valid() && i < |files.keys| && Split(files, i, headers, implementations)
    ensures var name := files.keys[i];
      var c := files.vals[name].content;
      if IsHeader(name) then Split(files, i + 1, headers + [HeaderSection(name, c)], implementations)
      else Split(files, i + 1, headers, implementations + [ImplementationSection(name, c)])
  {
    var ks := files.keys[..i];
    var name := files.keys[i];
    assert files.keys[..i + 1] == ks + [name];
    FilterPush(ks, name, IsHeader);
    FilterPush(ks, name, IsImplementation);
    if IsHeader(name) {
      SectionsPush(files, Filter(ks, IsHeader), name, HeaderSection);
      assert Filter(ks + [name], IsImplementation) == Filter(ks, IsImplementation);
    } else {
      SectionsPush(files, Filter(ks, IsImplementation), name, ImplementationSection);
      assert Filter(ks + [name], IsHeader) == Filter(ks, IsHeader);
    }
  }

  /** `bundleCpp(files, entryPoint)`: the one `forEach` filling the two
      lists, then the joined result. */
  method BundleCpp(files: FileMap) returns (out: string)
    requires files.Valid()
    ensures out == Join(CppParts(files), '\n')
  {
    var headers: seq<string> := [];
    var implementations: seq<string> := [];
    var i := 0;
    while i < |files.keys|
      invariant 0 <= i <= |files.keys|
      invariant Split(files, i, headers, implementations)
    {
      var name := files.keys[i];
      var content := files.vals[name].content;
      CppStep(files, i, headers, implementations);
      if IsHeader(name) {
        headers := headers + [HeaderSection(name, content)];
      } else {
        implementations := implementations + [ImplementationSection(name, content)];
      }
      i := i + 1;
    }
    assert files.keys[..i] == files.keys;
    out := Join(headers + implementations, '\n');
  }
}
