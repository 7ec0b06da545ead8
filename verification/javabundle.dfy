/** The Java bundler (`bundleJava`): one package line taken from the entry
    file, one block of the distinct import statements of all files, then
    every file with its package and import statements removed. */
module JavaBundler {
  import opened Wrappers
  import opened Strings
  import opened Seqs
  import opened Dict
  import opened Files
  import opened Patterns

  lemma JavaPackageShape(c: string, m: Match)
    requires IsMatch(JavaPackage, c, m)
    ensures |m.groups| == 1 && |m.groups[0]| > 0 && m.start < m.end <= |c|
  {
  }

  lemma JavaImportShape(c: string, m: Match)
    requires IsMatch(JavaImport, c, m)
    ensures m.start < m.end <= |c|
  {
  }

  /** The package of the entry file: the dotted name of its first package
      statement, or `""` when it has none or the entry is not a file. */
  function PackageName(files: FileMap, entry: Option<string>): (name: string)
    ensures name != "" <==>
      entry.Some? && entry.value in files.vals && FirstMatch(JavaPackage, files.vals[entry.value].content).Some?
  {
    if entry.Some? && entry.value in files.vals then
      var c := files.vals[entry.value].content;
      match FirstMatch(JavaPackage, c)
      case None => ""
      case Some(m) =>
        ExecMatch(MatcherOf(JavaPackage), c, 0);
        JavaPackageShape(c, m);
        m.groups[0]
    else ""
  }

  /** The full texts of the import statements of `c` from index `pos`, in
      the order `matchAll` yields them. */
  function ImportTextsFrom(c: string, pos: nat): (ts: seq<string>)
    requires pos <= |c|
    decreases |c| - pos
  {
    match Exec(MatcherOf(JavaImport), c, pos)
    case None => []
    case Some(m) =>
      ExecMatch(MatcherOf(JavaImport), c, pos);
      JavaImportShape(c, m);
      [c[m.start..m.end]] + ImportTextsFrom(c, m.end)
  }

  /** `xs.forEach(x => set.add(x))` on a set kept in insertion order. */
  function AddNew(acc: seq<string>, xs: seq<string>): (r: seq<string>)
    ensures forall x :: x in r <==> x in acc || x in xs
    ensures |acc| <= |r| && r[..|acc|] == acc
    decreases |xs|
  {
    if |xs| == 0 then acc
    else
      var acc' := if xs[0] in acc then acc else acc + [xs[0]];
      var r := AddNew(acc', xs[1..]);
      assert r[..|acc|] == r[..|acc'|][..|acc|];
      r
  }

  lemma {:induction false} AddNewDistinct(acc: seq<string>, xs: seq<string>)
    requires Distinct(acc)
    ensures Distinct(AddNew(acc, xs))
    decreases |xs|
  {
    if |xs| > 0 {
      var acc' := if xs[0] in acc then acc else acc + [xs[0]];
      assert Distinct(acc');
      AddNewDistinct(acc', xs[1..]);
    }
  }

  /** The `allImports` set after the files `ks` were scanned. */
  function Collected(files: FileMap, ks: seq<string>): seq<string>
    requires forall k :: k in ks ==> k in files.vals
  {
    if |ks| == 0 then []
    else AddNew(Collected(files, ks[..|ks| - 1]), ImportTextsFrom(files.vals[ks[|ks| - 1]].content, 0))
  }

  /** The import block holds every import statement of every file, each
      once. */
  lemma {:induction false} CollectedImports(files: FileMap, ks: seq<string>)
    requires forall k :: k in ks ==> k in files.vals
    ensures Distinct(Collected(files, ks))
    ensures forall x :: x in Collected(files, ks) <==>
      exists k :: k in ks && x in ImportTextsFrom(files.vals[k].content, 0)
  {
    if |ks| > 0 {
      var init := ks[..|ks| - 1];
      var last := ks[|ks| - 1];
      CollectedImports(files, init);
      AddNewDistinct(Collected(files, init), ImportTextsFrom(files.vals[last].content, 0));
      assert ks == init + [last];
    }
  }

  /** The banner that heads a file's section. */
  function JavaBanner(name: string): string {
    "\n// \U{2550}\U{2550}\U{2550} " + name + " \U{2550}\U{2550}\U{2550}\n"
  }

  /** The section of one file: its text without package and import
      statements, trimmed, under a banner and followed by a line break. A
      file without such statements keeps its text, trimmed. */
  function JavaSection(name: string, c: string): (r: string)
    ensures var b := JavaBanner(name);
      |r| > |b| && r[..|b|] == b && r[|r| - 1] == '\n' &&
      var body := r[|b|..|r| - 1];
      body == [] || (!IsSpace(body[0]) && !IsSpace(body[|body| - 1]))
    ensures |Matches(JavaPackage, c)| == 0 && |Matches(JavaImport, c)| == 0 ==>
      r == JavaBanner(name) + Trim(c) + "\n"
  {
    var stripped := ReplaceMatches(JavaImport, ReplaceMatches(JavaPackage, c, ""), "");
    TrimEnds(stripped);
    Framed(JavaBanner(name), Trim(stripped));
    if |Matches(JavaPackage, c)| == 0 && |Matches(JavaImport, c)| == 0 then
      Unstripped(c);
      JavaBanner(name) + Trim(stripped) + "\n"
    else
      JavaBanner(name) + Trim(stripped) + "\n"
  }

  /** A text between a banner and a final line break reads back. */
  lemma Framed(b: string, body: string)
    ensures var r := b + body + "\n";
      |r| > |b| && r[..|b|] == b && r[|r| - 1] == '\n' && r[|b|..|r| - 1] == body
  {
    var r := b + body + "\n";
    assert r[..|b|] == b;
    assert r[|b|..|r| - 1] == body;
  }

  /** A text without package and import statements is left as it is. */
  lemma Unstripped(c: string)
    requires |Matches(JavaPackage, c)| == 0 && |Matches(JavaImport, c)| == 0
    ensures ReplaceMatches(JavaImport, ReplaceMatches(JavaPackage, c, ""), "") == c
  {
    Deletion(JavaPackage, c);
    Deletion(JavaImport, c);
  }

  /** The pieces `bundled` holds before the final `join("\n")`. */
  function JavaParts(files: FileMap, entry: Option<string>): seq<string>
    requires files.Valid()
  {
    var pkg := PackageName(files, entry);
    var head := if pkg != "" then ["package " + pkg + ";\n"] else [];
    head + [Join(Collected(files, files.keys), '\n')] + ["\n"] + Sections(files, files.keys, JavaSection)
  }

  /** The number of package lines at the head of the bundle. */
  function HeadLength(files: FileMap, entry: Option<string>): nat {
    if PackageName(files, entry) != "" then 1 else 0
  }

  /** The bundle starts with the entry's package line when there is one,
      then the import block; after them comes one section per file, in key
      order. */
  lemma JavaLayout(files: FileMap, entry: Option<string>)
    requires files.Valid()
    ensures |JavaParts(files, entry)| == HeadLength(files, entry) + 2 + |files.keys|
    ensures PackageName(files, entry) != "" ==>
      JavaParts(files, entry)[0] == "package " + PackageName(files, entry) + ";\n"
    ensures JavaParts(files, entry)[HeadLength(files, entry)] == Join(Collected(files, files.keys), '\n')
    ensures JavaParts(files, entry)[HeadLength(files, entry) + 2..] == Sections(files, files.keys, JavaSection)
  {
    var pkg := PackageName(files, entry);
    var head: seq<string> := if pkg != "" then ["package " + pkg + ";\n"] else [];
    PartsLayout(head, Join(Collected(files, files.keys), '\n'), Sections(files, files.keys, JavaSection));
  }

  lemma PartsLayout(head: seq<string>, imports: string, sections: seq<string>)
    ensures var parts := head + [imports] + ["\n"] + sections;
      |parts| == |head| + 2 + |sections| && parts[..|head|] == head &&
      parts[|head|] == imports && parts[|head| + 2..] == sections
  {
  }


  /** One file's `matchAll` loop, adding each import statement to the set. */
  method AddFileImports(c: string, acc: seq<string>) returns (r: seq<string>)
    ensures r == AddNew(acc, ImportTextsFrom(c, 0))
  {
    r := acc;
    var pos := 0;
    var im := MatcherOf(JavaImport);
    var m := Exec(im, c, 0);
    while m.Some?
      invariant pos <= |c| && m == Exec(im, c, pos)
      invariant AddNew(r, ImportTextsFrom(c, pos)) == AddNew(acc, ImportTextsFrom(c, 0))
      decreases |c| - pos
    {
      var x := m.value;
      ExecMatch(im, c, pos);
      JavaImportShape(c, x);
      var t := c[x.start..x.end];
      assert ImportTextsFrom(c, pos) == [t] + ImportTextsFrom(c, x.end);
      assert ([t] + ImportTextsFrom(c, x.end))[1..] == ImportTextsFrom(c, x.end);
      if t !in r {
        r := r + [t];
      }
      pos := x.end;
      m := Exec(im, c, pos);
    }
  }

  /** The `forEach` over the files that fills `allImports`. */
  method CollectImports(files: FileMap) returns (imports: seq<string>)
    requires files.Valid()
    ensures imports == Collected(files, files.keys)
  {
    imports := [];
    var i := 0;
    while i < |files.keys|
      invariant 0 <= i <= |files.keys|
      invariant imports == Collected(files, files.keys[..i])
    {
      imports := CollectFile(files, i, imports);
      i := i + 1;
    }
    assert files.keys[..i] == files.keys;
  }

  /** One turn of the `forEach`: the imports of the `i`-th file added. */
  method CollectFile(files: FileMap, i: nat, imports: seq<string>) returns (next: seq<string>)
    requires files.Valid() && i < |files.keys|
    requires imports == Collected(files, files.keys[..i])
    ensures next == Collected(files, files.keys[..i + 1])
  {
    CollectedStep(files, i);
    next := AddFileImports(files.vals[files.keys[i]].content, imports);
  }

  lemma CollectedStep(files: FileMap, i: nat)
    requires files.Valid() && i < |files.keys|
    ensures forall k :: k in files.keys[..i + 1] ==> k in files.vals
    ensures Collected(files, files.keys[..i + 1]) ==
      AddNew(Collected(files, files.keys[..i]), ImportTextsFrom(files.vals[files.keys[i]].content, 0))
  {
    assert files.keys[..i + 1][..i] == files.keys[..i];
  }

  /** The `Object.entries(files).forEach` that pushes one section per file. */
  method AddSections(files: FileMap, head: seq<string>) returns (bundled: seq<string>)
    requires files.Valid()
    ensures bundled == head + Sections(files, files.keys, JavaSection)
  {
    bundled := head;
    var i := 0;
    while i < |files.keys|
      invariant 0 <= i <= |files.keys|
      invariant bundled == head + Sections(files, files.keys[..i], JavaSection)
    {
      var name := files.keys[i];
      SectionsStep(files, i, JavaSection);
      bundled := bundled + [JavaSection(name, files.vals[name].content)];
      i := i + 1;
    }
    assert files.keys[..i] == files.keys;
  }

  /** `entryFile?.content.match(...)`: the package of the entry file. */
  method EntryPackage(files: FileMap, entry: Option<string>) returns (packageName: string)
    ensures packageName == PackageName(files, entry)
  {
    packageName := "";
    if entry.Some? && entry.value in files.vals {
      var c := files.vals[entry.value].content;
      var packageMatch := FirstMatch(JavaPackage, c);
      if packageMatch.Some? {
        ExecMatch(MatcherOf(JavaPackage), c, 0);
        JavaPackageShape(c, packageMatch.value);
        packageName := packageMatch.value.groups[0];
      }
    }
  }

  /** `bundleJava(files, entryPoint)` */
  method BundleJava(files: FileMap, entry: Option<string>) returns (out: string)
    requires files.Valid()
    ensures out == Join(JavaParts(files, entry), '\n')
  {
    var packageName := EntryPackage(files, entry);
    var bundled: seq<string> := if packageName != "" then ["package " + packageName + ";\n"] else [];
    var allImports := CollectImports(files);
    bundled := bundled + [Join(allImports, '\n')];
    bundled := bundled + ["\n"];
    bundled := AddSections(files, bundled);
    out := Join(bundled, '\n');
  }
}
