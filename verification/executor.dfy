/** The dispatch of the multi-file executor (`executeMultiFile`): choose the
    entry file, bundle the files the way the language needs, and hand one
    program to the judge together with the judge's language number. The
    HTTP request itself is not modelled: the result is the submission that
    would be sent. */
module Executor {
  import opened Wrappers
  import opened Strings
  import opened Seqs
  import opened Dict
  import opened Files
  import opened DependencyWalk
  import opened JsBundler
  import opened PyBundler
  import opened JavaBundler
  import opened CppBundler

  /** The judge's language numbers. */
  const Judge0Ids: map<string, nat> := map[
    "javascript" := 93, "python" := 100, "java" := 91, "cpp" := 105, "c" := 103,
    "go" := 106, "rust" := 108, "typescript" := 101, "ruby" := 72, "php" := 98,
    "swift" := 83, "kotlin" := 78, "csharp" := 51]

  /** `map[language] || 93` */
  function Judge0LangId(language: string): (id: nat)
    ensures id > 0
    ensures language in Judge0Ids ==> id == Judge0Ids[language]
    ensures language !in Judge0Ids ==> id == 93
  {
    if language in Judge0Ids && Judge0Ids[language] != 0 then Judge0Ids[language] else 93
  }

  /** Every language of the table has its own number, and JavaScript's is
      the one unknown languages fall back to. */
  lemma Judge0IdsDistinct()
    ensures forall a, b :: a in Judge0Ids && b in Judge0Ids && a != b ==> Judge0Ids[a] != Judge0Ids[b]
    ensures Judge0LangId("javascript") == Judge0LangId("brainfuck")
  {
  }

  // ------------------------------------------------------- entry point

  predicate IsMainName(name: string) {
    StartsWith(name, "main.") || name == "main"
  }

  predicate IsIndexName(name: string) {
    StartsWith(name, "index.") || name == "index"
  }

  const JavaMainMarker: string := "public static void main"
  const PythonMainMarker: string := "if __name__ == \"__main__\""

  /** `(files[name]?.content || "").includes(marker)` */
  predicate ContentHas(files: FileMap, name: string, marker: string) {
    name in files.vals && Contains(files.vals[name].content, marker)
  }

  /** `detectEntryPoint(files, language)`: `None` stands for the
      `undefined` of `[].sort()[0]`. */
  function DetectEntryPoint(files: FileMap, language: string): (r: Option<string>)
    requires files.Valid()
    ensures r.None? <==> |files.keys| == 0
    ensures r.Some? ==> r.value in files.vals
  {
    var names := files.keys;
    var mainFile := Find(names, IsMainName);
    if Truthy(mainFile) then mainFile
    else
      var indexFile := Find(names, IsIndexName);
      if Truthy(indexFile) then indexFile
      else
        var javaMain := if language == "java" then Find(names, n => ContentHas(files, n, JavaMainMarker)) else None;
        if Truthy(javaMain) then javaMain
        else
          var pythonMain := if language == "python" then Find(names, n => ContentHas(files, n, PythonMainMarker)) else None;
          if Truthy(pythonMain) then pythonMain
          else if |names| == 0 then None
          else Some(Smallest(names))
  }

  /** The first rule that applies decides: a `main` file, then an `index`
      file, then for Java or Python the first file holding the language's
      main marker, each the first such key; the smallest name when no rule
      finds a file. */
  lemma DetectEntryPointPriority(files: FileMap, language: string)
    requires files.Valid()
    ensures var r := DetectEntryPoint(files, language);
      (exists n :: n in files.keys && IsMainName(n)) ==>
        r == Find(files.keys, IsMainName) && r.Some? && IsMainName(r.value)
    ensures var r := DetectEntryPoint(files, language);
      (forall n :: n in files.keys ==> !IsMainName(n)) && (exists n :: n in files.keys && IsIndexName(n)) ==>
        r == Find(files.keys, IsIndexName) && r.Some? && IsIndexName(r.value)
    ensures var r := DetectEntryPoint(files, language);
      var javaMain := Find(files.keys, n => ContentHas(files, n, JavaMainMarker));
      (forall n :: n in files.keys ==> !IsMainName(n) && !IsIndexName(n)) &&
      language == "java" && Truthy(javaMain) ==>
        r == javaMain && ContentHas(files, r.value, JavaMainMarker)
    ensures var r := DetectEntryPoint(files, language);
      var pythonMain := Find(files.keys, n => ContentHas(files, n, PythonMainMarker));
      (forall n :: n in files.keys ==> !IsMainName(n) && !IsIndexName(n)) &&
      language == "python" && Truthy(pythonMain) ==>
        r == pythonMain && ContentHas(files, r.value, PythonMainMarker)
    ensures var r := DetectEntryPoint(files, language);
      (forall n :: n in files.keys ==> !IsMainName(n) && !IsIndexName(n)) &&
      (language == "java" ==> forall n :: n in files.keys ==> !ContentHas(files, n, JavaMainMarker)) &&
      (language == "python" ==> forall n :: n in files.keys ==> !ContentHas(files, n, PythonMainMarker)) &&
      |files.keys| > 0 ==>
        r == Some(Smallest(files.keys))
  {
    var mainFile := Find(files.keys, IsMainName);
    if mainFile.Some? {
      assert mainFile.value != "";
    }
    var indexFile := Find(files.keys, IsIndexName);
    if indexFile.Some? {
      assert indexFile.value != "";
    }
  }

  /** A language rule that finds the file with the empty name does not
      count, so detection goes on to the smallest name, which is then that
      very file. */
  lemma EmptyNameFallsThrough(files: FileMap)
    requires files.Valid() && files.keys == [""]
    requires Contains(files.vals[""].content, JavaMainMarker)
    ensures Find(files.keys, n => ContentHas(files, n, JavaMainMarker)) == Some("")
    ensures DetectEntryPoint(files, "java") == Some(Smallest(files.keys)) == Some("")
  {
    assert !IsMainName("") && !IsIndexName("");
    assert ContentHas(files, "", JavaMainMarker);
  }

  /** `activeFile && files[activeFile] ? activeFile : detectEntryPoint(...)` */
  function ResolveEntry(files: FileMap, activeFile: Option<string>, language: string): (r: Option<string>)
    requires files.Valid()
    ensures Truthy(activeFile) && activeFile.value in files.vals ==> r == activeFile
    ensures !(Truthy(activeFile) && activeFile.value in files.vals) ==> r == DetectEntryPoint(files, language)
    ensures r.None? <==> |files.keys| == 0
    ensures r.Some? ==> r.value in files.vals
  {
    if Truthy(activeFile) && activeFile.value in files.vals then activeFile
    else DetectEntryPoint(files, language)
  }

  // ---------------------------------------------------------- dispatch

  /** The request body sent to the judge. */
  datatype Submission = Submission(languageId: nat, sourceCode: string, stdin: string)

  /** The section of a file for the languages without a bundler. */
  function PlainSection(name: string, c: string): string {
    "\n// " + name + "\n" + c
  }

  predicate IsJavaScriptFamily(language: string) {
    language == "javascript" || language == "typescript"
  }

  predicate IsCFamily(language: string) {
    language == "cpp" || language == "c"
  }

  predicate HasBundler(language: string) {
    IsJavaScriptFamily(language) || language == "python" || language == "java" || IsCFamily(language)
  }

  /** What the bundle of each language is: the visit order and sections
      of the JavaScript and Python bundlers, the parts of the Java and C/C++
      bundlers, and the plain concatenation for the other languages. */
  ghost predicate Bundled(files: FileMap, language: string, entry: Option<string>, code: string, order: seq<string>)
    requires files.Valid()
  {
    if IsJavaScriptFamily(language) then
      (forall x :: x in order ==> x in files.vals) && Distinct(order) &&
      code == Emit(JsSections(files), order) &&
      (entry.None? ==> order == [] && code == "") &&
      (entry.Some? ==> forall x :: x in order ==> Reaches(JsDeps(files), entry.value, x)) &&
      (entry.Some? && entry.value in files.vals ==>
        |order| > 0 && order[|order| - 1] == entry.value &&
        forall x :: x in files.vals && Reaches(JsDeps(files), entry.value, x) ==> x in order) &&
      (forall i :: 0 <= i < |order| ==> Settled(JsDeps(files), JsSections(files), order, i))
    else if language == "python" then
      (forall x :: x in order <==> x in files.vals) && Distinct(order) &&
      code == Emit(PySections(files), order) &&
      (entry.GetOr("") in files.vals && Unimported(PyDeps(files), entry.GetOr("")) ==>
        order[|order| - 1] == entry.GetOr("")) &&
      (forall i :: 0 <= i < |order| ==> Settled(PyDeps(files), PySections(files), order, i))
    else if language == "java" then code == Join(JavaParts(files, entry), '\n')
    else if IsCFamily(language) then code == Join(CppParts(files), '\n')
    else code == Join(Sections(files, files.keys, PlainSection), '\n')
  }

  /** The `switch (language)` of the executor. */
  method Bundle(files: FileMap, language: string, entry: Option<string>) returns (code: string, ghost order: seq<string>)
    requires files.Valid()
    ensures Bundled(files, language, entry, code, order)
  {
    order := [];
    if IsJavaScriptFamily(language) {
      code, order := BundleJavaScript(files, entry);
    } else if language == "python" {
      code, order := BundlePython(files, entry.GetOr(""));
    } else if language == "java" {
      code := BundleJava(files, entry);
    } else if IsCFamily(language) {
      code := BundleCpp(files);
    } else {
      code := Concatenate(files);
    }
  }

  /** `executeMultiFile(files, language, stdin, activeFile)` up to the
      request: a project of one file is sent as it is; otherwise the
      files are bundled from the resolved entry. */
  method ExecuteMultiFile(files: FileMap, language: string, stdin: string, activeFile: Option<string>)
    returns (sub: Submission, ghost order: seq<string>)
    requires files.Valid()
    ensures sub.languageId == Judge0LangId(language) && sub.stdin == stdin
    ensures |files.keys| == 1 ==> sub.sourceCode == files.vals[files.keys[0]].content
    ensures |files.keys| != 1 ==> Bundled(files, language, ResolveEntry(files, activeFile, language), sub.sourceCode, order)
  {
    order := [];
    if |files.keys| == 1 {
      sub := Submission(Judge0LangId(language), files.vals[files.keys[0]].content, stdin);
      return;
    }
    var entry := ResolveEntry(files, activeFile, language);
    var bundledCode;
    bundledCode, order := Bundle(files, language, entry);
    sub := Submission(Judge0LangId(language), bundledCode, stdin);
  }

  /** A JavaScript or TypeScript project of several files is sent as a
      non-empty program whose last section is the resolved entry's. */
  lemma JavaScriptBundleEndsWithEntry(files: FileMap, language: string, activeFile: Option<string>,
                                      code: string, order: seq<string>)
    requires files.Valid() && |files.keys| > 1 && IsJavaScriptFamily(language)
    requires Bundled(files, language, ResolveEntry(files, activeFile, language), code, order)
    ensures var e := ResolveEntry(files, activeFile, language);
      e.Some? && e.value in files.vals && |order| > 0 && order[|order| - 1] == e.value &&
      code == Emit(JsSections(files), order[..|order| - 1]) + JsSections(files)[e.value]
    ensures code != ""
  {
  }

  /** `Object.entries(files).map(...).join("\n")` */
  method Concatenate(files: FileMap) returns (out: string)
    requires files.Valid()
    ensures out == Join(Sections(files, files.keys, PlainSection), '\n')
  {
    var parts: seq<string> := [];
    var i := 0;
    while i < |files.keys|
      invariant 0 <= i <= |files.keys|
      invariant parts == Sections(files, files.keys[..i], PlainSection)
    {
      var name := files.keys[i];
      SectionsStep(files, i, PlainSection);
      parts := parts + [PlainSection(name, files.vals[name].content)];
      i := i + 1;
    }
    assert files.keys[..i] == files.keys;
    out := Join(parts, '\n');
  }
}
