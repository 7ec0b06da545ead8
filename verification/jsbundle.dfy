/** The JavaScript bundler (`bundleJavaScript`): an export table per file,
    then a depth-first walk from the entry file that replaces each
    `import { … } from "./x"` by the exported code of `x` and strips the
    `export` keywords. */
module JsBundler {
  import opened Wrappers
  import opened Strings
  import opened Seqs
  import opened Dict
  import opened Files
  import opened Patterns
  import opened DependencyWalk

  // ------------------------------------------------------ brace matching

  function Delta(c: char): int {
    if c == '{' then 1 else if c == '}' then -1 else 0
  }

  /** The brace count after reading `s[start..k]`, starting from the one
      brace the export pattern already consumed. */
  function Depth(s: string, start: nat, k: nat): int
    requires start <= k <= |s|
    decreases k - start
  {
    if k == start then 1 else Depth(s, start, k - 1) + Delta(s[k - 1])
  }

  function ScanBraces(s: string, start: nat, k: nat): (e: nat)
    requires start <= k <= |s|
    requires forall j :: start <= j < k ==> Depth(s, start, j) > 0
    ensures k <= e <= |s|
    ensures forall j :: start <= j < e ==> Depth(s, start, j) > 0
    ensures e == |s| || Depth(s, start, e) <= 0
    decreases |s| - k
  {
    if k < |s| && Depth(s, start, k) > 0 then ScanBraces(s, start, k + 1) else k
  }

  /** Where brace matching stops: the first index at which the count is
      back to zero, or the end of the text when it never is. */
  function BodyEnd(s: string, start: nat): (e: nat)
    requires start <= |s|
    ensures start <= e <= |s|
    ensures forall k :: start <= k < e ==> Depth(s, start, k) > 0
    ensures e == |s| || Depth(s, start, e) == 0
  {
    var e := ScanBraces(s, start, start);
    if e < |s| then
      assert e != start;
      assert Depth(s, start, e - 1) > 0;
      e
    else e
  }

  /** The brace-counting loop of the export extraction. */
  method MatchBraces(content: string, startIdx: nat) returns (endIdx: nat)
    requires startIdx <= |content|
    ensures endIdx == BodyEnd(content, startIdx)
  {
    var braceCount := 1;
    endIdx := startIdx;
    while braceCount > 0 && endIdx < |content|
      invariant startIdx <= endIdx <= |content|
      invariant braceCount == Depth(content, startIdx, endIdx)
      invariant forall k :: startIdx <= k < endIdx ==> Depth(content, startIdx, k) > 0
      decreases |content| - endIdx
    {
      if content[endIdx] == '{' {
        braceCount := braceCount + 1;
      }
      if content[endIdx] == '}' {
        braceCount := braceCount - 1;
      }
      endIdx := endIdx + 1;
    }
  }

  /** The captured body: `content.substring(startIdx, endIdx - 1)`. */
  function FunctionBody(s: string, start: nat): string
    requires start <= |s|
  {
    Substring(s, start, BodyEnd(s, start) - 1)
  }

  /** When the braces close, the body is everything up to the matching
      `}`, and the braces inside it are balanced. */
  lemma ClosedBody(s: string, start: nat)
    requires start <= |s|
    requires Depth(s, start, BodyEnd(s, start)) == 0
    ensures var e := BodyEnd(s, start);
      start < e && s[e - 1] == '}' && FunctionBody(s, start) == s[start..e - 1] &&
      Depth(s, start, e - 1) == 1
  {
    var e := BodyEnd(s, start);
    assert e != start;
    assert Depth(s, start, e - 1) > 0;
  }

  /** When the braces never close, the body stops one character short of
      the end of the text; if the `{` was the last character, the reversed
      `substring` bounds make the body that `{` itself. */
  lemma UnclosedBody(s: string, start: nat)
    requires 0 < start <= |s|
    requires Depth(s, start, BodyEnd(s, start)) > 0
    ensures BodyEnd(s, start) == |s|
    ensures start < |s| ==> FunctionBody(s, start) == s[start..|s| - 1]
    ensures start == |s| ==> FunctionBody(s, start) == [s[|s| - 1]]
  {
  }

  // -------------------------------------------------------- export table

  /** A match of the export-function pattern has a name and a parameter
      list and ends with the body's `{`. */
  lemma FunctionFound(c: string, pos: nat)
    requires pos <= |c|
    ensures var r := Exec(MatcherOf(ExportFunction), c, pos);
      r.Some? ==> |r.value.groups| == 2 && c[r.value.end - 1] == '{'
  {
    ExecMatch(MatcherOf(ExportFunction), c, pos);
    var r := Exec(MatcherOf(ExportFunction), c, pos);
    if r.Some? {
      assert MatcherOf(ExportFunction)(c, r.value.start) == MatchExportFunction(c, r.value.start);
    }
  }

  lemma ConstFound(c: string, pos: nat)
    requires pos <= |c|
    ensures var r := Exec(MatcherOf(ExportConst), c, pos);
      r.Some? ==> |r.value.groups| == 2
  {
    ExecMatch(MatcherOf(ExportConst), c, pos);
    var r := Exec(MatcherOf(ExportConst), c, pos);
    if r.Some? {
      assert MatcherOf(ExportConst)(c, r.value.start) == MatchExportConst(c, r.value.start);
    }
  }

  lemma EsImportFound(c: string, pos: nat)
    requires pos <= |c|
    ensures var r := Exec(MatcherOf(EsImport), c, pos);
      r.Some? ==> |r.value.groups| == 2
  {
    ExecMatch(MatcherOf(EsImport), c, pos);
    var r := Exec(MatcherOf(EsImport), c, pos);
    if r.Some? {
      assert MatcherOf(EsImport)(c, r.value.start) == MatchEsImport(c, r.value.start);
    }
  }

  /** `function ${name}(${params}) {${body}}` */
  function FunctionText(c: string, m: Match): string
    requires |m.groups| == 2 && m.start <= m.end <= |c|
  {
    "function " + m.groups[0] + "(" + m.groups[1] + ") {" + FunctionBody(c, m.end) + "}"
  }

  /** `const ${name} = ${value};` */
  function ConstText(m: Match): string
    requires |m.groups| == 2
  {
    "const " + m.groups[0] + " = " + m.groups[1] + ";"
  }

  /** The assignments `exports[name] = text` the first `exec` loop makes
      from index `pos` on: one per exported function, in text order. */
  function FunctionEntriesFrom(c: string, pos: nat): seq<(string, string)>
    requires pos <= |c|
    decreases |c| - pos
  {
    match Exec(MatcherOf(ExportFunction), c, pos)
    case None => []
    case Some(m) =>
      FunctionFound(c, pos);
      [(m.groups[0], FunctionText(c, m))] + FunctionEntriesFrom(c, m.end)
  }

  /** The assignments of the second loop: one per exported constant. */
  function ConstEntriesFrom(c: string, pos: nat): seq<(string, string)>
    requires pos <= |c|
    decreases |c| - pos
  {
    match Exec(MatcherOf(ExportConst), c, pos)
    case None => []
    case Some(m) =>
      ConstFound(c, pos);
      [(m.groups[0], ConstText(m))] + ConstEntriesFrom(c, m.end)
  }

  /** `obj[k] = v` for each pair in turn. */
  function Assign(acc: map<string, string>, es: seq<(string, string)>): (r: map<string, string>)
    ensures forall k :: k in r <==> k in acc || exists i :: 0 <= i < |es| && es[i].0 == k
    decreases |es|
  {
    if |es| == 0 then acc
    else
      var r := Assign(acc[es[0].0 := es[0].1], es[1..]);
      assert forall i :: 0 < i < |es| ==> es[i] == es[1..][i - 1];
      r
  }

  lemma AssignCons(acc: map<string, string>, e: (string, string), es: seq<(string, string)>)
    ensures Assign(acc, [e] + es) == Assign(acc[e.0 := e.1], es)
  {
    assert ([e] + es)[1..] == es;
  }

  /** The last assignment to a key decides its value. */
  lemma {:induction false} LastAssignmentWins(acc: map<string, string>, es: seq<(string, string)>, i: nat)
    requires i < |es|
    requires forall j :: i < j < |es| ==> es[j].0 != es[i].0
    ensures es[i].0 in Assign(acc, es) && Assign(acc, es)[es[i].0] == es[i].1
    decreases |es|
  {
    if i > 0 {
      assert forall j :: i - 1 < j < |es| - 1 ==> es[1..][j] == es[j + 1];
      LastAssignmentWins(acc[es[0].0 := es[0].1], es[1..], i - 1);
    } else {
      UnassignedKept(acc[es[0].0 := es[0].1], es[1..], es[0].0);
    }
  }

  /** A key no pair assigns keeps its value. */
  lemma {:induction false} UnassignedKept(acc: map<string, string>, es: seq<(string, string)>, k: string)
    requires k in acc
    requires forall j :: 0 <= j < |es| ==> es[j].0 != k
    ensures Assign(acc, es)[k] == acc[k]
    decreases |es|
  {
    if |es| > 0 {
      assert forall j :: 0 <= j < |es| - 1 ==> es[1..][j] == es[j + 1];
      UnassignedKept(acc[es[0].0 := es[0].1], es[1..], k);
    }
  }

  /** The `exports` object of one file: every exported function in the
      order found, then every exported constant. */
  function ExportTable(c: string): map<string, string> {
    Assign(Assign(map[], FunctionEntriesFrom(c, 0)), ConstEntriesFrom(c, 0))
  }

  /** An exported function whose name no later function and no constant
      reuses is exported with its own text. */
  lemma ExportedFunction(c: string, i: nat)
    requires i < |FunctionEntriesFrom(c, 0)|
    requires var fe := FunctionEntriesFrom(c, 0);
      (forall j :: i < j < |fe| ==> fe[j].0 != fe[i].0) &&
      (forall j :: 0 <= j < |ConstEntriesFrom(c, 0)| ==> ConstEntriesFrom(c, 0)[j].0 != fe[i].0)
    ensures var e := FunctionEntriesFrom(c, 0)[i];
      e.0 in ExportTable(c) && ExportTable(c)[e.0] == e.1
  {
    var fe := FunctionEntriesFrom(c, 0);
    LastAssignmentWins(map[], fe, i);
    UnassignedKept(Assign(map[], fe), ConstEntriesFrom(c, 0), fe[i].0);
  }

  /** Every exported constant is exported with its own text, unless a later
      constant reuses its name. */
  lemma ExportedConst(c: string, i: nat)
    requires i < |ConstEntriesFrom(c, 0)|
    requires var ce := ConstEntriesFrom(c, 0);
      forall j :: i < j < |ce| ==> ce[j].0 != ce[i].0
    ensures var e := ConstEntriesFrom(c, 0)[i];
      e.0 in ExportTable(c) && ExportTable(c)[e.0] == e.1
  {
    LastAssignmentWins(Assign(map[], FunctionEntriesFrom(c, 0)), ConstEntriesFrom(c, 0), i);
  }

  /** One round of the first loop: the match found at `pos` contributes
      the first assignment. */
  lemma FunctionEntriesStep(c: string, pos: nat, m: Match)
    requires pos <= |c| && Exec(MatcherOf(ExportFunction), c, pos) == Some(m)
    ensures |m.groups| == 2 && m.start < m.end <= |c|
    ensures FunctionEntriesFrom(c, pos) == [(m.groups[0], FunctionText(c, m))] + FunctionEntriesFrom(c, m.end)
  {
    FunctionFound(c, pos);
  }

  lemma ConstEntriesStep(c: string, pos: nat, m: Match)
    requires pos <= |c| && Exec(MatcherOf(ExportConst), c, pos) == Some(m)
    ensures |m.groups| == 2 && m.start < m.end <= |c|
    ensures ConstEntriesFrom(c, pos) == [(m.groups[0], ConstText(m))] + ConstEntriesFrom(c, m.end)
  {
    ConstFound(c, pos);
  }

  /** The first `exec` loop: every exported function, with its body
      found by brace matching. */
  method ExtractFunctions(content: string) returns (exports: map<string, string>)
    ensures exports == Assign(map[], FunctionEntriesFrom(content, 0))
  {
    exports := map[];
    var pos := 0;
    var fm := MatcherOf(ExportFunction);
    var m := Exec(fm, content, 0);
    while m.Some?
      invariant pos <= |content| && m == Exec(fm, content, pos)
      invariant Assign(exports, FunctionEntriesFrom(content, pos)) == Assign(map[], FunctionEntriesFrom(content, 0))
      decreases |content| - pos
    {
      var x := m.value;
      FunctionEntriesStep(content, pos, x);
      var text := FunctionSource(content, x);
      AssignCons(exports, (x.groups[0], text), FunctionEntriesFrom(content, x.end));
      exports := exports[x.groups[0] := text];
      pos := x.end;
      m := Exec(fm, content, pos);
    }
  }

  /** The text stored for one exported function: its header and the body
      up to the matching closing brace. */
  method FunctionSource(content: string, x: Match) returns (text: string)
    requires |x.groups| == 2 && x.start <= x.end <= |content|
    ensures text == FunctionText(content, x)
  {
    var endIdx := MatchBraces(content, x.end);
    var funcBody := Substring(content, x.end, endIdx as int - 1);
    text := "function " + x.groups[0] + "(" + x.groups[1] + ") {" + funcBody + "}";
  }

  /** The second `exec` loop: every exported constant, added to `fns`. */
  method ExtractConstants(content: string, fns: map<string, string>) returns (exports: map<string, string>)
    ensures exports == Assign(fns, ConstEntriesFrom(content, 0))
  {
    exports := fns;
    var pos := 0;
    var cm := MatcherOf(ExportConst);
    var m := Exec(cm, content, 0);
    while m.Some?
      invariant pos <= |content| && m == Exec(cm, content, pos)
      invariant Assign(exports, ConstEntriesFrom(content, pos)) == Assign(fns, ConstEntriesFrom(content, 0))
      decreases |content| - pos
    {
      var x := m.value;
      ConstEntriesStep(content, pos, x);
      AssignCons(exports, (x.groups[0], ConstText(x)), ConstEntriesFrom(content, x.end));
      exports := exports[x.groups[0] := "const " + x.groups[0] + " = " + x.groups[1] + ";"];
      pos := x.end;
      m := Exec(cm, content, pos);
    }
  }

  /** The export table of one file, as the two loops fill it. */
  method ExtractExports(content: string) returns (exports: map<string, string>)
    ensures exports == ExportTable(content)
  {
    var fns := ExtractFunctions(content);
    exports := ExtractConstants(content, fns);
  }

  // ------------------------------------------------------------- modules

  datatype Module = Module(content: string, exports: map<string, string>)

  /** The entry `modules[name]` of one file. */
  function ModuleOf(file: SourceFile): (m: Module)
    ensures m.content == file.content
  {
    Module(file.content, ExportTable(file.content))
  }

  /** The `modules` object: every file with its export table. */
  function Modules(files: FileMap): (ms: map<string, Module>)
    ensures ms.Keys == files.vals.Keys
    ensures forall f :: f in ms ==> ms[f].content == files.vals[f].content
  {
    map f | f in files.vals :: ModuleOf(files.vals[f])
  }

  /** `modules[fileName] = { content, exports }` */
  method BuildModule(file: SourceFile) returns (m: Module)
    ensures m == ModuleOf(file)
  {
    var exports := ExtractExports(file.content);
    m := Module(file.content, exports);
  }

  /** Step 1 of the bundler: the `forEach` that fills `modules`. */
  method BuildModules(files: FileMap) returns (modules: map<string, Module>)
    requires files.Valid()
    ensures modules == Modules(files)
  {
    modules := map[];
    var i := 0;
    while i < |files.keys|
      invariant 0 <= i <= |files.keys|
      invariant modules == ModulesAmong(files, files.keys[..i])
    {
      var name := files.keys[i];
      var m := BuildModule(files.vals[name]);
      ModulesAmongStep(files, files.keys[..i], name);
      assert files.keys[..i + 1] == files.keys[..i] + [name];
      modules := modules[name := m];
      i := i + 1;
    }
    assert files.keys[..i] == files.keys;
  }

  /** The modules of the files named in `ks`. */
  ghost function ModulesAmong(files: FileMap, ks: seq<string>): map<string, Module>
  {
    map f | f in ks && f in files.vals :: ModuleOf(files.vals[f])
  }

  lemma ModulesAmongStep(files: FileMap, ks: seq<string>, name: string)
    requires name in files.vals
    ensures ModulesAmong(files, ks + [name]) == ModulesAmong(files, ks)[name := ModuleOf(files.vals[name])]
  {
  }

  // ------------------------------------------------------------- imports

  /** One import statement: the trimmed names between the braces, the
      file after `./`, and the statement's full text. */
  datatype Import = Import(items: seq<string>, source: string, text: string)

  function TrimAll(parts: seq<string>): (r: seq<string>)
    ensures |r| == |parts| && forall k :: 0 <= k < |parts| ==> r[k] == Trim(parts[k])
  {
    seq(|parts|, k requires 0 <= k < |parts| => Trim(parts[k]))
  }

  function ImportOf(c: string, m: Match): Import
    requires |m.groups| == 2 && m.start <= m.end <= |c|
  {
    Import(TrimAll(Split(m.groups[0], ',')), m.groups[1], c[m.start..m.end])
  }

  /** The import statements of a file from index `pos`, in order. */
  function ImportsFrom(c: string, pos: nat): seq<Import>
    requires pos <= |c|
    decreases |c| - pos
  {
    match Exec(MatcherOf(EsImport), c, pos)
    case None => []
    case Some(m) =>
      EsImportFound(c, pos);
      [ImportOf(c, m)] + ImportsFrom(c, m.end)
  }

  function Imports(c: string): seq<Import> {
    ImportsFrom(c, 0)
  }

  /** The files a file imports from, in order: its edges in the walk. */
  function ImportSources(imps: seq<Import>): (ds: seq<string>)
    ensures |ds| == |imps| && forall k :: 0 <= k < |imps| ==> ds[k] == imps[k].source
  {
    seq(|imps|, k requires 0 <= k < |imps| => imps[k].source)
  }

  /** The code an import is replaced by: each requested name the source
      exports, followed by a line break. */
  function Replacement(items: seq<string>, exports: map<string, string>): string {
    if |items| == 0 then ""
    else
      (if items[0] in exports && exports[items[0]] != "" then exports[items[0]] + "\n" else "") +
      Replacement(items[1..], exports)
  }

  /** The second `forEach` over the imports: an import from a file of the
      project is replaced, at its first occurrence in the current text.
      Imports from files that are not part of the project stay in the
      text. */
  function ReplaceImports(c: string, imps: seq<Import>, modules: map<string, Module>): (r: string)
    ensures (forall k :: 0 <= k < |imps| ==> imps[k].source !in modules) ==> r == c
    decreases |imps|
  {
    if |imps| == 0 then c
    else
      assert forall k :: 0 <= k < |imps| - 1 ==> imps[1..][k] == imps[k + 1];
      ReplaceImports(ReplaceImport(c, imps[0], modules), imps[1..], modules)
  }

  /** One import: replaced at its first occurrence when its source is a
      file of the project, and otherwise left alone. */
  function ReplaceImport(c: string, imp: Import, modules: map<string, Module>): (r: string)
    ensures imp.source !in modules ==> r == c
  {
    if imp.source in modules then ReplaceFirst(c, imp.text, Replacement(imp.items, modules[imp.source].exports)) else c
  }

  /** The imports whose source is a file of the project, in order. */
  function ProjectImports(imps: seq<Import>, modules: map<string, Module>): (r: seq<Import>)
    ensures forall k :: 0 <= k < |r| ==> r[k] in imps && r[k].source in modules
    ensures forall x :: x in imps && x.source in modules ==> x in r
  {
    if |imps| == 0 then []
    else (if imps[0].source in modules then [imps[0]] else []) + ProjectImports(imps[1..], modules)
  }

  /** Imports of unknown modules are skipped: replacing with all imports
      is replacing with the project's imports alone. */
  lemma {:induction false} UnknownImportsSkipped(c: string, imps: seq<Import>, modules: map<string, Module>)
    ensures ReplaceImports(c, imps, modules) == ReplaceImports(c, ProjectImports(imps, modules), modules)
    decreases |imps|
  {
    if |imps| > 0 {
      var imp := imps[0];
      var c' := ReplaceImport(c, imp, modules);
      var rest := ProjectImports(imps[1..], modules);
      UnknownImportsSkipped(c', imps[1..], modules);
      assert ReplaceImports(c, imps, modules) == ReplaceImports(c', imps[1..], modules);
      if imp.source in modules {
        var p := [imp] + rest;
        assert ProjectImports(imps, modules) == p;
        assert p[0] == imp && p[1..] == rest;
        assert ReplaceImports(c, p, modules) == ReplaceImports(c', rest, modules);
      } else {
        assert ProjectImports(imps, modules) == rest;
      }
    }
  }

  /** The section a file contributes to the bundle. */
  function JsSection(name: string, c: string, modules: map<string, Module>): string {
    "\n// \U{2550}\U{2550}\U{2550} " + name + " \U{2550}\U{2550}\U{2550}\n" +
    ReplaceMatches(ExportKeyword, ReplaceImports(c, Imports(c), modules), "") + "\n"
  }

  /** The import edges of every module. */
  function DepsOf(modules: map<string, Module>): (deps: map<string, seq<string>>)
    ensures deps.Keys == modules.Keys
  {
    map f | f in modules :: ImportSources(Imports(modules[f].content))
  }

  /** The section of every module. */
  function SectionsOf(modules: map<string, Module>): (sections: map<string, string>)
    ensures sections.Keys == modules.Keys
  {
    map f | f in modules :: JsSection(f, modules[f].content, modules)
  }

  function JsDeps(files: FileMap): (deps: map<string, seq<string>>)
    ensures deps.Keys == files.vals.Keys
  {
    DepsOf(Modules(files))
  }

  function JsSections(files: FileMap): (sections: map<string, string>)
    ensures sections.Keys == files.vals.Keys
  {
    SectionsOf(Modules(files))
  }

  /** `bundleJavaScript(files, entryPoint)`. The walk starts at the entry;
      every file is emitted at most once, only files reachable from the
      entry are emitted and all of them are, a file's dependencies come
      before it unless they import it back, and the entry file is last. */
  method BundleJavaScript(files: FileMap, entry: Option<string>) returns (bundled: string, ghost order: seq<string>)
    requires files.Valid()
    ensures Distinct(order) && forall x :: x in order ==> x in files.vals
    ensures bundled == Emit(JsSections(files), order)
    ensures entry.None? ==> order == [] && bundled == ""
    ensures entry.Some? ==> forall x :: x in order ==> Reaches(JsDeps(files), entry.value, x)
    ensures entry.Some? && entry.value in files.vals ==>
      |order| > 0 && order[|order| - 1] == entry.value &&
      forall x :: x in files.vals && Reaches(JsDeps(files), entry.value, x) ==> x in order
    ensures forall i :: 0 <= i < |order| ==> Settled(JsDeps(files), JsSections(files), order, i)
  {
    var modules := BuildModules(files);
    var deps := DepsOf(modules);
    var sections := SectionsOf(modules);
    if entry.Some? {
      bundled, order := WalkFrom(deps, sections, entry.value);
    } else {
      bundled, order := "", [];
    }
  }
}
