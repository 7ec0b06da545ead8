/** The browser's copy of a room's files (`FileContext.jsx`): the file
    object, the active file and the open editor tabs. The user's own
    actions change it and send one message to the server; the messages the
    server relays from the other members change it without sending
    anything. Unlike the server, the client checks names: it refuses blank
    and taken names and will not delete the last file. */
module ClientFiles {
  import opened Wrappers
  import opened Strings
  import opened Seqs
  import opened Dict
  import opened Files
  import opened Constants
  import RoomServer

  // ------------------------------------------------------------ language

  /** `name.split(".").pop().toLowerCase()`: the text after the last dot,
      lower-cased; a name without a dot is taken whole. */
  function Extension(fileName: string): string {
    var parts := Split(fileName, '.');
    Lower(parts[|parts| - 1])
  }

  /** `getLanguageFromName`: the extension looked up in the extension
      table, "plaintext" when it is not there. */
  function LanguageFromName(fileName: string): (r: string)
    ensures r != ""
    ensures r == "plaintext" || r in ExtToLanguage.Values
    ensures r == "plaintext" <==> Extension(fileName) !in ExtToLanguage
  {
    match LanguageOfExt(Extension(fileName))
    case Some(language) => language
    case None => "plaintext"
  }

  /** A name with an extension gets the language of its lower-cased
      extension, whatever comes before the last dot. */
  lemma LanguageByExtension(stem: string, ext: string)
    requires '.' !in ext
    ensures LanguageFromName(stem + "." + ext) ==
      if Lower(ext) in ExtToLanguage then ExtToLanguage[Lower(ext)] else "plaintext"
  {
    assert Extension(stem + "." + ext) == Lower(ext) by {
      ExtensionAfterLastDot(stem, ext);
    }
  }

  lemma ExtensionAfterLastDot(stem: string, ext: string)
    requires '.' !in ext
    ensures Extension(stem + "." + ext) == Lower(ext)
  {
    assert stem + "." + ext == stem + ['.'] + ext;
    SplitLast(stem, '.', ext);
  }

  /** A name without a dot is taken whole as its extension, so a file
      called `JS` is JavaScript. */
  lemma LanguageWithoutDot(fileName: string)
    requires '.' !in fileName
    ensures LanguageFromName(fileName) ==
      if Lower(fileName) in ExtToLanguage then ExtToLanguage[Lower(fileName)] else "plaintext"
  {
    assert Split(fileName, '.') == [fileName];
  }

  // ----------------------------------------------------------- workspace

  /** `makeDefaultFiles()`: one empty JavaScript file. */
  function DefaultFiles(): (files: FileMap)
    ensures files.Valid() && files.keys == ["main.js"]
    ensures files.vals["main.js"] == SourceFile("main.js", "", "javascript")
  {
    Dict(["main.js"], map["main.js" := SourceFile("main.js", "", "javascript")])
  }

  /** The three state fields of the file provider; `None` stands for both
      `null` and `undefined`. */
  datatype Workspace = Workspace(files: FileMap, activeFile: Option<string>, openTabs: seq<string>) {
    /** Every tab and the active file name an existing file, and no file
        has two tabs. */
    ghost predicate Valid() {
      files.Valid() && Distinct(openTabs) &&
      (forall t :: t in openTabs ==> t in files.vals) &&
      (activeFile.Some? ==> activeFile.value in files.vals)
    }
  }

  /** The provider's initial state. */
  function Initial(): (w: Workspace)
    ensures w.Valid()
    ensures w.files == DefaultFiles() && w.activeFile == Some("main.js") && w.openTabs == ["main.js"]
  {
    Workspace(DefaultFiles(), Some("main.js"), ["main.js"])
  }

  /** The state after a user action and the message it sends, if any. */
  datatype Effect = Effect(next: Workspace, sent: Option<RoomServer.Event>)

  /** `value || null` for a name. */
  function OrNull(name: string): (r: Option<string>)
    ensures r.Some? <==> name != ""
    ensures r.Some? ==> r.value == name
  {
    if name == "" then None else Some(name)
  }

  /** `remaining[0]`, `undefined` for an empty list. */
  function First(names: seq<string>): (r: Option<string>)
    ensures r.Some? <==> |names| > 0
    ensures r.Some? ==> r.value == names[0]
  {
    if |names| > 0 then Some(names[0]) else None
  }

  // --------------------------------------------------------- own actions

  /** `createFile(fileName)`: a blank name or a trimmed name that is taken
      changes nothing and sends nothing; otherwise an empty file with the
      language of its name is added, opened and made active. */
  function Create(w: Workspace, fileName: string): (r: Effect)
    ensures var name := Trim(fileName);
      name == "" || w.files.Has(name) ==> r == Effect(w, None)
    ensures var name := Trim(fileName);
      name != "" && !w.files.Has(name) ==>
        var file := SourceFile(name, "", LanguageFromName(name));
        r.sent == Some(RoomServer.FileCreate(file)) &&
        r.next.files.keys == w.files.keys + [name] && r.next.files.vals == w.files.vals[name := file] &&
        r.next.activeFile == Some(name) && name in r.next.openTabs &&
        (forall t :: t != name ==> (t in r.next.openTabs <==> t in w.openTabs))
  {
    var name := Trim(fileName);
    if name == "" || w.files.Has(name) then Effect(w, None)
    else
      var file := SourceFile(name, "", LanguageFromName(name));
      Effect(Workspace(w.files.Put(name, file), Some(name), AppendIfAbsent(w.openTabs, name)),
             Some(RoomServer.FileCreate(file)))
  }

  /** A created file has exactly one tab. */
  lemma CreateOpensOnce(w: Workspace, fileName: string)
    requires w.Valid() && Create(w, fileName).sent.Some?
    ensures multiset(Create(w, fileName).next.openTabs)[Trim(fileName)] == 1
  {
    var r := Create(w, fileName);
    DistinctOnce(r.next.openTabs, Trim(fileName));
  }

  /** `deleteFile(fileName)`: refused when exactly one file is left;
      otherwise the file and its tab go, and an active file that was
      deleted is replaced by the first remaining name. */
  function Delete(w: Workspace, fileName: string): (r: Effect)
    ensures |w.files.keys| == 1 ==> r == Effect(w, None)
    ensures |w.files.keys| != 1 ==>
      r.sent == Some(RoomServer.FileDelete(fileName)) &&
      r.next.files.keys == RemoveAll(w.files.keys, fileName) && r.next.files.vals == w.files.vals - {fileName} &&
      r.next.openTabs == RemoveAll(w.openTabs, fileName) &&
      r.next.activeFile == if w.activeFile == Some(fileName) then First(r.next.files.keys) else w.activeFile
  {
    if |w.files.keys| == 1 then Effect(w, None)
    else
      var remaining := RemoveAll(w.files.keys, fileName);
      Effect(Workspace(w.files.Remove(fileName),
                       if w.activeFile == Some(fileName) then First(remaining) else w.activeFile,
                       RemoveAll(w.openTabs, fileName)),
             Some(RoomServer.FileDelete(fileName)))
  }

  /** Deleting never leaves a workspace that had files without any, keeps
      the other names in their order, and removes at most one file. */
  lemma DeleteKeepsAFile(w: Workspace, fileName: string)
    requires w.Valid()
    ensures var r := Delete(w, fileName).next;
      SubsequenceOf(r.files.keys, w.files.keys) &&
      |r.files.keys| >= |w.files.keys| - 1 &&
      (|w.files.keys| > 0 ==> |r.files.keys| > 0)
  {
    RemoveAllSubsequence(w.files.keys, fileName);
    RemoveAllDistinct(w.files.keys, fileName);
    if |w.files.keys| == 1 {
      SubsequenceReflexive(w.files.keys);
    }
  }

  /** `renameFile(oldName, newName)`: a blank or unchanged name, or a
      trimmed name that is taken, changes nothing; otherwise the file moves
      to the trimmed name with its content and the language of the new
      name, and its tabs and the active file follow it. */
  function Rename(w: Workspace, oldName: string, newName: string): (r: Effect)
    ensures var target := Trim(newName);
      target == "" || oldName == newName || w.files.Has(target) ==> r == Effect(w, None)
    ensures var target := Trim(newName);
      !(target == "" || oldName == newName || w.files.Has(target)) ==>
        r.sent == Some(RoomServer.FileRename(oldName, target)) &&
        !r.next.files.Has(oldName) &&
        (w.files.Has(oldName) ==>
          r.next.files.Has(target) &&
          r.next.files.vals[target] == SourceFile(target, w.files.vals[oldName].content, LanguageFromName(target))) &&
        (forall k :: k != oldName && k != target ==>
          (r.next.files.Has(k) <==> w.files.Has(k)) && (r.next.files.Has(k) ==> r.next.files.vals[k] == w.files.vals[k])) &&
        r.next.openTabs == ReplaceAll(w.openTabs, oldName, target) &&
        r.next.activeFile == if w.activeFile == Some(oldName) then Some(target) else w.activeFile
  {
    var target := Trim(newName);
    if target == "" || oldName == newName || w.files.Has(target) then Effect(w, None)
    else
      var base := if w.files.Has(oldName) then w.files.vals[oldName] else SourceFile("", "", "");
      var file := base.(name := target, language := LanguageFromName(target));
      Effect(Workspace(w.files.Put(target, file).Remove(oldName),
                       if w.activeFile == Some(oldName) then Some(target) else w.activeFile,
                       ReplaceAll(w.openTabs, oldName, target)),
             Some(RoomServer.FileRename(oldName, target)))
  }

  /** The client only asks for renames onto a free name, so never for the
      rename of an existing file to its own name, which the server would
      turn into a deletion. */
  lemma RenameNeverToSelf(w: Workspace, oldName: string, newName: string)
    ensures var r := Rename(w, oldName, newName);
      r.sent.Some? ==>
        r.sent.value.FileRename? && !w.files.Has(r.sent.value.newName)
  {
  }

  /** `selectFile(fileName)`: an unknown name changes nothing; otherwise
      the file becomes active and gets a tab unless it has one. */
  function Select(w: Workspace, fileName: string): (r: Effect)
    ensures !w.files.Has(fileName) ==> r == Effect(w, None)
    ensures w.files.Has(fileName) ==>
      r.sent == Some(RoomServer.FileSelect(fileName)) &&
      r.next.files == w.files && r.next.activeFile == Some(fileName) &&
      (fileName in w.openTabs ==> r.next.openTabs == w.openTabs) &&
      (fileName !in w.openTabs ==> r.next.openTabs == w.openTabs + [fileName])
  {
    if !w.files.Has(fileName) then Effect(w, None)
    else
      Effect(Workspace(w.files, Some(fileName), AppendIfAbsent(w.openTabs, fileName)),
             Some(RoomServer.FileSelect(fileName)))
  }

  /** `closeTab(fileName)`, which sends nothing: the tab goes; if it was the
      active file, the tab now at its position becomes active, or the last
      one when it was the last, or none. */
  function Close(w: Workspace, fileName: string): (r: Workspace)
    ensures r.files == w.files && r.openTabs == RemoveAll(w.openTabs, fileName)
    ensures w.activeFile != Some(fileName) ==> r.activeFile == w.activeFile
    ensures w.activeFile == Some(fileName) ==> r.activeFile.None? || r.activeFile.value in r.openTabs
  {
    var next := RemoveAll(w.openTabs, fileName);
    var active :=
      if w.activeFile != Some(fileName) then w.activeFile
      else
        var idx := IndexOf(w.openTabs, fileName);
        var k := if idx < |next| - 1 then idx else |next| - 1;
        if 0 <= k then OrNull(next[k]) else None;
    Workspace(w.files, active, next)
  }

  /** Closing the active tab activates its right neighbour, or its left
      neighbour when it was the last tab, or nothing when it was the only
      one (an empty name also counts as nothing). */
  lemma CloseNeighbour(w: Workspace, i: nat)
    requires Distinct(w.openTabs) && i < |w.openTabs| && w.activeFile == Some(w.openTabs[i])
    ensures var tabs := w.openTabs;
      Close(w, tabs[i]).activeFile ==
        if i + 1 < |tabs| then OrNull(tabs[i + 1])
        else if i > 0 then OrNull(tabs[i - 1])
        else None
  {
    var tabs := w.openTabs;
    RemoveAllAt(tabs, i);
    assert IndexOf(tabs, tabs[i]) == i by {
      var j := IndexOf(tabs, tabs[i]);
      assert tabs[i] !in tabs[..j];
    }
    var next := tabs[..i] + tabs[i + 1..];
    if i + 1 < |tabs| {
      assert next[i] == tabs[i + 1];
    } else if i > 0 {
      assert next[i - 1] == tabs[i - 1];
    }
  }

  /** Closing the active file when it has no tab leaves no active file. */
  lemma CloseUnopened(w: Workspace, fileName: string)
    requires w.activeFile == Some(fileName) && fileName !in w.openTabs
    ensures Close(w, fileName).activeFile.None?
  {
  }

  /** `updateFileContent(fileName, content)`: the file gets the new
      content and nothing else changes; a name with no file gets a file
      holding only that content. */
  function UpdateContent(w: Workspace, fileName: string, content: string): (r: Effect)
    ensures r.sent == Some(RoomServer.FileContentChange(fileName, content))
    ensures r.next.activeFile == w.activeFile && r.next.openTabs == w.openTabs
    ensures r.next.files.Has(fileName) && r.next.files.vals[fileName].content == content
    ensures w.files.Has(fileName) ==>
      r.next.files.keys == w.files.keys &&
      r.next.files.vals == w.files.vals[fileName := w.files.vals[fileName].(content := content)]
    ensures forall k :: k != fileName ==>
      (r.next.files.Has(k) <==> w.files.Has(k)) && (r.next.files.Has(k) ==> r.next.files.vals[k] == w.files.vals[k])
  {
    var base := if w.files.Has(fileName) then w.files.vals[fileName] else SourceFile("", "", "");
    Effect(w.(files := w.files.Put(fileName, base.(content := content))),
           Some(RoomServer.FileContentChange(fileName, content)))
  }

  // ----------------------------------------------------- relayed events

  /** `FILES_STATE`: a non-empty file object from the server replaces the
      files and opens every one of them; the server's active file is taken
      when it is a non-empty name. */
  function OnFilesState(w: Workspace, serverFiles: Option<FileMap>, serverActive: Option<string>): (r: Workspace)
    ensures serverFiles.None? || |serverFiles.value.keys| == 0 ==> r == w
    ensures serverFiles.Some? && |serverFiles.value.keys| > 0 ==>
      r.files == serverFiles.value && r.openTabs == serverFiles.value.keys &&
      r.activeFile == if Truthy(serverActive) then serverActive else w.activeFile
  {
    if serverFiles.Some? && |serverFiles.value.keys| > 0 then
      Workspace(serverFiles.value, if Truthy(serverActive) then serverActive else w.activeFile, serverFiles.value.keys)
    else w
  }

  /** `FILE_CREATED`: a name that is already there keeps its file; a new
      one is added. Either way the file has a tab. */
  function OnFileCreated(w: Workspace, file: SourceFile): (r: Workspace)
    ensures w.files.Has(file.name) ==> r.files == w.files
    ensures !w.files.Has(file.name) ==>
      r.files.keys == w.files.keys + [file.name] && r.files.vals == w.files.vals[file.name := file]
    ensures r.activeFile == w.activeFile
    ensures file.name in r.openTabs && forall t :: t != file.name ==> (t in r.openTabs <==> t in w.openTabs)
  {
    var files := if w.files.Has(file.name) then w.files else w.files.Put(file.name, file);
    Workspace(files, w.activeFile, AppendIfAbsent(w.openTabs, file.name))
  }

  /** `FILE_DELETED`: the file and its tab go without any check; an active
      file that was deleted is replaced by the first remaining name, or by
      none when that is missing or empty. */
  function OnFileDeleted(w: Workspace, fileName: string): (r: Workspace)
    ensures r.files.keys == RemoveAll(w.files.keys, fileName) && r.files.vals == w.files.vals - {fileName}
    ensures r.openTabs == RemoveAll(w.openTabs, fileName)
    ensures r.activeFile == if w.activeFile == Some(fileName) then RoomServer.FirstKey(r.files) else w.activeFile
  {
    var files := w.files.Remove(fileName);
    Workspace(files, if w.activeFile == Some(fileName) then RoomServer.FirstKey(files) else w.activeFile,
              RemoveAll(w.openTabs, fileName))
  }

  /** `FILE_RENAMED`: the file moves to the new name keeping its language,
      and its tabs and the active file follow; there is no check that the
      new name is free. */
  function OnFileRenamed(w: Workspace, oldName: string, newName: string): (r: Workspace)
    ensures !r.files.Has(oldName)
    ensures oldName != newName ==>
      r.files.Has(newName) &&
      r.files.vals[newName] == (if w.files.Has(oldName) then w.files.vals[oldName] else SourceFile("", "", "")).(name := newName)
    ensures forall k :: k != oldName && k != newName ==>
      (r.files.Has(k) <==> w.files.Has(k)) && (r.files.Has(k) ==> r.files.vals[k] == w.files.vals[k])
    ensures r.openTabs == ReplaceAll(w.openTabs, oldName, newName)
    ensures r.activeFile == if w.activeFile == Some(oldName) then Some(newName) else w.activeFile
  {
    var base := if w.files.Has(oldName) then w.files.vals[oldName] else SourceFile("", "", "");
    Workspace(w.files.Put(newName, base.(name := newName)).Remove(oldName),
              if w.activeFile == Some(oldName) then Some(newName) else w.activeFile,
              ReplaceAll(w.openTabs, oldName, newName))
  }

  /** A relayed rename onto a name that is open leaves two tabs for it. */
  lemma RenamedOntoOpenFile()
    ensures var f := SourceFile("a", "", "plaintext");
      var g := SourceFile("b", "", "plaintext");
      var w := Workspace(Dict(["a", "b"], map["a" := f, "b" := g]), Some("a"), ["a", "b"]);
      w.Valid() && OnFileRenamed(w, "a", "b").openTabs == ["b", "b"] &&
      !Distinct(OnFileRenamed(w, "a", "b").openTabs)
  {
    var f := SourceFile("a", "", "plaintext");
    var g := SourceFile("b", "", "plaintext");
    var w := Workspace(Dict(["a", "b"], map["a" := f, "b" := g]), Some("a"), ["a", "b"]);
    assert ReplaceAll(w.openTabs, "a", "b") == ["b", "b"];
  }

  /** `FILE_CONTENT_UPDATE`: the file gets the new content. */
  function OnFileContentUpdate(w: Workspace, fileName: string, content: string): (r: Workspace)
    ensures r == UpdateContent(w, fileName, content).next
  {
    var base := if w.files.Has(fileName) then w.files.vals[fileName] else SourceFile("", "", "");
    w.(files := w.files.Put(fileName, base.(content := content)))
  }

  /** `FILE_SELECTED`: another member's selection opens a tab for the name,
      whether or not there is such a file, and leaves the active file. */
  function OnFileSelected(w: Workspace, fileName: string): (r: Workspace)
    ensures r.files == w.files && r.activeFile == w.activeFile
    ensures fileName in r.openTabs && forall t :: t != fileName ==> (t in r.openTabs <==> t in w.openTabs)
  {
    w.(openTabs := AppendIfAbsent(w.openTabs, fileName))
  }

  // ----------------------------------------------------------- invariant

  /** Every own action keeps the workspace well formed: tabs and the
      active file name existing files, and no file is open twice. */
  lemma CreateKeepsValid(w: Workspace, fileName: string)
    requires w.Valid()
    ensures Create(w, fileName).next.Valid()
  {
  }

  lemma DeleteKeepsValid(w: Workspace, fileName: string)
    requires w.Valid()
    ensures Delete(w, fileName).next.Valid()
  {
    RemoveAllDistinct(w.openTabs, fileName);
  }

  lemma RenameKeepsValid(w: Workspace, oldName: string, newName: string)
    requires w.Valid()
    ensures Rename(w, oldName, newName).next.Valid()
  {
    var target := Trim(newName);
    if Rename(w, oldName, newName).sent.Some? {
      ReplaceAllDistinct(w.openTabs, oldName, target);
    }
  }

  lemma SelectKeepsValid(w: Workspace, fileName: string)
    requires w.Valid()
    ensures Select(w, fileName).next.Valid()
  {
  }

  lemma CloseKeepsValid(w: Workspace, fileName: string)
    requires w.Valid()
    ensures Close(w, fileName).Valid()
  {
    RemoveAllDistinct(w.openTabs, fileName);
  }

  lemma UpdateContentKeepsValid(w: Workspace, fileName: string, content: string)
    requires w.Valid()
    ensures UpdateContent(w, fileName, content).next.Valid()
  {
  }

  /** The relayed events keep it too, except that a file list from the
      server must hold the active file, a selection must name a file, and a
      rename must not land on a taken name. */
  lemma OnFilesStateKeepsValid(w: Workspace, serverFiles: Option<FileMap>, serverActive: Option<string>)
    requires w.Valid()
    requires serverFiles.Some? ==> serverFiles.value.Valid()
    requires serverFiles.Some? && Truthy(serverActive) ==> serverActive.value in serverFiles.value.vals
    requires serverFiles.Some? && !Truthy(serverActive) && w.activeFile.Some? ==> w.activeFile.value in serverFiles.value.vals
    ensures OnFilesState(w, serverFiles, serverActive).Valid()
  {
  }

  lemma OnFileCreatedKeepsValid(w: Workspace, file: SourceFile)
    requires w.Valid()
    ensures OnFileCreated(w, file).Valid()
  {
  }

  lemma OnFileDeletedKeepsValid(w: Workspace, fileName: string)
    requires w.Valid()
    ensures OnFileDeleted(w, fileName).Valid()
  {
    RemoveAllDistinct(w.openTabs, fileName);
  }

  lemma OnFileRenamedKeepsValid(w: Workspace, oldName: string, newName: string)
    requires w.Valid() && !w.files.Has(newName)
    ensures OnFileRenamed(w, oldName, newName).Valid()
  {
    ReplaceAllDistinct(w.openTabs, oldName, newName);
  }

  lemma OnFileSelectedKeepsValid(w: Workspace, fileName: string)
    requires w.Valid() && w.files.Has(fileName)
    ensures OnFileSelected(w, fileName).Valid()
  {
  }

  // ------------------------------------------------- agreement with server

  /** What the client sends keeps the server's file object equal to its
      own: after a create, a delete or an edit of an existing file, the
      server's handler of the message sent, applied to a room that held the
      client's files, gives the client's new files. */
  lemma CreateMirrored(w: Workspace, s: RoomServer.RoomState, fileName: string)
    requires s.files == w.files && Create(w, fileName).sent.Some?
    ensures RoomServer.Created(s, Create(w, fileName).sent.value.file).files == Create(w, fileName).next.files
  {
  }

  lemma DeleteMirrored(w: Workspace, s: RoomServer.RoomState, fileName: string)
    requires w.files.Valid() && s.files == w.files && Delete(w, fileName).sent.Some?
    ensures RoomServer.Deleted(s, fileName).files == Delete(w, fileName).next.files
  {
    if !w.files.Has(fileName) {
      assert w.files.vals - {fileName} == w.files.vals;
    }
  }

  lemma UpdateContentMirrored(w: Workspace, s: RoomServer.RoomState, fileName: string, content: string)
    requires s.files == w.files && w.files.Has(fileName)
    ensures RoomServer.ContentChanged(s, fileName, content).files == UpdateContent(w, fileName, content).next.files
  {
  }

  /** After a rename of an existing file both sides hold the same names and
      contents, but only the renaming client recomputes the language: the
      server keeps the old one. */
  lemma RenameMirrored(w: Workspace, s: RoomServer.RoomState, oldName: string, newName: string)
    requires w.files.Valid() && s.files == w.files && w.files.Has(oldName) && Rename(w, oldName, newName).sent.Some?
    ensures var mine := Rename(w, oldName, newName).next.files;
      var theirs := RoomServer.Renamed(s, oldName, Trim(newName)).files;
      var target := Trim(newName);
      mine.keys == theirs.keys &&
      (forall k :: k in mine.vals <==> k in theirs.vals) &&
      (forall k :: k in mine.vals && k != target ==> mine.vals[k] == theirs.vals[k]) &&
      mine.vals[target].content == theirs.vals[target].content &&
      theirs.vals[target].language == w.files.vals[oldName].language &&
      mine.vals[target].language == LanguageFromName(target)
  {
    var target := Trim(newName);
    var file := w.files.vals[oldName];
    assert Rename(w, oldName, newName).next.files ==
      w.files.Put(target, file.(name := target, language := LanguageFromName(target))).Remove(oldName);
    assert RoomServer.Renamed(s, oldName, target).files ==
      w.files.Put(target, file.(name := target)).Remove(oldName);
  }

  /** Renaming `a.js` to `a.py` shows the difference: Python for the
      renaming client, JavaScript on the server. */
  lemma RenameLanguageDiverges(s: RoomServer.RoomState)
    requires s.files == Dict(["a.js"], map["a.js" := SourceFile("a.js", "", "javascript")])
    ensures var w := Workspace(s.files, Some("a.js"), ["a.js"]);
      var r := Rename(w, "a.js", "a.py");
      r.sent == Some(RoomServer.FileRename("a.js", "a.py")) &&
      r.next.files.vals["a.py"].language == "python" &&
      RoomServer.Renamed(s, "a.js", "a.py").files.vals["a.py"].language == "javascript"
  {
    PythonTarget();
    PythonFile();
    var w := Workspace(s.files, Some("a.js"), ["a.js"]);
    assert !w.files.Has("a.py");
    assert s.files.vals["a.js"].language == "javascript";
  }

  lemma PythonTarget()
    ensures Trim("a.py") == "a.py" && "a.js" != "a.py"
  {
    assert "a.js"[2] != "a.py"[2];
  }

  lemma PythonFile()
    ensures LanguageFromName("a.py") == "python"
  {
    LanguageByExtension("a", "py");
    assert "a" + "." + "py" == "a.py";
    LowerOfLowerCase("py");
  }

  // ------------------------------------------------------------ provider

  /** `FileProvider`: the three state fields, each action a method that
      updates them in the source's order and returns what it sends. */
  class FileProvider {
    var files: FileMap
    var activeFile: Option<string>
    var openTabs: seq<string>

    function State(): Workspace
      reads this
    {
      Workspace(files, activeFile, openTabs)
    }

    constructor()
      ensures State() == Initial()
    {
      files := DefaultFiles();
      activeFile := Some("main.js");
      openTabs := ["main.js"];
    }

    method CreateFile(fileName: string) returns (sent: Option<RoomServer.Event>)
      modifies this
      ensures State() == Create(old(State()), fileName).next
      ensures sent == Create(old(State()), fileName).sent
    {
      sent := None;
      var name := Trim(fileName);
      if name == "" {
        return;
      }
      if files.Has(name) {
        return;
      }
      var file := SourceFile(name, "", LanguageFromName(name));
      sent := Some(RoomServer.FileCreate(file));
      files := files.Put(name, file);
      openTabs := AppendIfAbsent(openTabs, name);
      activeFile := Some(name);
    }

    method DeleteFile(fileName: string) returns (sent: Option<RoomServer.Event>)
      modifies this
      ensures State() == Delete(old(State()), fileName).next
      ensures sent == Delete(old(State()), fileName).sent
    {
      sent := None;
      if |files.keys| == 1 {
        return;
      }
      var remaining := RemoveAll(files.keys, fileName);
      files := files.Remove(fileName);
      openTabs := RemoveAll(openTabs, fileName);
      if activeFile == Some(fileName) {
        activeFile := First(remaining);
      }
      sent := Some(RoomServer.FileDelete(fileName));
    }

    method RenameFile(oldName: string, newName: string) returns (sent: Option<RoomServer.Event>)
      modifies this
      ensures State() == Rename(old(State()), oldName, newName).next
      ensures sent == Rename(old(State()), oldName, newName).sent
    {
      sent := None;
      var target := Trim(newName);
      if target == "" || oldName == newName {
        return;
      }
      if files.Has(target) {
        return;
      }
      var base := if files.Has(oldName) then files.vals[oldName] else SourceFile("", "", "");
      files := files.Put(target, base.(name := target, language := LanguageFromName(target)));
      files := files.Remove(oldName);
      openTabs := ReplaceAll(openTabs, oldName, target);
      if activeFile == Some(oldName) {
        activeFile := Some(target);
      }
      sent := Some(RoomServer.FileRename(oldName, target));
    }

    method SelectFile(fileName: string) returns (sent: Option<RoomServer.Event>)
      modifies this
      ensures State() == Select(old(State()), fileName).next
      ensures sent == Select(old(State()), fileName).sent
    {
      sent := None;
      if !files.Has(fileName) {
        return;
      }
      activeFile := Some(fileName);
      openTabs := AppendIfAbsent(openTabs, fileName);
      sent := Some(RoomServer.FileSelect(fileName));
    }

    method CloseTab(fileName: string)
      modifies this
      ensures State() == Close(old(State()), fileName)
    {
      var tabs := openTabs;
      openTabs := RemoveAll(tabs, fileName);
      if activeFile == Some(fileName) {
        var idx := IndexOf(tabs, fileName);
        var next := RemoveAll(tabs, fileName);
        var k := if idx < |next| - 1 then idx else |next| - 1;
        activeFile := if 0 <= k then OrNull(next[k]) else None;
      }
    }

    method UpdateFileContent(fileName: string, content: string) returns (sent: Option<RoomServer.Event>)
      modifies this
      ensures State() == UpdateContent(old(State()), fileName, content).next
      ensures sent == UpdateContent(old(State()), fileName, content).sent
    {
      var base := if files.Has(fileName) then files.vals[fileName] else SourceFile("", "", "");
      files := files.Put(fileName, base.(content := content));
      sent := Some(RoomServer.FileContentChange(fileName, content));
    }

    method HandleFilesState(serverFiles: Option<FileMap>, serverActive: Option<string>)
      modifies this
      ensures State() == OnFilesState(old(State()), serverFiles, serverActive)
    {
      if serverFiles.Some? && |serverFiles.value.keys| > 0 {
        files := serverFiles.value;
        openTabs := serverFiles.value.keys;
        if Truthy(serverActive) {
          activeFile := serverActive;
        }
      }
    }

    method HandleFileCreated(file: SourceFile)
      modifies this
      ensures State() == OnFileCreated(old(State()), file)
    {
      if !files.Has(file.name) {
        files := files.Put(file.name, file);
      }
      openTabs := AppendIfAbsent(openTabs, file.name);
    }

    method HandleFileDeleted(fileName: string)
      modifies this
      ensures State() == OnFileDeleted(old(State()), fileName)
    {
      files := files.Remove(fileName);
      openTabs := RemoveAll(openTabs, fileName);
      if activeFile == Some(fileName) {
        activeFile := RoomServer.FirstKey(files);
      }
    }

    method HandleFileRenamed(oldName: string, newName: string)
      modifies this
      ensures State() == OnFileRenamed(old(State()), oldName, newName)
    {
      var base := if files.Has(oldName) then files.vals[oldName] else SourceFile("", "", "");
      files := files.Put(newName, base.(name := newName));
      files := files.Remove(oldName);
      openTabs := ReplaceAll(openTabs, oldName, newName);
      if activeFile == Some(oldName) {
        activeFile := Some(newName);
      }
    }

    method HandleFileContentUpdate(fileName: string, content: string)
      modifies this
      ensures State() == OnFileContentUpdate(old(State()), fileName, content)
    {
      var base := if files.Has(fileName) then files.vals[fileName] else SourceFile("", "", "");
      files := files.Put(fileName, base.(content := content));
    }

    method HandleFileSelected(fileName: string)
      modifies this
      ensures State() == OnFileSelected(old(State()), fileName)
    {
      openTabs := AppendIfAbsent(openTabs, fileName);
    }
  }
}
