/** The file tree of the side panel
    (`client/src/components/FileExplorer/FileExplorer.jsx`): file names
    holding a `/` are shown inside a folder named by their first segment,
    the others at the root; a new folder is a placeholder file inside it;
    and the name inputs decide what reaches the file provider. */
module Explorer {
  import opened Wrappers
  import opened Strings
  import opened Seqs
  import opened Dict
  import opened Files
  import opened Constants
  import opened ClientFiles

  // ------------------------------------------------------------- icons

  /** `colorMap` of `FileIcon`. */
  const ColorMap: map<string, string> := map[
    "js" := "#f7df1e", "jsx" := "#61dafb", "ts" := "#3178c6", "tsx" := "#61dafb",
    "py" := "#3572A5", "java" := "#b07219", "cpp" := "#f34b7d", "c" := "#555555",
    "cs" := "#178600", "go" := "#00ADD8", "rs" := "#dea584", "rb" := "#CC342D",
    "php" := "#4F5D95", "html" := "#e34c26", "css" := "#563d7c", "json" := "#cbcb41",
    "md" := "#083fa1"]

  const DefaultColor: string := "#9ca3af"

  /** `colorMap[ext] || "#9ca3af"` */
  function IconColor(name: string): (c: string)
    ensures Extension(name) in ColorMap ==> c == ColorMap[Extension(name)]
    ensures Extension(name) !in ColorMap ==> c == DefaultColor
  {
    var ext := Extension(name);
    if ext in ColorMap && ColorMap[ext] != "" then ColorMap[ext] else DefaultColor
  }

  /** The icon table and the language table know the same extensions, and
      no known extension has the default colour: a file has the default
      icon colour exactly when it is edited as plain text. */
  lemma DefaultColorIffPlainText(name: string)
    ensures IconColor(name) == DefaultColor <==> LanguageFromName(name) == "plaintext"
  {
    assert ColorMap.Keys == ExtToLanguage.Keys;
    assert DefaultColor !in ColorMap.Values;
  }

  // ------------------------------------------------------------- inputs

  /** `NewFileInput.handleSubmit`: the trimmed value is submitted unless it
      is blank, in which case the input is cancelled (`None`). */
  function NewFileSubmit(value: string): (r: Option<string>)
    ensures r.None? <==> AllSpace(value)
    ensures r.Some? ==> r.value == Trim(value) && r.value != ""
  {
    TrimEmptyIffBlank(value);
    if Trim(value) != "" then Some(Trim(value)) else None
  }

  /** `handleCreateFolder(name)`: the placeholder file of a new folder. */
  function FolderPlaceholder(name: string): (path: string)
    ensures path == name + "/" + ".gitkeep"
  {
    name + "/.gitkeep"
  }

  /** `handleRenameSubmit`: the `renameFile(old, new)` call it makes, if
      any; the editor closes either way. The value is compared untrimmed
      but passed trimmed. */
  function RenameSubmit(fileName: string, value: string): (r: Option<(string, string)>)
    ensures r.Some? <==> !AllSpace(value) && value != fileName
    ensures r.Some? ==> r.value == (fileName, Trim(value)) && r.value.1 != ""
  {
    TrimEmptyIffBlank(value);
    if Trim(value) != "" && value != fileName then Some((fileName, Trim(value))) else None
  }

  /** A rename that only adds spaces around the name is let through by the
      input and then ignored by the provider, which compares trimmed
      names. */
  lemma PaddedRenameIsIgnored(w: Workspace, fileName: string)
    requires fileName != "" && Trim(fileName) == fileName
    ensures RenameSubmit(fileName, " " + fileName) == Some((fileName, fileName))
    ensures Rename(w, fileName, fileName).next == w && Rename(w, fileName, fileName).sent.None?
  {
    var v := " " + fileName;
    assert TrimStart(v) == TrimStart(fileName) by {
      assert v[1..] == fileName;
    }
    TrimEmptyIffBlank(v);
    assert v != fileName by {
      assert |v| == |fileName| + 1;
    }
  }

  // ---------------------------------------------------------- the tree

  /** `{ path, name }`: a file's full name and the name shown for it. */
  datatype Entry = Entry(path: string, name: string)

  const RootKey: string := "__root__"

  /** The group a file name is listed under. */
  function GroupOf(path: string): string {
    if '/' in path then Split(path, '/')[0] else RootKey
  }

  /** The entry listed for a file name: inside a folder, the name without
      its first segment. */
  function EntryOf(path: string): Entry {
    if '/' in path then Entry(path, Join(Split(path, '/')[1..], '/')) else Entry(path, path)
  }

  predicate InGroup(g: string, path: string) {
    GroupOf(path) == g
  }

  function Entries(paths: seq<string>): (es: seq<Entry>)
    ensures |es| == |paths| && forall i :: 0 <= i < |paths| ==> es[i] == EntryOf(paths[i])
  {
    seq(|paths|, i requires 0 <= i < |paths| => EntryOf(paths[i]))
  }

  /** One step of the `forEach`: the entry of `path` pushed onto its
      group, the group created if missing. */
  function AddPath(structure: Dict<seq<Entry>>, path: string): Dict<seq<Entry>> {
    var g := GroupOf(path);
    structure.Put(g, (if structure.Has(g) then structure.vals[g] else []) + [EntryOf(path)])
  }

  /** `organizeFiles()` over the names `paths`, in order. */
  function Organize(paths: seq<string>): Dict<seq<Entry>> {
    if paths == [] then Empty()
    else AddPath(Organize(paths[..|paths| - 1]), paths[|paths| - 1])
  }

  /** The names of `paths` that belong to group `g`, in order. */
  function Members(paths: seq<string>, g: string): (ms: seq<string>)
    ensures forall p :: p in ms <==> p in paths && GroupOf(p) == g
  {
    Filter(paths, p => InGroup(g, p))
  }

  lemma MembersPush(paths: seq<string>, x: string, g: string)
    ensures Members(paths + [x], g) == if GroupOf(x) == g then Members(paths, g) + [x] else Members(paths, g)
  {
    FilterPush(paths, x, p => InGroup(g, p));
  }

  /** `structure` is the tree of `paths`: a group exists exactly when some
      name belongs to it, and holds the entries of those names in their
      original order. */
  ghost predicate Lists(structure: Dict<seq<Entry>>, paths: seq<string>) {
    structure.Valid() &&
    (forall g :: g in structure.vals <==> Members(paths, g) != []) &&
    (forall g :: g in structure.vals ==> structure.vals[g] == Entries(Members(paths, g)))
  }

  lemma AddPathLists(structure: Dict<seq<Entry>>, paths: seq<string>, x: string)
    requires Lists(structure, paths)
    ensures Lists(AddPath(structure, x), paths + [x])
  {
    var next := AddPath(structure, x);
    forall g ensures (g in next.vals <==> Members(paths + [x], g) != []) &&
      (g in next.vals ==> next.vals[g] == Entries(Members(paths + [x], g)))
    {
      MembersPush(paths, x, g);
      if GroupOf(x) == g {
        assert Entries(Members(paths, g) + [x]) == Entries(Members(paths, g)) + [EntryOf(x)];
      }
    }
  }

  /** The tree lists each name exactly once, in the group it belongs to. */
  lemma {:induction false} OrganizeGroups(paths: seq<string>)
    ensures Lists(Organize(paths), paths)
  {
    if paths == [] {
      assert forall g :: Members(paths, g) == [];
    } else {
      var init := paths[..|paths| - 1];
      assert paths == init + [paths[|paths| - 1]];
      OrganizeGroups(init);
      AddPathLists(Organize(init), init, paths[|paths| - 1]);
    }
  }

  /** A listed entry gives its file's name back: a root entry shows the
      whole name, and a folder entry's folder, a `/` and its shown name
      make up the name. */
  lemma EntryRoundTrip(path: string)
    ensures '/' !in path ==> GroupOf(path) == RootKey && EntryOf(path).name == path
    ensures '/' in path ==> GroupOf(path) + "/" + EntryOf(path).name == path
  {
    if '/' in path {
      var i := IndexOfChar(path, '/');
      TailOfSplit(path, '/');
      assert Split(path, '/')[0] == path[..i];
      assert path == path[..i] + "/" + path[i + 1..];
    }
  }

  /** A new folder shows up as a folder of that name holding `.gitkeep`. */
  lemma FolderPlaceholderListed(name: string)
    requires '/' !in name
    ensures GroupOf(FolderPlaceholder(name)) == name
    ensures EntryOf(FolderPlaceholder(name)).name == ".gitkeep"
  {
    var path := FolderPlaceholder(name);
    assert path == name + ['/'] + ".gitkeep";
    FirstSeparator(name, '/', ".gitkeep");
    TailOfSplit(path, '/');
    assert Split(path, '/')[0] == name;
    assert path[|name| + 1..] == ".gitkeep";
  }

  /** Creating a missing group and then pushing onto it is pushing onto
      the group or onto an empty one. */
  lemma CreateThenPush(structure: Dict<seq<Entry>>, g: string, e: Entry)
    ensures var created := if structure.Has(g) then structure else structure.Put(g, []);
      created.Put(g, created.vals[g] + [e]) ==
      structure.Put(g, (if structure.Has(g) then structure.vals[g] else []) + [e])
  {
  }

  lemma OrganizeStep(paths: seq<string>, i: nat)
    requires i < |paths|
    ensures Organize(paths[..i + 1]) == AddPath(Organize(paths[..i]), paths[i])
  {
    assert paths[..i + 1][..i] == paths[..i];
  }

  /** The `forEach` of `organizeFiles`, filling `structure` in place. */
  method OrganizeFiles(files: FileMap) returns (structure: Dict<seq<Entry>>)
    ensures structure == Organize(files.keys)
  {
    structure := Empty();
    for i := 0 to |files.keys|
      invariant structure == Organize(files.keys[..i])
    {
      var filePath := files.keys[i];
      OrganizeStep(files.keys, i);
      CreateThenPush(structure, GroupOf(filePath), EntryOf(filePath));
      if '/' in filePath {
        var parts := Split(filePath, '/');
        var folderName := parts[0];
        if !structure.Has(folderName) {
          structure := structure.Put(folderName, []);
        }
        structure := structure.Put(folderName, structure.vals[folderName] + [Entry(filePath, Join(parts[1..], '/'))]);
      } else {
        if !structure.Has(RootKey) {
          structure := structure.Put(RootKey, []);
        }
        structure := structure.Put(RootKey, structure.vals[RootKey] + [Entry(filePath, filePath)]);
      }
    }
    assert files.keys[..|files.keys|] == files.keys;
  }
}
