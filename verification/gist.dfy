/** The GitHub Gist routes of the server (`server/gistHandler.js`): saving
    a room's files as a secret gist, with a metadata file added, and
    importing the files of a gist named by its URL or its ID. The HTTP
    exchange with GitHub is not modelled: saving ends with the request that
    would be sent, and importing starts from the gist's files as GitHub
    returns them. */
module Gist {
  import opened Wrappers
  import opened Strings
  import opened Seqs
  import opened Dict

  /** A rejected request: the HTTP status and the `error` message. */
  datatype Failure = Failure(status: nat, error: string)

  // ------------------------------------------------------ gist IDs

  predicate AllHex(s: string) {
    forall k :: 0 <= k < |s| ==> IsHexDigit(s[k])
  }

  const Host: string := "gist.github.com/"

  /** `gist\.github\.com\/` matches at `i`, letters in any case. */
  predicate HostAt(url: string, i: nat) {
    i + |Host| <= |url| && Lower(url[i..i + |Host|]) == Host
  }

  /** The host only matches where a `g` and, fifteen characters later, a
      `/` stand. */
  lemma HostAtMarks(url: string, i: nat)
    requires HostAt(url, i)
    ensures LowerChar(url[i]) == 'g' && url[i + 15] == '/'
  {
    assert Lower(url[i..i + |Host|])[0] == 'g';
    assert Lower(url[i..i + |Host|])[15] == '/';
  }

  /** The length of the run of hexadecimal digits starting at `j`: the
      greedy `[a-f0-9]+` under the `i` flag. */
  function HexRun(s: string, j: nat): (n: nat)
    requires j <= |s|
    ensures j + n <= |s| && AllHex(s[j..j + n])
    ensures j + n == |s| || !IsHexDigit(s[j + n])
    decreases |s| - j
  {
    if j < |s| && IsHexDigit(s[j]) then
      var n := HexRun(s, j + 1);
      assert s[j..j + 1 + n] == [s[j]] + s[j + 1..j + 1 + n];
      1 + n
    else 0
  }

  /** The first `/` at or after `j`, or the end: `[^/]+` stops there. */
  function SegmentEnd(s: string, j: nat): (e: nat)
    requires j <= |s|
    ensures j <= e <= |s| && (forall k :: j <= k < e ==> s[k] != '/')
    ensures e == |s| || s[e] == '/'
    decreases |s| - j
  {
    if j == |s| || s[j] == '/' then j else SegmentEnd(s, j + 1)
  }

  /** The two URL patterns: `gist.github.com/user/id` and
      `gist.github.com/id`. */
  datatype Form = UserForm | BareForm

  /** The ID the pattern captures when its match starts at `i`. */
  function MatchAt(form: Form, url: string, i: nat): (r: Option<string>)
    ensures r.Some? ==> r.value != "" && AllHex(r.value) && exists a: nat :: a <= |url| && OccursAt(url, r.value, a)
  {
    if !HostAt(url, i) then None
    else
      var j := i + |Host|;
      match form
      case UserForm =>
        var e := SegmentEnd(url, j);
        if e == j || e == |url| then None
        else
          var n := HexRun(url, e + 1);
          if n == 0 then None else (assert OccursAt(url, url[e + 1..e + 1 + n], e + 1); Some(url[e + 1..e + 1 + n]))
      case BareForm =>
        var n := HexRun(url, j);
        if n == 0 then None else (assert OccursAt(url, url[j..j + n], j); Some(url[j..j + n]))
  }

  /** The result at the leftmost position from `i` to `last` at which
      `at` finds something: how `String.prototype.match` tries a pattern. */
  function Leftmost(at: nat -> Option<string>, i: nat, last: nat): (r: Option<string>)
    ensures r.None? <==> forall j :: i <= j <= last ==> at(j).None?
    ensures r.Some? ==> exists j :: i <= j <= last && at(j) == r
    decreases last + 1 - i
  {
    if i > last then None
    else if at(i).Some? then at(i)
    else Leftmost(at, i + 1, last)
  }

  /** The leftmost result is the one at `j` when nothing is found before it. */
  lemma {:induction false} LeftmostIs(at: nat -> Option<string>, i: nat, last: nat, j: nat)
    requires i <= j <= last && at(j).Some?
    requires forall k :: i <= k < j ==> at(k).None?
    ensures Leftmost(at, i, last) == at(j)
    decreases j - i
  {
    if i < j {
      LeftmostIs(at, i + 1, last, j);
    }
  }

  /** `url.match(pattern)?.[1]` */
  function FirstMatch(form: Form, url: string): Option<string> {
    Leftmost((k: nat) => MatchAt(form, url, k), 0, |url|)
  }

  /** `/^([a-f0-9]+)$/i` */
  function WholeHex(url: string): (r: Option<string>)
    ensures r.Some? <==> url != "" && AllHex(url)
    ensures r.Some? ==> r.value == url
  {
    if url != "" && AllHex(url) then Some(url) else None
  }

  /** `match1?.[1] || match2?.[1] || match3?.[1]`: the user form first,
      then the bare form, then a bare ID; the result is always a run of
      hexadecimal digits taken from the URL. */
  function ExtractGistId(url: string): (r: Option<string>)
    ensures r.Some? ==> r.value != "" && AllHex(r.value) && Contains(url, r.value)
  {
    var m1 := FirstMatch(UserForm, url);
    var m2 := FirstMatch(BareForm, url);
    var m3 := WholeHex(url);
    if m1.Some? then m1
    else if m2.Some? then m2
    else (if m3.Some? then assert OccursAt(url, url, 0); m3 else None)
  }

  const Prefix: string := "https://gist.github.com/"

  /** Before the host, `https://` holds no `g`. */
  lemma NoHostInScheme(url: string, form: Form)
    requires StartsWith(url, Prefix)
    ensures forall k :: 0 <= k < 8 ==> MatchAt(form, url, k).None?
  {
    forall k | 0 <= k < 8 ensures MatchAt(form, url, k).None? {
      assert url[k] == Prefix[k];
      if HostAt(url, k) {
        HostAtMarks(url, k);
      }
    }
  }

  /** The host sits right after the scheme. */
  lemma HostAfterScheme(url: string)
    requires StartsWith(url, Prefix)
    ensures HostAt(url, 8)
  {
    assert url[8..8 + |Host|] == Host;
    LowerOfLowerCase(Host);
  }

  /** In `https://gist.github.com/user/id` the user form matches at the
      host and captures the ID. */
  lemma UserFormCaptures(user: string, id: string)
    requires user != "" && '/' !in user
    requires id != "" && AllHex(id)
    ensures MatchAt(UserForm, Prefix + user + "/" + id, 8) == Some(id)
  {
    var url := Prefix + user + "/" + id;
    var e := |Prefix| + |user|;
    HostAfterScheme(url);
    forall k | |Prefix| <= k < e ensures url[k] != '/' {
      assert url[k] == user[k - |Prefix|];
    }
    SegmentEndAt(url, |Prefix|, e);
    assert url[e + 1..] == id;
    HexRunToEnd(url, e + 1);
    UserFormAt(url, e, id);
  }

  /** The user form matches at the host when the user segment ends at `e`
      and the rest of the URL is the ID. */
  lemma UserFormAt(url: string, e: nat, id: string)
    requires HostAt(url, 8) && |Prefix| < e < |url| && SegmentEnd(url, |Prefix|) == e
    requires id != "" && url[e + 1..] == id && HexRun(url, e + 1) == |id|
    ensures MatchAt(UserForm, url, 8) == Some(id)
  {
    assert url[e + 1..e + 1 + |id|] == id;
  }

  /** The segment from `j` ends at the first `/`. */
  lemma SegmentEndAt(s: string, j: nat, e: nat)
    requires j <= e < |s| && s[e] == '/'
    requires forall k :: j <= k < e ==> s[k] != '/'
    ensures SegmentEnd(s, j) == e
  {
  }

  /** A run of hex digits reaching the end of the text is all of it. */
  lemma HexRunToEnd(s: string, j: nat)
    requires j <= |s| && AllHex(s[j..])
    ensures HexRun(s, j) == |s| - j
  {
    var n := HexRun(s, j);
    if j + n < |s| {
      assert s[j + n] == s[j..][n];
    }
  }

  /** A URL of the documented form `https://gist.github.com/user/id` gives
      back its ID. */
  lemma UserUrlGivesId(user: string, id: string)
    requires user != "" && '/' !in user
    requires id != "" && AllHex(id)
    ensures ExtractGistId(Prefix + user + "/" + id) == Some(id)
  {
    var url := Prefix + user + "/" + id;
    NoHostInScheme(url, UserForm);
    UserFormCaptures(user, id);
    LeftmostIs((k: nat) => MatchAt(UserForm, url, k), 0, |url|, 8);
  }

  /** In `https://gist.github.com/id` the user form never matches: after
      the host there is no second `/`. */
  lemma NoUserFormInBareUrl(id: string)
    requires id != "" && AllHex(id)
    ensures forall k :: 0 <= k <= |Prefix + id| ==> MatchAt(UserForm, Prefix + id, k).None?
  {
    var url := Prefix + id;
    NoHostInScheme(url, UserForm);
    forall k | 8 <= k <= |url| ensures MatchAt(UserForm, url, k).None? {
      if HostAt(url, k) {
        HostAtMarks(url, k);
        if k == 8 {
          assert SegmentEnd(url, |Prefix|) == |url|;
        }
      }
    }
  }

  /** In `https://gist.github.com/id` the bare form matches at the host
      and captures the ID. */
  lemma BareFormCaptures(id: string)
    requires id != "" && AllHex(id)
    ensures MatchAt(BareForm, Prefix + id, 8) == Some(id)
  {
    var url := Prefix + id;
    HostAfterScheme(url);
    assert url[|Prefix|..] == id;
    HexRunToEnd(url, |Prefix|);
    assert url[|Prefix|..|Prefix| + |id|] == id;
  }

  /** A URL of the short form `https://gist.github.com/id` gives back its
      ID. */
  lemma BareUrlGivesId(id: string)
    requires id != "" && AllHex(id)
    ensures ExtractGistId(Prefix + id) == Some(id)
  {
    var url := Prefix + id;
    NoUserFormInBareUrl(id);
    NoHostInScheme(url, BareForm);
    BareFormCaptures(id);
    LeftmostIs((k: nat) => MatchAt(BareForm, url, k), 0, |url|, 8);
  }

  /** A bare ID is its own gist ID. */
  lemma BareIdIsId(id: string)
    requires id != "" && AllHex(id)
    ensures ExtractGistId(id) == Some(id)
  {
    forall form: Form, k | 0 <= k <= |id| ensures MatchAt(form, id, k).None? {
      if HostAt(id, k) {
        HostAtMarks(id, k);
      }
    }
  }

  const UrlRequired: string := "Gist URL is required"
  const InvalidUrl: string := "Invalid Gist URL. Expected format: https://gist.github.com/username/gist-id"

  /** The checks of the import route before the fetch: a missing or blank
      URL, then a URL with no gist ID, are rejected with status 400;
      otherwise the ID to fetch. */
  function ImportTarget(gistUrl: Option<string>): (r: Result<string, Failure>)
    ensures gistUrl.None? || AllSpace(gistUrl.value) ==> r == Err(Failure(400, UrlRequired))
    ensures gistUrl.Some? && !AllSpace(gistUrl.value) ==>
      (r.Ok? <==> ExtractGistId(gistUrl.value).Some?) &&
      (r.Ok? ==> r.value != "" && AllHex(r.value) && Contains(gistUrl.value, r.value)) &&
      (r.Err? ==> r.error == Failure(400, InvalidUrl))
  {
    TrimEmptyIffBlank(gistUrl.GetOr(""));
    if gistUrl.None? || gistUrl.value == "" || Trim(gistUrl.value) == "" then Err(Failure(400, UrlRequired))
    else
      match ExtractGistId(gistUrl.value)
      case None => Err(Failure(400, InvalidUrl))
      case Some(id) => Ok(id)
  }

  // ------------------------------------------------------------ import

  const Reserved: string := "_codetogether_"

  predicate Kept(name: string) {
    !StartsWith(name, Reserved)
  }

  /** The files an import returns: the gist's files in order, without the
      ones whose name starts with `_codetogether_`. */
  function Imported(gist: Dict<string>): (files: Dict<string>)
    requires gist.Valid()
    ensures files.Valid()
    ensures forall n :: n in files.vals <==> n in gist.vals && Kept(n)
  {
    FilterDistinct(gist.keys, Kept);
    Dict(Filter(gist.keys, Kept), map n | n in gist.vals && Kept(n) :: gist.vals[n])
  }

  /** The files the `forEach` has copied after visiting the names `ks`. */
  function ImportedOf(gist: Dict<string>, ks: seq<string>): Dict<string>
    requires forall k :: k in ks ==> k in gist.vals
  {
    if ks == [] then Empty()
    else
      var n, before := ks[|ks| - 1], ImportedOf(gist, ks[..|ks| - 1]);
      if Kept(n) then before.Put(n, gist.vals[n]) else before
  }

  /** Copying the files one by one in order keeps the names that are not
      reserved, in order, each with its content. */
  lemma {:induction false} ImportedOfFilters(gist: Dict<string>, ks: seq<string>)
    requires Distinct(ks) && forall k :: k in ks ==> k in gist.vals
    ensures ImportedOf(gist, ks).keys == Filter(ks, Kept)
    ensures forall x :: x in ImportedOf(gist, ks).vals <==> x in ks && Kept(x)
    ensures forall x :: x in ImportedOf(gist, ks).vals ==> ImportedOf(gist, ks).vals[x] == gist.vals[x]
  {
    if ks != [] {
      var init, n := ks[..|ks| - 1], ks[|ks| - 1];
      assert ks == init + [n];
      assert Distinct(init);
      ImportedOfFilters(gist, init);
      FilterPush(init, n, Kept);
      assert n !in init;
    }
  }

  lemma ImportedOfStep(gist: Dict<string>, i: nat)
    requires gist.Valid() && i < |gist.keys|
    ensures forall k :: k in gist.keys[..i + 1] ==> k in gist.vals
    ensures ImportedOf(gist, gist.keys[..i + 1]) ==
      var n := gist.keys[i];
      if Kept(n) then ImportedOf(gist, gist.keys[..i]).Put(n, gist.vals[n]) else ImportedOf(gist, gist.keys[..i])
  {
    assert gist.keys[..i + 1][..i] == gist.keys[..i];
  }

  /** The `forEach` of the import route, and `filesCount`. */
  method ImportFiles(gist: Dict<string>) returns (files: Dict<string>, filesCount: nat)
    requires gist.Valid()
    ensures files == Imported(gist)
    ensures filesCount == |files.keys|
  {
    files := Empty();
    for i := 0 to |gist.keys|
      invariant files == ImportedOf(gist, gist.keys[..i])
    {
      var name := gist.keys[i];
      ImportedOfStep(gist, i);
      if Kept(name) {
        files := files.Put(name, gist.vals[name]);
      }
    }
    assert gist.keys[..|gist.keys|] == gist.keys;
    ImportedOfFilters(gist, gist.keys);
    assert files.vals == Imported(gist).vals;
    filesCount := |files.keys|;
  }

  // -------------------------------------------------------------- save

  /** A value of the posted `files` object: `{ content }`, a bare string,
      or `null`. */
  datatype FileData = FileObject(content: Option<string>) | Raw(value: string) | Null

  const EmptyFile: string := "// Empty file"

  /** `(typeof d === "object" ? d.content : d) || "// Empty file"` */
  function SavedContent(d: FileData): (c: string)
    requires !d.Null?
    ensures c != ""
    ensures d.FileObject? && d.content.Some? && d.content.value != "" ==> c == d.content.value
    ensures d.Raw? && d.value != "" ==> c == d.value
  {
    match d
    case FileObject(content) => if content.Some? && content.value != "" then content.value else EmptyFile
    case Raw(value) => if value != "" then value else EmptyFile
  }

  const MetadataName: string := "_codetogether_metadata.json"

  /** The metadata file's JSON, as `JSON.stringify(..., null, 2)` lays it
      out. */
  function MetadataJson(roomId: string, username: string, savedAt: string, fileCount: nat): (j: string)
    ensures |j| > |MetadataTail| && j[0] == '{' && j[|j| - 1] == '}'
    ensures j[|j| - |MetadataTail|..] == MetadataTail
  {
    MetadataHead(roomId, username, savedAt) + NatToString(fileCount) + MetadataTail
  }

  /** Everything before the file count. */
  function MetadataHead(roomId: string, username: string, savedAt: string): (h: string)
    ensures |h| > 0 && h[0] == '{' && h[|h| - 1] == ' '
  {
    "{\n  \"roomId\": \"" + roomId + "\",\n  \"username\": \"" + username +
    "\",\n  \"savedAt\": \"" + savedAt + "\",\n  \"fileCount\": "
  }

  /** What follows the file count in the metadata. */
  const MetadataTail: string := ",\n  \"tool\": \"CodeTogether\"\n}"

  /** The metadata is one JSON object whose file count reads back from the
      digits that come, after a space, right before its fixed tail. */
  lemma MetadataCountReads(roomId: string, username: string, savedAt: string, fileCount: nat)
    ensures var j := MetadataJson(roomId, username, savedAt, fileCount);
      var e := |j| - |MetadataTail|;
      var k := DigitsBefore(j, e);
      j[0] == '{' && j[|j| - 1] == '}' && j[e..] == MetadataTail &&
      0 < k < e && j[e - k - 1] == ' ' && ParseNat(j[e - k..e]) == fileCount
  {
    CountBeforeTail(MetadataHead(roomId, username, savedAt), fileCount, MetadataTail,
      MetadataJson(roomId, username, savedAt, fileCount));
  }

  /** `gistFiles` after the `forEach` over the names `ks`. */
  function Formatted(files: Dict<FileData>, ks: seq<string>): (g: Dict<string>)
    requires forall n :: n in ks ==> n in files.vals && !files.vals[n].Null?
    ensures g.Valid()
  {
    if ks == [] then Empty()
    else Formatted(files, ks[..|ks| - 1]).Put(ks[|ks| - 1], SavedContent(files.vals[ks[|ks| - 1]]))
  }

  predicate NoNull(files: Dict<FileData>) {
    forall n :: n in files.vals ==> !files.vals[n].Null?
  }

  /** The files of the gist: every posted file with its content, then the
      metadata file. */
  function GistFiles(files: Dict<FileData>, roomId: string, username: string, savedAt: string): (g: Dict<string>)
    requires files.Valid() && NoNull(files)
    ensures g.Valid()
  {
    Formatted(files, files.keys).Put(MetadataName, MetadataJson(roomId, username, savedAt, |files.keys|))
  }

  /** The request body sent to GitHub, and the `filesCount` answered. */
  datatype Saved = Saved(description: string, isPublic: bool, files: Dict<string>, filesCount: nat)

  const NoToken: string := "GitHub token not configured. Add GITHUB_ACCESS_TOKEN to .env"
  const NoFiles: string := "No files to save"
  const NullFile: string := "Cannot read properties of null (reading 'content')"

  /** The save route up to the GitHub request: a missing token, then a
      missing or empty `files`, are rejected with status 400 before any
      request; a `null` file makes the formatting throw, answered with
      status 500. */
  method SaveGist(tokenConfigured: bool, files: Option<Dict<FileData>>, description: string,
                  roomId: string, username: string, savedAt: string)
    returns (r: Result<Saved, Failure>)
    requires files.Some? ==> files.value.Valid()
    ensures !tokenConfigured ==> r == Err(Failure(400, NoToken))
    ensures tokenConfigured && (files.None? || files.value.keys == []) ==> r == Err(Failure(400, NoFiles))
    ensures tokenConfigured && files.Some? && files.value.keys != [] && !NoNull(files.value) ==>
      r == Err(Failure(500, NullFile))
    ensures r.Ok? ==>
      var fs := files.value;
      NoNull(fs) && fs.keys != [] &&
      r.value == Saved(
        if description != "" then description else "CodeTogether Session - Room " + roomId,
        false, GistFiles(fs, roomId, username, savedAt), |fs.keys|)
  {
    if !tokenConfigured {
      return Err(Failure(400, NoToken));
    }
    if files.None? || |files.value.keys| == 0 {
      return Err(Failure(400, NoFiles));
    }
    var fs := files.value;
    var gistFiles: Dict<string> := Empty();
    var i := 0;
    while i < |fs.keys|
      invariant 0 <= i <= |fs.keys|
      invariant forall n :: n in fs.keys[..i] ==> !fs.vals[n].Null?
      invariant gistFiles == Formatted(fs, fs.keys[..i])
    {
      var fileName := fs.keys[i];
      var fileData := fs.vals[fileName];
      if fileData.Null? {
        return Err(Failure(500, NullFile));
      }
      ghost var done := fs.keys[..i + 1];
      assert done[..i] == fs.keys[..i] && done[i] == fileName;
      assert Formatted(fs, done) == Formatted(fs, fs.keys[..i]).Put(fileName, SavedContent(fileData));
      gistFiles := gistFiles.Put(fileName, SavedContent(fileData));
      i := i + 1;
    }
    assert fs.keys[..i] == fs.keys;
    gistFiles := gistFiles.Put(MetadataName, MetadataJson(roomId, username, savedAt, |fs.keys|));
    var desc := if description != "" then description else "CodeTogether Session - Room " + roomId;
    r := Ok(Saved(desc, false, gistFiles, |fs.keys|));
  }

  // ------------------------------------------------------ properties

  /** The formatted files are the posted ones, in their order, each with
      its saved content. */
  lemma {:induction false} FormattedSpec(files: Dict<FileData>, ks: seq<string>)
    requires Distinct(ks)
    requires forall n :: n in ks ==> n in files.vals && !files.vals[n].Null?
    ensures Formatted(files, ks).Valid() && Formatted(files, ks).keys == ks
    ensures forall n :: n in ks ==> Formatted(files, ks).vals[n] == SavedContent(files.vals[n])
  {
    if ks != [] {
      var init := ks[..|ks| - 1];
      assert Distinct(init) && ks == init + [ks[|ks| - 1]];
      FormattedSpec(files, init);
    }
  }

  /** Saving adds exactly one file, the metadata file, after the posted
      files (replacing a posted file of that name), and its JSON counts
      the posted files. */
  lemma GistFilesSpec(files: Dict<FileData>, roomId: string, username: string, savedAt: string)
    requires files.Valid() && NoNull(files)
    ensures var g := GistFiles(files, roomId, username, savedAt);
      g.Valid() &&
      g.keys == AppendIfAbsent(files.keys, MetadataName) &&
      g.vals[MetadataName] == MetadataJson(roomId, username, savedAt, |files.keys|) &&
      forall n :: n in files.vals && n != MetadataName ==> g.vals[n] == SavedContent(files.vals[n])
  {
    FormattedSpec(files, files.keys);
  }

  /** Saving and importing give the posted contents back: when no name
      starts with `_codetogether_` and no content is empty, the imported
      files are the posted names, in order, each with its content. */
  lemma SaveThenImport(files: Dict<FileData>, roomId: string, username: string, savedAt: string)
    requires files.Valid() && NoNull(files)
    requires forall n :: n in files.vals ==> Kept(n)
    requires forall n :: n in files.vals ==> SavedContent(files.vals[n]) == ContentOf(files.vals[n])
    ensures var back := Imported(GistFiles(files, roomId, username, savedAt));
      back.keys == files.keys &&
      forall n :: n in files.vals ==> n in back.vals && back.vals[n] == ContentOf(files.vals[n])
  {
    GistFilesSpec(files, roomId, username, savedAt);
    var g := GistFiles(files, roomId, username, savedAt);
    assert !Kept(MetadataName);
    assert MetadataName !in files.keys;
    FilterAppend(files.keys, [MetadataName], Kept);
    FilterAll(files.keys, Kept);
  }

  /** The text a posted file holds, `""` standing for a missing one. */
  function ContentOf(d: FileData): string {
    match d
    case FileObject(content) => content.GetOr("")
    case Raw(value) => value
    case Null => ""
  }

  /** Only an empty content fails to come back: it is saved as the
      placeholder comment. */
  lemma EmptyContentSaved(d: FileData)
    requires !d.Null?
    ensures SavedContent(d) == ContentOf(d) <==> ContentOf(d) != ""
    ensures ContentOf(d) == "" ==> SavedContent(d) == EmptyFile
  {
  }
}
