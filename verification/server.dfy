/** The room store of the collaboration server (`server/server.js`): an
    in-memory map from room id to room, each room holding its users, its
    files and active file, the legacy single `code` buffer, the shared
    test cases and the interview swap. Socket handlers change a room in
    place; the broadcasts they send are not modelled. */
module RoomServer {
  import opened Wrappers
  import opened Strings
  import opened Seqs
  import opened Dict
  import opened Files
  import opened TestCaseList

  const WelcomeCode: string := "// Welcome! Start coding together...\nconsole.log(\"Hello World!\");"

  /** `getDefaultFiles()`: one JavaScript file holding the welcome text. */
  function DefaultFiles(): (d: FileMap)
    ensures d.Valid() && d.keys == ["main.js"]
    ensures d.vals["main.js"] == SourceFile("main.js", WelcomeCode, "javascript")
  {
    Empty<SourceFile>().Put("main.js", SourceFile("main.js", WelcomeCode, "javascript"))
  }

  /** A connected user; the colour is drawn at random by the server and is
      a parameter here. */
  datatype User = User(username: string, socketId: string, color: string)

  /** `room.interviewMode`; the start time is the clock at the start. */
  datatype Interview = Interview(problem: string, difficulty: string, duration: int, startTime: int)

  /** The value of one room. */
  datatype RoomState = RoomState(
    code: string,
    language: string,
    users: Dict<User>,
    testCases: seq<TestCase>,
    interviewMode: Option<Interview>,
    previousCode: Option<string>,
    files: FileMap,
    activeFile: Option<string>)
  {
    ghost predicate Valid() {
      users.Valid() && files.Valid()
    }
  }

  /** The room `join-room` creates for an unknown id: the welcome file,
      active, mirrored in `code`, and nothing else. */
  function NewRoom(): (s: RoomState)
    ensures s.Valid() && s.files.keys == ["main.js"] && s.activeFile == Some("main.js")
    ensures s.code == s.files.vals["main.js"].content && s.language == "javascript"
    ensures s.users.keys == [] && s.testCases == [] && s.interviewMode.None? && s.previousCode.None?
  {
    RoomState(WelcomeCode, "javascript", Empty(), [], None, None, DefaultFiles(), Some("main.js"))
  }

  /** `Guest` and the first four characters of the socket id, or the whole
      id when it is shorter. */
  function GuestName(socketId: string): (r: string)
    ensures |r| == 5 + (if |socketId| < 4 then |socketId| else 4)
    ensures r[..5] == "Guest" && StartsWith(socketId, r[5..])
  {
    "Guest" + socketId[..if |socketId| < 4 then |socketId| else 4]
  }

  /** `room.users.set(socket.id, {...})`: a user joins or rejoins; nothing
      but the user list changes. */
  function Joined(s: RoomState, socketId: string, username: Option<string>, color: string): (r: RoomState)
    ensures r == s.(users := r.users)
    ensures r.users.Has(socketId) && r.users.vals[socketId].socketId == socketId
    ensures r.users.vals[socketId].username == if Truthy(username) then username.value else GuestName(socketId)
    ensures forall id :: id != socketId ==>
      (r.users.Has(id) <==> s.users.Has(id)) && (s.users.Has(id) ==> r.users.vals[id] == s.users.vals[id])
    ensures s.Valid() ==> r.Valid() && |r.users.keys| > 0
  {
    var name := if Truthy(username) then username.value else GuestName(socketId);
    s.(users := s.users.Put(socketId, User(name, socketId, color)))
  }

  /** `room.users.delete(socket.id)` on disconnect, for a room the user
      is in. */
  function Left(s: RoomState, socketId: string): (r: RoomState)
    ensures r == s.(users := r.users)
    ensures !r.users.Has(socketId)
    ensures !s.users.Has(socketId) ==> r == s
    ensures forall id :: id != socketId ==>
      (r.users.Has(id) <==> s.users.Has(id)) && (r.users.Has(id) ==> r.users.vals[id] == s.users.vals[id])
    ensures s.Valid() ==> r.Valid()
  {
    if s.users.Has(socketId) then s.(users := s.users.Remove(socketId)) else s
  }

  /** `room.files[file.name] = file`: no check for an existing name, which
      is overwritten in place; a new name goes last. */
  function Created(s: RoomState, file: SourceFile): (r: RoomState)
    ensures r == s.(files := r.files)
    ensures r.files.Has(file.name) && r.files.vals[file.name] == file
    ensures r.files.keys == if s.files.Has(file.name) then s.files.keys else s.files.keys + [file.name]
    ensures forall k :: k != file.name ==>
      (r.files.Has(k) <==> s.files.Has(k)) && (r.files.Has(k) ==> r.files.vals[k] == s.files.vals[k])
    ensures s.Valid() ==> r.Valid()
  {
    s.(files := s.files.Put(file.name, file))
  }

  /** `Object.keys(room.files)[0] || null`: the first key, unless there is
      none or it is the (falsy) empty name. */
  function FirstKey(files: FileMap): (r: Option<string>)
    ensures r.Some? ==> |files.keys| > 0 && r.value == files.keys[0] && r.value != ""
    ensures r.None? ==> |files.keys| == 0 || files.keys[0] == ""
  {
    if |files.keys| > 0 && files.keys[0] != "" then Some(files.keys[0]) else None
  }

  /** `file-delete`: nothing for an absent name; otherwise that key alone
      goes, the others keep their order, and an active file that was
      deleted is replaced by the first remaining key. */
  function Deleted(s: RoomState, fileName: string): (r: RoomState)
    ensures !s.files.Has(fileName) ==> r == s
    ensures s.files.Has(fileName) ==>
      r == s.(files := r.files, activeFile := r.activeFile) &&
      !r.files.Has(fileName) &&
      SubsequenceOf(r.files.keys, s.files.keys) &&
      (forall k :: k != fileName ==>
        (r.files.Has(k) <==> s.files.Has(k)) && (r.files.Has(k) ==> r.files.vals[k] == s.files.vals[k])) &&
      r.activeFile == if s.activeFile == Some(fileName) then FirstKey(r.files) else s.activeFile
    ensures s.Valid() ==> r.Valid()
  {
    if !s.files.Has(fileName) then s
    else
      RemoveAllSubsequence(s.files.keys, fileName);
      var files := s.files.Remove(fileName);
      s.(files := files, activeFile := if s.activeFile == Some(fileName) then FirstKey(files) else s.activeFile)
  }

  /** There is no last-file protection: deleting the only file, while it
      is active, leaves a room with no file and no active file. */
  lemma DeleteLastFile(s: RoomState, fileName: string)
    requires s.Valid() && s.files.keys == [fileName] && s.activeFile == Some(fileName)
    ensures Deleted(s, fileName).files.keys == [] && Deleted(s, fileName).activeFile.None?
  {
    assert s.files.Has(fileName);
  }

  /** `file-rename`: the file is stored under the new name with its name
      field updated, the old key is deleted, and the active file follows.
      The other keys keep their order; a new name comes last, and a name
      already present keeps its place. */
  function Renamed(s: RoomState, oldName: string, newName: string): (r: RoomState)
    ensures !s.files.Has(oldName) ==> r == s
    ensures s.files.Has(oldName) ==>
      r == s.(files := r.files, activeFile := r.activeFile) &&
      !r.files.Has(oldName) &&
      (oldName != newName ==> r.files.Has(newName) && r.files.vals[newName] == s.files.vals[oldName].(name := newName)) &&
      (forall k :: k != oldName && k != newName ==>
        (r.files.Has(k) <==> s.files.Has(k)) && (r.files.Has(k) ==> r.files.vals[k] == s.files.vals[k])) &&
      r.activeFile == if s.activeFile == Some(oldName) then Some(newName) else s.activeFile
    ensures s.files.Has(oldName) ==>
      r.files.keys == RemoveAll(s.files.keys, oldName) + (if newName in s.files.vals then [] else [newName])
    ensures s.Valid() ==> r.Valid()
  {
    if !s.files.Has(oldName) then s
    else
      var files := s.files.Put(newName, s.files.vals[oldName].(name := newName)).Remove(oldName);
      RemoveAllAppend(s.files.keys, newName, oldName);
      s.(files := files, activeFile := if s.activeFile == Some(oldName) then Some(newName) else s.activeFile)
  }

  /** A rename to the same name deletes the file, since the delete runs
      after the write; an active file keeps pointing at the vanished name. */
  lemma RenameToSelfDeletes(s: RoomState, name: string)
    requires s.Valid() && s.files.Has(name)
    ensures var r := Renamed(s, name, name);
      !r.files.Has(name) && |r.files.keys| == |s.files.keys| - 1 &&
      r.files.vals == s.files.vals - {name} && r.activeFile == s.activeFile
  {
  }

  /** `file-content-change`: nothing for an absent file; otherwise only
      that file's content changes, and `code` mirrors it exactly when the
      file is the active one. */
  function ContentChanged(s: RoomState, fileName: string, content: string): (r: RoomState)
    ensures !s.files.Has(fileName) ==> r == s
    ensures s.files.Has(fileName) ==>
      r == s.(files := r.files, code := r.code) &&
      r.files.keys == s.files.keys &&
      r.files.vals == s.files.vals[fileName := s.files.vals[fileName].(content := content)] &&
      (s.activeFile == Some(fileName) ==> r.code == content) &&
      (s.activeFile != Some(fileName) ==> r.code == s.code)
    ensures s.Valid() ==> r.Valid()
  {
    if !s.files.Has(fileName) then s
    else
      var files := Dict(s.files.keys, s.files.vals[fileName := s.files.vals[fileName].(content := content)]);
      s.(files := files, code := if s.activeFile == Some(fileName) then content else s.code)
  }

  /** `start-interview`: the code is saved, not changed. */
  function Started(s: RoomState, interview: Interview): (r: RoomState)
    ensures r.code == s.code && r.previousCode == Some(s.code) && r.interviewMode == Some(interview)
    ensures r == s.(previousCode := r.previousCode, interviewMode := r.interviewMode)
  {
    s.(previousCode := Some(s.code), interviewMode := Some(interview))
  }

  /** The restore shared by `end-interview` and `submit-interview`. */
  function Restored(s: RoomState): (r: RoomState)
    ensures r.previousCode.None?
    ensures r.code == if s.previousCode.Some? then s.previousCode.value else s.code
    ensures r == s.(code := r.code, previousCode := None)
  {
    if s.previousCode.Some? then s.(code := s.previousCode.value, previousCode := None) else s
  }

  /** `end-interview`: restore the saved code, if any, and leave the mode. */
  function Ended(s: RoomState): (r: RoomState)
    ensures r.previousCode.None? && r.interviewMode.None?
    ensures r.code == if s.previousCode.Some? then s.previousCode.value else s.code
    ensures r == s.(code := r.code, previousCode := None, interviewMode := None)
  {
    Restored(s).(interviewMode := None)
  }

  /** `submit-interview`: restore the saved code, if any; the interview
      mode is left as it is. */
  function Submitted(s: RoomState): (r: RoomState)
    ensures r.previousCode.None? && r.interviewMode == s.interviewMode
    ensures r.code == if s.previousCode.Some? then s.previousCode.value else s.code
    ensures r == s.(code := r.code, previousCode := None)
  {
    Restored(s)
  }

  /** The socket events that change one room. */
  datatype Event =
    | JoinRoom(socketId: string, username: Option<string>, color: string)
    | CodeChange(code: string)
    | LanguageChange(language: string)
    | FileCreate(file: SourceFile)
    | FileDelete(fileName: string)
    | FileRename(oldName: string, newName: string)
    | FileSelect(fileName: string)
    | FileContentChange(fileName: string, content: string)
    | UpdateTestCases(testCases: seq<TestCase>)
    | StartInterview(interview: Interview)
    | EndInterview
    | SubmitInterview
  {
    predicate IsInterview() {
      StartInterview? || EndInterview? || SubmitInterview?
    }
  }

  /** The effect of one event on a room that exists. */
  function Step(s: RoomState, e: Event): (r: RoomState)
    ensures s.Valid() ==> r.Valid()
    ensures !e.IsInterview() ==> r.previousCode == s.previousCode
  {
    match e
    case JoinRoom(socketId, username, color) => Joined(s, socketId, username, color)
    case CodeChange(code) => s.(code := code)
    case LanguageChange(language) => s.(language := language)
    case FileCreate(file) => Created(s, file)
    case FileDelete(fileName) => Deleted(s, fileName)
    case FileRename(oldName, newName) => Renamed(s, oldName, newName)
    case FileSelect(fileName) => s.(activeFile := Some(fileName))
    case FileContentChange(fileName, content) => ContentChanged(s, fileName, content)
    case UpdateTestCases(testCases) => s.(testCases := testCases)
    case StartInterview(interview) => Started(s, interview)
    case EndInterview => Ended(s)
    case SubmitInterview => Submitted(s)
  }

  /** The room after a series of events, in order. */
  function Run(s: RoomState, events: seq<Event>): RoomState
    decreases |events|
  {
    if |events| == 0 then s else Run(Step(s, events[0]), events[1..])
  }

  /** Events other than the interview ones never touch the saved code. */
  lemma {:induction false} RunKeepsPreviousCode(s: RoomState, events: seq<Event>)
    requires forall e :: e in events ==> !e.IsInterview()
    ensures Run(s, events).previousCode == s.previousCode
    decreases |events|
  {
    if |events| > 0 {
      assert events[0] in events;
      assert forall e :: e in events[1..] ==> e in events;
      RunKeepsPreviousCode(Step(s, events[0]), events[1..]);
    }
  }

  /** Whatever is edited during an interview, ending it gives back the code
      the room had when it started; a second end then changes nothing. */
  lemma InterviewRestoresCode(s: RoomState, interview: Interview, events: seq<Event>)
    requires forall e :: e in events ==> !e.IsInterview()
    ensures Ended(Run(Started(s, interview), events)).code == s.code
    ensures Ended(Ended(Run(Started(s, interview), events))) == Ended(Run(Started(s, interview), events))
  {
    RunKeepsPreviousCode(Started(s, interview), events);
  }

  /** Submitting also gives the code back, but the room stays in interview
      mode with nothing saved, so a later end restores nothing. */
  lemma SubmitKeepsInterviewMode(s: RoomState, interview: Interview, events: seq<Event>)
    requires forall e :: e in events ==> !e.IsInterview()
    ensures var t := Submitted(Run(Started(s, interview), events));
      t.code == s.code && t.interviewMode == Run(Started(s, interview), events).interviewMode &&
      Ended(t).code == t.code
  {
    RunKeepsPreviousCode(Started(s, interview), events);
  }

  /** One room as the server keeps it, changed in place by the handlers. */
  class Room {
    var code: string
    var language: string
    var users: Dict<User>
    var testCases: seq<TestCase>
    var interviewMode: Option<Interview>
    var previousCode: Option<string>
    var files: FileMap
    var activeFile: Option<string>
    /** The id the room is stored under. */
    ghost const roomId: string

    ghost function State(): RoomState
      reads this
    {
      RoomState(code, language, users, testCases, interviewMode, previousCode, files, activeFile)
    }

    /** The object literal of `join-room` for an unknown room. */
    constructor (id: string)
      ensures State() == NewRoom() && roomId == id
    {
      roomId := id;
      code := WelcomeCode;
      language := "javascript";
      users := Empty();
      testCases := [];
      interviewMode := None;
      previousCode := None;
      files := DefaultFiles();
      activeFile := Some("main.js");
    }

    method Join(socketId: string, username: Option<string>, color: string)
      modifies this
      ensures State() == Step(old(State()), Event.JoinRoom(socketId, username, color))
    {
      var name := if Truthy(username) then username.value else GuestName(socketId);
      users := users.Put(socketId, User(name, socketId, color));
    }

    /** Removes the user; `nowEmpty` is the `room.users.size === 0` test
        made after a removal. */
    method Leave(socketId: string) returns (nowEmpty: bool)
      modifies this
      ensures State() == Left(old(State()), socketId)
      ensures nowEmpty == (old(users).Has(socketId) && users.keys == [])
    {
      nowEmpty := false;
      if socketId in users.vals {
        users := users.Remove(socketId);
        nowEmpty := |users.keys| == 0;
      }
    }

    method CodeChange(newCode: string)
      modifies this
      ensures State() == Step(old(State()), Event.CodeChange(newCode))
    {
      code := newCode;
    }

    method LanguageChange(newLanguage: string)
      modifies this
      ensures State() == Step(old(State()), Event.LanguageChange(newLanguage))
    {
      language := newLanguage;
    }

    method FileCreate(file: SourceFile)
      modifies this
      ensures State() == Step(old(State()), Event.FileCreate(file))
    {
      files := files.Put(file.name, file);
    }

    method FileDelete(fileName: string)
      modifies this
      ensures State() == Step(old(State()), Event.FileDelete(fileName))
    {
      if fileName in files.vals {
        files := files.Remove(fileName);
        if activeFile == Some(fileName) {
          activeFile := FirstKey(files);
        }
      }
    }

    method FileRename(oldName: string, newName: string)
      modifies this
      ensures State() == Step(old(State()), Event.FileRename(oldName, newName))
    {
      if oldName in files.vals {
        files := files.Put(newName, files.vals[oldName].(name := newName));
        files := files.Remove(oldName);
        if activeFile == Some(oldName) {
          activeFile := Some(newName);
        }
      }
    }

    method FileSelect(fileName: string)
      modifies this
      ensures State() == Step(old(State()), Event.FileSelect(fileName))
    {
      activeFile := Some(fileName);
    }

    method FileContentChange(fileName: string, content: string)
      modifies this
      ensures State() == Step(old(State()), Event.FileContentChange(fileName, content))
    {
      if fileName in files.vals {
        files := Dict(files.keys, files.vals[fileName := files.vals[fileName].(content := content)]);
        if Some(fileName) == activeFile {
          code := content;
        }
      }
    }

    method UpdateTestCases(newTestCases: seq<TestCase>)
      modifies this
      ensures State() == Step(old(State()), Event.UpdateTestCases(newTestCases))
    {
      testCases := newTestCases;
    }

    method StartInterview(interview: Interview)
      modifies this
      ensures State() == Step(old(State()), Event.StartInterview(interview))
    {
      previousCode := Some(code);
      interviewMode := Some(interview);
    }

    method EndInterview()
      modifies this
      ensures State() == Step(old(State()), Event.EndInterview)
    {
      if previousCode.Some? {
        code := previousCode.value;
        previousCode := None;
      }
      interviewMode := None;
    }

    method SubmitInterview()
      modifies this
      ensures State() == Step(old(State()), Event.SubmitInterview)
    {
      if previousCode.Some? {
        code := previousCode.value;
        previousCode := None;
      }
    }

    /** The handler of `e`. */
    method Apply(e: Event)
      modifies this
      ensures State() == Step(old(State()), e)
    {
      match e {
        case JoinRoom(socketId, username, color) => Join(socketId, username, color);
        case CodeChange(code) => CodeChange(code);
        case LanguageChange(language) => LanguageChange(language);
        case FileCreate(file) => FileCreate(file);
        case FileDelete(fileName) => FileDelete(fileName);
        case FileRename(oldName, newName) => FileRename(oldName, newName);
        case FileSelect(fileName) => FileSelect(fileName);
        case FileContentChange(fileName, content) => FileContentChange(fileName, content);
        case UpdateTestCases(testCases) => UpdateTestCases(testCases);
        case StartInterview(interview) => StartInterview(interview);
        case EndInterview => EndInterview();
        case SubmitInterview => SubmitInterview();
      }
    }
  }

  // ---------------------------------------------------------- auto-save

  /** A document of the version store; its timestamp and message are left
      out, and the store is a list kept in the order of creation. */
  datatype Version = Version(roomId: string, code: string, auto: bool)

  predicate IsAutoOf(roomId: string, v: Version) {
    v.roomId == roomId && v.auto
  }

  /** The code of the newest automatic version of a room, if there is one:
      `Version.findOne({ roomId, auto: true }).sort({ timestamp: -1 })`. */
  function LastAutoCode(store: seq<Version>, roomId: string): (r: Option<string>)
    ensures r.None? <==> forall v :: v in store ==> !IsAutoOf(roomId, v)
    ensures r.Some? ==> Version(roomId, r.value, true) in store
    decreases |store|
  {
    if |store| == 0 then None
    else if IsAutoOf(roomId, store[|store| - 1]) then Some(store[|store| - 1].code)
    else
      assert store == store[..|store| - 1] + [store[|store| - 1]];
      LastAutoCode(store[..|store| - 1], roomId)
  }

  /** A version appended for another room, or a manual one, does not
      change which automatic version of a room is the newest. */
  lemma LastAutoPush(store: seq<Version>, v: Version, roomId: string)
    ensures LastAutoCode(store + [v], roomId) == if IsAutoOf(roomId, v) then Some(v.code) else LastAutoCode(store, roomId)
  {
    assert (store + [v])[..|store|] == store;
  }

  /** `room.code && room.code.trim() && room.users.size > 0` */
  predicate Eligible(s: RoomState) {
    s.code != "" && Trim(s.code) != "" && |s.users.keys| > 0
  }

  /** The rule of the auto-save timer for one room, given the code of its
      newest automatic version. */
  predicate ShouldAutoSave(s: RoomState, last: Option<string>) {
    Eligible(s) && (last.None? || last.value != s.code)
  }

  /** The store after one tick of the timer over the rooms `ids`, in order:
      it only grows, and each new version is an automatic version of one of
      those rooms, holding the room's code at a time it was eligible. */
  function AutoSaved(states: map<string, RoomState>, ids: seq<string>, store: seq<Version>): (r: seq<Version>)
    ensures |store| <= |r| && r[..|store|] == store
    ensures forall k :: |store| <= k < |r| ==>
      r[k].auto && r[k].roomId in ids && r[k].roomId in states &&
      Eligible(states[r[k].roomId]) && r[k].code == states[r[k].roomId].code
    decreases |ids|
  {
    if |ids| == 0 then store
    else
      var acc := AutoSaved(states, ids[..|ids| - 1], store);
      var id := ids[|ids| - 1];
      if id in states && ShouldAutoSave(states[id], LastAutoCode(acc, id)) then
        acc + [Version(id, states[id].code, true)]
      else acc
  }

  /** After a tick, the newest automatic version of every eligible room
      holds its current code; the other rooms are as before. */
  lemma {:induction false} AutoSavedLast(states: map<string, RoomState>, ids: seq<string>, store: seq<Version>, roomId: string)
    ensures LastAutoCode(AutoSaved(states, ids, store), roomId) ==
      if roomId in ids && roomId in states && Eligible(states[roomId]) then Some(states[roomId].code)
      else LastAutoCode(store, roomId)
    decreases |ids|
  {
    if |ids| > 0 {
      var prefix := ids[..|ids| - 1];
      var id := ids[|ids| - 1];
      assert ids == prefix + [id];
      AutoSavedLast(states, prefix, store, roomId);
      var acc := AutoSaved(states, prefix, store);
      if id in states && ShouldAutoSave(states[id], LastAutoCode(acc, id)) {
        LastAutoPush(acc, Version(id, states[id].code, true), roomId);
      }
    }
  }

  /** The `k`-th version of `r` differs from the newest automatic version
      of its room before it. */
  predicate NewToRoom(r: seq<Version>, k: nat)
    requires k < |r|
  {
    LastAutoCode(r[..k], r[k].roomId) != Some(r[k].code)
  }

  /** Appending a version that is new to its room keeps every version
      from `n` on new to its room. */
  lemma NewToRoomPush(acc: seq<Version>, v: Version, n: nat)
    requires forall k :: n <= k < |acc| ==> NewToRoom(acc, k)
    requires LastAutoCode(acc, v.roomId) != Some(v.code)
    ensures forall k :: n <= k < |acc| + 1 ==> NewToRoom(acc + [v], k)
  {
    var r := acc + [v];
    forall k | n <= k < |r|
      ensures NewToRoom(r, k)
    {
      if k < |acc| {
        assert r[..k] == acc[..k];
        assert NewToRoom(acc, k);
      } else {
        assert r[..k] == acc;
      }
    }
  }

  /** Room by room, a tick writes a version only when the room has no
      automatic version yet or the newest one holds other code, whatever
      the other rooms do. */
  lemma {:induction false} AutoSavedDedup(states: map<string, RoomState>, ids: seq<string>, store: seq<Version>)
    ensures forall k :: |store| <= k < |AutoSaved(states, ids, store)| ==> NewToRoom(AutoSaved(states, ids, store), k)
    decreases |ids|
  {
    if |ids| > 0 {
      var prefix := ids[..|ids| - 1];
      var id := ids[|ids| - 1];
      AutoSavedDedup(states, prefix, store);
      var acc := AutoSaved(states, prefix, store);
      if id in states && ShouldAutoSave(states[id], LastAutoCode(acc, id)) {
        assert LastAutoCode(acc, id) != Some(states[id].code);
        NewToRoomPush(acc, Version(id, states[id].code, true), |store|);
        assert AutoSaved(states, ids, store) == acc + [Version(id, states[id].code, true)];
      } else {
        assert AutoSaved(states, ids, store) == acc;
      }
    }
  }

  /** Appending a version for a room none of the versions from `n` on
      belongs to keeps those versions one per room. */
  lemma OncePerRoomPush(acc: seq<Version>, v: Version, n: nat, rooms: seq<string>)
    requires forall j, k :: n <= j < k < |acc| ==> acc[j].roomId != acc[k].roomId
    requires forall k :: n <= k < |acc| ==> acc[k].roomId in rooms
    requires v.roomId !in rooms
    ensures var r := acc + [v];
      forall j, k :: n <= j < k < |r| ==> r[j].roomId != r[k].roomId
  {
  }

  /** With no room listed twice, a tick writes at most one version per
      room. */
  lemma {:induction false} AutoSavedOncePerRoom(states: map<string, RoomState>, ids: seq<string>, store: seq<Version>)
    requires Distinct(ids)
    ensures forall j, k :: |store| <= j < k < |AutoSaved(states, ids, store)| ==>
      AutoSaved(states, ids, store)[j].roomId != AutoSaved(states, ids, store)[k].roomId
    decreases |ids|
  {
    if |ids| > 0 {
      var prefix := ids[..|ids| - 1];
      var id := ids[|ids| - 1];
      assert Distinct(prefix);
      AutoSavedOncePerRoom(states, prefix, store);
      var acc := AutoSaved(states, prefix, store);
      if id in states && ShouldAutoSave(states[id], LastAutoCode(acc, id)) {
        assert id !in prefix by {
          forall i | 0 <= i < |prefix|
            ensures prefix[i] != id
          {
            assert prefix[i] == ids[i];
          }
        }
        OncePerRoomPush(acc, Version(id, states[id].code, true), |store|, prefix);
      }
    }
  }

  /** When every eligible room's newest automatic version already holds
      its code, a tick writes nothing. */
  lemma {:induction false} AutoSavedFixpoint(states: map<string, RoomState>, ids: seq<string>, store: seq<Version>)
    requires forall id :: id in ids && id in states && Eligible(states[id]) ==> LastAutoCode(store, id) == Some(states[id].code)
    ensures AutoSaved(states, ids, store) == store
    decreases |ids|
  {
    if |ids| > 0 {
      var prefix := ids[..|ids| - 1];
      assert forall id :: id in prefix ==> id in ids;
      AutoSavedFixpoint(states, prefix, store);
    }
  }

  /** A second tick with no change in between writes nothing: a room's
      code is saved automatically at most once in a row. */
  lemma AutoSaveIdempotent(states: map<string, RoomState>, ids: seq<string>, store: seq<Version>)
    ensures AutoSaved(states, ids, AutoSaved(states, ids, store)) == AutoSaved(states, ids, store)
  {
    var once := AutoSaved(states, ids, store);
    forall id | id in ids && id in states && Eligible(states[id])
      ensures LastAutoCode(once, id) == Some(states[id].code)
    {
      AutoSavedLast(states, ids, store, id);
    }
    AutoSavedFixpoint(states, ids, once);
  }

  // ------------------------------------------------------------ grading

  /** What one run of the executor gives back: its output and error text,
      or an exception with its message. */
  datatype Outcome = Ran(output: string, error: string) | Threw(message: string)

  /** One entry of `results`; the execution time is left out. */
  datatype TestResult = TestResult(
    testCase: nat, input: string, expectedOutput: string,
    actualOutput: string, passed: bool, error: bool)

  datatype Summary = Summary(total: nat, passed: nat, failed: int)

  /** The result recorded for test case number `i` (from 0). */
  function Graded(i: nat, tc: TestCase, outcome: Outcome): (r: TestResult)
    ensures r.testCase == i + 1 && r.input == tc.input && r.expectedOutput == tc.expectedOutput
    ensures r.passed <==> outcome.Ran? && outcome.error == "" && Trim(outcome.output) == Trim(tc.expectedOutput)
    ensures r.error <==> outcome.Threw? || outcome.error != ""
    ensures outcome.Threw? ==> r.actualOutput == outcome.message
    ensures outcome.Ran? ==> r.actualOutput == if outcome.output != "" then outcome.output else outcome.error
  {
    match outcome
    case Ran(output, error) =>
      TestResult(i + 1, tc.input, tc.expectedOutput, if output != "" then output else error,
        error == "" && Trim(output) == Trim(tc.expectedOutput), error != "")
    case Threw(message) =>
      TestResult(i + 1, tc.input, tc.expectedOutput, message, false, true)
  }

  predicate IsPassed(r: TestResult) {
    r.passed
  }

  predicate IsFailed(r: TestResult) {
    !r.passed
  }

  /** The grading loop of `run-test-cases`: every case is run with its
      input as standard input (`run` stands for the executor on the room's
      files), one result per case in order, a thrown run recorded as a
      failure without stopping the batch; then the counts. */
  method RunTestCases(cases: seq<TestCase>, run: string -> Outcome) returns (results: seq<TestResult>, summary: Summary)
    ensures |results| == |cases|
    ensures forall i :: 0 <= i < |cases| ==> results[i] == Graded(i, cases[i], run(cases[i].input))
    ensures summary.total == |cases| && summary.passed == Count(results, IsPassed)
    ensures summary.failed == Count(results, IsFailed) == summary.total - summary.passed
  {
    results := [];
    var i := 0;
    while i < |cases|
      invariant 0 <= i <= |cases| && |results| == i
      invariant forall j :: 0 <= j < i ==> results[j] == Graded(j, cases[j], run(cases[j].input))
    {
      results := results + [Graded(i, cases[i], run(cases[i].input))];
      i := i + 1;
    }
    var totalPassed := Count(results, IsPassed);
    CountComplement(results, IsPassed, IsFailed);
    summary := Summary(|results|, totalPassed, |results| - totalPassed);
  }

  /** A disconnect empties a room when the user was in it and was its
      last user. */
  predicate EmptiedBy(states: map<string, RoomState>, id: string, socketId: string) {
    id in states && states[id].users.Has(socketId) && Left(states[id], socketId).users.keys == []
  }

  /** The room store, `rooms`: a `Map` from room id to room, in insertion
      order. */
  class Server {
    var rooms: Dict<Room>

    ghost function Rooms(): set<Room>
      reads this
    {
      rooms.vals.Values
    }

    /** The value of every room, by id. */
    ghost function States(): map<string, RoomState>
      reads this, Rooms()
    {
      map id | id in rooms.vals :: rooms.vals[id].State()
    }

    /** Each id has a room of its own. */
    ghost predicate Valid()
      reads this
    {
      rooms.Valid() && forall id :: id in rooms.vals ==> rooms.vals[id].roomId == id
    }

    constructor ()
      ensures Valid() && rooms.keys == []
    {
      rooms := Empty();
    }

    /** The handler of `e` for room `roomId`: `join-room` creates the room
        when the id is unknown; every other handler does nothing for an
        unknown id (`if (room)`). Only that room changes. */
    method Receive(roomId: string, e: Event)
      requires Valid()
      modifies this, if roomId in rooms.vals then {rooms.vals[roomId]} else {}
      ensures Valid()
      ensures rooms.keys == if e.JoinRoom? && roomId !in old(rooms.vals) then old(rooms.keys) + [roomId] else old(rooms.keys)
      ensures forall id :: id in old(rooms.vals) ==> id in rooms.vals && rooms.vals[id] == old(rooms.vals[id])
      ensures roomId in rooms.vals <==> roomId in old(rooms.vals) || e.JoinRoom?
      ensures roomId in rooms.vals ==>
        rooms.vals[roomId].State() == Step(if roomId in old(rooms.vals) then old(rooms.vals[roomId].State()) else NewRoom(), e)
      ensures forall id :: id in old(rooms.vals) && id != roomId ==> rooms.vals[id].State() == old(rooms.vals[id].State())
    {
      if roomId !in rooms.vals {
        if !e.JoinRoom? {
          return;
        }
        Create(roomId);
      }
      var room := rooms.vals[roomId];
      room.Apply(e);
    }

    /** `rooms.set(roomId, {...})` for an unknown id. */
    method Create(roomId: string)
      requires Valid() && roomId !in rooms.vals
      modifies this
      ensures Valid() && rooms.keys == old(rooms.keys) + [roomId]
      ensures forall id :: id in old(rooms.vals) ==> id in rooms.vals && rooms.vals[id] == old(rooms.vals[id])
      ensures roomId in rooms.vals && fresh(rooms.vals[roomId]) && rooms.vals[roomId].State() == NewRoom()
    {
      var created := new Room(roomId);
      rooms := rooms.Put(roomId, created);
    }

    /** `disconnect`: the user leaves every room it was in; the result
        names the rooms that became empty, for each of which a deletion
        timer is started. */
    method Disconnect(socketId: string) returns (emptied: seq<string>)
      requires Valid()
      modifies Rooms()
      ensures Valid() && rooms == old(rooms)
      ensures forall id :: id in rooms.vals ==> rooms.vals[id].State() == Left(old(rooms.vals[id].State()), socketId)
      ensures forall id :: id in emptied <==>
        id in rooms.vals && old(rooms.vals[id].users.Has(socketId)) && rooms.vals[id].users.keys == []
    {
      emptied := [];
      ghost var before := map id | id in rooms.vals :: rooms.vals[id].State();
      var i := 0;
      while i < |rooms.keys|
        invariant 0 <= i <= |rooms.keys|
        invariant LeftUpTo(i, socketId, before)
        invariant forall id :: id in emptied ==> id in rooms.vals
        invariant forall j :: 0 <= j < |rooms.keys| ==>
          (rooms.keys[j] in emptied <==> j < i && EmptiedBy(before, rooms.keys[j], socketId))
      {
        var id := rooms.keys[i];
        var nowEmpty := LeaveAt(i, socketId, before);
        ghost var was := emptied;
        if nowEmpty {
          emptied := emptied + [id];
        }
        forall j | 0 <= j < |rooms.keys|
          ensures rooms.keys[j] in emptied <==> j < i + 1 && EmptiedBy(before, rooms.keys[j], socketId)
        {
          if j != i {
            assert rooms.keys[j] != id;
            assert rooms.keys[j] in emptied <==> rooms.keys[j] in was;
          }
        }
        i := i + 1;
      }
    }

    /** The rooms before position `i` have lost the user; the others are as
        they were in `before`. */
    ghost predicate LeftUpTo(i: nat, socketId: string, before: map<string, RoomState>)
      reads this, Rooms()
    {
      Valid() && i <= |rooms.keys| &&
      forall j :: 0 <= j < |rooms.keys| ==>
        rooms.keys[j] in before &&
        rooms.vals[rooms.keys[j]].State() == if j < i then Left(before[rooms.keys[j]], socketId) else before[rooms.keys[j]]
    }

    /** One pass of the `forEach` of `disconnect`. */
    method LeaveAt(i: nat, socketId: string, ghost before: map<string, RoomState>) returns (nowEmpty: bool)
      requires i < |rooms.keys| && LeftUpTo(i, socketId, before)
      modifies rooms.vals[rooms.keys[i]]
      ensures LeftUpTo(i + 1, socketId, before)
      ensures nowEmpty == EmptiedBy(before, rooms.keys[i], socketId)
    {
      var id := rooms.keys[i];
      var room := rooms.vals[id];
      nowEmpty := room.Leave(socketId);
      forall j | 0 <= j < |rooms.keys| && j != i
        ensures rooms.vals[rooms.keys[j]] != room
      {
        assert rooms.vals[rooms.keys[j]].roomId == rooms.keys[j] != id;
      }
    }

    /** One tick of the auto-save timer, over the rooms in store order;
        the store lookup is `LastAutoCode`. */
    method AutoSave(store: seq<Version>) returns (newStore: seq<Version>)
      requires Valid()
      ensures newStore == AutoSaved(States(), rooms.keys, store)
    {
      newStore := store;
      var i := 0;
      while i < |rooms.keys|
        invariant 0 <= i <= |rooms.keys|
        invariant newStore == AutoSaved(States(), rooms.keys[..i], store)
      {
        var id := rooms.keys[i];
        var room := rooms.vals[id];
        assert rooms.keys[..i + 1][..i] == rooms.keys[..i];
        assert States()[id] == room.State();
        var last := LastAutoCode(newStore, id);
        if room.code != "" && Trim(room.code) != "" && |room.users.keys| > 0 && (last.None? || last.value != room.code) {
          newStore := newStore + [Version(id, room.code, true)];
        }
        i := i + 1;
      }
      assert rooms.keys[..i] == rooms.keys;
    }

    /** The deletion timer: the room goes only if it exists and is still
        empty when the timer fires. */
    method RemoveIfEmpty(roomId: string)
      requires Valid()
      modifies this
      ensures Valid()
      ensures rooms == if roomId in old(rooms.vals) && old(rooms.vals[roomId].users.keys) == [] then old(rooms).Remove(roomId) else old(rooms)
    {
      if roomId in rooms.vals && |rooms.vals[roomId].users.keys| == 0 {
        rooms := rooms.Remove(roomId);
      }
    }
  }
}
