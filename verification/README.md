# CodeTogether, modelled in Dafny

CodeTogether is a collaborative code editor. Users join a room over a
socket connection and share the room's files, the active file, test
cases and a timed interview mode. The server keeps every room in memory,
saves an automatic version of a room's code every minute, and runs code
on Judge0. Before it runs a multi-file project, it bundles the files
into one program. A GitHub gist can hold a room's files, and files can
be imported from a gist.

This project models that core and proves properties of the model:

- the server's room store and its socket handlers (`server.dfy`), with
  the automatic version saving and the grading of test cases;
- the multi-file executor (`executor.dfy`) and its per-language
  bundlers:
  - JavaScript (`jsbundle.dfy`) and Python (`pybundle.dfy`), which share
    a depth-first dependency walk (`walk.dfy`);
  - Java (`javabundle.dfy`) and C/C++ (`cppbundle.dfy`);
  - the regular expressions the bundlers use, written as scanners
    (`patterns.dfy`);
- the gist routes (`gist.dfy`);
- the client's file provider (`clientfiles.dfy`) and file tree
  (`explorer.dfy`);
- the interview provider (`interview.dfy`), its timer colours
  (`timer.dfy`) and the feedback screen (`feedback.dfy`);
- the complexity estimator (`complexity.dfy`), the version diff
  (`diff.dfy`), the test-case list (`testcases.dfy`) and the template
  search (`templates.dfy`);
- the shared constant tables (`constants.dfy`).

Some Dafny types stand for JavaScript data:

- A JavaScript object used as a dictionary is a `Dict` (`collections.dfy`).
  It holds its keys in insertion order next to a map.
- Each state that a class updates in place is a Dafny `class`:
  - a server room and the room registry;
  - the client's file and interview providers;
  - the dependency walk of the bundlers.

  Each method of such a class is proved against a pure function on the
  state. The lemmas about those functions carry the properties.
- The clock, random choices, the network, the database and Judge0 are
  parameters of the operations that use them.

## Model

| member | source | states |
|---|---|---|
| Constants.LanguageOfExt | client/src/utils/constants.js:40-58 | an extension has a language exactly when it is one of the 17 listed, and that language is the listed one |
| Constants.LanguagesRoundTrip | client/src/utils/constants.js:3-15 | every language of the language list is found back from its own extension; `jsx` and `tsx` give JavaScript and TypeScript |
| Constants.LanguagesDistinct | client/src/utils/constants.js:3-15 | no two entries of the language list share a value or an extension |
| Constants.InterviewDuration | client/src/utils/constants.js:23-27 | easy, medium and hard last 15, 30 and 45 minutes in seconds, and no other difficulty has a duration |
| Constants.DurationsIncrease | client/src/utils/constants.js:17-27 | every difficulty has a duration, and harder difficulties last strictly longer |
| Timer.GetTimerClass | client/src/components/interview/TimerWidget.jsx:12-16 | critical at 60 seconds or less, warning up to 5 minutes, normal above; each class holds for exactly its range |
| Timer.SeverityGrows | client/src/components/interview/TimerWidget.jsx:12-16 | as time runs down the class never becomes less severe |
| Templates.FilteredTemplates | client/src/components/TemplateModal.jsx:11-13 | a name is listed exactly when it is a template name containing the search term, ignoring case |
| Templates.FilteredKeepsOrder | client/src/components/TemplateModal.jsx:11-13 | the list keeps the templates' order and lists no name twice |
| Templates.EmptySearchListsAll | client/src/components/TemplateModal.jsx:11-13 | an empty search lists every template, in order |
| Templates.SearchIgnoresCase | client/src/components/TemplateModal.jsx:11-13 | a search term and its lower-case form list the same templates |
| Templates.SelectTemplate | client/src/components/TemplateModal.jsx:15-19 | a template name gives that template's code, which is handed on before the modal closes; any other name gives nothing, standing for the `TypeError` on `template.code` that leaves the modal open |
| Templates.ListedAreSelectable | client/src/components/TemplateModal.jsx:11-19 | every listed name selects its template's code |
| Diff.LineAt | client/src/components/version/DiffViewer.jsx:23-24 | a line past the end of a text reads as empty |
| Diff.Classify | client/src/components/version/DiffViewer.jsx:26-34 | same, added, removed and modified each hold exactly for their condition on the two lines |
| Diff.DiffOf | client/src/components/version/DiffViewer.jsx:16-38 | one entry per line of the longer text, numbered from 1, holding both texts' padded lines at that position and their classification |
| Diff.ComputeDiff | client/src/components/version/DiffViewer.jsx:16-38 | the loop builds exactly `DiffOf`: one row per line of the longer text, numbered from 1, each holding both lines and their classification |
| Diff.StatsOf | client/src/components/version/DiffViewer.jsx:41-45 | each count is the number of rows of that kind |
| Diff.StatsAddUp | client/src/components/version/DiffViewer.jsx:41-45 | the three counts plus the unchanged rows make up the whole diff |
| Diff.IdenticalTextsAreSame | client/src/components/version/DiffViewer.jsx:16-45 | a text compared with itself has only unchanged rows and all counts zero |
| Diff.DiffKeepsBothTexts | client/src/components/version/DiffViewer.jsx:16-38 | joining the old lines of the first rows gives the old text back, and the same holds for the new text |
| TestCaseList.WithField | client/src/components/TestCases.jsx:26-28 | an edit sets the named field, keeps the other field and keeps the id |
| TestCaseList.AddTestCase | client/src/components/TestCases.jsx:16-23 | adding keeps the cases and appends one blank case whose id is the clock |
| TestCaseList.UpdateTestCase | client/src/components/TestCases.jsx:25-30 | every case with the id gets the edit, and every other case is unchanged, in place |
| TestCaseList.UpdateAbsentId | client/src/components/TestCases.jsx:25-30 | editing an id that no case has changes nothing |
| TestCaseList.DeleteTestCase | client/src/components/TestCases.jsx:32-34 | a case is kept exactly when its id differs |
| TestCaseList.DeleteSpec | client/src/components/TestCases.jsx:32-34 | deleting keeps the order, removes exactly the cases with that id, and changes nothing when no case has it |
| Feedback.FormatDuration | client/src/components/interview/InterviewFeedback.jsx:19-23 | any whole number of seconds, negative ones included, is written as minutes, `m `, seconds, `s` |
| Feedback.TruncRemainder | client/src/components/interview/InterviewFeedback.jsx:21 | JavaScript's `seconds % 60`: the remainder lies strictly between -60 and 60, has the sign of the dividend, and differs from it by a multiple of 60 |
| Feedback.DurationReads | client/src/components/interview/InterviewFeedback.jsx:19-23 | the minutes read back as the floor of the duration in minutes, and the seconds as the remainder with the duration's sign; a duration that is not negative reads back as minutes and seconds below 60, and a negative one that is not whole minutes reads a minute short |
| Feedback.NegativeDuration | client/src/components/interview/InterviewFeedback.jsx:19-23 | five seconds before the start reads as `-1m -5s` |
| Feedback.ScoreRating | client/src/components/interview/InterviewFeedback.jsx:25-31 | each rating holds exactly for its score band; no score rates poor |
| Feedback.RatingMonotone | client/src/components/interview/InterviewFeedback.jsx:25-31 | a higher score never gets a lower rating |
| Feedback.RatingClassesDistinct | client/src/components/interview/InterviewFeedback.jsx:25-31 | different ratings have different CSS classes |
| Feedback.SuccessRate | client/src/components/interview/InterviewFeedback.jsx:96-103 | no summary or no tests shows 0 |
| Feedback.SuccessRateRange | client/src/components/interview/InterviewFeedback.jsx:96-103 | the rate is at most 100, and it is 100 when every test passed |
| Feedback.EveryInsightListed | client/src/components/interview/InterviewFeedback.jsx:158-190 | the insight list covers every kind of insight |
| Feedback.InsightsAsWritten | client/src/components/interview/InterviewFeedback.jsx:158-190 | an insight is shown exactly when its condition as written holds; the all-passed line also shows without any summary |
| Feedback.NoTestsClaimAllPassed | client/src/components/interview/InterviewFeedback.jsx:168-172 | without test results the screen shows a score of 0 and a poor rating next to the line saying all tests passed |
| Feedback.Insights | client/src/components/interview/InterviewFeedback.jsx:158-190 | an insight is shown exactly when its intended condition holds, in the screen's order |
| Feedback.InsightsConsistent | client/src/components/interview/InterviewFeedback.jsx:158-190 | no two contradicting insights show together; with a summary exactly one of all-passed or edge-cases-failed shows, and all-passed implies a 100% rate |
| InterviewClient.Initial | client/src/contexts/InterviewContext.jsx:28-36 | the provider starts out of interview mode, with the timer stopped and no problem, results or start time |
| InterviewClient.StarterEntry | client/src/contexts/InterviewContext.jsx:131-132 | the problem's starter code for a language, present exactly when the problem has one for that language |
| InterviewClient.StarterCode | client/src/contexts/InterviewContext.jsx:130-133 | the starter code for the language, else the JavaScript one, else the generic stub; never empty |
| InterviewClient.StubNamesProblem | client/src/contexts/InterviewContext.jsx:133 | the generic stub's first line is a comment naming the problem |
| InterviewClient.Started | client/src/contexts/InterviewContext.jsx:135-144 | starting enters interview mode with the timer running, the starter code, the difficulty's duration and the start time, and clears the results |
| InterviewClient.Ended | client/src/contexts/InterviewContext.jsx:163-169 | ending leaves interview mode, stops the timer and clears the code and problem; the rest is kept |
| InterviewClient.Ticked | client/src/contexts/InterviewContext.jsx:40-53 | a tick of a running timer takes one second off and stops the timer when time runs out; otherwise nothing changes |
| InterviewClient.Countdown | client/src/contexts/InterviewContext.jsx:40-61 | after n ticks the time left is the start value less n, never below 0; the time-up handler fires at most once and only if time ran out; nothing else changes |
| InterviewClient.PausedTimerStays | client/src/contexts/InterviewContext.jsx:40-41 | a stopped timer never changes and never fires the time-up handler |
| InterviewClient.InterviewRunsOut | client/src/contexts/InterviewContext.jsx:40-61 | a started interview runs for exactly its duration, then the time-up handler fires once and the timer stops while interview mode stays on |
| InterviewClient.RoundMono | client/src/contexts/InterviewContext.jsx:213-216 | rounding half up never reverses an order |
| InterviewClient.Score | client/src/contexts/InterviewContext.jsx:210-217 | no summary scores 0; a summary gives a number exactly when there are tests and a duration |
| InterviewClient.ScoreRange | client/src/contexts/InterviewContext.jsx:210-217 | a score is between 0 and 100 |
| InterviewClient.PerfectScore | client/src/contexts/InterviewContext.jsx:210-217 | passing every test at once scores 100 |
| InterviewClient.ScoreMonotone | client/src/contexts/InterviewContext.jsx:210-217 | passing more tests never lowers the score |
| InterviewClient.Submitted | client/src/contexts/InterviewContext.jsx:177-208 | the results hold the code, the summary, the whole seconds since the start, the duration, the difficulty, the problem and the score that `Score` computes from that summary, time taken and duration; interview mode, the timer and the code are cleared |
| InterviewClient.SubmittedScoreRange | client/src/contexts/InterviewContext.jsx:179-199 | a submission made no earlier than the start, with no more tests passed than ran, stores a score between 0 and 100 whenever it stores one |
| InterviewClient.EndedAndSubmitted | client/src/contexts/InterviewContext.jsx:163-204 | ending twice is ending once, and ending after a submit only clears the problem |
| InterviewClient.FormatClock | client/src/contexts/InterviewContext.jsx:219-223 | the clock has a colon before two digits of seconds and is five characters long below 100 minutes |
| InterviewClient.ClockReads | client/src/contexts/InterviewContext.jsx:219-223 | the clock reads back as minutes and seconds below 60 that add up to the time |
| InterviewClient.Provider.constructor | client/src/contexts/InterviewContext.jsx:27-36 | a provider starts in the initial state |
| InterviewClient.Provider.StartInterview | client/src/contexts/InterviewContext.jsx:122-156 | the given problem or else the random one; the state becomes the started session; the start message carries the problem, difficulty and duration |
| InterviewClient.Provider.HandleEndInterview | client/src/contexts/InterviewContext.jsx:163-169 | the state becomes the ended session |
| InterviewClient.Provider.EndInterview | client/src/contexts/InterviewContext.jsx:158-161 | sends the end message and ends the session |
| InterviewClient.Provider.Tick | client/src/contexts/InterviewContext.jsx:40-61 | the state ticks, and the timeout end message is sent exactly on the tick that runs out |
| InterviewClient.Provider.PauseTimer | client/src/contexts/InterviewContext.jsx:237 | only the timer stops |
| InterviewClient.Provider.ResumeTimer | client/src/contexts/InterviewContext.jsx:238 | only the timer restarts |
| InterviewClient.Provider.UpdateInterviewCode | client/src/contexts/InterviewContext.jsx:240-243 | only the code changes |
| InterviewClient.Provider.SubmitInterview | client/src/contexts/InterviewContext.jsx:177-208 | the state becomes the submitted session, and the message carries the code before the submit |
| ClientFiles.LanguageFromName | client/src/contexts/FileContext.jsx:34-37 | a known language, or `plaintext` exactly when the extension is unknown |
| ClientFiles.LanguageByExtension | client/src/contexts/FileContext.jsx:34-37 | the language is read from the text after the last dot, ignoring case |
| ClientFiles.ExtensionAfterLastDot | client/src/contexts/FileContext.jsx:35 | the extension is the lower-cased text after the last dot |
| ClientFiles.LanguageWithoutDot | client/src/contexts/FileContext.jsx:34-37 | a name without a dot is looked up as a whole |
| ClientFiles.DefaultFiles | client/src/contexts/FileContext.jsx:24-32 | one empty JavaScript file, `main.js` |
| ClientFiles.Initial | client/src/contexts/FileContext.jsx:40-42 | the default files, with `main.js` active and its only tab |
| ClientFiles.Create | client/src/contexts/FileContext.jsx:116-139 | a blank or existing name changes nothing; otherwise the new empty file is appended, opened once, made active and sent |
| ClientFiles.CreateOpensOnce | client/src/contexts/FileContext.jsx:134 | a created file has exactly one tab |
| ClientFiles.Delete | client/src/contexts/FileContext.jsx:141-162 | the last file is never deleted; otherwise the file and its tab go, the first remaining file becomes active if it was active, and the deletion is sent |
| ClientFiles.DeleteKeepsAFile | client/src/contexts/FileContext.jsx:141-162 | deleting keeps the order, removes at most one file and never empties the files |
| ClientFiles.Rename | client/src/contexts/FileContext.jsx:164-194 | a blank, unchanged or taken new name changes nothing; otherwise the file moves to the trimmed name with its content and a recomputed language, tabs and active file follow, other files are untouched, and the rename is sent |
| ClientFiles.RenameNeverToSelf | client/src/contexts/FileContext.jsx:166-172 | a rename that is sent never targets an existing file |
| ClientFiles.Select | client/src/contexts/FileContext.jsx:196-205 | an unknown file changes nothing; a known one becomes active, gets a tab if it had none, and the selection is sent |
| ClientFiles.Close | client/src/contexts/FileContext.jsx:207-221 | the tab goes; a closed active file hands over to an open tab or to none |
| ClientFiles.CloseNeighbour | client/src/contexts/FileContext.jsx:213-218 | closing the active tab activates the tab to its right, else the one to its left, else none |
| ClientFiles.CloseUnopened | client/src/contexts/FileContext.jsx:213-218 | closing an active file that has no tab leaves no active file |
| ClientFiles.UpdateContent | client/src/contexts/FileContext.jsx:223-236 | the file gets the new content, nothing else changes, and the change is sent |
| ClientFiles.OnFilesState | client/src/contexts/FileContext.jsx:47-56 | a non-empty server state replaces the files and opens every file; the server's active file is taken when it has one |
| ClientFiles.OnFileCreated | client/src/contexts/FileContext.jsx:58-67 | a remote file is added unless one of that name exists, and gets a tab |
| ClientFiles.OnFileDeleted | client/src/contexts/FileContext.jsx:69-80 | a remote deletion removes the file and its tab and moves the active file to the first remaining one |
| ClientFiles.OnFileRenamed | client/src/contexts/FileContext.jsx:82-91 | a remote rename moves the file, keeping its language, and renames its tabs and the active file |
| ClientFiles.RenamedOntoOpenFile | client/src/contexts/FileContext.jsx:89 | a remote rename onto a name that already has a tab leaves that name open twice |
| ClientFiles.OnFileContentUpdate | client/src/contexts/FileContext.jsx:93-98 | a remote content change has the same effect on the files as a local one |
| ClientFiles.OnFileSelected | client/src/contexts/FileContext.jsx:100-104 | a remote selection only opens a tab; the local active file stays |
| ClientFiles.CreateKeepsValid | client/src/contexts/FileContext.jsx:116-139 | creating keeps the workspace well formed: distinct tabs and an active file that all name existing files |
| ClientFiles.DeleteKeepsValid | client/src/contexts/FileContext.jsx:141-162 | deleting keeps the workspace well formed |
| ClientFiles.RenameKeepsValid | client/src/contexts/FileContext.jsx:164-194 | renaming keeps the workspace well formed |
| ClientFiles.SelectKeepsValid | client/src/contexts/FileContext.jsx:196-205 | selecting keeps the workspace well formed |
| ClientFiles.CloseKeepsValid | client/src/contexts/FileContext.jsx:207-221 | closing a tab keeps the workspace well formed |
| ClientFiles.UpdateContentKeepsValid | client/src/contexts/FileContext.jsx:223-236 | a content change keeps the workspace well formed |
| ClientFiles.OnFilesStateKeepsValid | client/src/contexts/FileContext.jsx:47-56 | a server state whose active file exists keeps the workspace well formed |
| ClientFiles.OnFileCreatedKeepsValid | client/src/contexts/FileContext.jsx:58-67 | a remote creation keeps the workspace well formed |
| ClientFiles.OnFileDeletedKeepsValid | client/src/contexts/FileContext.jsx:69-80 | a remote deletion keeps the workspace well formed |
| ClientFiles.OnFileRenamedKeepsValid | client/src/contexts/FileContext.jsx:82-91 | a remote rename onto a free name keeps the workspace well formed |
| ClientFiles.OnFileSelectedKeepsValid | client/src/contexts/FileContext.jsx:100-104 | a remote selection of an existing file keeps the workspace well formed |
| ClientFiles.CreateMirrored | client/src/contexts/FileContext.jsx:132-133 | the server applying the sent creation ends with the same files as the client |
| ClientFiles.DeleteMirrored | client/src/contexts/FileContext.jsx:150-158 | the server applying the sent deletion ends with the same files as the client |
| ClientFiles.UpdateContentMirrored | client/src/contexts/FileContext.jsx:225-233 | the server applying the sent content change ends with the same files as the client |
| ClientFiles.RenameMirrored | client/src/contexts/FileContext.jsx:174-191 | after a sent rename the server has the same names, order and contents as the client, but it keeps the old language while the client recomputes it |
| ClientFiles.RenameLanguageDiverges | client/src/contexts/FileContext.jsx:176-180 | renaming `a.js` to `a.py` makes it Python for the renaming client and leaves it JavaScript on the server |
| ClientFiles.FileProvider.constructor | client/src/contexts/FileContext.jsx:39-42 | a provider starts in the initial workspace |
| ClientFiles.FileProvider.CreateFile | client/src/contexts/FileContext.jsx:116-139 | the state and the message are those of `Create` |
| ClientFiles.FileProvider.DeleteFile | client/src/contexts/FileContext.jsx:141-162 | the state and the message are those of `Delete` |
| ClientFiles.FileProvider.RenameFile | client/src/contexts/FileContext.jsx:164-194 | the state and the message are those of `Rename` |
| ClientFiles.FileProvider.SelectFile | client/src/contexts/FileContext.jsx:196-205 | the state and the message are those of `Select` |
| ClientFiles.FileProvider.CloseTab | client/src/contexts/FileContext.jsx:207-221 | the state is that of `Close` |
| ClientFiles.FileProvider.UpdateFileContent | client/src/contexts/FileContext.jsx:223-236 | the state and the message are those of `UpdateContent` |
| ClientFiles.FileProvider.HandleFilesState | client/src/contexts/FileContext.jsx:47-56 | the state is that of `OnFilesState` |
| ClientFiles.FileProvider.HandleFileCreated | client/src/contexts/FileContext.jsx:58-67 | the state is that of `OnFileCreated` |
| ClientFiles.FileProvider.HandleFileDeleted | client/src/contexts/FileContext.jsx:69-80 | the state is that of `OnFileDeleted` |
| ClientFiles.FileProvider.HandleFileRenamed | client/src/contexts/FileContext.jsx:82-91 | the state is that of `OnFileRenamed` |
| ClientFiles.FileProvider.HandleFileContentUpdate | client/src/contexts/FileContext.jsx:93-98 | the state is that of `OnFileContentUpdate` |
| ClientFiles.FileProvider.HandleFileSelected | client/src/contexts/FileContext.jsx:100-104 | the state is that of `OnFileSelected` |
| Explorer.IconColor | client/src/components/FileExplorer/FileExplorer.jsx:20-46 | a listed extension has its colour and any other the default grey |
| Explorer.DefaultColorIffPlainText | client/src/components/FileExplorer/FileExplorer.jsx:20-46 | a file has the grey icon exactly when the editor treats it as plain text |
| Explorer.NewFileSubmit | client/src/components/FileExplorer/FileExplorer.jsx:179-182 | a blank value cancels, and any other value is submitted trimmed |
| Explorer.FolderPlaceholder | client/src/components/FileExplorer/FileExplorer.jsx:219-222 | a new folder is the file `.gitkeep` inside it |
| Explorer.RenameSubmit | client/src/components/FileExplorer/FileExplorer.jsx:91-95 | a rename is passed on, trimmed, exactly when the value is not blank and differs from the name |
| Explorer.PaddedRenameIsIgnored | client/src/components/FileExplorer/FileExplorer.jsx:91-95 | a value that only pads the name with a space passes the input and is then ignored by the provider |
| Explorer.Entries | client/src/components/FileExplorer/FileExplorer.jsx:246-252 | one entry per name, in order |
| Explorer.Members | client/src/components/FileExplorer/FileExplorer.jsx:241-253 | the names that fall into a group |
| Explorer.AddPathLists | client/src/components/FileExplorer/FileExplorer.jsx:242-253 | one step of the loop keeps the tree a listing of the names seen so far |
| Explorer.OrganizeGroups | client/src/components/FileExplorer/FileExplorer.jsx:239-256 | a group exists exactly when some name falls into it, and it lists those names' entries in their order |
| Explorer.EntryRoundTrip | client/src/components/FileExplorer/FileExplorer.jsx:242-253 | a root entry shows the whole name; a folder, a slash and the shown name make up the name |
| Explorer.FolderPlaceholderListed | client/src/components/FileExplorer/FileExplorer.jsx:219-249 | a new folder shows up under its name, holding `.gitkeep` |
| Explorer.OrganizeFiles | client/src/components/FileExplorer/FileExplorer.jsx:239-256 | the loop builds the tree of the file names |
| RoomServer.DefaultFiles | server/server.js:85-94 | one JavaScript file, `main.js`, holding the welcome text |
| RoomServer.NewRoom | server/server.js:128-139 | a new room has the welcome file, active and mirrored in its code, and no users, test cases or interview |
| RoomServer.GuestName | server/server.js:145 | `Guest` followed by the first four characters of the socket id, or the whole id when it is shorter |
| RoomServer.Joined | server/server.js:144-148 | the user is set under its socket id, named or else called Guest plus the id's first four characters; other users are unchanged |
| RoomServer.Left | server/server.js:500-503 | the user is gone and no other user changes |
| RoomServer.Created | server/server.js:188-195 | the file is stored under its name, appended if new; other files are unchanged |
| RoomServer.FirstKey | server/server.js:202 | the first remaining file name, with an empty name counting as none |
| RoomServer.Deleted | server/server.js:197-207 | an unknown file changes nothing; otherwise only that file goes, and an active file moves to the first remaining one |
| RoomServer.DeleteLastFile | server/server.js:197-207 | the server deletes the last file too, leaving no active file |
| RoomServer.Renamed | server/server.js:209-218 | an unknown file changes nothing; otherwise the file moves to the new name and the active file follows; the other keys keep their order, a new name is appended last and a name already present keeps its place |
| RoomServer.RenameToSelfDeletes | server/server.js:211-213 | renaming a file to its own name deletes it |
| RoomServer.ContentChanged | server/server.js:228-237 | an unknown file changes nothing; otherwise it gets the content, mirrored in the room's code when it is active |
| RoomServer.Started | server/server.js:347-364 | starting saves the room's code and records the interview |
| RoomServer.Restored | server/server.js:369-373 | the saved code comes back and is cleared |
| RoomServer.Ended | server/server.js:366-378 | ending restores the saved code and clears the interview |
| RoomServer.Submitted | server/server.js:380-400 | submitting restores the saved code and leaves the interview recorded |
| RoomServer.Step | server/server.js:125-400 | each handler keeps the room well formed, and only the interview handlers touch the saved code |
| RoomServer.RunKeepsPreviousCode | server/server.js:172-245 | any series of non-interview events leaves the saved code alone |
| RoomServer.InterviewRestoresCode | server/server.js:347-378 | whatever is edited during an interview, ending it gives the code from before the start back |
| RoomServer.SubmitKeepsInterviewMode | server/server.js:380-400 | submitting restores the code from before the start but keeps interview mode on |
| RoomServer.Room.constructor | server/server.js:128-139 | a room starts as the new-room state |
| RoomServer.Room.Join | server/server.js:141-148 | the room's state becomes that of the join event |
| RoomServer.Room.Leave | server/server.js:500-508 | the user leaves, and the room reports being emptied exactly when that user was its last |
| RoomServer.Room.CodeChange | server/server.js:172-178 | the room's state becomes that of the event |
| RoomServer.Room.LanguageChange | server/server.js:180-186 | the room's state becomes that of the event |
| RoomServer.Room.FileCreate | server/server.js:188-195 | the room's state becomes that of the event |
| RoomServer.Room.FileDelete | server/server.js:197-207 | the room's state becomes that of the event |
| RoomServer.Room.FileRename | server/server.js:209-218 | the room's state becomes that of the event |
| RoomServer.Room.FileSelect | server/server.js:220-226 | the room's state becomes that of the event |
| RoomServer.Room.FileContentChange | server/server.js:228-237 | the room's state becomes that of the event |
| RoomServer.Room.UpdateTestCases | server/server.js:239-245 | the room's state becomes that of the event |
| RoomServer.Room.StartInterview | server/server.js:347-364 | the room's state becomes that of the event |
| RoomServer.Room.EndInterview | server/server.js:366-378 | the room's state becomes that of the event |
| RoomServer.Room.SubmitInterview | server/server.js:380-400 | the room's state becomes that of the event |
| RoomServer.Room.Apply | server/server.js:125-400 | the room's state becomes that of the event |
| RoomServer.LastAutoCode | server/server.js:101-103 | the newest automatic version of the room, absent exactly when the room has none |
| RoomServer.LastAutoPush | server/server.js:101-111 | storing an automatic version makes it the newest of its room and leaves other rooms' newest alone |
| RoomServer.AutoSaved | server/server.js:97-119 | a pass only appends, and appends only automatic versions of rooms that have code and users, holding their current code |
| RoomServer.AutoSavedLast | server/server.js:97-119 | after a pass each such room's newest automatic version is its current code, and other rooms are unchanged |
| RoomServer.AutoSavedDedup | server/server.js:97-111 | every version a pass writes differs from the newest automatic version its room had before it, whatever the other rooms do |
| RoomServer.AutoSavedOncePerRoom | server/server.js:97-111 | when no room is listed twice, a pass writes at most one version per room |
| RoomServer.AutoSavedFixpoint | server/server.js:104 | a pass stores nothing when every such room's newest version already holds its code |
| RoomServer.AutoSaveIdempotent | server/server.js:97-119 | a second pass with no change in between stores nothing |
| RoomServer.Graded | server/server.js:257-288 | a case passes exactly when it ran without error and the trimmed outputs agree; it is an error exactly when it threw or reported one; the shown output is the output, else the error or the exception message |
| RoomServer.RunTestCases | server/server.js:247-299 | one graded result per case, in order; the summary counts all, passed and failed cases, and failed is all less passed |
| RoomServer.Server.constructor | server/server.js:69 | the registry starts empty |
| RoomServer.Server.Receive | server/server.js:125-245 | an event for a known room changes only that room, as `Step` says; a join creates an unknown room first; other events for an unknown room are dropped |
| RoomServer.Server.Create | server/server.js:128-139 | an unknown room is appended as a new room |
| RoomServer.Server.Disconnect | server/server.js:498-518 | the socket leaves every room; the rooms reported are exactly those it emptied |
| RoomServer.Server.LeaveAt | server/server.js:500-508 | one step of the loop over the rooms |
| RoomServer.Server.AutoSave | server/server.js:97-119 | the loop over the rooms stores exactly what the auto-save pass does |
| RoomServer.Server.RemoveIfEmpty | server/server.js:509-514 | when the timer fires a room is removed exactly when it still has no users |
| Executor.Judge0LangId | server/executors/multiFileExecutor.js:7-24 | the listed id of the language, and 93 for any other |
| Executor.Judge0IdsDistinct | server/executors/multiFileExecutor.js:8-23 | different listed languages have different ids, but an unknown language gets JavaScript's |
| Executor.DetectEntryPoint | server/executors/multiFileExecutor.js:61-95 | an entry is found exactly when there are files, and it is one of them |
| Executor.DetectEntryPointPriority | server/executors/multiFileExecutor.js:64-94 | the first `main` file wins, then the first `index` file, then the first file holding the language's main marker, then the smallest name |
| Executor.EmptyNameFallsThrough | server/executors/multiFileExecutor.js:78-94 | a marker file with an empty name does not count as found, and the alphabetical fallback returns it anyway |
| Strings.Smallest | server/executors/multiFileExecutor.js:94 | the first name after the default sort is one of the names and comes before or equals every other name in code-unit order |
| Executor.ResolveEntry | server/executors/multiFileExecutor.js:325-328 | an existing active file is the entry, else the detected one |
| Executor.Bundle | server/executors/multiFileExecutor.js:337-361 | the language picks the bundler, and the bundle keeps that bundler's guarantees. For JavaScript: distinct files reachable from the entry, every reachable file, dependencies first, the entry last, and nothing without an entry. For Python: every file once, dependencies first, and an entry nothing imports last. Java and C/C++ use their layouts, and other languages concatenate the files |
| Executor.ExecuteMultiFile | server/executors/multiFileExecutor.js:311-366 | the submission carries the language's id and the input; one file is sent as it is, and several files are sent as the bundle built from the resolved entry, with the bundler's guarantees |
| Executor.JavaScriptBundleEndsWithEntry | server/executors/multiFileExecutor.js:319-344 | a JavaScript or TypeScript project of several files is sent as a non-empty program whose last section is the resolved entry's |
| Executor.Concatenate | server/executors/multiFileExecutor.js:356-360 | each file is headed by its name, in order, joined by newlines |
| Patterns.MatchExportFunction | server/executors/multiFileExecutor.js:110 | a match starts with `export`, ends at the opening brace, and captures a word name and a parameter text without `)` |
| Patterns.MatchExportConst | server/executors/multiFileExecutor.js:132 | a match starts with `export`, ends at a semicolon, and captures a non-empty value without `;` |
| Patterns.MatchEsImport | server/executors/multiFileExecutor.js:156 | a match starts with `import` and captures a non-empty relative module name |
| Patterns.MatchExportKeyword | server/executors/multiFileExecutor.js:187 | `export` followed by at least one space matches, up to the end of the spaces |
| Patterns.MatchPyImport | server/executors/multiFileExecutor.js:214 | a match starts with `from` and captures a non-empty word module name |
| Patterns.MatchPyImportLine | server/executors/multiFileExecutor.js:228 | the removal pattern matches exactly where the import pattern does |
| Patterns.MatchJavaPackage | server/executors/multiFileExecutor.js:254 | a match starts with `package`, ends at a semicolon and captures a non-empty name |
| Patterns.MatchJavaImport | server/executors/multiFileExecutor.js:265 | a match starts with `import` and ends at a semicolon |
| Patterns.MatchCppLocalInclude | server/executors/multiFileExecutor.js:300 | a match starts with `#include` and ends at a closing quote |
| Patterns.Exec | server/executors/multiFileExecutor.js:112 | a global search finds a match that starts at or after the position |
| Patterns.ExecFinds | server/executors/multiFileExecutor.js:112 | the search finds the leftmost match, and finds none only when no position matches |
| Patterns.AllMatches | server/executors/multiFileExecutor.js:160-165 | the successive matches lie inside the text, in order, without overlapping; there are none exactly when the first search fails |
| Patterns.AllMatchesFound | server/executors/multiFileExecutor.js:160-165 | every listed match is the pattern's match at its start |
| Patterns.ReplaceIsSplice | server/executors/multiFileExecutor.js:187 | a global replace puts the replacement in place of every match and keeps the text between them |
| Patterns.SpliceLength | server/executors/multiFileExecutor.js:187 | the replaced text loses the matched characters and gains one replacement per match |
| Patterns.Deletion | server/executors/multiFileExecutor.js:187 | deleting every match shortens the text by the matched characters, and a text without matches is unchanged |
| JsBundler.BodyEnd | server/executors/multiFileExecutor.js:117-125 | the brace scan stops just after the brace that closes the body, or at the end of the content |
| JsBundler.MatchBraces | server/executors/multiFileExecutor.js:117-125 | the counting loop stops where the body ends |
| JsBundler.ClosedBody | server/executors/multiFileExecutor.js:127 | for a closed body the cut text is everything up to the closing brace |
| JsBundler.UnclosedBody | server/executors/multiFileExecutor.js:121-127 | for an unclosed body the scan runs to the end, and the cut text drops the content's last character |
| JsBundler.Assign | server/executors/multiFileExecutor.js:128 | the export table holds exactly the names assigned so far |
| JsBundler.LastAssignmentWins | server/executors/multiFileExecutor.js:128-136 | a name assigned several times keeps its last text |
| JsBundler.UnassignedKept | server/executors/multiFileExecutor.js:131-137 | a name the constants do not assign keeps its function text |
| JsBundler.ExportedFunction | server/executors/multiFileExecutor.js:110-137 | an exported function that no later export shadows is in the table with its rebuilt text |
| JsBundler.ExportedConst | server/executors/multiFileExecutor.js:131-137 | an exported constant that no later constant shadows is in the table with its text |
| JsBundler.ExtractFunctions | server/executors/multiFileExecutor.js:110-129 | the loop assigns every exported function in order |
| JsBundler.FunctionSource | server/executors/multiFileExecutor.js:116-128 | the rebuilt text of one exported function |
| JsBundler.ExtractConstants | server/executors/multiFileExecutor.js:131-137 | the loop assigns every exported constant in order, over the functions |
| JsBundler.ExtractExports | server/executors/multiFileExecutor.js:106-137 | the export table of a file's content |
| JsBundler.Modules | server/executors/multiFileExecutor.js:105-140 | every file has a module holding its content |
| JsBundler.BuildModule | server/executors/multiFileExecutor.js:106-139 | one step of the module loop |
| JsBundler.BuildModules | server/executors/multiFileExecutor.js:102-140 | the loop builds the module of every file |
| JsBundler.ReplaceImports | server/executors/multiFileExecutor.js:173-184 | replacing the imports of a text in which no import comes from a file of the project leaves the text as it is |
| JsBundler.ReplaceImport | server/executors/multiFileExecutor.js:174-183 | an import whose source is not a file of the project is left in the text |
| JsBundler.UnknownImportsSkipped | server/executors/multiFileExecutor.js:173-184 | replacing with all imports gives the same text as replacing with only the imports from files of the project |
| JsBundler.BundleJavaScript | server/executors/multiFileExecutor.js:101-195 | the bundle is the sections of distinct files, each reachable from the entry, dependencies before the files that import them, the entry last, every reachable file included; no entry gives an empty bundle |
| DependencyWalk.UnimportedUnreached | server/executors/multiFileExecutor.js:233-241 | a file nothing imports is reachable only from itself |
| DependencyWalk.Walk.constructor | server/executors/multiFileExecutor.js:143-144 | the walk starts with nothing processed or emitted |
| DependencyWalk.Walk.Visit | server/executors/multiFileExecutor.js:146-151 | a processed file is skipped; a missing file is only marked; a new file is emitted last |
| DependencyWalk.Walk.VisitNew | server/executors/multiFileExecutor.js:153-189 | an existing file is emitted after all of its imports are processed |
| DependencyWalk.Walk.VisitImports | server/executors/multiFileExecutor.js:168-170 | every import of the file is processed |
| DependencyWalk.Walk.VisitImport | server/executors/multiFileExecutor.js:169 | one import is processed, and the earlier ones stay processed |
| DependencyWalk.Walk.ReachableEmitted | server/executors/multiFileExecutor.js:146-190 | a file reachable from an emitted file is emitted too |
| DependencyWalk.Walk.VisitAllBut | server/executors/multiFileExecutor.js:234-238 | every file but the entry is processed, and a file nothing imports is not processed by the others |
| DependencyWalk.Walk.Emitted | server/executors/multiFileExecutor.js:146-190 | after a walk the emitted files are exactly the processed files that exist |
| DependencyWalk.Walk.ReachClosed | server/executors/multiFileExecutor.js:146-190 | the emitted files are closed under importing |
| DependencyWalk.WalkFrom | server/executors/multiFileExecutor.js:146-192 | a walk from the entry emits distinct files reachable from it, the entry last and every reachable one included, each after its imports |
| DependencyWalk.WalkAllThenEntry | server/executors/multiFileExecutor.js:233-241 | every file is emitted once, each after its imports, and an entry nothing imports comes last |
| PyBundler.PyDeps | server/executors/multiFileExecutor.js:214-225 | a file's dependencies are the imported modules whose `.py` file exists |
| PyBundler.BundlePython | server/executors/multiFileExecutor.js:200-244 | every file is emitted exactly once, each after the files it imports, and an entry nothing imports comes last |
| CppBundler.CppOrderIsPermutation | server/executors/multiFileExecutor.js:295-305 | the emitted order is the files reordered, with every header before every other file |
| CppBundler.CppLayout | server/executors/multiFileExecutor.js:295-305 | the parts are one section per file in that order |
| CppBundler.NoQuoteUnchanged | server/executors/multiFileExecutor.js:300 | content without a double quote is left unchanged |
| CppBundler.BundleCpp | server/executors/multiFileExecutor.js:291-306 | the bundle joins the header sections, then the other files' sections |
| JavaBundler.PackageName | server/executors/multiFileExecutor.js:253-255 | a package name is found exactly when the entry exists and declares a package |
| JavaBundler.AddNew | server/executors/multiFileExecutor.js:263-268 | adding to the set keeps the earlier imports first and holds exactly the old and the new ones |
| JavaBundler.AddNewDistinct | server/executors/multiFileExecutor.js:263-268 | the set never holds an import twice |
| JavaBundler.CollectedImports | server/executors/multiFileExecutor.js:263-269 | the collected imports are distinct and are exactly the import statements of the files |
| JavaBundler.JavaLayout | server/executors/multiFileExecutor.js:258-285 | the parts are the package line if any, the imports, a blank part, then one section per file |
| JavaBundler.JavaSection | server/executors/multiFileExecutor.js:275-281 | a section is the file's banner, then the file's text stripped of package and import statements and then trimmed, so it neither starts nor ends with white space, then a line break; a file without such statements keeps its trimmed text |
| JavaBundler.AddFileImports | server/executors/multiFileExecutor.js:265-268 | one file's imports are added in order |
| JavaBundler.CollectImports | server/executors/multiFileExecutor.js:263-269 | the loop collects the imports of every file |
| JavaBundler.CollectFile | server/executors/multiFileExecutor.js:264-268 | one step of the loop over the files |
| JavaBundler.AddSections | server/executors/multiFileExecutor.js:275-283 | one section per file is pushed, in order |
| JavaBundler.EntryPackage | server/executors/multiFileExecutor.js:253-255 | the entry's package name |
| JavaBundler.BundleJava | server/executors/multiFileExecutor.js:249-286 | the bundle joins the parts of the layout |
| Gist.ExtractGistId | server/gistHandler.js:142-152 | an extracted ID is non-empty hex taken from the URL |
| Gist.UserFormCaptures | server/gistHandler.js:146 | a URL with a user segment captures the ID after it |
| Gist.UserUrlGivesId | server/gistHandler.js:142-152 | a user gist URL gives back its ID |
| Gist.NoUserFormInBareUrl | server/gistHandler.js:146 | a URL without a user segment has no match of the user form |
| Gist.BareFormCaptures | server/gistHandler.js:148 | a URL without a user segment captures the ID after the host |
| Gist.BareUrlGivesId | server/gistHandler.js:142-152 | a bare gist URL gives back its ID |
| Gist.BareIdIsId | server/gistHandler.js:150-152 | an ID on its own gives back itself |
| Gist.ImportTarget | server/gistHandler.js:135-160 | a missing or blank URL and a URL without an ID are rejected with status 400 and their messages; otherwise the ID taken from the URL |
| Gist.Imported | server/gistHandler.js:183-187 | the imported files are exactly the gist's files whose names do not start with `_codetogether_` |
| Gist.ImportedOfFilters | server/gistHandler.js:183-187 | copying file by file keeps the order of the kept names and their contents |
| Gist.ImportFiles | server/gistHandler.js:180-195 | the loop gives the imported files and counts them |
| Gist.SavedContent | server/gistHandler.js:55-60 | a saved file is never empty: its content, or a placeholder comment for an empty one |
| Gist.SaveGist | server/gistHandler.js:23-108 | a missing token, then no files, are rejected with 400; a null file fails with 500; otherwise a secret gist with the posted files, the metadata file and the default description, counting the posted files |
| Gist.FormattedSpec | server/gistHandler.js:53-61 | the formatted files are the posted ones, in order, each with its saved content |
| Gist.GistFilesSpec | server/gistHandler.js:51-76 | saving adds exactly the metadata file after the posted files, and its JSON counts them |
| Gist.MetadataJson | server/gistHandler.js:64-76 | the metadata file is a JSON object, from `{` to `}`, that closes with the `"tool": "CodeTogether"` entry |
| Gist.MetadataCountReads | server/gistHandler.js:64-76 | the metadata is one JSON object whose file count reads back from the digits after `"fileCount": ` |
| Gist.SaveThenImport | server/gistHandler.js:23-195 | importing a saved gist gives back the posted names, in order, with their contents, when no name is reserved and no content is empty |
| Gist.EmptyContentSaved | server/gistHandler.js:55-60 | only an empty content does not come back, and it comes back as the placeholder comment |
| Complexity.ScanLine | client/src/components/complexity/ComplexityAnalyzer.jsx:86-117 | blank and comment lines change nothing; the maximum depth becomes the depth the line reached, if that is higher, and the current depth never exceeds it |
| Complexity.DepthWithinMax | client/src/components/complexity/ComplexityAnalyzer.jsx:86-102 | after any number of lines the current nesting depth never exceeds the recorded maximum |
| Complexity.PeaksWithinMax | client/src/components/complexity/ComplexityAnalyzer.jsx:86-117 | no line reaches a depth above the recorded maximum |
| Complexity.MaxIsReached | client/src/components/complexity/ComplexityAnalyzer.jsx:86-117 | a non-zero maximum is the depth some line reached |
| Complexity.MaxIsPeak | client/src/components/complexity/ComplexityAnalyzer.jsx:86-117 | the maximum is exactly the deepest nesting any line reached |
| Complexity.LoopSeenIffLoopLine | client/src/components/complexity/ComplexityAnalyzer.jsx:86-95 | the maximum is non-zero exactly when some counted line matches a loop pattern |
| Complexity.NoLoopKeepsZero | client/src/components/complexity/ComplexityAnalyzer.jsx:86-102 | without a loop line both depths stay zero |
| Complexity.FlagIffSomeLine | client/src/components/complexity/ComplexityAnalyzer.jsx:104-116 | each flag is set exactly when some counted line shows its pattern |
| Complexity.TimeComplexity | client/src/components/complexity/ComplexityAnalyzer.jsx:119-147 | each verdict holds exactly for its condition on the depth and the flags |
| Complexity.SpaceComplexity | client/src/components/complexity/ComplexityAnalyzer.jsx:149-158 | linear space exactly when there is recursion, a hash structure or nesting of 2 or more |
| Complexity.Warnings | client/src/components/complexity/ComplexityAnalyzer.jsx:119-147 | one warning exactly for cubic, quadratic and exponential time |
| Complexity.Reason | client/src/components/complexity/ComplexityAnalyzer.jsx:119-147 | the reason for a cubic verdict reads back as the nesting depth |
| Complexity.ReasonsDistinct | client/src/components/complexity/ComplexityAnalyzer.jsx:119-147 | different verdicts push different reasons whenever a cubic verdict comes with a depth other than 2, as the verdict chain ensures |
| Complexity.Report | client/src/components/complexity/ComplexityAnalyzer.jsx:119-168 | one reason, a warning only for the slow verdicts, and constant or linear space |
| Complexity.AnalyzeComplexity | client/src/components/complexity/ComplexityAnalyzer.jsx:13-169 | blank code gives no analysis; otherwise the report of the scan of all lines |
| Complexity.ScanOne | client/src/components/complexity/ComplexityAnalyzer.jsx:87-116 | the loop body updates the counters as one scan step |
| Complexity.GetRating | client/src/components/complexity/ComplexityAnalyzer.jsx:171-183 | the rating is the one of the first notation, in the order O(1), O(log n), O(n log n), O(n), O(n²), that the text contains, and bad exactly when it contains none |
| Complexity.RatingOfFastVerdicts | client/src/components/complexity/ComplexityAnalyzer.jsx:171-183 | constant, logarithmic, linearithmic and linear time rate excellent, great, good and fair |
| Complexity.RatingOfSlowVerdicts | client/src/components/complexity/ComplexityAnalyzer.jsx:171-183 | quadratic time rates poor, and cubic and exponential time, which the rating does not name, rate bad |

## Left out

- Judge0: the HTTP call and its answer are not part of this model. `ExecuteMultiFile` ends with the submission it would send.
- Execution errors: the catch around a multi-file run is not modelled, and neither is the outer catch of `run-test-cases`. A test case's run is a parameter that may report an exception.
- run-code: the handler only forwards to the executor, so it is not modelled.
- Versions: `save-version`, `get-versions` and `restore-version` are not modelled. The version store of the auto-save timer is a list of versions, and its timestamps are left out.
- Chat, cursors, recording, AI help and replays are not modelled.
- Broadcasts: the messages the server sends back to other users are not modelled.
- Interview messages: the interview provider's listeners for the server's interview messages are not modelled. Neither is the results payload the server answers a submit with.
- Timers and clocks: the minute-long timers are not modelled as time. Each firing is a call, and `Date.now`, `new Date()` and random colours or problems are parameters.
- Await interleaving: the model takes each handler as one atomic step.
- Numbers: JavaScript numbers are exact integers and fractions in the model.
  - The score and the success rate round half up exactly.
  - A division by zero, which gives `NaN` or `Infinity` in the source, is modelled as no number.
  - Integer overflow and floating-point error are not modelled.
- InterviewClient.Score: with a negative time taken the model does not cap the time bonus, just as the source does not. `ScoreRange` assumes the time taken is not negative.
- Unknown difficulty: a difficulty outside easy, medium and hard has no duration in the model, where the source gets `undefined`. A started interview then counts down from 0.
- Text handling is ASCII only:
  - `toLowerCase` and `trim` act on ASCII letters and ASCII white space;
  - `sort()` compares characters by code, not UTF-16 units (`Strings.Smallest`).
- Regular expressions are written as deterministic scanners for exactly the patterns used. The `$` replacement patterns of `String.replace` are not modelled.
- JavaScript objects: names such as `__proto__` and the ordering of integer-like keys first are not modelled. Keys keep insertion order.
- Spreading a missing file (`{ ...undefined, content }`) gives a file with an empty name and language in the model.
- File-deleted handler: the handler's stale `files` closure is modelled as the files at the time of the event.
- The socket event table: the model uses an event datatype whose events are distinct by construction. It does not restate the table's 45 strings.
- The toasts are not modelled, and neither are the progress bar of the timer widget, the timer's 5-minute and 1-minute warnings, or the rendering.
- Default arguments: the defaults of `startInterview` and `executeMultiFile` are not modelled, so callers pass every argument.
- `formatTime` with an undefined input is not modelled.
- The template data of `getTemplatesForLanguage` and template descriptions are not modelled. Templates are a parameter.
- Gist content is left out in several places:
  - the JSON escaping of the metadata fields, and undefined fields in it;
  - a raw value that is not a string;
  - the GitHub answers, the order of a fetched gist's files, and truncated files;
  - the `check-auth` route.
- Complexity patterns: the estimator's loop, sort, divide and hash patterns and the function-name match are parameters.
- The C/C++ bundler's entry argument is unused by the source and is not modelled.
- DependencyWalk.WalkAllThenEntry: the entry is last only when no file imports it. Otherwise it is emitted earlier, as in the source.

## Findings

| source | as written | input that shows it | evidently intended | confidence | as-written member | corrected member |
|---|---|---|---|---|---|---|
| client/src/components/interview/InterviewFeedback.jsx:168-172 | the all-passed insight compares `testResults?.summary?.passed` with `testResults?.summary?.total`, and both are undefined without a summary | an interview submitted with no test results: the screen shows score 0, a poor rating and "All test cases passed" | show the line only when a summary exists and every test passed | not executed | Feedback.NoTestsClaimAllPassed | Feedback.InsightsConsistent |
