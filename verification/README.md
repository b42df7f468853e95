# NiraOS: a verified model of its stateful cores

NiraOS is a desktop system: a compositor and shell, a greeter, a file manager, and a set of services (AI daemon,
settings, permissions, actions). This Dafny project models the parts of it that keep state through loops, failures
or message exchange, and proves what those parts are for: that no file is lost, that a replica converges, that a
login cannot be skipped, that an action never runs without permission.

`dafny verify dfyconfig.toml` checks everything.

| file | what it models |
|---|---|
| `Wrappers.dfy` | optional values |
| `FileTree.dfy`, `FileOperations.dfy` | recursive copy and delete, move and trash with their fallbacks, over a tree in which every primitive may fail at any point |
| `FirstFreeName.dfy` | the three searches for a name that is not taken |
| `Windows.dfy`, `WindowSync.dfy`, `WindowRaces.dfy` | the compositor's window registry, the shell's taskbar, and the signals and queries between them |
| `Bytes.dfy`, `GreeterFrames.dfy`, `Greeter.dfy`, `GreeterRuns.dfy`, `GreeterRequests.dfy`, `GreeterLockstep.dfy` | the greeter's framed stream, its login phases, whole runs of it, what it sends, and its exchange with greetd |
| `InferenceWorker.dfy`, `AiLifecycle.dfy`, `Generation.dfy` | the inference worker, its life under the engine mutex, and token generation |
| `DirectoryView.dfy` | the file manager's sorted, filtered, asynchronously loaded listing |
| `Gguf.dfy` | the metadata walk of the model file check |
| `Settings.dfy` | settings persisted by snapshots under interleaved requests |
| `Memory.dfy` | the bounded conversation memory |
| `Blank.dfy`, `Permissions.dfy`, `PermissionGate.dfy` | the policy engine and actions behind it, over whole runs |

Objects that the source updates in place are classes whose methods are proved against functions of the old state;
protocols between threads or processes are state machines over their atomic steps, and the theorems quantify over
every sequence of steps.

Conventions. A path is a sequence of names from the root. `Fault` stands for a failure that comes from outside the
tree, `Refusal` for a rename that is refused, as between file systems; the ghost counters `faults` and `refusals` let
a contract say what happens when there was none. JSON parsing, case folding
and the outcomes of model library calls are parameters. Numbers on the wire are little-endian, the byte order of
the supported machines.

## Where the code differs from its own documentation

- Settings (`core/settings-service/src/main.rs:59-62`, `136-138`): the comments say that serialising happens under
  the write lock and that concurrent writers never see stale data. The lock is released after the insertion and the
  snapshot is written and renamed later, so overlapping requests can both succeed and leave a file without one of
  the settings. `Settings.OverlapCanLeaveStaleFile` gives such a run for any two keys,
  `Settings.FileIsCurrentExactly` says exactly when the file is current, and `Settings.SerialRequestsPersist` shows
  that requests that do not overlap are safe.
- Trash (`apps/files/src/FileOperations.cpp:74-78`): a plain file that was copied into the trash stays where it was,
  because the recursive delete of something that is not a directory does nothing and reports success.
  `FileManager.FileOperations.MoveToTrash` states exactly when the source is still there.
- Full trash (`apps/files/src/FileOperations.cpp:62-69`): when all 10000 names are taken, the search is meant to find
  a unique name but ends with the last one. If that is a directory around the source, a file can be lost;
  `FileManager.FullTrashLoses` gives the tree, and `FileManager.FileOperations.MoveToTrash` the exact condition.
- Unique names (`desktop/shell/src/DesktopIconModel.cpp:417-421`): the last candidate is returned without a check.
- Taskbar (`desktop/shell/src/TaskbarModel.cpp:50-53`): the seed is meant to recover the compositor's state. It does
  so if no listed window leaves before its fourth answer or changes in a field already answered
  (`WindowSync.HarmlessRacesConverge`); otherwise the last change decides, exactly by whether the answers already
  given agree with it (`WindowRaces.LastChangeDecides`), and a window that leaves early stays on the taskbar
  (`WindowRaces.LeavingEarlyLeavesGhost`). `WindowRaces.StaleRowHappens` and `WindowRaces.GhostRowHappens` give runs.
- Token streams (`core/ai-daemon/src/inference/llama_cpp.rs:541-549`): a client that is only slow is taken for one
  that left, because a text must fit into the 64 places of the channel at once. Its stream ends without a terminal
  item, and `generate` returns the text so far as complete. `Generation.SlowClientIsCutOff` is such a client;
  `Generation.HandleGenerate` and `Generation.Generate` say exactly when it happens.

## Model

| member | source | states |
|---|---|---|
| FileManager.FileOperations.PerformMove | apps/files/src/FileOperations.cpp:304-320 | whatever fails and whatever is returned: nothing outside the source changes, and every file that was under it is still at its place under the source, the destination or the trash target, if `MoveSpares` (the destination and the last trash name tried do not both bury a file under the source, or a free trash name is out of the destination's way); when everything was copied and trashed, exactly the files buried on both sides are lost, which with no name left in the trash means exactly if not `MoveSpares`. If only renames are refused and the destination and the trash can take the entry, everything visible arrives and the move succeeds exactly unless the trash too had to copy a directory with something hidden in it; if no rename is refused either, the source is gone. A success leaves no directory behind, a plain file exactly if the trash had to copy it, and is either a rename or leaves a second copy in the trash |
| FileManager.FileOperations.Move | apps/files/src/FileOperations.cpp:117-124 | the same for a destination that names an existing directory and so means the place of the same name inside it |
| FileManager.FileOperations.MoveToTrash | apps/files/src/FileOperations.cpp:40-79 | `gio trash` is tried first, once; nothing outside the source changes and no file is lost if `TrashSpares`, and after a full copy and delete only then; after success a directory is gone, and a plain file is still there exactly when the copy fallback ran; if the trash can take the entry and at most renames are refused, the entry is copied there at least, and it fails exactly on something hidden in a directory that had to be copied |
| FileManager.FileOperations.RenameOrCopyAndDelete | apps/files/src/FileOperations.cpp:72-78 | the end of the trash fallback: whatever fails, every file is kept whose place at the target is not buried under the source, and what is hidden stays; after a full copy and delete of a directory nothing was lost exactly when no file was buried; when at most the rename is refused the copy arrives, and the call succeeds exactly unless it had to copy something hidden |
| FileManager.FileOperations.PerformDelete | apps/files/src/FileOperations.cpp:322-339 | permanent deletion removes only visible entries below the path and, without faults, succeeds exactly when there is nothing hidden in the way; otherwise the trash keeps files, and succeeds, as MoveToTrash does |
| FileManager.FileOperations.PerformRecursiveCopy | apps/files/src/FileOperations.cpp:341-367 | terminates unless the destination lies inside the source through visible names only; never overwrites or removes; adds only copies of visible entries and the directories leading to the destination; success copies every visible entry at every level; succeeds when nothing stands in the way and nothing fails |
| FileManager.FileOperations.CopyEntries | apps/files/src/FileOperations.cpp:353-366 | the loop of the copy: the same for the entries of one directory |
| FileManager.FileOperations.CopyEntry | apps/files/src/FileOperations.cpp:354-364 | the same for one listed entry |
| FileManager.FileOperations.Copy | apps/files/src/FileOperations.cpp:94-107 | the public copy keeps everything that exists, fails on a missing source, puts a copy into an existing directory under its own name, on success copies all that is visible, and succeeds when nothing stands in the way and nothing fails |
| FileManager.FileOperations.PerformRecursiveDelete | apps/files/src/FileOperations.cpp:369-387 | terminates; removes only entries visible at all levels; success on a directory means it is gone; a hidden entry forces failure and is kept; anything else than a directory is left alone |
| FileManager.FileOperations.DeleteEntry | apps/files/src/FileOperations.cpp:376-384 | the same for one listed entry |
| FileManager.FileOperations.Duplicate | apps/files/src/FileOperations.cpp:197-216 | existing entries are untouched, the new name is the first free one beside the original, and success copies all that is visible; with fewer than 999 names in use the new name is free, and without faults the copy succeeds |
| FileManager.FileOperations.EntryNames | apps/files/src/FileOperations.cpp:353-353 | the listing used by copy and by delete alike: each child whose name does not begin with a dot, once |
| FileManager.FileOperations.MkPath | apps/files/src/FileOperations.cpp:347-351 | creates only missing directories on the way to the path, perhaps not all of them when it fails |
| FileManager.FileOperations.Rename | apps/files/src/FileOperations.cpp:307-308 | moves the whole subtree or changes nothing; never onto an existing entry or into itself; succeeds exactly when that is possible, unless it is refused |
| FileManager.FileOperations.CopyFile | apps/files/src/FileOperations.cpp:299-302 | adds one file with the same content where nothing was, or changes nothing |
| FileManager.FileOperations.GioTrash | apps/files/src/FileOperations.cpp:42-52 | relocates the entry to a fresh place in the trash, or does nothing |
| FileManager.PlaceIsFreeOrLast | apps/files/src/FileOperations.cpp:59-69 | the place the trash fallback settles on is free while a name is left, and otherwise that of the last name |
| FileManager.FreeNameSpares | apps/files/src/FileOperations.cpp:59-78 | while a name is left in the trash the fallback loses nothing |
| FileManager.RoomLeavesName | apps/files/src/FileOperations.cpp:62-69 | and a name is left while the trash holds fewer than 10000 entries |
| FileManager.FreePlaceCanBeReached | apps/files/src/FileOperations.cpp:59-78 | a free name in a trash that can be made can be renamed to, and copied to as well |
| FileManager.FullTrashLoses | apps/files/src/FileOperations.cpp:59-78 | the input on which it does lose a file: all 10000 names are taken, and x is trashed out of the directory that has the last one |
| FileManager.MoveEnds | apps/files/src/FileOperations.cpp:313-319 | a move that copied everything keeps each file that is not buried under the source on both sides, however the trashing ends |
| FileManager.MoveWithFullTrash | apps/files/src/FileOperations.cpp:313-319 | with no name left in the trash, what a move loses is decided before it starts |
| FileTree.CopyThenDeleteKeeps | apps/files/src/FileOperations.cpp:353-387 | copy and delete list the same entries, so a delete after a full copy keeps every file that is not buried and every hidden entry, wherever it stopped |
| FileTree.DeletedAllConservesExactly | apps/files/src/FileOperations.cpp:353-387 | a full copy and a delete that removed everything conserve the files exactly when none has its copy under the source |
| FileTree.MovedAllConservesExactly | apps/files/src/FileOperations.cpp:313-319 | the same for a move with its two copies |
| FileTree.CopyOntoAncestorLoses | apps/files/src/FileOperations.cpp:74-78 | why the target must not contain the source: copying x onto its own parent and deleting x loses x/x/y, with every step as promised |
| FileTree.CopyLoopStep | apps/files/src/FileOperations.cpp:354-364 | what every round of the copy loop keeps, for what was copied before, what is still to be copied and the depth of what was added |
| FileTree.OtherEntriesCanStillBeCopied | apps/files/src/FileOperations.cpp:354-364 | copying one entry never gets in the way of another one |
| FileTree.SourceStaysShallow | apps/files/src/FileOperations.cpp:357-358 | copying adds nothing deeper to what is listed below a source entry, so the recursion ends |
| FileTree.ChildrenStayApart | apps/files/src/FileOperations.cpp:353-358 | a destination that lies inside the source below a hidden name stays out of sight of every recursive call |
| FileTree.DeleteLoopStep | apps/files/src/FileOperations.cpp:376-384 | what every round of the delete loop keeps |
| FileTree.NothingIsLeft | apps/files/src/FileOperations.cpp:375-386 | with everything visible and each listed child gone, the directory is empty |
| FirstFreeName.CandidatesDistinct | apps/files/src/FileOperations.cpp:62-69 | two different rounds of a search never try the same name, for all three naming schemes |
| FirstFreeName.CandidatesKeepExtension | apps/files/src/FileOperations.cpp:59-68 | every name tried for stem.ext in the trash and beside the original begins with the stem and ends with .ext, with the number between them |
| FirstFreeName.CandidatesWithoutExtension | apps/files/src/FileOperations.cpp:202-210 | and for a name without an extension the number comes last, a final dot being dropped |
| FirstFreeName.DecimalStandsFor | apps/files/src/FileOperations.cpp:66-67 | the numeral in a name stands for the number of the round, without leading zeros |
| FirstFreeName.FewerTakenThanTried | apps/files/src/FileOperations.cpp:206-213 | pigeonhole: if fewer names are taken than are tried, one of those tried is free |
| FirstFreeName.ChosenIsFirst | apps/files/src/FileOperations.cpp:59-69 | the name a search chooses is the first free candidate, or the last one when none is free |
| FirstFreeName.FirstFree | apps/files/src/FileOperations.cpp:59-69 | the search returns the first free candidate if any is free, and the last one otherwise |
| FirstFreeName.UniqueName | desktop/shell/src/DesktopIconModel.cpp:410-423 | the same for the desktop's search, whose last candidate is returned unchecked; with fewer than 10000 names taken the result is free |
| Windows.WindowManagerDBus.RegisterWindow | desktop/compositor/src/WindowManagerDBus.cpp:40-44 | the record is in the registry and one signal is sent |
| Windows.WindowManagerDBus.UnregisterWindow | desktop/compositor/src/WindowManagerDBus.cpp:46-50 | the record is gone and one signal is sent, even for an unknown window |
| Windows.WindowManagerDBus.UpdateWindowState | desktop/compositor/src/WindowManagerDBus.cpp:52-61 | exactly the two flags of the window are stored, as given; the same flags are signalled unless nothing changed |
| Windows.WindowManagerDBus.UpdateWindowMetadata | desktop/compositor/src/WindowManagerDBus.cpp:63-71 | exactly the title and application of the window are stored, as given, and signalled |
| Windows.WindowManagerDBus.ListWindowIds | desktop/compositor/src/WindowManagerDBus.cpp:95-98 | each registered window once |
| Windows.TaskbarModel.IndexOf | desktop/shell/src/TaskbarModel.cpp:257-264 | the first row of the window, or -1 |
| Windows.TaskbarModel.OnWindowRegistered | desktop/shell/src/TaskbarModel.cpp:166-179 | a known window has its metadata updated, a new one is appended |
| Windows.TaskbarModel.OnWindowMetadataChanged | desktop/shell/src/TaskbarModel.cpp:181-194 | the row takes the new title and application; unknown windows are ignored |
| Windows.TaskbarModel.OnWindowUnregistered | desktop/shell/src/TaskbarModel.cpp:196-203 | the row is removed |
| Windows.TaskbarModel.OnWindowStateChanged | desktop/shell/src/TaskbarModel.cpp:205-218 | the row takes the new flags, the other rows stay, and the window is remembered exactly if that changed its row and it is focused |
| Windows.TaskbarModel.OnListReply | desktop/shell/src/TaskbarModel.cpp:56-125 | every listed window awaits four answers, and exactly those four queries are sent |
| Windows.TaskbarModel.OnAnswer | desktop/shell/src/TaskbarModel.cpp:74-124 | an answer or failure counts down, and the last one seeds the row |
| Windows.ReceiveKeepsIdsDistinct | desktop/shell/src/TaskbarModel.cpp:166-218 | no message ever makes two rows for one window |
| WindowSync.HarmlessRacesConverge | desktop/shell/src/TaskbarModel.cpp:50-127 | from an empty taskbar and any registry, for every interleaving in which no listed window leaves before its fourth answer or changes in a field already answered, once both channels are drained the taskbar equals the registry |
| WindowSync.Convergence | desktop/shell/src/TaskbarModel.cpp:50-127 | in particular when no listed window changes or leaves between the list and its fourth answer |
| WindowRaces.LastChangeDecides | desktop/shell/src/TaskbarModel.cpp:74-124 | after any run, the last setting of a window's metadata or flags while its answers are owed ends up right on the drained taskbar exactly when the answers already given agree with it; the other group may go on changing |
| WindowRaces.LastChangeDecidesRow | desktop/shell/src/TaskbarModel.cpp:74-124 | the same for the whole row, if the window does not change any more |
| WindowRaces.FirstHarmDecides | desktop/shell/src/TaskbarModel.cpp:74-124 | after a run that was harmless so far: right exactly when the change touches no field already answered |
| WindowRaces.SeedDecides | desktop/shell/src/TaskbarModel.cpp:64-125 | what the answers already given decide, for any state in which answers are owed |
| WindowRaces.OtherGroupKeepsShown | desktop/compositor/src/WindowManagerDBus.cpp:52-71 | setting metadata never changes what will be shown of the flags, and the reverse, racing or not |
| WindowRaces.StaleRowHappens | desktop/shell/src/TaskbarModel.cpp:74-124 | for any registry, any window in it and any new title there is a run to a drained taskbar that shows the window with a wrong record |
| WindowRaces.GhostRowHappens | desktop/shell/src/TaskbarModel.cpp:74-124 | and one to a drained taskbar that shows the window after it is gone |
| WindowRaces.CanDrain | desktop/shell/src/TaskbarModel.cpp:54-126 | from every state of a run both channels can be emptied by deliveries and replies alone |
| WindowSync.HarmlessRunKeepsInvariant | desktop/shell/src/TaskbarModel.cpp:50-127 | in every state of such a run, what is in flight together with what is still owed would bring each row to the registry's record |
| WindowRaces.AloneRunKeepsFate | desktop/shell/src/TaskbarModel.cpp:50-218 | what a window's row will finally show changes only with that window: deliveries, replies and other windows never change it |
| WindowSync.RowIdsDistinct | desktop/shell/src/TaskbarModel.cpp:166-218 | row ids are pairwise distinct in every reachable state, racy or not |
| WindowSync.ReceiveView | desktop/shell/src/TaskbarModel.cpp:166-218 | a message changes each window's view as if the other windows were not there |
| WindowSync.FocusIsRemembered | desktop/shell/src/TaskbarModel.cpp:205-218 | for every message, the seeding answers included: a window that gains the focus on the taskbar is the one remembered, and no other becomes so |
| WindowSync.SeedingSettles | desktop/shell/src/TaskbarModel.cpp:64-125 | a list reply followed by the four answers leaves exactly the registry's record, whatever was shown before, and a blank row for a window that is gone |
| WindowSync.FailedSeedIsBlank | desktop/shell/src/TaskbarModel.cpp:74-124 | and four failed queries leave a blank row |
| WindowSync.SignalFollowsChange | desktop/compositor/src/WindowManagerDBus.cpp:40-71 | a change's signal does to a settled row what the change does to the registry |
| WindowSync.RunKeepsOwed | desktop/shell/src/TaskbarModel.cpp:65-125 | in every run the countdown of a listed window is the number of its answers still owed |
| WindowRaces.LeavingEarlyLeavesGhost | desktop/shell/src/TaskbarModel.cpp:74-124 | a listed window that leaves before its fourth answer always ends as a row for a window that does not exist |
| WindowSync.ChangeWhileOutstanding | desktop/shell/src/TaskbarModel.cpp:74-124 | one change during the seeding keeps the row on its way to the registry's record exactly when every field that it changes is still to be answered |
| GreeterFrames.FramingRoundTrip | desktop/greeter/src/GreeterIPC.cpp:172-184 | decoding what sendJson framed returns the payloads, exactly when each is between one byte and 1 MiB long |
| GreeterFrames.DecodeContinues | desktop/greeter/src/GreeterIPC.cpp:112-152 | bytes that follow continue where decoding the earlier ones stopped |
| GreeterFrames.Decode | desktop/greeter/src/GreeterIPC.cpp:118-141 | what is left over is always shorter than a length and a maximal payload |
| Bytes.ToLETruncates | desktop/greeter/src/GreeterIPC.cpp:180-181 | a length cast to 32 bits is written modulo 2^32 |
| Greeter.GreeterIPC.OnReadyRead | desktop/greeter/src/GreeterIPC.cpp:112-152 | the loop consumes the buffer as the recursive drain does, frame by frame |
| Greeter.GreeterIPC.HandleMessage | desktop/greeter/src/GreeterIPC.cpp:186-251 | the new state for each message in each phase |
| Greeter.GreeterIPC.StartAuth | desktop/greeter/src/GreeterIPC.cpp:34-63 | a blank user changes nothing; any other starts a fresh attempt with an empty buffer for the trimmed name and the given password |
| Greeter.GreeterIPC.OnConnected | desktop/greeter/src/GreeterIPC.cpp:65-77 | create_session is sent exactly while a session is being created, and for the current user |
| Greeter.GreeterIPC.SubmitPassword | desktop/greeter/src/GreeterIPC.cpp:79-92 | a password is sent only during an attempt, as given, and ends the wait for one |
| Greeter.GreeterIPC.StartSession | desktop/greeter/src/GreeterIPC.cpp:94-110 | start_session is sent only once authenticated |
| Greeter.GreeterIPC.OnError | desktop/greeter/src/GreeterIPC.cpp:154-170 | an error resets the attempt unless the session is starting |
| Greeter.GreeterIPC.SendJson | desktop/greeter/src/GreeterIPC.cpp:172-184 | nothing is written unless the socket is connected |
| GreeterRuns.ChunkingIndependence | desktop/greeter/src/GreeterIPC.cpp:112-152 | any two ways of cutting the same bytes into deliveries give the same handled payloads, the same abort and the same leftover, which is below 4 bytes and 1 MiB |
| GreeterRuns.DrainFollowsDecoder | desktop/greeter/src/GreeterIPC.cpp:118-151 | the loop that handles messages while it decodes is decoding first and handling afterwards |
| GreeterRuns.LoginSafety | desktop/greeter/src/GreeterIPC.cpp:34-110 | from the start, for any server bytes and any order of events: every start_session follows a success with no new attempt, error, bad frame or socket error in between; authenticated holds exactly in the last two phases; the stored password goes out at most once per attempt and is empty once authenticated; no whole frame is left in the buffer |
| GreeterRuns.StepKeepsInvariant | desktop/greeter/src/GreeterIPC.cpp:112-251 | each event keeps all of that |
| GreeterRuns.RunsRest | desktop/greeter/src/GreeterIPC.cpp:118-141 | between events the buffer holds no whole frame |
| GreeterRequests.RequestsCarryWhatWasEntered | desktop/greeter/src/GreeterIPC.cpp:34-92 | in every run, each create_session carries the trimmed name of the attempt started last, each automatic response its password, and every other response what was submitted at that moment |
| GreeterRequests.PromptIsAnswered | desktop/greeter/src/GreeterIPC.cpp:190-214 | in every attempt: the first prompt for a credential is answered with the password entered, later ones wait for the user, notices are acknowledged, and other prompts change nothing |
| GreeterRequests.LoginCompletes | desktop/greeter/src/GreeterIPC.cpp:34-248 | a whole login, from the name entered to the session started, sends exactly create_session, the password and start_session |
| GreeterRequests.UnknownIsSkipped | desktop/greeter/src/GreeterIPC.cpp:143-150 | what does not parse or is of no known kind is used up and changes nothing |
| GreeterRequests.HandoverIsNoFailure | desktop/greeter/src/GreeterIPC.cpp:154-160 | after start_session a lost connection takes nothing of the login back |
| GreeterRequests.StartsAfresh | desktop/greeter/src/GreeterIPC.cpp:44-62 | an attempt leaves nothing of those before it, on the wire or in the state |
| GreeterRequests.FailedAttemptIsOver | desktop/greeter/src/GreeterIPC.cpp:125-170 | after an error, a bad frame or a lost connection the greeter is idle, and no create_session and no response is sent until another attempt is started, whatever arrives |
| Blank.TrimmedIsCore | desktop/greeter/src/GreeterIPC.cpp:36-36 | trimming takes white space off both ends and stops at what is not |
| Blank.TrimmedEmptyExactly | desktop/greeter/src/GreeterIPC.cpp:37-37 | nothing is left exactly of a string that is white space throughout |
| GreeterLockstep.Lockstep | desktop/greeter/src/GreeterIPC.cpp:27-110 | from the start, with a greetd that answers each request once and a user who answers only when asked: at most one request is outstanding, and then the greeter is connected, busy and not asking the user |
| GreeterLockstep.NextKeepsInvariant | desktop/greeter/src/GreeterIPC.cpp:186-251 | each step keeps all of that |
| GreeterLockstep.NextIsStep | desktop/greeter/src/GreeterIPC.cpp:34-170 | what the user and the socket do in this exchange is what they do in any run of the greeter, and a blank name does nothing |
| GreeterLockstep.ChunkedReplyIsRead | desktop/greeter/src/GreeterIPC.cpp:112-152 | a framed reply that arrives in any chunks is, once complete, exactly one read of it, with the same state and the same requests sent |
| GreeterLockstep.IncompleteReplyWaits | desktop/greeter/src/GreeterIPC.cpp:119-139 | until then nothing happens but that its bytes wait in the buffer |
| GreeterLockstep.EagerUserBreaksLockstep | desktop/greeter/src/GreeterIPC.cpp:79-92 | without the rule for the user, a submission overtakes the outstanding request exactly when there is one and the greeter is creating a session or authenticating |
| GreeterLockstep.EveryAttemptCanBeOvertaken | desktop/greeter/src/GreeterIPC.cpp:34-92 | and such a moment comes in every attempt, once the connection is made |
| InferenceWorker.StepKeepsConsistent | core/ai-daemon/src/inference/llama_cpp.rs:203-310 | between commands the flag, the name and the model agree and an absent model means default sizes; in between, the partial states follow the order of the writes |
| InferenceWorker.ModelStays | core/ai-daemon/src/inference/llama_cpp.rs:241-251 | only an unload takes the model away, and a positive answer to a load means there is one |
| InferenceWorker.LoadTakesEffect | core/ai-daemon/src/inference/llama_cpp.rs:213-239 | a whole load puts the model, its name, its flag and both its sizes into force and answers so, or fails and leaves everything as it was |
| InferenceWorker.UnloadTakesEffect | core/ai-daemon/src/inference/llama_cpp.rs:241-251 | a whole unload takes the model away and brings the default sizes back |
| InferenceWorker.GenerateTakesEffect | core/ai-daemon/src/inference/llama_cpp.rs:260-287 | a generation loads the default model if there is none, and changes neither a loaded model nor the sizes |
| InferenceWorker.EarlierIsTakenFirst | core/ai-daemon/src/inference/llama_cpp.rs:203-211 | commands are taken in the order in which they were sent |
| InferenceWorker.StoppedIsTheEnd | core/ai-daemon/src/inference/llama_cpp.rs:304-307 | a worker that has shut down leaves no command behind |
| AiLifecycle.LifecycleAgreement | core/ai-daemon/src/main.rs:64-101 | in every reachable state: with the mutex free, engine_created holds exactly when there is an engine; a task let through by ensure_model_loaded sees a loaded model; idle workers are consistent |
| AiLifecycle.OkMeansReleased | core/ai-daemon/src/main.rs:75-86 | ensure_model_loaded returns Ok only through the release of the mutex under which the worker had a model |
| AiLifecycle.SuccessIsLast | core/ai-daemon/src/main.rs:64-101 | no request reports success before its last step |
| AiLifecycle.LoadsWhenNeeded | core/ai-daemon/src/main.rs:75-82 | in every run a load is queued exactly when the worker shows no model or one of the two names for none; a worker at rest with another model is let alone |
| AiLifecycle.EnsureCompletes | core/ai-daemon/src/main.rs:64-88 | from every reachable state without an engine and with the mutex free, a request to ensure a model can run to its end; it answers as the load did, frees the mutex, and the configured model and sizes are in force |
| AiLifecycle.EnsureFindsModel | core/ai-daemon/src/main.rs:64-88 | with a model in place the same request queues nothing and changes nothing but the reported state |
| AiLifecycle.UnloadCompletes | core/ai-daemon/src/main.rs:90-101 | and an unload of a worker at rest can run to its end: no engine, flag down, no model, Shutdown queued |
| AiLifecycle.GenerateCompletes | core/ai-daemon/src/main.rs:64-101 | a generation under a free mutex is queued once, behind all that was sent before, or refused without an engine |
| AiLifecycle.WorkerProtocol | core/ai-daemon/src/inference/llama_cpp.rs:99-103 | in every run no command follows a Shutdown in a worker's queue, and whatever was accepted earlier (a Generate before an Unload) is taken earlier |
| AiLifecycle.NextKeepsInvariant | core/ai-daemon/src/main.rs:64-101 | every step of a request, an unload, a cancelled handler or the worker keeps mutex ownership, engine flag, worker consistency, open commands and loaded models in order |
| AiLifecycle.StepPends | core/ai-daemon/src/inference/llama_cpp.rs:238-250 | a worker step leaves the unfinished commands alone or finishes the first and answers its own task |
| AiLifecycle.NoUnloadUnderWay | core/ai-daemon/src/main.rs:90-96 | no unload is under way on the engine while another task owns the mutex |
| Generation.EvaluatePrompt | core/ai-daemon/src/inference/llama_cpp.rs:489-505 | the chunks concatenate to the prompt evaluated in one batch: consecutive positions, logits at the last token only, each chunk but the last exactly of the batch size |
| Generation.GenerateTokens | core/ai-daemon/src/inference/llama_cpp.rs:526-567 | each sampled token that was sent is evaluated at the next position with logits; what was sent is exactly the texts of those tokens and had been taken; the loop ends at the limit or the first end token, it gives up exactly if it comes, without an earlier failure, to a text that the channel does not take at once, and it fails only on a token without a text or an evaluation that failed |
| Generation.GenerateImpl | core/ai-daemon/src/inference/llama_cpp.rs:449-574 | batched evaluation refines one-shot evaluation of prompt and sampled tokens; at most context_length positions and max_tokens tokens; batches within the configured size, prompt batches but the last exactly of it; at most one terminal item, last; a finished loop has generated exactly the tokens asked for (`Complete`); if nothing fails, it gives up exactly when some text overruns the channel |
| Generation.StopsWhenComplete | core/ai-daemon/src/inference/llama_cpp.rs:475-530 | the loop with its limit ends at exactly the number of tokens that is at most max_tokens, fits the context, has no end token before and can only be exceeded against one of the three |
| Generation.HandleGenerate | core/ai-daemon/src/inference/llama_cpp.rs:253-302 | each stream carries at most one terminal item, last, and nothing is sent to a receiver that left or over the 64 places; a finished stream has all the tokens asked for, of max_tokens, context and end token; if nothing fails and the receiver stays, it carries one exactly when no text overruns the channel; one without a terminal item means that the receiver left, or that 64 items waited in the channel when the next text came; a failed load is reported alone |
| Generation.Forward | core/ai-daemon/src/grpc/mod.rs:199-236 | forwards the items in order with their running token count, nothing after a terminal one, and stops early exactly at a terminal item or when the client is gone |
| Generation.Collect | core/ai-daemon/src/grpc/mod.rs:78-94 | the whole text and count, or an error exactly when the stream carries one |
| Generation.Generate | core/ai-daemon/src/grpc/mod.rs:64-94 | the whole way of a generate call: never more than max_tokens; if nothing fails it always reports a complete answer, which is the text of all tokens asked for exactly when no text overran the channel, and strictly shorter otherwise |
| Generation.SlowClientIsCutOff | core/ai-daemon/src/inference/llama_cpp.rs:541-549 | the input: a client that stays but takes nothing yet and asks for more than 64 tokens gets 64 texts and no terminal item, and collecting passes them for the answer |
| Generation.LessTextBefore | core/ai-daemon/src/inference/llama_cpp.rs:526-561 | stopping before a token that has a text always gives less text |
| Generation.StreamedEqualsCollected | core/ai-daemon/src/grpc/mod.rs:78-236 | what is streamed piece by piece and what is returned at once are the same text and the same count |
| DirectoryView.StrictWeakOrder | apps/files/src/FileModel.cpp:278-305 | the comparator is a strict weak order for every column, known or not, and both orders |
| DirectoryView.SortSorts | apps/files/src/FileModel.cpp:272-307 | sorting permutes and leaves no entry before a smaller one |
| DirectoryView.SortedMeansDirectoriesFirst | apps/files/src/FileModel.cpp:280-284 | in a sorted listing directories come first |
| DirectoryView.SortedMeansArranged | apps/files/src/FileModel.cpp:278-305 | sorted by the comparator means: directories first and, within them and within the rest, ordered by folded name, by size, by folded type and then name, or by date, ascending or descending |
| DirectoryView.FilterKeepsWanted | apps/files/src/FileModel.cpp:182-200 | what is shown is exactly what was listed, is not hidden unless hidden entries are wanted, and has the filter somewhere in its lower-cased name |
| DirectoryView.FilteredCounts | apps/files/src/FileModel.cpp:182-200 | the filter keeps exactly the matching entries, each as often as it was listed |
| DirectoryView.FilteredTwice | apps/files/src/FileModel.cpp:182-200 | erasing hidden entries and then unmatched names is one filter by both |
| DirectoryView.FileModel.Run | apps/files/src/FileModel.cpp:84-237 | for every interleaving of setters, scans that end and deliveries: always arranged by the chosen column and order with directories first, settings and scans as the events make them, and whenever nothing is loading, a permutation of the filter of the listing from the scan started last, for the current directory |
| DirectoryView.FileModel.OnDirectoryLoaded | apps/files/src/FileModel.cpp:178-219 | the view becomes the entries of the delivered listing that are wanted, arranged by the chosen column, and loading ends |
| DirectoryView.FileModel.ApplyFilters | apps/files/src/FileModel.cpp:182-200 | the erase passes compute the filter |
| DirectoryView.FileModel.SetCurrentPath | apps/files/src/FileModel.cpp:84-91 | a new path starts a scan of it and forgets the one before |
| DirectoryView.FileModel.SetSortColumn | apps/files/src/FileModel.cpp:95-102 | the same entries, arranged by the new column's field; a scan goes on |
| DirectoryView.FileModel.SetSortOrder | apps/files/src/FileModel.cpp:106-113 | the same entries, arranged in the new order; a scan goes on |
| DirectoryView.FileModel.SetNameFilter | apps/files/src/FileModel.cpp:117-124 | the filter is stored, the shown entries stay until the reload ends |
| DirectoryView.FileModel.SetShowHidden | apps/files/src/FileModel.cpp:130-137 | likewise for hidden entries |
| DirectoryView.FileModel.DoRefresh | apps/files/src/FileModel.cpp:139-144 | without a path nothing happens; with one, a new scan of it is watched and the shown entries stay |
| DirectoryView.FileModel.StartDirectoryLoad | apps/files/src/FileModel.cpp:221-237 | only the new scan is watched |
| DirectoryView.FileModel.ScanFinishes | apps/files/src/FileModel.cpp:223-229 | the watched scan's result is there to be delivered, that of an abandoned scan reaches nobody |
| DirectoryView.NewPathIsShown | apps/files/src/FileModel.cpp:84-237 | a new path is scanned and what that scan finds is delivered, whatever sorting, abandoned scans and early signals come in between |
| Gguf.Validate | core/ai-daemon/src/models/validator.rs:22-165 | a file is accepted exactly when it starts with the encoding of a header and of that many metadata pairs, and the returned header carries their numbers and the file's size; a short file, a wrong magic and a wrong version are each reported exactly as such |
| Gguf.SkipPair | core/ai-daemon/src/models/validator.rs:85-154 | one round of the walk succeeds exactly on a record that lies within the file, and stops at its end; each way of leaving the file, an unknown tag and an overflow are reported exactly as such |
| Gguf.FixedAreScalars | core/ai-daemon/src/models/validator.rs:116-147 | the values of fixed width are exactly the thirteen scalar types, each with its own tag and its bits in little-endian order |
| Gguf.WalkAcceptsEncodings | core/ai-daemon/src/models/validator.rs:85-154 | every encoded list of scalar, string and four-byte-element array pairs is walked to its very end |
| Gguf.WalkReadsEncodings | core/ai-daemon/src/models/validator.rs:85-154 | a walk that succeeds has passed over the contiguous encoding of that many pairs |
| Gguf.HeaderWritten | core/ai-daemon/src/models/validator.rs:42-64 | the header fields are the little-endian values at their offsets, both ways |
| Gguf.AppendingKeepsAccepted | core/ai-daemon/src/models/validator.rs:71-83 | bytes after the metadata never turn an accepted file into a rejected one |
| Settings.StepKeepsInv | core/settings-service/src/main.rs:63-157 | every step of every request keeps the store, the snapshots, the temporary files and the file in order |
| Settings.FileIsAnEarlierStore | core/settings-service/src/main.rs:79-99 | whatever the interleaving and the failures, the file is untouched or exactly an earlier state of the store |
| Settings.SuccessMeansRenamed | core/settings-service/src/main.rs:143-157 | a request succeeds exactly when it renamed a snapshot, and that snapshot holds its own value or a later one for the key |
| Settings.FailureIsReported | core/settings-service/src/main.rs:143-152 | a step that fails is answered as a failure, and the file stays what it was |
| Settings.RenameInstallsSnapshot | core/settings-service/src/main.rs:97-98 | the rename puts that snapshot into place as a whole |
| Settings.NeverEmptied | core/settings-service/src/main.rs:67-69 | no set request finds the store empty, so none succeeds without writing |
| Settings.SerialRequestsPersist | core/settings-service/src/main.rs:127-158 | without overlap, once the request that changed the store last has succeeded the file is the store, and loading it gives it back |
| Settings.SettingSurvivesRestart | core/settings-service/src/main.rs:36-51 | a setting stored alone survives a restart, with all of the file found at the start, with the defaults if there was none, and with nothing else if it could not be read |
| Settings.OrderedRenamesPersist | core/settings-service/src/main.rs:63-101 | the same for requests that overlap, as long as their renames keep the order of their snapshots |
| Settings.FileIsCurrentExactly | core/settings-service/src/main.rs:63-101 | for any interleaving, the file is the store exactly when what was inserted after the snapshot renamed last was already in it with the value it has now |
| Settings.OverlapCanLeaveStaleFile | core/settings-service/src/main.rs:136-144 | two overlapping requests for any two keys can both succeed and leave a file without the second setting |
| Memory.MemoryProvider.Run | core/ai-daemon/src/memory.rs:24-44 | after any run the buffer is the longest suffix of everything pushed since the last clear whose estimate is within the bound |
| Memory.MemoryProvider.PushEntry | core/ai-daemon/src/memory.rs:24-32 | eviction stops exactly there |
| Memory.MemoryProvider.GetContext | core/ai-daemon/src/memory.rs:34-36 | the context is that suffix |
| Memory.MemoryProvider.ClearAll | core/ai-daemon/src/memory.rs:38-40 | the buffer is empty and the history starts anew |
| Memory.EvictedStaysOut | core/ai-daemon/src/memory.rs:28-31 | what was evicted can never fit again |
| Memory.LongestIsUnique | core/ai-daemon/src/memory.rs:24-44 | only one suffix is the longest that fits |
| Memory.ShorterFits | core/ai-daemon/src/memory.rs:42-44 | a suffix of something that fits fits |
| Memory.EstimateIsClose | core/ai-daemon/src/memory.rs:42-44 | the estimate is a quarter of the bytes, short by less than one token for each entry |
| Permissions.PolicyEngine.EvaluateSync | core/permission-manager/src/policy/mod.rs:36-81 | decides exactly on input that is not blank, a working database and an intelligible grant; allows exactly on an unexpired "allowed"; one audit row for a decision and none otherwise; each error exactly for its own cause |
| Permissions.LapsesForGood | core/permission-manager/src/policy/mod.rs:51-53 | a grant lapses at the moment it expires and stays lapsed, and one without an expiry never lapses |
| PermissionGate.EveryStartWasAllowed | core/action-manager/src/main.rs:58-90 | in every run, every body started follows an evaluation of the same request, action and resource that found an unexpired "allowed" in the database of that moment and left a matching audit row |
| PermissionGate.StartedAsRequested | core/action-manager/src/main.rs:37-107 | in every run, what was started is what was asked for: a move from the request's source to its destination, a wallpaper from its path, and nothing for any other action |
| PermissionGate.GrantedRequestRuns | core/action-manager/src/main.rs:27-121 | a request that names all it needs and is not interrupted is carried out exactly on a live "allowed" for what it touches, and leaves one row with the decision |
| PermissionGate.RefusedAtOnce | core/action-manager/src/main.rs:37-63 | a request is refused before any evaluation exactly if its action is unknown or the path it would touch is not named |
| PermissionGate.LatestGrantsCount | core/permission-manager/src/policy/mod.rs:42-72 | an evaluation goes by the grants and the time of its own moment, whatever they were when the request arrived |
| PermissionGate.OneRowPerDecision | core/permission-manager/src/policy/mod.rs:74-80 | the audit log is the list of decisions; a request has at most one and starts at most one body |
| PermissionGate.InvalidRequestsLeaveNoTrace | core/action-manager/src/main.rs:37-63 | unsupported actions, missing parameters and blank resources never leave a row and never start anything |
| PermissionGate.EvaluationAddsRowExactly | core/permission-manager/src/policy/mod.rs:42-80 | one evaluation adds a row exactly when it decides, and goes on to the action exactly on a live "allowed" |
| PermissionGate.StepKeepsInv | core/action-manager/src/main.rs:27-122 | every step of every request, and every change of grants and time, keeps rows, decisions and starts matched |

## Left out

- FileManager.FileOperations.MoveToTrash: the file system's root is not trashed, and a source that leads to the tried places by visible names only is excluded, because copying it there would not end.
- FileManager.FileOperations.PerformMove: while the only free trash names lie where the destination's copies may land, `MoveSpares` is not exact; which of those names the copy takes depends on the order in which entries are listed, so the exact condition is stated about the target that was used.
- FileManager.FileOperations.GioTrash: stands for the external program as one atomic relocation or no effect; its .trashinfo files are not modelled.
- FirstFreeName.FirstFree: names are put together plainly, so a base name that itself contains place markers such as `%1` is not covered.
- Gguf.SkipPair: sums that exceed 64 bits are rejected, as with overflow checks on; builds without them wrap around.
- Settings.SerialRequestsPersist: says nothing about a last request that failed to persist, after which the file lags behind the store.
- Generation.GenerateImpl: positions and sizes are not truncated to 32 bits, and sampling, tokenizing and decoding are parameters.
- Other processes that change the tree meanwhile, symbolic links, special files, permissions and timestamps.
- Renaming, creating and opening files, and `isSafeName`: one primitive call each.
- The desktop's own trash fallback through `cp -r` and `rm -rf`: external programs.
- Status messages and user interface signals, and signal handlers that call `startAuth` again from inside `onReadyRead`.
- Reordering between D-Bus connections: both channels are first in, first out. Window ids `win-N` are the numbers N.
- The watchdog's mode and timeout: an unload may start at any time, which covers every setting of them.
- `is_loading` and the liveness of `model_state`, which is written outside the mutex and can stay stale; nothing is proved about either. `get_status` only reads them.
- The death of the worker thread or a poisoned lock, quick actions, prompt enrichment and tool dispatch around a generation.
- Equal temporary names for two requests in the same nanosecond, and partial reads of the settings file by others.
- What an action body does once started, and the connection between the two services beyond a reply that may be lost.
- Volume, power, workspaces, downloads, hardware probes and all QML: thin wrappers or presentation.
