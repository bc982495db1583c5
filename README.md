# SwiftyScript task lifecycle in Dafny

SwiftyScript runs shell scripts as managed tasks. A `Task` writes its
script into `<workspace>/<name>/<name>.sh`, guards the directory with a
lock file `.swift_script.lock`, creates a log file `<name>.txt`, launches
the interpreter named by its `Language` on the script, waits for it, and
turns the exit status into a `Result`. `readLog()` reads the log back,
and `String.runAsScript(...)` does all of this in one call. This project
models that lifecycle and proves what it promises.

Layout:

- `wrappers.dfy`, module `Wrappers`: `Option`, Swift's optional type.
- `foundation.dfy`, module `Foundation`: the host. It holds the file system
  as a map from path strings to directories and files, the set of Foundation
  calls the host refuses, and an oracle giving each launched child's exit
  status and output. It also records the launches made. Foundation's
  `FileManager`, `FileHandle` and `Process` calls are methods of the class
  `Host`.
- `task_model.dfy`, module `TaskModel`: the value side of Task.swift. It
  holds the `Result` and `ErrorType` enums, `==` on results, the derived
  paths, the environment merge, and `run()` as the functions `SetUpOutcome`,
  `AttemptOutcome` and `RunOutcome`. It also holds the lemmas stating what
  `run()` and `readLog()` promise.
- `task.dfy`, module `Tasks`: the class `Task`. Its fields are those of
  Task.swift, and its methods `Run`, `Clean` and `ReadLog` change the task
  and the host step by step. Each is proved against the functions of
  `TaskModel`. Swift's `defer` is rendered by splitting `run()`: `Run` holds
  the guards and the deferred cleanup, and `Attempt` holds the body.
- `utils.dfy`, module `Utils`: `joinedScript()`, which `SplitLines` undoes
  for non-empty lists of lines without "\n", and `runAsScript`.

Details of Task.swift that the model keeps:

- The lock file is `.swift_script.lock`, inside the task directory.
- In `.log` mode the child's output goes to the log through a `FileHandle`
  opened for updating.
- The deferred cleanup of `run()` removes only the lock.

## Model

| member | source | states |
|---|---|---|
| TaskModel.ResultsEqual | Source/SwiftyScript/Task.swift:33-40 | two results are `==` exactly when they are the same case with equal payloads, so the relation is reflexive and symmetric, `.failed(a) == .failed(b)` iff `a == b`, and different cases are never equal |
| TaskModel.WorkspacePath | Source/SwiftyScript/Task.swift:70-72 | the task directory's path extends the workspace's path by "/" and the name |
| TaskModel.ScriptPath | Source/SwiftyScript/Task.swift:73-75 | the script's path extends the task directory's path by "/" and `<name>.sh` |
| TaskModel.LockPath | Source/SwiftyScript/Task.swift:76-78 | the lock's path extends the task directory's path by "/" and `.swift_script.lock` |
| TaskModel.LogPath | Source/SwiftyScript/Task.swift:79-81 | the log's path extends the task directory's path by "/" and `<name>.txt` |
| TaskModel.PathLayout | Source/SwiftyScript/Task.swift:70-81 | as path strings, the task directory `workspace/name` lies inside the workspace; the script, the lock and the log lie inside the task directory and are three different paths |
| TaskModel.PathsDoNotNest | Source/SwiftyScript/Task.swift:73-81 | for a name without '/', neither the script nor the log lies inside the lock's path, so removing the lock removes neither |
| TaskModel.InitialSettings | Source/SwiftyScript/Task.swift:83-97 | each of output, name and workspace is the argument when given and the default otherwise; language, content and configure are taken as given; the environment starts empty |
| TaskModel.DefaultTaskLayout | Source/SwiftyScript/Task.swift:44-50 | with no optional argument and the initial defaults, a task writes to the console, is named "Default", and keeps its script, lock and log in "/tmp/SwiftScript/Default" |
| Tasks.Task.constructor | Source/SwiftyScript/Task.swift:83-97 | the task's settings are `InitialSettings` of its arguments and defaults; `printTaskInfo` falls back to its default; the task starts idle with no process and no start date |
| Tasks.Task.Run | Source/SwiftyScript/Task.swift:104-206 | the result, the file system and the launches afterwards are those of `RunOutcome` on the old state; `isRunning` is back to its value on entry; on `.success` and `.failed` the process and start date are cleared; the settings are untouched |
| TaskModel.RunOutcome | Source/SwiftyScript/Task.swift:104-206 | one call of `run()`: alreadyRunning exactly when the task is running; the guards change nothing and launch nothing; a child is launched exactly when the result is not an error, and it is the launch built from the settings |
| TaskModel.AttemptOutcome | Source/SwiftyScript/Task.swift:131-205 | the body of `run()`: never alreadyRunning; openLogFailed exactly when setup succeeded in `.log` mode and the log cannot be opened for updating; a child is launched exactly when the result is not an error, and it is the launch built from the settings |
| TaskModel.RunGuards | Source/SwiftyScript/Task.swift:105-113 | while running, `run()` gives `.error(.alreadyRunning)` and changes nothing, even with the lock present; otherwise, with the lock present, it gives `.error(.workspaceLocked)` and changes nothing |
| TaskModel.RunResults | Source/SwiftyScript/Task.swift:104-166 | exactly which result each combination of entry state and refused calls gives: wipe or mkdir failure gives createFileFailed; lock creation failure gives workspaceLocked; log creation or script write failure gives createFileFailed; a log handle that cannot be opened in `.log` mode gives openLogFailed; the child is launched exactly when every step succeeds, and only then is the result not an error |
| TaskModel.RunLaunch | Source/SwiftyScript/Task.swift:168-205 | the child runs the language's interpreter on the script inside the task directory; its output goes to the log exactly in `.log` mode; every task variable is in its environment with the task's value; every other variable is the language's; status 0 gives `.success` and a nonzero `n` gives `.failed(n)` |
| TaskModel.RunReleasesLock | Source/SwiftyScript/Task.swift:121-129 | once past the guards, no lock remains afterwards unless the host refused to remove it |
| TaskModel.RunConfinedToWorkspace | Source/SwiftyScript/Task.swift:115-150 | on any path through `run()`, no path string outside the task directory is changed or deleted, and the only entries created outside it are missing directories enclosing it, created as directories |
| TaskModel.RunWorkspaceAfterSetup | Source/SwiftyScript/Task.swift:131-166 | after a run whose setup succeeded (the workspace was not locked and no setup step was refused), the task directory holds exactly the script, the log and (only if its removal was refused) the lock; the script's text is `configure(content)`, or `content` without a hook; the log holds the child's output in `.log` mode and is empty otherwise; older files are gone |
| TaskModel.SetUpResults | Source/SwiftyScript/Task.swift:131-150 | setup is ready exactly when none of its five calls is refused (the wipe only when the directory exists); a refused lock gives workspaceLocked and every other refusal createFileFailed |
| TaskModel.SetUpConfined | Source/SwiftyScript/Task.swift:131-150 | however setup ends, nothing outside the task directory is changed or deleted, and the only entries created outside it are directories enclosing it |
| TaskModel.SetUpLayout | Source/SwiftyScript/Task.swift:131-150 | once setup is ready, the task directory and every directory enclosing it exist; the task directory holds an empty lock, an empty log and the configured script, and nothing older unless the directory was missing |
| TaskModel.SetUpClearsWorkspace | Source/SwiftyScript/Task.swift:131-150 | on a file system whose entries all have their enclosing directories, a ready setup leaves exactly the lock, the log and the script inside the task directory |
| TaskModel.SetUpKeepsRooted | Source/SwiftyScript/Task.swift:131-150 | for a name without '/', the setup steps leave every entry's enclosing directories in place |
| TaskModel.RunKeepsRooted | Source/SwiftyScript/Task.swift:104-206 | for a name without '/', a file system whose entries all have their enclosing directories keeps that property through `run()`, so the lemmas that assume it apply to the next run |
| Tasks.Task.SetUp | Source/SwiftyScript/Task.swift:131-150 | performs the setup steps and returns None exactly when `SetUpOutcome` is ready; otherwise returns the error of the failing step |
| Tasks.Task.Attempt | Source/SwiftyScript/Task.swift:131-205 | the body of `run()` guarded by `defer` gives the result, file system and launches of `AttemptOutcome`; process and start date are cleared after the child exits |
| Tasks.Task.RemoveItemIfExist | Source/SwiftyScript/Task.swift:115-119 | succeeds unless the item exists and its removal is refused; a missing item is left alone |
| TaskModel.Configured | Source/SwiftyScript/Task.swift:145 | the script's text is the `configure` hook applied to the content when a hook is set, and the content unchanged otherwise |
| TaskModel.LaunchOf | Source/SwiftyScript/Task.swift:155-179 | the child runs in the task directory, the language's interpreter gets the script (inside that directory) as its one argument, output is captured in the log exactly in `.log` mode, and every task variable is in the environment with the task's value |
| TaskModel.Unlocked | Source/SwiftyScript/Task.swift:122-129 | the deferred cleanup keeps the result and the launch; afterwards the lock is present exactly when it was and its removal was refused; no path outside the lock's path changes |
| TaskModel.MergedEnvironment | Source/SwiftyScript/Task.swift:172-179 | the merged environment's keys are the task's and the language's; a task variable wins on a clash; every other value is the language's |
| Tasks.Task.ChildEnvironment | Source/SwiftyScript/Task.swift:172-179 | the environment the task builds for its child, starting empty and overlaying the language's variables and then its own, is `MergedEnvironment` |
| Tasks.Overlay | Source/SwiftyScript/Task.swift:176-179 | the `forEach` loop sets every entry over the base map: the keys are the union, the entries' values win, the other base values stay |
| TaskModel.ExitResult | Source/SwiftyScript/Task.swift:196-205 | status 0 and only 0 gives `.success`; any other status `n` gives `.failed(n)` |
| Tasks.Task.Clean | Source/SwiftyScript/Task.swift:212-217 | while running the file system is untouched; otherwise the task directory and everything inside it are removed unless the host refuses, and nothing else changes |
| Tasks.Task.ReadLog | Source/SwiftyScript/Task.swift:219-230 | None exactly when the log cannot be opened; otherwise the log's text, with exactly one final "\n" character removed when the option is set and the text ends in one, and unchanged otherwise |
| TaskModel.LogContents | Source/SwiftyScript/Task.swift:219-230 | `readLog()`'s value: None exactly when the log cannot be opened for reading; otherwise the log's text, less one final "\n" character when stripping is on and the text ends in one |
| TaskModel.EndsWithNewline | Source/SwiftyScript/Task.swift:227 | `content.last == "\n"`: when it holds, the text is a body followed by "\n" |
| TaskModel.NewlineCharacter | Source/SwiftyScript/Task.swift:227 | a "\n" appended to a body is the last Character exactly when the body does not end in "\r", since "\r\n" is one Character; a text ending in "\r" never ends in a newline Character |
| TaskModel.TrimmedLog | Source/SwiftyScript/Task.swift:226-229 | with stripping on and a final "\n" character, the result plus "\n" is the text; otherwise the text is returned as it is |
| TaskModel.TrimmedLogExamples | Source/SwiftyScript/Task.swift:227-229 | "hello\n" becomes "hello", "hello" stays, only one of two final newlines goes, "\r\n" (one Swift character) stays, and nothing is stripped when the option is off |
| TaskModel.SuccessfulRunLog | Source/SwiftyScript/Task.swift:155-230 | after a successful run (the workspace was not locked, setup and opening the log went through, and the child exited with 0), reading the log gives the child's output in `.log` mode and "" in `.console` mode, trimmed as asked; it gives None only when the host refuses to open the log |
| Utils.JoinedScript | Source/SwiftyScript/Utils.swift:66-68 | the joined script of a non-empty list starts with the first line and ends with the last |
| Utils.SplitJoinedScript | Source/SwiftyScript/Utils.swift:66-68 | for lines without "\n", splitting the joined script at "\n" gives back the lines: one separator between consecutive lines, none at either end |
| Utils.JoinedScriptAppend | Source/SwiftyScript/Utils.swift:66-68 | joining two non-empty lists puts exactly one "\n" between their joins |
| Utils.JoinedScriptLength | Source/SwiftyScript/Utils.swift:66-68 | a non-empty list's join is as long as its lines plus one per gap |
| Utils.RunAsScript | Source/SwiftyScript/Utils.swift:28-43 | builds a task whose content is the string and whose settings are the caller's optional arguments with defaults; returns `run()`'s result unchanged; the log is `readLog()` (or "" when that is nil) on `.success` and "" otherwise |
| Foundation.Host.RemoveItem | Source/SwiftyScript/Task.swift:115-119 | removal deletes the item and everything inside it; it fails, changing nothing, when the item is missing or the host refuses |
| Foundation.Host.CreateDirectory | Source/SwiftyScript/Task.swift:133 | unless the host refuses, the directory and every missing directory enclosing it exist afterwards, and no existing entry other than the path itself changes |
| Foundation.Host.CreateFile | Source/SwiftyScript/Task.swift:135-143 | an empty file exists at the path afterwards unless the host refuses |
| Foundation.Host.Write | Source/SwiftyScript/Task.swift:146 | the file holds the text afterwards unless the host refuses |
| Foundation.Host.OpenForUpdating | Source/SwiftyScript/Task.swift:157 | a handle is given exactly for an existing file the host lets be opened |
| Foundation.Host.ReadFile | Source/SwiftyScript/Task.swift:220-225 | gives the file's text exactly when it exists and the host lets it be opened, and None otherwise |
| Foundation.Host.Execute | Source/SwiftyScript/Task.swift:180-196 | the launch is recorded; the status is the child's; the child's output overwrites the capture file from its start |
| Foundation.Overwritten | Source/SwiftyScript/Task.swift:157-162 | output written from offset 0 is a prefix of the file afterwards, and any longer old tail survives |

## Left out

- The oracles: which Foundation calls fail (`Host.refused`) and how a child ends (`Host.exec`). The model covers every combination, but it cannot say which one a real machine produces.
- The child's own effects: the model does not capture changes the script makes to the file system beyond its output landing in the log.
- `terminate()` and `pid` are process control on a live `Process` and are not modelled.
- `deinit` and `killIncludeChildIfNeed`, which start a companion `pkill` task, are not modelled: they are a side effect on foreign processes.
- `fastRunAsScript` calls `Task.fastRun()`, which Task.swift does not define. Its source is not part of this model.
- The duration text is left out: it uses floating-point `Date` arithmetic and `%.02f` formatting, only for a log line.
- Console logging is left out: `printInfo`, `printError`, `printSuccess`, `Utils.printLog`, its date formatter and the colouring. `printTaskInfo` is kept as a field but has no effect.
- UTF-8 decoding in `readLog()` is not modelled. Text is a sequence of Unicode scalars, so the "Cannot parse the log file." fallback for undecodable bytes never arises.
- A `removeItem` that fails part-way is modelled as removing nothing.
- A launch and its `waitUntilExit()` are one step. The process handle and start date are set just before that step and cleared just after.
- `startDate` reads the host's clock.
- The `DefaultValue` globals are a `Defaults` value: it is passed when a task is built and when its log is read.
- The `Language.Bash` and `Language.Ksh` presets read `getenv` and are not modelled; only the `Language` shape is.
- Cross-process locking is not modelled. The race between the lock check and the lock's creation needs two processes, and the model is sequential.
- TaskModel.RunWorkspaceAfterSetup: stated only for names without '/' and for a file system whose entries all have their enclosing directories (`Rooted`). A name with '/' can place the script or the log inside the lock's path.
- TaskModel.SuccessfulRunLog: stated only for names without '/', for the same reason.
- TaskModel.PathsDoNotNest: stated only for names without '/', for the same reason.
- Paths are compared as strings: ".", "..", repeated "/" and symbolic links are not resolved. The root directory is the path "", which every absolute path lies inside. The containment claims (PathLayout, RunConfinedToWorkspace, SetUpConfined, SetUpLayout) hold for the real directories only for a canonical workspace path and a non-empty name with no "." or ".." part. With name "..", `workspacePath` names the workspace's parent. With name ".", "" or a name such as "a/..", it names the workspace itself, so the wipe at the start of `run()` deletes the other tasks' directories, while the string model keeps them.
- TaskModel.SetUpLayout: inside the task directory, entries older than the run can survive only when the directory itself was missing, which a real file system rules out; SetUpClearsWorkspace states the layout for that case.
- TaskModel.SetUpKeepsRooted: stated only for names without '/'. Such a name puts the script or the log under a directory that setup does not create.
- TaskModel.RunKeepsRooted: stated only for names without '/', for the same reason.
- `configure` is a pure, total `string -> string`; a Swift closure could have side effects or trap, and those are not modelled.
- `launch()` raising when the interpreter cannot be started, which stops the program, is not modelled: `Host.Execute` always runs the child.
- `Host.CreateFile` and `Host.CreateDirectory` succeed over an existing node of the other kind unless the host refuses; Foundation fails there, which the model covers only through a refusal. For the same reason, an enclosing path that is a file is left as a file when a directory is created beneath it.
