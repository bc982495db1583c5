/**
  The values of Task.swift: its result and error enums, the settings a task
  is built with, the paths derived from them, and what one call of `run()`
  does to the host, as functions. The class `Tasks.Task` is proved against
  `RunOutcome`; the lemmas at the end state what `run()` promises.
*/
module TaskModel {
  import opened Wrappers
  import opened Foundation

  datatype ErrorType = AlreadyRunning | WorkspaceLocked | CreateFileFailed | OpenLogFailed

  datatype Result = Error(kind: ErrorType) | Failed(code: int) | Success

  /** Where the child's output goes. */
  datatype Output = Log | Console

  /** An interpreter and the environment variables it is launched with (Task+Language.swift). */
  datatype Language = Language(launchPath: Path, environment: Option<map<string, string>>)

  /** The mutable `Task.DefaultValue` globals, read when a task is built or its log is read. */
  datatype Defaults = Defaults(
    output: Output,
    name: string,
    workspace: Path,
    printTaskInfo: bool,
    removeLastEmptyLineWhenReadingLog: bool)

  /** The globals' values before any caller changes them. */
  const InitialDefaults := Defaults(Console, "Default", "/tmp/SwiftScript", true, true)

  /** The configuration of a task that `run()` depends on. */
  datatype Settings = Settings(
    language: Language,
    output: Output,
    name: string,
    workspace: Path,
    content: string,
    configure: Option<string -> string>,
    environment: map<string, string>)

  /** The settings `Task.init` gives a task: each missing argument falls back to its default. */
  function InitialSettings(language: Language, output: Option<Output>, name: Option<string>,
                           workspace: Option<Path>, content: string,
                           configure: Option<string -> string>, defaults: Defaults): (s: Settings)
    ensures s.language == language && s.content == content && s.configure == configure
    ensures s.output == (if output.Some? then output.value else defaults.output)
    ensures s.name == (if name.Some? then name.value else defaults.name)
    ensures s.workspace == (if workspace.Some? then workspace.value else defaults.workspace)
    ensures s.environment == map[]
  {
    Settings(language, output.GetOr(defaults.output), name.GetOr(defaults.name),
             workspace.GetOr(defaults.workspace), content, configure, map[])
  }

  /**
    A task built with no optional argument, before any default is changed,
    writes to the console and lives in "/tmp/SwiftScript/Default".
  */
  lemma DefaultTaskLayout(language: Language, content: string)
    ensures var s := InitialSettings(language, None, None, None, content, None, InitialDefaults);
      && s.output == Console && s.name == "Default" && s.workspace == "/tmp/SwiftScript"
      && Configured(s.content, s.configure) == content
      && WorkspacePath(s.workspace, s.name) == "/tmp/SwiftScript/Default"
      && ScriptPath(s.workspace, s.name) == "/tmp/SwiftScript/Default/Default.sh"
      && LockPath(s.workspace, s.name) == "/tmp/SwiftScript/Default/.swift_script.lock"
      && LogPath(s.workspace, s.name) == "/tmp/SwiftScript/Default/Default.txt"
  {
    var wp := "/tmp/SwiftScript/Default";
    assert "/tmp/SwiftScript" + "/" + "Default" == wp;
    assert wp + "/" + ("Default" + ".sh") == "/tmp/SwiftScript/Default/Default.sh";
    assert wp + "/" + LockFileName == "/tmp/SwiftScript/Default/.swift_script.lock";
    assert wp + "/" + ("Default" + ".txt") == "/tmp/SwiftScript/Default/Default.txt";
  }

  /** The `==` operator on results. */
  function ResultsEqual(l: Result, r: Result): (equal: bool)
    ensures equal <==> l == r
  {
    match (l, r)
    case (Success, Success) => true
    case (Failed(a), Failed(b)) => a == b
    case (Error(a), Error(b)) => a == b
    case _ => false
  }

  // ---------------------------------------------------------------------
  // Derived paths

  /** `workspacePath`: the directory named after the task, directly inside the workspace. */
  function WorkspacePath(workspace: Path, name: string): (wp: Path)
    ensures Within(wp, workspace) && wp[|workspace| + 1..] == name
  {
    workspace + "/" + name
  }

  const LockFileName: string := ".swift_script.lock"

  /** `scriptPath`: `<name>.sh`, directly inside the task's directory. */
  function ScriptPath(workspace: Path, name: string): (p: Path)
    ensures var wp := WorkspacePath(workspace, name);
      Within(p, wp) && p[|wp| + 1..] == name + ".sh"
  {
    WorkspacePath(workspace, name) + "/" + (name + ".sh")
  }

  /** `lockPath`: the lock file, directly inside the task's directory. */
  function LockPath(workspace: Path, name: string): (p: Path)
    ensures var wp := WorkspacePath(workspace, name);
      Within(p, wp) && p[|wp| + 1..] == LockFileName
  {
    WorkspacePath(workspace, name) + "/" + LockFileName
  }

  /** `logPath`: `<name>.txt`, directly inside the task's directory. */
  function LogPath(workspace: Path, name: string): (p: Path)
    ensures var wp := WorkspacePath(workspace, name);
      Within(p, wp) && p[|wp| + 1..] == name + ".txt"
  {
    WorkspacePath(workspace, name) + "/" + (name + ".txt")
  }

  lemma ChildWithin(dir: Path, child: string)
    ensures Within(dir + "/" + child, dir)
  {
    assert dir + "/" + child == (dir + "/") + child;
  }

  lemma {:induction false} WithinChild(q: Path, dir: Path, child: string)
    requires Within(q, dir + "/" + child)
    ensures Within(q, dir)
  {
    var p := dir + "/" + child + "/";
    assert p[..|dir| + 1] == dir + "/";
    assert q[..|dir| + 1] == p[..|dir| + 1];
  }

  /** Two entries of one directory never contain each other when the inner name has no '/'. */
  lemma {:induction false} SiblingsDoNotNest(dir: Path, a: string, b: string)
    requires '/' !in b
    ensures !Within(dir + "/" + b, dir + "/" + a)
  {
    var p, q := dir + "/" + a + "/", dir + "/" + b;
    var i := |dir| + 1 + |a|;
    assert p[i] == '/';
    if i < |q| {
      assert q[i] == b[|a|];
      assert b[|a|] in b;
    }
  }

  /** All the files of a task lie inside its workspace directory, which lies inside the workspace. */
  lemma PathLayout(workspace: Path, name: string)
    ensures Within(WorkspacePath(workspace, name), workspace)
    ensures Within(ScriptPath(workspace, name), WorkspacePath(workspace, name))
    ensures Within(LockPath(workspace, name), WorkspacePath(workspace, name))
    ensures Within(LogPath(workspace, name), WorkspacePath(workspace, name))
    ensures ScriptPath(workspace, name) != LockPath(workspace, name)
    ensures ScriptPath(workspace, name) != LogPath(workspace, name)
    ensures LockPath(workspace, name) != LogPath(workspace, name)
  {
    var wp := WorkspacePath(workspace, name);
    ChildWithin(workspace, name);
    ChildWithin(wp, name + ".sh");
    ChildWithin(wp, LockFileName);
    ChildWithin(wp, name + ".txt");
    var script, lock, log := ScriptPath(workspace, name), LockPath(workspace, name), LogPath(workspace, name);
    assert script[|script| - 1] == 'h';
    assert lock[|lock| - 1] == 'k';
    assert log[|log| - 1] == 't';
  }

  /** A name free of '/' stays free of it with an extension. */
  lemma NoSlashWithExtension(name: string, ext: string)
    requires '/' !in name && '/' !in ext
    ensures '/' !in name + ext
  {
    forall i | 0 <= i < |name + ext| ensures (name + ext)[i] != '/' {
      if i < |name| {
        assert (name + ext)[i] in name;
      } else {
        assert (name + ext)[i] in ext;
      }
    }
  }

  /** With a name free of '/', neither the script nor the log lies inside the lock's path. */
  lemma {:induction false} PathsDoNotNest(workspace: Path, name: string)
    requires '/' !in name
    ensures !Within(ScriptPath(workspace, name), LockPath(workspace, name))
    ensures !Within(LogPath(workspace, name), LockPath(workspace, name))
  {
    var wp := WorkspacePath(workspace, name);
    NoSlashWithExtension(name, ".sh");
    NoSlashWithExtension(name, ".txt");
    SiblingsDoNotNest(wp, LockFileName, name + ".sh");
    SiblingsDoNotNest(wp, LockFileName, name + ".txt");
  }

  // ---------------------------------------------------------------------
  // What run() computes

  /** The text written to the script file: the `configure` hook applied to the content, if set. */
  function Configured(content: string, configure: Option<string -> string>): (text: string)
    ensures configure.None? ==> text == content
    ensures configure.Some? ==> text == configure.value(content)
  {
    match configure
    case Some(f) => f(content)
    case None => content
  }

  /**
    The child's environment: empty, then the language's variables, then the
    task's, so a task variable wins over a language variable of the same name.
  */
  function MergedEnvironment(language: Language, environment: map<string, string>): (env: map<string, string>)
    ensures env.Keys == environment.Keys + (if language.environment.Some? then language.environment.value.Keys else {})
    ensures forall k :: k in environment ==> env[k] == environment[k]
    ensures forall k :: k in env && k !in environment ==> language.environment.Some? && env[k] == language.environment.value[k]
  {
    map[] + language.environment.GetOr(map[]) + environment
  }

  /**
    How the child is launched: inside the task directory, the interpreter
    on the script as its one argument, with the merged environment, and its
    output captured in the log exactly in `Log` mode.
  */
  function LaunchOf(s: Settings): (l: Launch)
    ensures l.directory == WorkspacePath(s.workspace, s.name) && l.launchPath == s.language.launchPath
    ensures |l.arguments| == 1 && Within(l.arguments[0], l.directory) && l.arguments[0] == ScriptPath(s.workspace, s.name)
    ensures l.capture.Some? <==> s.output == Log
    ensures l.capture.Some? ==> l.capture.value == LogPath(s.workspace, s.name)
    ensures forall k :: k in s.environment ==> k in l.environment && l.environment[k] == s.environment[k]
  {
    Launch(WorkspacePath(s.workspace, s.name),
           s.language.launchPath,
           [ScriptPath(s.workspace, s.name)],
           MergedEnvironment(s.language, s.environment),
           if s.output == Log then Some(LogPath(s.workspace, s.name)) else None)
  }

  /** An exit status becomes a result. */
  function ExitResult(status: int32): (r: Result)
    ensures r.Success? <==> status == 0
    ensures !r.Success? ==> r == Failed(status as int)
  {
    if status == 0 then Success else Failed(status as int)
  }

  /** What one call of `run()` returns, leaves on disk, and launches (if anything). */
  datatype Outcome = Outcome(result: Result, nodes: map<Path, Node>, launched: Option<Launch>)

  function Launches(o: Outcome): seq<Launch> {
    if o.launched.Some? then [o.launched.value] else []
  }

  /** The file system after `removeItemIfExist`, when the removal succeeds. */
  function Wiped(nodes: map<Path, Node>, p: Path): map<Path, Node> {
    if p in nodes then Removed(nodes, p) else nodes
  }

  /** How the setup steps of `run()` end: ready to launch, or with an error. */
  datatype Setup = Ready(nodes: map<Path, Node>) | SetupFailed(kind: ErrorType, nodes: map<Path, Node>)

  /**
    The setup steps of `run()`: wipe and recreate the workspace directory,
    create the lock and the log, write the script. A throwing step gives
    createFileFailed, except the lock, whose failure gives workspaceLocked.
  */
  function SetUpOutcome(s: Settings, nodes: map<Path, Node>, refused: set<Call>): Setup
  {
    var wp := WorkspacePath(s.workspace, s.name);
    var lock := LockPath(s.workspace, s.name);
    var log := LogPath(s.workspace, s.name);
    var script := ScriptPath(s.workspace, s.name);
    if wp in nodes && RemoveItem(wp) in refused then SetupFailed(CreateFileFailed, nodes)
    else
      var n1 := Wiped(nodes, wp);
      if CreateDirectory(wp) in refused then SetupFailed(CreateFileFailed, n1)
      else
        var n2 := WithDirectory(n1, wp);
        if CreateFile(lock) in refused then SetupFailed(WorkspaceLocked, n2)
        else
          var n3 := n2[lock := File("")];
          if CreateFile(log) in refused then SetupFailed(CreateFileFailed, n3)
          else
            var n4 := n3[log := File("")];
            if WriteFile(script) in refused then SetupFailed(CreateFileFailed, n4)
            else Ready(n4[script := File(Configured(s.content, s.configure))])
  }

  /**
    Which way the setup steps end: they are ready exactly when none of the
    five calls is refused (the wipe only counts when the directory exists); a
    refused lock gives workspaceLocked and any other refusal createFileFailed.
  */
  lemma SetUpResults(s: Settings, nodes: map<Path, Node>, refused: set<Call>)
    ensures var r := SetUpOutcome(s, nodes, refused);
      var wp, lock := WorkspacePath(s.workspace, s.name), LockPath(s.workspace, s.name);
      var log, script := LogPath(s.workspace, s.name), ScriptPath(s.workspace, s.name);
      var wipeFails := wp in nodes && RemoveItem(wp) in refused;
      var earlyFails := wipeFails || CreateDirectory(wp) in refused;
      var lockFails := CreateFile(lock) in refused;
      var fileFails := CreateFile(log) in refused || WriteFile(script) in refused;
      && (r.Ready? <==> !earlyFails && !lockFails && !fileFails)
      && (r.SetupFailed? && r.kind == WorkspaceLocked <==> !earlyFails && lockFails)
      && (r.SetupFailed? && r.kind == CreateFileFailed <==> earlyFails || (!lockFails && fileFails))
  {
  }

  /** `q`, outside `wp`, is as it was in `nodes`, unless it is a directory enclosing `wp` that `m` added. */
  predicate KeptOutside(nodes: map<Path, Node>, m: map<Path, Node>, wp: Path, q: Path) {
    && (q in nodes ==> q in m && m[q] == nodes[q])
    && (q in m && q !in nodes ==> Within(wp, q) && m[q] == Directory)
  }

  /** Each intermediate state of the setup steps keeps every path outside the task directory. */
  lemma {:induction false} StepsKeepOutside(nodes: map<Path, Node>, wp: Path, lock: Path, log: Path, script: Path,
                                            text: string, q: Path)
    requires Within(lock, wp) && Within(log, wp) && Within(script, wp)
    requires q != wp && !Within(q, wp)
    ensures var n1 := Wiped(nodes, wp);
      var n2 := WithDirectory(n1, wp);
      var n3 := n2[lock := File("")];
      var n4 := n3[log := File("")];
      && KeptOutside(nodes, nodes, wp, q) && KeptOutside(nodes, n1, wp, q) && KeptOutside(nodes, n2, wp, q)
      && KeptOutside(nodes, n3, wp, q) && KeptOutside(nodes, n4, wp, q)
      && KeptOutside(nodes, n4[script := File(text)], wp, q)
  {
    AncestorsEnclose(wp);
  }

  /** The task directory after it is wiped, recreated and given its three files. */
  lemma {:induction false} RecreatedLayout(nodes: map<Path, Node>, wp: Path, lock: Path, log: Path, script: Path,
                                           text: string)
    requires Within(lock, wp) && Within(log, wp) && Within(script, wp)
    requires lock != log && lock != script && log != script
    ensures var m := WithDirectory(Wiped(nodes, wp), wp)[lock := File("")][log := File("")][script := File(text)];
      && wp in m && m[wp] == Directory
      && (forall dir :: Within(wp, dir) ==> dir in m)
      && (forall q :: Within(q, wp) ==> (q in m <==> q == lock || q == log || q == script || (wp !in nodes && q in nodes)))
      && m[lock] == File("") && m[log] == File("") && m[script] == File(text)
  {
    AncestorsEnclose(wp);
    var n1 := Wiped(nodes, wp);
    forall q | Within(q, wp) ensures q in WithDirectory(n1, wp) <==> q in n1 {
      assert q !in Ancestors(wp) && q != wp;
    }
  }

  /**
    Whichever way setup ends, nothing outside the task directory is changed
    or deleted, and the only entries created outside it are enclosing
    directories of the task directory.
  */
  lemma SetUpConfined(s: Settings, nodes: map<Path, Node>, refused: set<Call>, q: Path)
    requires q != WorkspacePath(s.workspace, s.name) && !Within(q, WorkspacePath(s.workspace, s.name))
    ensures var r := SetUpOutcome(s, nodes, refused);
      && (q in nodes ==> q in r.nodes && r.nodes[q] == nodes[q])
      && (q in r.nodes && q !in nodes ==> Within(WorkspacePath(s.workspace, s.name), q) && r.nodes[q] == Directory)
  {
    var wp := WorkspacePath(s.workspace, s.name);
    StepsKeepOutside(nodes, wp, LockPath(s.workspace, s.name), LogPath(s.workspace, s.name),
                     ScriptPath(s.workspace, s.name), Configured(s.content, s.configure), q);
    assert KeptOutside(nodes, SetUpOutcome(s, nodes, refused).nodes, wp, q);
  }

  /**
    Once setup is ready, the task directory and all its enclosing directories
    exist, and the directory holds an empty lock, an empty log and the
    configured script, and nothing else it held before unless it was missing.
  */
  lemma SetUpLayout(s: Settings, nodes: map<Path, Node>, refused: set<Call>)
    requires SetUpOutcome(s, nodes, refused).Ready?
    ensures var r := SetUpOutcome(s, nodes, refused);
      var wp, lock := WorkspacePath(s.workspace, s.name), LockPath(s.workspace, s.name);
      var log, script := LogPath(s.workspace, s.name), ScriptPath(s.workspace, s.name);
      && wp in r.nodes && r.nodes[wp] == Directory
      && (forall dir :: Within(wp, dir) ==> dir in r.nodes)
      && (forall q :: Within(q, wp) ==>
            (q in r.nodes <==> q == lock || q == log || q == script || (wp !in nodes && q in nodes)))
      && r.nodes[lock] == File("") && r.nodes[log] == File("")
      && r.nodes[script] == File(Configured(s.content, s.configure))
  {
    PathLayout(s.workspace, s.name);
    RecreatedLayout(nodes, WorkspacePath(s.workspace, s.name), LockPath(s.workspace, s.name),
                    LogPath(s.workspace, s.name), ScriptPath(s.workspace, s.name), Configured(s.content, s.configure));
  }

  /** On a file system where every entry's directories exist, nothing older survives inside the task directory. */
  lemma SetUpClearsWorkspace(s: Settings, nodes: map<Path, Node>, refused: set<Call>, q: Path)
    requires Rooted(nodes)
    requires SetUpOutcome(s, nodes, refused).Ready?
    requires Within(q, WorkspacePath(s.workspace, s.name))
    ensures q in SetUpOutcome(s, nodes, refused).nodes <==>
      q == LockPath(s.workspace, s.name) || q == LogPath(s.workspace, s.name) || q == ScriptPath(s.workspace, s.name)
  {
    SetUpLayout(s, nodes, refused);
  }

  /** The part of `run()` between setting `isRunning` and the deferred cleanup. */
  function AttemptOutcome(s: Settings, nodes: map<Path, Node>, refused: set<Call>,
                          exec: (Launch, map<Path, Node>) -> Exit): (o: Outcome)
    ensures o.result != Error(AlreadyRunning)
    ensures o.launched.Some? <==> !o.result.Error?
    ensures o.launched.Some? ==> o.launched.value == LaunchOf(s)
    ensures o.result == Error(OpenLogFailed) <==>
      SetUpOutcome(s, nodes, refused).Ready? && s.output == Log && OpenForUpdating(LogPath(s.workspace, s.name)) in refused
  {
    match SetUpOutcome(s, nodes, refused)
    case SetupFailed(kind, n) => Outcome(Error(kind), n, None)
    case Ready(n) =>
      if s.output == Log && !OpenOk(n, refused, OpenForUpdating(LogPath(s.workspace, s.name))) then
        Outcome(Error(OpenLogFailed), n, None)
      else
        var l := LaunchOf(s);
        var exit := exec(l, n);
        Outcome(ExitResult(exit.status), Captured(n, l.capture, exit.output), Some(l))
  }

  /** The deferred cleanup: remove the lock if it is there; a failure is only logged. */
  function Unlocked(o: Outcome, refused: set<Call>, lock: Path): (u: Outcome)
    ensures u.result == o.result && u.launched == o.launched
    ensures lock in u.nodes <==> lock in o.nodes && RemoveItem(lock) in refused
    ensures forall q :: q != lock && !Within(q, lock) ==>
      (q in u.nodes <==> q in o.nodes) && (q in u.nodes ==> u.nodes[q] == o.nodes[q])
  {
    if RemoveItemOk(o.nodes, refused, lock) then o.(nodes := Removed(o.nodes, lock)) else o
  }

  /** One call of `run()` on a task with settings `s`, `running` being its `isRunning` flag. */
  function RunOutcome(s: Settings, running: bool, nodes: map<Path, Node>, refused: set<Call>,
                      exec: (Launch, map<Path, Node>) -> Exit): (o: Outcome)
    ensures o.result == Error(AlreadyRunning) <==> running
    ensures o.launched.Some? <==> !o.result.Error?
    ensures o.launched.Some? ==> o.launched.value == LaunchOf(s) && !running
    ensures running || LockPath(s.workspace, s.name) in nodes ==> o.nodes == nodes && o.launched.None?
  {
    var lock := LockPath(s.workspace, s.name);
    if running then Outcome(Error(AlreadyRunning), nodes, None)
    else if lock in nodes then Outcome(Error(WorkspaceLocked), nodes, None)
    else Unlocked(AttemptOutcome(s, nodes, refused, exec), refused, lock)
  }

  /**
    Swift's `content.last == "\n"` compares whole characters (grapheme
    clusters): a final "\n" is a character of its own unless a "\r" comes
    just before it, for "\r\n" is one character.
  */
  predicate EndsWithNewline(text: string): (ends: bool)
    ensures ends ==> |text| > 0 && text == text[..|text| - 1] + "\n"
  {
    |text| > 0 && text[|text| - 1] == '\n' && !(|text| > 1 && text[|text| - 2] == '\r')
  }

  /** A "\n" appended to a text is a Character of its own exactly when the text does not end in "\r". */
  lemma NewlineCharacter(body: string)
    ensures EndsWithNewline(body + "\n") <==> !(|body| > 0 && body[|body| - 1] == '\r')
    ensures !EndsWithNewline(body + "\r")
  {
    var text := body + "\n";
    assert text[|text| - 1] == '\n';
    if |body| > 0 {
      assert text[|text| - 2] == body[|body| - 1];
    }
  }

  /** `readLog()`'s text: its last "\n" stripped when asked. */
  function TrimmedLog(text: string, removeLastEmptyLine: bool): (log: string)
    ensures removeLastEmptyLine && EndsWithNewline(text) ==> log + "\n" == text
    ensures !(removeLastEmptyLine && EndsWithNewline(text)) ==> log == text
  {
    if removeLastEmptyLine && EndsWithNewline(text) then text[..|text| - 1] else text
  }

  /** One trailing newline goes, a text without one is kept, and "\r\n" is not a newline character. */
  lemma TrimmedLogExamples()
    ensures TrimmedLog("hello\n", true) == "hello"
    ensures TrimmedLog("hello", true) == "hello"
    ensures TrimmedLog("hello\n\n", true) == "hello\n"
    ensures TrimmedLog("hello\r\n", true) == "hello\r\n"
    ensures TrimmedLog("hello\n", false) == "hello\n"
  {
    assert "hello\n"[..5] == "hello";
    assert "hello\n\n"[..6] == "hello\n";
  }

  /** `readLog()`: the trimmed text of the log, or None when it cannot be opened. */
  function LogContents(nodes: map<Path, Node>, refused: set<Call>, logPath: Path,
                       removeLastEmptyLine: bool): (log: Option<string>)
    ensures log.None? <==> !OpenOk(nodes, refused, OpenForReading(logPath))
    ensures log.Some? ==>
      var text := nodes[logPath].text;
      if removeLastEmptyLine && EndsWithNewline(text) then log.value + "\n" == text else log.value == text
  {
    if OpenOk(nodes, refused, OpenForReading(logPath)) then
      Some(TrimmedLog(nodes[logPath].text, removeLastEmptyLine))
    else None
  }

  // ---------------------------------------------------------------------
  // What run() promises

  /** The reentrancy guard comes first, the lock guard second; neither touches anything. */
  lemma RunGuards(s: Settings, running: bool, nodes: map<Path, Node>, refused: set<Call>,
                  exec: (Launch, map<Path, Node>) -> Exit)
    ensures running ==>
      RunOutcome(s, running, nodes, refused, exec) == Outcome(Error(AlreadyRunning), nodes, None)
    ensures !running && LockPath(s.workspace, s.name) in nodes ==>
      RunOutcome(s, running, nodes, refused, exec) == Outcome(Error(WorkspaceLocked), nodes, None)
  {
  }

  /**
    Which result `run()` gives, in terms of the state on entry and the calls
    the host refuses: each failing step has its own result, and the child is
    launched exactly when every step succeeds.
  */
  lemma RunResults(s: Settings, running: bool, nodes: map<Path, Node>, refused: set<Call>,
                   exec: (Launch, map<Path, Node>) -> Exit)
    ensures var o := RunOutcome(s, running, nodes, refused, exec);
      var wp, lock := WorkspacePath(s.workspace, s.name), LockPath(s.workspace, s.name);
      var log, script := LogPath(s.workspace, s.name), ScriptPath(s.workspace, s.name);
      var wipeFails := wp in nodes && RemoveItem(wp) in refused;
      var mkdirFails := CreateDirectory(wp) in refused;
      var lockFails := CreateFile(lock) in refused;
      var fileFails := CreateFile(log) in refused || WriteFile(script) in refused;
      var openFails := s.output == Log && OpenForUpdating(log) in refused;
      && (o.result == Error(AlreadyRunning) <==> running)
      && (o.result == Error(WorkspaceLocked) <==>
            !running && (lock in nodes || (!wipeFails && !mkdirFails && lockFails)))
      && (o.result == Error(CreateFileFailed) <==>
            !running && lock !in nodes && (wipeFails || mkdirFails || (!lockFails && fileFails)))
      && (o.result == Error(OpenLogFailed) <==>
            !running && lock !in nodes && !wipeFails && !mkdirFails && !lockFails && !fileFails && openFails)
      && (o.launched.Some? <==>
            !running && lock !in nodes && !wipeFails && !mkdirFails && !lockFails && !fileFails && !openFails)
      && (o.launched.Some? <==> !o.result.Error?)
  {
    PathLayout(s.workspace, s.name);
    SetUpResults(s, nodes, refused);
  }

  /**
    When the child is launched, it runs the interpreter on the script inside
    the workspace directory with the merged environment, its output goes to
    the log in `Log` mode, and its status decides the result.
  */
  lemma RunLaunch(s: Settings, running: bool, nodes: map<Path, Node>, refused: set<Call>,
                  exec: (Launch, map<Path, Node>) -> Exit)
    requires RunOutcome(s, running, nodes, refused, exec).launched.Some?
    ensures var o := RunOutcome(s, running, nodes, refused, exec);
      var l := o.launched.value;
      var status := exec(l, SetUpOutcome(s, nodes, refused).nodes).status;
      && l.directory == WorkspacePath(s.workspace, s.name)
      && l.launchPath == s.language.launchPath
      && l.arguments == [ScriptPath(s.workspace, s.name)]
      && l.capture == (if s.output == Log then Some(LogPath(s.workspace, s.name)) else None)
      && (forall k :: k in s.environment ==> l.environment[k] == s.environment[k])
      && (forall k :: k in l.environment && k !in s.environment ==>
            s.language.environment.Some? && l.environment[k] == s.language.environment.value[k])
      && (o.result == Success <==> status == 0)
      && (status != 0 ==> o.result == Failed(status as int))
  {
  }

  /** Once past the guards, `run()` leaves no lock behind unless the host refuses to remove it. */
  lemma RunReleasesLock(s: Settings, nodes: map<Path, Node>, refused: set<Call>,
                        exec: (Launch, map<Path, Node>) -> Exit)
    requires LockPath(s.workspace, s.name) !in nodes
    ensures var lock := LockPath(s.workspace, s.name);
      lock !in RunOutcome(s, false, nodes, refused, exec).nodes || RemoveItem(lock) in refused
  {
  }

  /**
    Nothing outside the task's workspace directory is changed or deleted; the
    only entries `run()` creates outside it are enclosing directories of it.
  */
  lemma RunConfinedToWorkspace(s: Settings, running: bool, nodes: map<Path, Node>, refused: set<Call>,
                               exec: (Launch, map<Path, Node>) -> Exit, q: Path)
    requires q != WorkspacePath(s.workspace, s.name) && !Within(q, WorkspacePath(s.workspace, s.name))
    ensures var after := RunOutcome(s, running, nodes, refused, exec).nodes;
      && (q in nodes ==> q in after && after[q] == nodes[q])
      && (q in after && q !in nodes ==> Within(WorkspacePath(s.workspace, s.name), q) && after[q] == Directory)
  {
    var wp, lock, log := WorkspacePath(s.workspace, s.name), LockPath(s.workspace, s.name), LogPath(s.workspace, s.name);
    PathLayout(s.workspace, s.name);
    SetUpConfined(s, nodes, refused, q);
    var n := SetUpOutcome(s, nodes, refused).nodes;
    assert q != log;
    var o := AttemptOutcome(s, nodes, refused, exec);
    assert (q in o.nodes <==> q in n) && (q in n ==> o.nodes[q] == n[q]);
    if Within(q, lock) {
      WithinChild(q, wp, LockFileName);
    }
  }

  /** Each intermediate state of the setup steps is rooted when the start is and the entries have no '/'. */
  lemma {:induction false} StepsKeepRooted(nodes: map<Path, Node>, wp: Path, lock: string, log: string, script: string,
                                           text: string)
    requires Rooted(nodes)
    requires '/' !in lock && '/' !in log && '/' !in script
    ensures var n1 := Wiped(nodes, wp);
      var n2 := WithDirectory(n1, wp);
      var n3 := n2[wp + "/" + lock := File("")];
      var n4 := n3[wp + "/" + log := File("")];
      && Rooted(n1) && Rooted(n2) && Rooted(n3) && Rooted(n4)
      && Rooted(n4[wp + "/" + script := File(text)])
  {
    var n1 := Wiped(nodes, wp);
    if wp in nodes {
      RemovedRooted(nodes, wp);
    }
    var n2 := WithDirectory(n1, wp);
    WithDirectoryRooted(n1, wp);
    EntryAddedRooted(n2, wp, lock, File(""));
    var n3 := n2[wp + "/" + lock := File("")];
    EntryAddedRooted(n3, wp, log, File(""));
    var n4 := n3[wp + "/" + log := File("")];
    EntryAddedRooted(n4, wp, script, File(text));
  }

  /** With a name free of '/', the setup steps keep a file system rooted. */
  lemma SetUpKeepsRooted(s: Settings, nodes: map<Path, Node>, refused: set<Call>)
    requires '/' !in s.name && Rooted(nodes)
    ensures Rooted(SetUpOutcome(s, nodes, refused).nodes)
  {
    NoSlashWithExtension(s.name, ".sh");
    NoSlashWithExtension(s.name, ".txt");
    assert '/' !in LockFileName;
    StepsKeepRooted(nodes, WorkspacePath(s.workspace, s.name), LockFileName, s.name + ".txt", s.name + ".sh",
                    Configured(s.content, s.configure));
  }

  /**
    With a name free of '/', `run()` keeps a file system rooted: every entry's
    enclosing directories still exist afterwards, so the lemmas that need it
    apply to the next run too.
  */
  lemma RunKeepsRooted(s: Settings, running: bool, nodes: map<Path, Node>, refused: set<Call>,
                       exec: (Launch, map<Path, Node>) -> Exit)
    requires '/' !in s.name && Rooted(nodes)
    ensures Rooted(RunOutcome(s, running, nodes, refused, exec).nodes)
  {
    SetUpKeepsRooted(s, nodes, refused);
    var n := SetUpOutcome(s, nodes, refused).nodes;
    CapturedRooted(n, LaunchOf(s).capture, exec(LaunchOf(s), n).output);
    var o := AttemptOutcome(s, nodes, refused, exec);
    RemovedRooted(o.nodes, LockPath(s.workspace, s.name));
  }

  /**
    After a run whose setup succeeded (the workspace was not locked and
    every setup step went through), the workspace directory holds exactly
    the script, whose text is the configured content, and the log, which
    holds the child's output in `Log` mode and is empty otherwise; the lock
    remains only if the host refused to remove it. Whatever was there before
    is gone.
  */
  lemma {:induction false} RunWorkspaceAfterSetup(s: Settings, nodes: map<Path, Node>, refused: set<Call>,
                                                  exec: (Launch, map<Path, Node>) -> Exit, q: Path)
    requires '/' !in s.name
    requires Rooted(nodes)
    requires LockPath(s.workspace, s.name) !in nodes && SetUpOutcome(s, nodes, refused).Ready?
    ensures var o := RunOutcome(s, false, nodes, refused, exec);
      var wp, lock := WorkspacePath(s.workspace, s.name), LockPath(s.workspace, s.name);
      var log, script := LogPath(s.workspace, s.name), ScriptPath(s.workspace, s.name);
      && wp in o.nodes && script in o.nodes && log in o.nodes
      && o.nodes[wp] == Directory
      && (Within(q, wp) ==>
            (q in o.nodes <==> q == script || q == log || (q == lock && RemoveItem(lock) in refused)))
      && o.nodes[script] == File(Configured(s.content, s.configure))
      && o.nodes[log] == File(if o.launched.Some? && s.output == Log
                              then exec(o.launched.value, SetUpOutcome(s, nodes, refused).nodes).output else "")
  {
    var wp, lock := WorkspacePath(s.workspace, s.name), LockPath(s.workspace, s.name);
    var log, script := LogPath(s.workspace, s.name), ScriptPath(s.workspace, s.name);
    PathLayout(s.workspace, s.name);
    PathsDoNotNest(s.workspace, s.name);
    RunResults(s, false, nodes, refused, exec);
    assert !Within(wp, lock);
    if Within(q, wp) {
      SetUpClearsWorkspace(s, nodes, refused, q);
    }
  }

  /**
    After a successful run (setup went through, the log opened and the child
    exited with status 0; `RunResults` and `RunLaunch` show these are exactly
    the runs whose result is `Success`), `readLog()` gives what the child printed, in
    `Log` mode, or the empty text, in `Console` mode; its last "\n" is
    stripped when asked, and None comes back only when the host refuses
    to open the log.
  */
  lemma SuccessfulRunLog(s: Settings, nodes: map<Path, Node>, refused: set<Call>,
                         exec: (Launch, map<Path, Node>) -> Exit, removeLastEmptyLine: bool)
    requires '/' !in s.name
    requires LockPath(s.workspace, s.name) !in nodes && SetUpOutcome(s, nodes, refused).Ready?
    requires !(s.output == Log && OpenForUpdating(LogPath(s.workspace, s.name)) in refused)
    requires exec(LaunchOf(s), SetUpOutcome(s, nodes, refused).nodes).status == 0
    ensures var o := RunOutcome(s, false, nodes, refused, exec);
      var log := LogPath(s.workspace, s.name);
      var printed := if s.output == Log then exec(LaunchOf(s), SetUpOutcome(s, nodes, refused).nodes).output else "";
      LogContents(o.nodes, refused, log, removeLastEmptyLine) ==
        if OpenForReading(log) in refused then None else Some(TrimmedLog(printed, removeLastEmptyLine))
  {
    var log := LogPath(s.workspace, s.name);
    RunResults(s, false, nodes, refused, exec);
    PathLayout(s.workspace, s.name);
    PathsDoNotNest(s.workspace, s.name);
  }
}
