/**
  The `Task` class of Task.swift: a script, the workspace it is written to,
  and the state of its one run at a time (`isRunning`, the process handle
  and the start date). Each method is proved against the functions of
  `TaskModel`.
*/
module Tasks {
  import opened Wrappers
  import opened Foundation
  import opened TaskModel

  /**
    `entries.forEach { env[$0.key] = $0.value }`: every entry of `entries`
    is set in `base`, replacing the value already there.
  */
  method Overlay(base: map<string, string>, entries: map<string, string>) returns (env: map<string, string>)
    ensures env.Keys == base.Keys + entries.Keys
    ensures forall k :: k in entries ==> env[k] == entries[k]
    ensures forall k :: k in base && k !in entries ==> env[k] == base[k]
  {
    env := base;
    var pending := entries.Keys;
    while pending != {}
      invariant pending <= entries.Keys
      invariant env.Keys == base.Keys + (entries.Keys - pending)
      invariant forall k :: k in entries && k !in pending ==> env[k] == entries[k]
      invariant forall k :: k in base && k !in entries ==> env[k] == base[k]
      invariant forall k :: k in base && k in pending ==> env[k] == base[k]
      decreases pending
    {
      var k :| k in pending;
      env := env[k := entries[k]];
      pending := pending - {k};
    }
  }

  class Task {
    var language: Language
    var output: Output
    var name: string
    var workspace: Path
    var content: string
    var printTaskInfo: bool
    var configure: Option<string -> string>
    var environment: map<string, string>

    var isRunning: bool
    var startDate: Option<real>
    var process: Option<Launch>

    /** `FileManager.default`, and the machine the child runs on. */
    const host: Host

    function CurrentSettings(): Settings
      reads this
    {
      Settings(language, output, name, workspace, content, configure, environment)
    }

    /** `init`: each argument left out takes its value from `defaults`. */
    constructor (language: Language, output: Option<Output>, name: Option<string>, workspace: Option<Path>,
                 content: string, printTaskInfo: Option<bool>, configure: Option<string -> string>,
                 defaults: Defaults, host: Host)
      ensures CurrentSettings() == InitialSettings(language, output, name, workspace, content, configure, defaults)
      ensures this.printTaskInfo == printTaskInfo.GetOr(defaults.printTaskInfo)
      ensures !isRunning && startDate.None? && process.None?
      ensures this.host == host
    {
      this.language := language;
      this.output := output.GetOr(defaults.output);
      this.name := name.GetOr(defaults.name);
      this.workspace := workspace.GetOr(defaults.workspace);
      this.content := content;
      this.printTaskInfo := printTaskInfo.GetOr(defaults.printTaskInfo);
      this.configure := configure;
      this.environment := map[];
      this.isRunning := false;
      this.startDate := None;
      this.process := None;
      this.host := host;
    }

    /**
      `run()`: refuse while running or while the lock file exists; otherwise
      set up the workspace, launch the script, wait for it, and on every path
      remove the lock and clear `isRunning` again.
    */
    method Run() returns (r: Result)
      modifies this`isRunning, this`process, this`startDate, host
      ensures var o := RunOutcome(old(CurrentSettings()), old(isRunning), old(host.nodes), host.refused, host.exec);
        && r == o.result
        && host.nodes == o.nodes
        && host.launches == old(host.launches) + Launches(o)
      ensures isRunning == old(isRunning)
      ensures r.Success? || r.Failed? ==> process.None? && startDate.None?
      ensures r.Error? ==> process == old(process) && startDate == old(startDate)
      ensures host.clock == old(host.clock)
    {
      if isRunning {
        return Error(AlreadyRunning);
      }
      var lock := LockPath(workspace, name);
      if host.FileExists(lock) {
        return Error(WorkspaceLocked);
      }
      isRunning := true;
      r := Attempt();
      // deferred: unlock the workspace; a failure here is only logged
      var unlocked := RemoveItemIfExist(lock);
      isRunning := false;
    }

    /** The body of `run()` that its `defer` block guards. */
    method Attempt() returns (r: Result)
      requires isRunning
      modifies this`process, this`startDate, host
      ensures var o := AttemptOutcome(old(CurrentSettings()), old(host.nodes), host.refused, host.exec);
        && r == o.result
        && host.nodes == o.nodes
        && host.launches == old(host.launches) + Launches(o)
      ensures r.Success? || r.Failed? ==> process.None? && startDate.None?
      ensures r.Error? ==> process == old(process) && startDate == old(startDate)
      ensures host.clock == old(host.clock)
    {
      var failure := SetUp();
      if failure.Some? {
        return Error(failure.value);
      }
      var wp, log, script := WorkspacePath(workspace, name), LogPath(workspace, name), ScriptPath(workspace, name);

      var capture: Option<Path> := None;
      match output {
        case Log =>
          var handleOpened := host.OpenForUpdating(log);
          if !handleOpened {
            return Error(OpenLogFailed);
          }
          capture := Some(log);
        case Console =>
      }

      var env := ChildEnvironment();
      var launch := Launch(wp, language.launchPath, [script], env, capture);
      process := Some(launch);
      startDate := Some(host.clock);
      var status := host.Execute(launch);
      process := None;
      startDate := None;

      if status != 0 {
        return Failed(status as int);
      }
      return Success;
    }

    /** The child's environment: the language's variables, then the task's over them. */
    method ChildEnvironment() returns (env: map<string, string>)
      ensures env == MergedEnvironment(language, environment)
    {
      env := map[];
      if language.environment.Some? {
        env := Overlay(env, language.environment.value);
      }
      env := Overlay(env, environment);
    }

    /**
      The do-block of `run()`: None when the workspace is ready, otherwise
      the error its failing step maps to.
    */
    method SetUp() returns (failure: Option<ErrorType>)
      modifies host
      ensures var su := SetUpOutcome(CurrentSettings(), old(host.nodes), host.refused);
        && host.nodes == su.nodes
        && (failure.None? <==> su.Ready?)
        && (failure.Some? ==> su.kind == failure.value)
      ensures host.launches == old(host.launches) && host.clock == old(host.clock)
    {
      var wp := WorkspacePath(workspace, name);
      var lock := LockPath(workspace, name);
      var log := LogPath(workspace, name);
      var script := ScriptPath(workspace, name);
      var ok := RemoveItemIfExist(wp);
      if !ok {
        return Some(CreateFileFailed);
      }
      ok := host.CreateDirectory(wp);
      if !ok {
        return Some(CreateFileFailed);
      }
      ok := host.CreateFile(lock);
      if !ok {
        return Some(WorkspaceLocked);
      }
      ok := host.CreateFile(log);
      if !ok {
        return Some(CreateFileFailed);
      }
      var configuredContent := Configured(content, configure);
      ok := host.Write(script, configuredContent);
      if !ok {
        return Some(CreateFileFailed);
      }
      failure := None;
    }

    /** The nested `removeItemIfExist`: true unless the item exists and removing it throws. */
    method RemoveItemIfExist(p: Path) returns (ok: bool)
      modifies host
      ensures ok == !(p in old(host.nodes) && Call.RemoveItem(p) in host.refused)
      ensures host.nodes == if ok then Wiped(old(host.nodes), p) else old(host.nodes)
      ensures host.launches == old(host.launches) && host.clock == old(host.clock)
    {
      ok := true;
      if host.FileExists(p) {
        ok := host.RemoveItem(p);
      }
    }

    /** `clean()`: nothing while running; otherwise a best-effort removal of the workspace directory. */
    method Clean()
      modifies host
      ensures var wp := WorkspacePath(workspace, name);
        host.nodes == if !isRunning && RemoveItemOk(old(host.nodes), host.refused, wp)
                      then Removed(old(host.nodes), wp) else old(host.nodes)
      ensures host.launches == old(host.launches) && host.clock == old(host.clock)
    {
      if isRunning {
        return;
      }
      var removed := host.RemoveItem(WorkspacePath(workspace, name));
    }

    /**
      `readLog()`: the log's text, None when it cannot be opened; when
      `removeLastEmptyLine` is set, exactly one trailing "\n" character is dropped.
    */
    method ReadLog(removeLastEmptyLine: bool) returns (log: Option<string>)
      ensures log == LogContents(host.nodes, host.refused, LogPath(workspace, name), removeLastEmptyLine)
      ensures log.None? <==> !OpenOk(host.nodes, host.refused, OpenForReading(LogPath(workspace, name)))
      ensures log.Some? ==>
        var text := host.nodes[LogPath(workspace, name)].text;
        if removeLastEmptyLine && EndsWithNewline(text)
        then log.value + "\n" == text
        else log.value == text
    {
      var data := host.ReadFile(LogPath(workspace, name));
      if data.None? {
        return None;
      }
      var content := data.value;
      if removeLastEmptyLine && EndsWithNewline(content) {
        content := content[..|content| - 1];
      }
      log := Some(content);
    }
  }
}
