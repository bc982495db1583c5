/**
  The conveniences of Utils.swift: joining script lines, and running a
  string as a script in one call that returns the result and the log.
*/
module Utils {
  import opened Wrappers
  import opened Foundation
  import opened TaskModel
  import opened Tasks

  /** `joinedScript()`: the lines joined with "\n". */
  function JoinedScript(lines: seq<string>): (joined: string)
    ensures |lines| > 0 ==> lines[0] <= joined
    ensures |lines| > 0 ==> var last := lines[|lines| - 1];
      |last| <= |joined| && joined[|joined| - |last|..] == last
    decreases |lines|
  {
    if |lines| == 0 then ""
    else if |lines| == 1 then lines[0]
    else lines[0] + "\n" + JoinedScript(lines[1..])
  }

  /** The lines of a text: the pieces between its "\n" characters; "" has one empty line. */
  function SplitLines(text: string): (lines: seq<string>)
    ensures |lines| > 0
    decreases |text|
  {
    if |text| == 0 then [""]
    else
      var rest := SplitLines(text[1..]);
      if text[0] == '\n' then [""] + rest
      else [[text[0]] + rest[0]] + rest[1..]
  }

  predicate NoNewline(line: string) {
    '\n' !in line
  }

  lemma {:induction false} SplitLine(line: string, rest: string)
    requires NoNewline(line)
    ensures SplitLines(line + rest)[0] == line + SplitLines(rest)[0]
    ensures SplitLines(line + rest)[1..] == SplitLines(rest)[1..]
    decreases |line|
  {
    if |line| > 0 {
      assert (line + rest)[1..] == line[1..] + rest;
      assert line[0] in line;
      SplitLine(line[1..], rest);
      assert [line[0]] + (line[1..] + SplitLines(rest)[0]) == line + SplitLines(rest)[0];
    } else {
      assert line + rest == rest;
    }
  }

  /** A line followed by "\n" splits off as the first line. */
  lemma SplitLinesAfterNewline(line: string, rest: string)
    requires NoNewline(line)
    ensures SplitLines(line + "\n" + rest) == [line] + SplitLines(rest)
  {
    var tail := "\n" + rest;
    assert tail[1..] == rest;
    assert SplitLines(tail) == [""] + SplitLines(rest);
    SplitLine(line, tail);
    assert line + "\n" + rest == line + tail;
    var whole := SplitLines(line + tail);
    assert whole == [whole[0]] + whole[1..];
    assert line + "" == line;
  }

  /**
    Joining is undone by splitting: the joined text has exactly one "\n"
    between consecutive lines and none before the first or after the last.
  */
  lemma {:induction false} SplitJoinedScript(lines: seq<string>)
    requires |lines| > 0
    requires forall i :: 0 <= i < |lines| ==> NoNewline(lines[i])
    ensures SplitLines(JoinedScript(lines)) == lines
    decreases |lines|
  {
    if |lines| == 1 {
      SplitLine(lines[0], "");
      assert lines[0] + "" == lines[0];
    } else {
      SplitJoinedScript(lines[1..]);
      SplitLinesAfterNewline(lines[0], JoinedScript(lines[1..]));
    }
  }

  /** Joining two non-empty lists puts one "\n" between their joins. */
  lemma {:induction false} JoinedScriptAppend(a: seq<string>, b: seq<string>)
    requires |a| > 0 && |b| > 0
    ensures JoinedScript(a + b) == JoinedScript(a) + "\n" + JoinedScript(b)
    decreases |a|
  {
    var ab := a + b;
    assert ab[0] == a[0];
    if |a| == 1 {
      assert ab[1..] == b;
      assert JoinedScript(ab) == a[0] + "\n" + JoinedScript(b);
    } else {
      assert ab[1..] == a[1..] + b;
      JoinedScriptAppend(a[1..], b);
      var rest := JoinedScript(a[1..]);
      assert JoinedScript(ab) == a[0] + "\n" + (rest + "\n" + JoinedScript(b));
      assert JoinedScript(a) == a[0] + "\n" + rest;
    }
  }

  /** The total length of the lines. */
  function TotalLength(lines: seq<string>): nat {
    if |lines| == 0 then 0 else |lines[0]| + TotalLength(lines[1..])
  }

  /** The joined text is as long as the lines together plus one separator between each two. */
  lemma {:induction false} JoinedScriptLength(lines: seq<string>)
    requires |lines| > 0
    ensures |JoinedScript(lines)| == TotalLength(lines) + |lines| - 1
    decreases |lines|
  {
    if |lines| > 1 {
      JoinedScriptLength(lines[1..]);
    }
  }

  /**
    `String.runAsScript(...)`: build a task whose content is the string,
    with the caller's optional settings, run it, and return its result
    together with its log when it succeeded ("" otherwise, and "" when the
    log cannot be read).
  */
  method RunAsScript(script: string, language: Language, output: Option<Output>, name: Option<string>,
                     workspace: Option<Path>, printTaskInfo: Option<bool>,
                     configure: Option<string -> string>, defaults: Defaults, host: Host)
    returns (result: Result, log: string)
    modifies host
    ensures var s := InitialSettings(language, output, name, workspace, script, configure, defaults);
      var o := RunOutcome(s, false, old(host.nodes), host.refused, host.exec);
      && result == o.result
      && host.nodes == o.nodes
      && host.launches == old(host.launches) + Launches(o)
      && log == if result == Success
                then LogContents(o.nodes, host.refused, LogPath(s.workspace, s.name),
                                 defaults.removeLastEmptyLineWhenReadingLog).GetOr("")
                else ""
  {
    var task := new Task(language, output, name, workspace, script, printTaskInfo, configure, defaults, host);
    result := task.Run();
    if ResultsEqual(result, Success) {
      var text := task.ReadLog(defaults.removeLastEmptyLineWhenReadingLog);
      log := text.GetOr("");
    } else {
      log := "";
    }
  }
}
