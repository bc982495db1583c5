/**
  The part of the host system a task talks to: Foundation's `FileManager`,
  `FileHandle` and `Process`, reduced to what can be observed of them.

  The file system is a map from path strings to nodes. Whether a call
  succeeds is decided by the host: `refused` lists the calls that fail
  (permissions, a directory in the way, a missing parent, a full disk, ...),
  so every outcome Foundation can report is one some host produces. A child
  process is an oracle too: `exec` gives its exit status and what it writes
  to its standard output and error.
*/
module Foundation {
  import opened Wrappers

  type Path = string

  datatype Node = Directory | File(text: string)

  /** A call on the file system that the host may refuse. */
  datatype Call =
    | RemoveItem(path: Path)
    | CreateDirectory(path: Path)
    | CreateFile(path: Path)
    | WriteFile(path: Path)
    | OpenForUpdating(path: Path)
    | OpenForReading(path: Path)

  /** What a `Process` is configured with when it is launched. */
  datatype Launch = Launch(
    directory: Path,                  // currentDirectoryPath
    launchPath: Path,                 // the interpreter
    arguments: seq<string>,
    environment: map<string, string>,
    capture: Option<Path>)            // file receiving stdout and stderr; None for the console

  /** Foundation's `terminationStatus` is an `Int32`. */
  newtype int32 = x: int | -0x8000_0000 <= x < 0x8000_0000

  /** How a child process ends: its status and its combined output. */
  datatype Exit = Exit(status: int32, output: string)

  /** `q` lies strictly inside the directory `dir`. */
  predicate Within(q: Path, dir: Path) {
    dir + "/" <= q
  }

  /** Within is transitive: a path inside a directory inside `dir` lies inside `dir`. */
  lemma WithinTransitive(q: Path, p: Path, dir: Path)
    requires Within(q, p) && Within(p, dir)
    ensures Within(q, dir)
  {
    assert (dir + "/") == (p + "/")[..|dir| + 1];
  }

  /**
    Every entry's enclosing directories exist, as on a real file system.
    The root directory is the entry "": every absolute path lies inside it.
  */
  ghost predicate Rooted(nodes: map<Path, Node>) {
    forall q, dir :: q in nodes && Within(q, dir) ==> dir in nodes
  }

  /** The directories enclosing `p`: each prefix of `p` that a '/' follows. */
  function Ancestors(p: Path): set<Path> {
    set i | 0 <= i < |p| && p[i] == '/' :: p[..i]
  }

  lemma {:induction false} AncestorsEnclose(p: Path)
    ensures forall dir :: dir in Ancestors(p) <==> Within(p, dir)
  {
    forall dir ensures dir in Ancestors(p) <==> Within(p, dir) {
      if Within(p, dir) {
        assert p[..|dir|] == (dir + "/")[..|dir|] == dir;
        assert p[|dir|] == (dir + "/")[|dir|] == '/';
        assert p[..|dir|] in Ancestors(p);
      }
      if dir in Ancestors(p) {
        var i :| 0 <= i < |p| && p[i] == '/' && dir == p[..i];
        assert dir + "/" == p[..i + 1];
      }
    }
  }

  /**
    `createDirectory(atPath:withIntermediateDirectories: true)`: `p` becomes a
    directory, and so does every enclosing directory that is missing.
  */
  function WithDirectory(nodes: map<Path, Node>, p: Path): (m: map<Path, Node>)
    ensures m.Keys == nodes.Keys + Ancestors(p) + {p}
    ensures m[p] == Directory
    ensures forall q :: q in nodes && q != p ==> m[q] == nodes[q]
    ensures forall q :: q in m && q !in nodes ==> m[q] == Directory
  {
    (map q | q in nodes.Keys + Ancestors(p) :: if q in nodes then nodes[q] else Directory)[p := Directory]
  }

  /** Creating a directory together with its missing enclosing directories keeps a file system rooted. */
  lemma WithDirectoryRooted(nodes: map<Path, Node>, p: Path)
    requires Rooted(nodes)
    ensures Rooted(WithDirectory(nodes, p))
  {
    AncestorsEnclose(p);
    var m := WithDirectory(nodes, p);
    forall q, dir | q in m && Within(q, dir) ensures dir in m {
      if q !in nodes && q != p {
        WithinTransitive(p, q, dir);
      }
    }
  }

  /** Changing the text of an existing file keeps a file system rooted. */
  lemma CapturedRooted(nodes: map<Path, Node>, capture: Option<Path>, output: string)
    requires Rooted(nodes)
    ensures Rooted(Captured(nodes, capture, output))
  {
    assert Captured(nodes, capture, output).Keys == nodes.Keys;
  }

  /** Past `dir` and its separator, an entry name free of '/' has none. */
  lemma NoSeparatorInEntry(dir: Path, entry: string, i: int)
    requires '/' !in entry
    requires |dir| < i < |dir| + 1 + |entry|
    ensures (dir + "/" + entry)[i] != '/'
  {
    assert (dir + "/" + entry)[i] == entry[i - |dir| - 1];
    assert entry[i - |dir| - 1] in entry;
  }

  /** The directories enclosing an entry of `dir` whose name has no '/' are `dir` and those enclosing `dir`. */
  lemma {:induction false} EntryAncestors(dir: Path, entry: string, d: Path)
    requires '/' !in entry
    requires Within(dir + "/" + entry, d)
    ensures d == dir || Within(dir, d)
  {
    var p := dir + "/" + entry;
    if |d| < |dir| {
      assert d + "/" == p[..|d| + 1] == dir[..|d| + 1];
    } else if |d| == |dir| {
      assert d == p[..|d|] == dir;
    } else {
      NoSeparatorInEntry(dir, entry, |d|);
    }
  }

  /** Adding an entry to an existing directory keeps a file system rooted. */
  lemma EntryAddedRooted(nodes: map<Path, Node>, dir: Path, entry: string, node: Node)
    requires Rooted(nodes) && dir in nodes && '/' !in entry
    ensures Rooted(nodes[dir + "/" + entry := node])
  {
    var m := nodes[dir + "/" + entry := node];
    forall q, d | q in m && Within(q, d) ensures d in m {
      if q == dir + "/" + entry {
        EntryAncestors(dir, entry, d);
      }
    }
  }

  /** Deleting a directory with everything inside it keeps a file system rooted. */
  lemma RemovedRooted(nodes: map<Path, Node>, dir: Path)
    requires Rooted(nodes)
    ensures Rooted(Removed(nodes, dir))
  {
    var m := Removed(nodes, dir);
    forall q, d | q in m && Within(q, d) ensures d in m {
      if Within(d, dir) {
        WithinTransitive(q, d, dir);
      }
    }
  }

  /** The file system after `dir` and everything inside it are deleted. */
  function Removed(nodes: map<Path, Node>, dir: Path): (m: map<Path, Node>)
    ensures forall q :: q in m <==> q in nodes && q != dir && !Within(q, dir)
    ensures forall q :: q in m ==> m[q] == nodes[q]
  {
    map q | q in nodes && q != dir && !Within(q, dir) :: nodes[q]
  }

  /** `removeItem(atPath:)` throws when the item is missing or the host refuses. */
  predicate RemoveItemOk(nodes: map<Path, Node>, refused: set<Call>, p: Path) {
    p in nodes && RemoveItem(p) !in refused
  }

  /** `FileHandle(forUpdatingAtPath:)` and `FileHandle(forReadingAtPath:)` need an existing file. */
  predicate OpenOk(nodes: map<Path, Node>, refused: set<Call>, call: Call)
    requires call.OpenForUpdating? || call.OpenForReading?
  {
    call.path in nodes && nodes[call.path].File? && call !in refused
  }

  /**
    Writing `output` through a handle opened at offset 0: the bytes already
    there are overwritten from the start, any longer tail survives.
  */
  function Overwritten(old_text: string, output: string): (r: string)
    ensures |r| == if |old_text| <= |output| then |output| else |old_text|
    ensures output <= r
    ensures |output| < |old_text| ==> r[|output|..] == old_text[|output|..]
  {
    if |old_text| <= |output| then output else output + old_text[|output|..]
  }

  /** The file system after a child's output went to `capture`. */
  function Captured(nodes: map<Path, Node>, capture: Option<Path>, output: string): map<Path, Node> {
    match capture
    case Some(p) =>
      if p in nodes && nodes[p].File? then nodes[p := File(Overwritten(nodes[p].text, output))] else nodes
    case None => nodes
  }

  /** The machine: its file system, its clock and the children it runs. */
  class Host {
    var nodes: map<Path, Node>
    var launches: seq<Launch>
    var clock: real
    const refused: set<Call>
    const exec: (Launch, map<Path, Node>) -> Exit

    constructor (nodes: map<Path, Node>, clock: real, refused: set<Call>, exec: (Launch, map<Path, Node>) -> Exit)
      ensures this.nodes == nodes && this.launches == [] && this.clock == clock
      ensures this.refused == refused && this.exec == exec
    {
      this.nodes := nodes;
      this.launches := [];
      this.clock := clock;
      this.refused := refused;
      this.exec := exec;
    }

    /** `fileExists(atPath:)` */
    function FileExists(p: Path): bool
      reads this
    {
      p in nodes
    }

    /** `removeItem(atPath:)`: deletes a file, or a directory with its contents; false when it throws. */
    method RemoveItem(p: Path) returns (ok: bool)
      modifies this
      ensures ok == RemoveItemOk(old(nodes), refused, p)
      ensures nodes == if ok then Removed(old(nodes), p) else old(nodes)
      ensures launches == old(launches) && clock == old(clock)
    {
      ok := RemoveItemOk(nodes, refused, p);
      if ok {
        nodes := Removed(nodes, p);
      }
    }

    /** `createDirectory(atPath:withIntermediateDirectories: true)`; false when it throws. */
    method CreateDirectory(p: Path) returns (ok: bool)
      modifies this
      ensures ok == (Call.CreateDirectory(p) !in refused)
      ensures nodes == if ok then WithDirectory(old(nodes), p) else old(nodes)
      ensures launches == old(launches) && clock == old(clock)
    {
      ok := Call.CreateDirectory(p) !in refused;
      if ok {
        nodes := WithDirectory(nodes, p);
      }
    }

    /** `createFile(atPath:contents: nil)`: an empty file, replacing any file there. */
    method CreateFile(p: Path) returns (ok: bool)
      modifies this
      ensures ok == (Call.CreateFile(p) !in refused)
      ensures nodes == if ok then old(nodes)[p := File("")] else old(nodes)
      ensures launches == old(launches) && clock == old(clock)
    {
      ok := Call.CreateFile(p) !in refused;
      if ok {
        nodes := nodes[p := File("")];
      }
    }

    /** `String.write(toFile:atomically: true)`; false when it throws. */
    method Write(p: Path, text: string) returns (ok: bool)
      modifies this
      ensures ok == (WriteFile(p) !in refused)
      ensures nodes == if ok then old(nodes)[p := File(text)] else old(nodes)
      ensures launches == old(launches) && clock == old(clock)
    {
      ok := WriteFile(p) !in refused;
      if ok {
        nodes := nodes[p := File(text)];
      }
    }

    /** Whether `FileHandle(forUpdatingAtPath:)` gives a handle. */
    method OpenForUpdating(p: Path) returns (ok: bool)
      ensures ok == OpenOk(nodes, refused, Call.OpenForUpdating(p))
    {
      ok := OpenOk(nodes, refused, Call.OpenForUpdating(p));
    }

    /** `FileHandle(forReadingAtPath:)` followed by `readDataToEndOfFile()`; None when no handle is given. */
    method ReadFile(p: Path) returns (text: Option<string>)
      ensures text.None? <==> !OpenOk(nodes, refused, OpenForReading(p))
      ensures text.Some? ==> p in nodes && nodes[p] == File(text.value)
    {
      if OpenOk(nodes, refused, OpenForReading(p)) {
        text := Some(nodes[p].text);
      } else {
        text := None;
      }
    }

    /**
      `launch()` followed by `waitUntilExit()`: the child runs against the
      current file system, its output lands in the capture file, if any, and
      its status is returned.
    */
    method Execute(l: Launch) returns (status: int32)
      modifies this
      ensures launches == old(launches) + [l]
      ensures status == exec(l, old(nodes)).status
      ensures nodes == Captured(old(nodes), l.capture, exec(l, old(nodes)).output)
      ensures clock == old(clock)
    {
      var exit := exec(l, nodes);
      launches := launches + [l];
      nodes := Captured(nodes, l.capture, exit.output);
      status := exit.status;
    }
  }
}
