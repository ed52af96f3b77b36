/**
 * The `run` command (lib/commands/run.js): checks for `react-src`, starts the
 * React dev server, swaps the configuration name, picks the platform binary,
 * spawns it with the development flags, prints its standard output without
 * the tool's informational lines, and restores the configuration name on
 * every way out: the `finally` block, the `exit` handler, the `SIGINT`
 * handler and the `uncaughtException` handler all call the same `cleanup`.
 */
module RunCommand {
  import opened Options
  import opened Text
  import opened Disk
  import opened ConfigSwap
  import opened Process

  /** The platforms `process.platform` may name that have a binary. */
  predicate Supported(platform: string) {
    platform == "win32" || platform == "linux" || platform == "darwin"
  }

  /**
   * The binary for `process.platform` and `process.arch`: Windows always gets
   * the x64 build, Linux and macOS the arm64 build exactly when the
   * architecture is `arm64` and the x64 build otherwise, and any other
   * platform the empty name.
   */
  function BinaryName(platform: string, arch: string): (name: Name)
    ensures name == "" <==> !Supported(platform)
    ensures name != "" ==> StartsWith(name, "suman-")
    ensures platform == "win32" ==> name == "suman-win_x64.exe"
    ensures platform == "linux" ==> (name == "suman-linux_arm64" <==> arch == "arm64")
    ensures platform == "linux" ==> (name == "suman-linux_x64" <==> arch != "arm64")
    ensures platform == "darwin" ==> (name == "suman-mac_arm64" <==> arch == "arm64")
    ensures platform == "darwin" ==> (name == "suman-mac_x64" <==> arch != "arm64")
  {
    if platform == "win32" then "suman-win_x64.exe"
    else if platform == "linux" then (if arch == "arm64" then "suman-linux_arm64" else "suman-linux_x64")
    else if platform == "darwin" then (if arch == "arm64" then "suman-mac_arm64" else "suman-mac_x64")
    else ""
  }

  /** Distinct supported platforms never share a binary, so a binary built for one is never started on another. */
  lemma BinaryNamesDistinct(p1: string, a1: string, p2: string, a2: string)
    requires Supported(p1) && Supported(p2) && p1 != p2
    ensures BinaryName(p1, a1) != BinaryName(p2, a2)
  {
  }

  /** `path.join(cwd, 'bin', name)`, relative to the project root: an empty name leaves `bin` itself. */
  function BinPath(name: Name): (p: Path)
    ensures name == "" ==> p == "bin"
    ensures name != "" ==> StartsWith(p, "bin/") && p[4..] == name
  {
    if name == "" then "bin" else "bin/" + name
  }

  /** Distinct names give distinct paths, and only the empty name gives `bin` itself. */
  lemma BinPathInjective(a: Name, b: Name)
    ensures BinPath(a) == BinPath(b) <==> a == b
    ensures BinPath(a) == "bin" <==> a == ""
  {
  }

  /** The checked and spawned path is the `bin` directory itself exactly when the platform is unsupported. */
  lemma BinPathOfUnsupported(platform: string, arch: string)
    ensures BinPath(BinaryName(platform, arch)) == "bin" <==> !Supported(platform)
  {
    BinPathInjective(BinaryName(platform, arch), "");
  }

  /**
   * The binary check as written: `fs.existsSync(binaryPath)` succeeds for
   * the `bin` directory itself, which is what the path is when the platform
   * is unsupported.
   */
  function LocateBinaryAsWritten(bin: Option<map<Name, Content>>, platform: string, arch: string): (r: Option<Path>)
    ensures r.Some? <==> bin.Some? && (!Supported(platform) || BinaryName(platform, arch) in bin.value)
    ensures r.Some? ==> r.value == BinPath(BinaryName(platform, arch))
  {
    var name := BinaryName(platform, arch);
    if bin.Some? && (name == "" || name in bin.value) then Some(BinPath(name)) else None
  }

  /** On an unsupported platform the check as written accepts an empty `bin/` and would spawn the directory. */
  lemma UnsupportedPlatformPassesCheck()
    ensures LocateBinaryAsWritten(Some(map[]), "freebsd", "x64") == Some("bin")
  {
  }

  /** The binary check as intended: the platform is supported and its binary is an entry of `bin/`. */
  function LocateBinary(bin: Option<map<Name, Content>>, platform: string, arch: string): (r: Option<Path>)
    ensures r.Some? <==> Supported(platform) && bin.Some? && BinaryName(platform, arch) in bin.value
    ensures r.Some? ==> r.value == "bin/" + BinaryName(platform, arch)
  {
    var name := BinaryName(platform, arch);
    if name != "" && bin.Some? && name in bin.value then Some(BinPath(name)) else None
  }

  /** The two checks differ only for unsupported platforms. */
  lemma LocateBinaryAgrees(bin: Option<map<Name, Content>>, platform: string, arch: string)
    requires Supported(platform)
    ensures LocateBinary(bin, platform, arch) == LocateBinaryAsWritten(bin, platform, arch)
  {
  }

  /** The arguments of the development run, in order. */
  const DevArgs: seq<string> :=
    ["--load-dir-res", "--path=.", "--export-auth-info", "--neu-dev-extension", "--neu-dev-auto-reload"]

  /** The marker of the wrapped tool's informational log lines. */
  const InfoMarker: string := "neu: INFO"

  /** A line of the child's output is printed: it is not blank and is not an informational line. */
  predicate Shown(line: string) {
    !Blank(line) && !Contains(line, InfoMarker)
  }

  /** The lines that are printed, unchanged and in their order. */
  function ShownLines(lines: seq<string>): (r: seq<string>)
    ensures forall l :: l in r <==> l in lines && Shown(l)
    ensures |r| <= |lines|
  {
    if lines == [] then []
    else (if Shown(lines[0]) then [lines[0]] else []) + ShownLines(lines[1..])
  }

  /** Filtering respects concatenation, so the printed lines keep their relative order. */
  lemma {:induction false} ShownLinesAppend(a: seq<string>, b: seq<string>)
    ensures ShownLines(a + b) == ShownLines(a) + ShownLines(b)
  {
    if a == [] {
      assert a + b == b;
    } else {
      assert (a + b)[0] == a[0];
      assert (a + b)[1..] == a[1..] + b;
      ShownLinesAppend(a[1..], b);
    }
  }

  /** Filtering the printed lines again removes nothing. */
  lemma {:induction false} ShownLinesIdempotent(lines: seq<string>)
    ensures ShownLines(ShownLines(lines)) == ShownLines(lines)
  {
    if lines != [] {
      var head := if Shown(lines[0]) then [lines[0]] else [];
      ShownLinesIdempotent(lines[1..]);
      ShownLinesAppend(head, ShownLines(lines[1..]));
    }
  }

  /**
   * The lines printed for one `data` chunk of the child's standard output:
   * the `'\n'`-separated pieces of the chunk that are shown.
   */
  function StdoutLines(chunk: string): (r: seq<string>)
    ensures forall l :: l in r <==> l in Split(chunk, "\n") && Shown(l)
    ensures forall l :: l in r ==> !Contains(l, "\n")
  {
    SplitPiecesLackSeparator(chunk, "\n");
    ShownLines(Split(chunk, "\n"))
  }

  /** How the supervised child's run ends. */
  datatype Ending =
    | Closed(code: int)  // the child exits and the `close` event resolves the wait
    | Interrupted        // the user interrupts the CLI (SIGINT)
    | Crashed            // an uncaught exception reaches the process

  /** The spawned command line. */
  datatype Spawn = Spawn(command: Path, args: seq<string>)

  /**
   * From the binary check to the end of the process, with the configuration
   * name already swapped: `located` is the path the check accepted, if any.
   * A failed check calls `process.exit(1)`, which skips the `finally` block,
   * so only the `exit` handler's `cleanup` runs; otherwise the child is
   * spawned and `ending` says how its run ends. Every way out restores the
   * configuration name, and the `exit` handler's second `cleanup` is a no-op.
   */
  method Supervise(guard: Guard, located: Option<Path>, ending: Ending) returns (outcome: Outcome, spawned: Option<Spawn>)
    modifies guard, guard.disk
    ensures guard.State() == Released(old(guard.State()))
    ensures guard.disk.dirs == old(guard.disk.dirs) && guard.disk.bin == old(guard.disk.bin)
    ensures spawned.Some? <==> located.Some?
    ensures spawned.Some? ==> spawned.value == Spawn(located.value, DevArgs)
    ensures spawned.None? ==> outcome == Exited(1)
    ensures spawned.Some? ==> outcome == match ending
                                        case Closed(_) => Returned
                                        case Interrupted => Exited(0)
                                        case Crashed => Exited(1)
  {
    if located.None? {
      // `process.exit(1)` skips the `finally`; the `exit` handler calls cleanup
      guard.Cleanup();
      return Exited(1), None;
    }
    spawned := Some(Spawn(located.value, DevArgs));
    match ending {
      case Closed(_) =>
        guard.Cleanup();  // the `finally` block
        outcome := Returned;
      case Interrupted =>
        guard.Cleanup();  // the SIGINT handler, then `process.exit()`
        outcome := Exited(0);
      case Crashed =>
        guard.Cleanup();  // the uncaughtException handler, then `process.exit(1)`
        outcome := Exited(1);
    }
    // the `exit` handler calls cleanup once more when the process ends
    ReleasedIdempotent(guard.State());
    guard.Cleanup();
  }

  /**
   * The whole command as written. The dev server, the warm-up wait and the
   * child process are opaque; `ending` says how the child's run ends. The
   * configuration name is swapped before the binary is located and restored
   * on every path; `bin/` and the directories are never touched. On an
   * unsupported platform the check accepts the `bin` directory itself, which
   * is then spawned.
   */
  method Run(disk: Disk, platform: string, arch: string, ending: Ending) returns (outcome: Outcome, spawned: Option<Spawn>)
    modifies disk
    ensures disk.dirs == old(disk.dirs) && disk.bin == old(disk.bin)
    ensures !old(disk.Exists("react-src")) ==> outcome == Exited(1) && spawned == None && disk.files == old(disk.files)
    ensures old(disk.Exists("react-src")) ==> disk.files == Released(Acquired(Swap(old(disk.files), false))).files
    ensures old(disk.Exists("react-src")) ==>
              (disk.files == old(disk.files) <==> !(SumConfig in old(disk.files) && NeuConfig in old(disk.files)))
    ensures spawned.Some? <==> old(disk.Exists("react-src")) && LocateBinaryAsWritten(old(disk.bin), platform, arch).Some?
    ensures spawned.Some? ==> spawned.value == Spawn(BinPath(BinaryName(platform, arch)), DevArgs)
    ensures spawned.None? ==> outcome == Exited(1)
    ensures spawned.Some? ==> outcome == match ending
                                        case Closed(_) => Returned
                                        case Interrupted => Exited(0)
                                        case Crashed => Exited(1)
  {
    if !disk.Exists("react-src") {
      return Exited(1), None;
    }
    ghost var before := disk.files;
    var guard := new Guard(disk);
    guard.Acquire();
    outcome, spawned := Supervise(guard, LocateBinaryAsWritten(disk.bin, platform, arch), ending);
    ReleaseAfterAcquire(before);
    SwapRoundTrip(before);
  }

  /**
   * The command as evidently intended: the binary check fails on an
   * unsupported platform, so the command exits with status 1 without
   * spawning anything, the configuration name restored.
   */
  method RunFailingFast(disk: Disk, platform: string, arch: string, ending: Ending) returns (outcome: Outcome, spawned: Option<Spawn>)
    modifies disk
    ensures disk.dirs == old(disk.dirs) && disk.bin == old(disk.bin)
    ensures !old(disk.Exists("react-src")) ==> outcome == Exited(1) && spawned == None && disk.files == old(disk.files)
    ensures old(disk.Exists("react-src")) ==> disk.files == Released(Acquired(Swap(old(disk.files), false))).files
    ensures old(disk.Exists("react-src")) ==>
              (disk.files == old(disk.files) <==> !(SumConfig in old(disk.files) && NeuConfig in old(disk.files)))
    ensures spawned.Some? <==> old(disk.Exists("react-src")) && LocateBinary(old(disk.bin), platform, arch).Some?
    ensures spawned.Some? ==> Supported(platform) && spawned.value == Spawn(BinPath(BinaryName(platform, arch)), DevArgs)
    ensures spawned.None? ==> outcome == Exited(1)
    ensures spawned.Some? ==> outcome == match ending
                                        case Closed(_) => Returned
                                        case Interrupted => Exited(0)
                                        case Crashed => Exited(1)
  {
    if !disk.Exists("react-src") {
      return Exited(1), None;
    }
    ghost var before := disk.files;
    var guard := new Guard(disk);
    guard.Acquire();
    outcome, spawned := Supervise(guard, LocateBinary(disk.bin, platform, arch), ending);
    ReleaseAfterAcquire(before);
    SwapRoundTrip(before);
  }
}
