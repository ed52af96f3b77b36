/**
 * The `build` command (lib/commands/build.js): builds the React front end,
 * copies its output into `resources`, swaps the configuration name and the
 * `suman-` prefix of the binaries in `bin/` to the names the wrapped tool
 * expects, runs the tool's build, and restores both in the `finally` block.
 */
module BuildCommand {
  import opened Options
  import opened Text
  import opened Disk
  import opened ConfigSwap
  import opened Process

  const Suman: string := "suman-"
  const Neutralino: string := "neutralino-"

  /** The two binary prefixes are apart, in both directions. */
  lemma PrefixesApart()
    ensures Apart(Suman, Neutralino) && Apart(Neutralino, Suman)
  {
    assert Suman[0] != Neutralino[0];
  }

  /** The names on disk together with the two flags of the command. */
  datatype Names = Names(files: map<Path, Content>, bin: Option<map<Name, Content>>, renamedConfig: bool, renamedBinaries: bool)

  /** `bin/` exists and one of its entries starts with `suman-`. */
  predicate HasSumanEntry(bin: Option<map<Name, Content>>) {
    bin.Some? && exists n :: n in bin.value && StartsWith(n, Suman)
  }

  /**
   * The names after the acquire steps: the configuration swap, then every
   * `suman-` entry of `bin/` renamed to `neutralino-`; `renamedBinaries` is
   * set exactly when `bin/` exists and some entry started with `suman-`.
   */
  function AcquiredNames(files: map<Path, Content>, bin: Option<map<Name, Content>>): (r: Names)
    ensures r.renamedBinaries <==> HasSumanEntry(bin)
    ensures r.bin.Some? <==> bin.Some?
    ensures bin.Some? ==> forall n :: n in r.bin.value ==> !StartsWith(n, Suman)
    ensures r.renamedConfig <==> SumConfig in files
  {
    PrefixesApart();
    var config := Acquired(Swap(files, false));
    if bin.Some? then
      PrefixRenamedSpec(bin.value, Suman, Neutralino);
      Names(config.files, Some(PrefixRenamed(bin.value, Suman, Neutralino)), config.renamed, HasSumanEntry(bin))
    else
      Names(config.files, None, config.renamed, false)
  }

  /**
   * The names after the `finally` block: the configuration restore, then,
   * when `renamedBinaries` is set and `bin/` exists, every `neutralino-`
   * entry renamed back to `suman-`.
   */
  function RestoredNames(n: Names): (r: Names)
    ensures r.bin.Some? <==> n.bin.Some?
    ensures n.renamedBinaries && n.bin.Some? ==> forall k :: k in r.bin.value ==> !StartsWith(k, Neutralino)
    ensures !(n.renamedBinaries && n.bin.Some?) ==> r.bin == n.bin
  {
    PrefixesApart();
    var config := Released(Swap(n.files, n.renamedConfig));
    if n.renamedBinaries && n.bin.Some? then
      PrefixRenamedSpec(n.bin.value, Neutralino, Suman);
      Names(config.files, Some(PrefixRenamed(n.bin.value, Neutralino, Suman)), config.renamed, n.renamedBinaries)
    else
      Names(config.files, n.bin, config.renamed, n.renamedBinaries)
  }

  /** With no entry starting with `from`, renaming that prefix changes nothing. */
  lemma PrefixRenamedNothing(m: map<Name, Content>, from: string, to: string)
    requires forall n :: n in m ==> !StartsWith(n, from)
    ensures PrefixRenamed(m, from, to) == m
  {
    assert Sources(m, from) == {};
    ReprefixNothing(m, from, to);
  }

  /**
   * Acquire then restore gives back the original files exactly when
   * `sum.config.json` and `neutralino.config.json` did not both exist, and the
   * original `bin/` exactly when it did not hold both a `suman-` and a
   * `neutralino-` binary.
   */
  lemma BuildRoundTrip(files: map<Path, Content>, bin: Option<map<Name, Content>>)
    ensures RestoredNames(AcquiredNames(files, bin)).files == files
        <==> !(SumConfig in files && NeuConfig in files)
    ensures RestoredNames(AcquiredNames(files, bin)).bin == bin
        <==> !(HasSumanEntry(bin) && exists n :: n in bin.value && StartsWith(n, Neutralino))
  {
    PrefixesApart();
    SwapRoundTrip(files);
    ReleaseAfterAcquire(files);
    if bin.Some? {
      if HasSumanEntry(bin) {
        PrefixRoundTrip(bin.value, Suman, Neutralino);
      } else {
        PrefixRenamedNothing(bin.value, Suman, Neutralino);
      }
    }
  }

  /**
   * The round trip needs its precondition: a `neutralino-` binary that
   * existed before a build that renamed binaries comes out of it renamed to
   * `suman-`, content and all.
   */
  lemma RoundTripNeedsNoNeutralinoEntry(files: map<Path, Content>, m: map<Name, Content>, n: Name)
    requires HasSumanEntry(Some(m))
    requires n in m && StartsWith(n, Neutralino) && Suman + n[|Neutralino|..] !in m
    ensures n !in RestoredNames(AcquiredNames(files, Some(m))).bin.value
    ensures Reprefixed(n, Neutralino, Suman) in RestoredNames(AcquiredNames(files, Some(m))).bin.value
    ensures RestoredNames(AcquiredNames(files, Some(m))).bin.value[Reprefixed(n, Neutralino, Suman)] == m[n]
  {
    PrefixesApart();
    ApartStart(n, Neutralino, Suman);
    var there := PrefixRenamed(m, Suman, Neutralino);
    PrefixRenamedSpec(m, Suman, Neutralino);
    assert n in there && there[n] == m[n];
    PrefixRenamedSpec(there, Neutralino, Suman);
  }

  /** A failed tool build leaves `sum.config.json` and every `suman-` binary renamed. */
  lemma AcquiredNamesDiffer(files: map<Path, Content>, bin: Option<map<Name, Content>>, n: Name)
    requires SumConfig in files
    requires bin.Some? && n in bin.value && StartsWith(n, Suman)
    ensures SumConfig !in AcquiredNames(files, bin).files
    ensures n !in AcquiredNames(files, bin).bin.value
  {
  }

  /** The acquire steps of lib/commands/build.js, in place on the disk. */
  method AcquireNames(disk: Disk) returns (renamedConfig: bool, renamedBinaries: bool)
    modifies disk
    ensures Names(disk.files, disk.bin, renamedConfig, renamedBinaries) == AcquiredNames(old(disk.files), old(disk.bin))
    ensures disk.dirs == old(disk.dirs)
  {
    PrefixesApart();
    renamedConfig := false;
    if SumConfig in disk.files {
      disk.Rename(SumConfig, NeuConfig);
      renamedConfig := true;
    }
    renamedBinaries := false;
    if disk.bin.Some? {
      renamedBinaries := disk.RenamePrefixed(Suman, Neutralino);
    }
  }

  /** The `finally` block of lib/commands/build.js, in place on the disk. */
  method RestoreNames(disk: Disk, renamedConfig: bool, renamedBinaries: bool)
    modifies disk
    ensures disk.files == RestoredNames(Names(old(disk.files), old(disk.bin), renamedConfig, renamedBinaries)).files
    ensures disk.bin == RestoredNames(Names(old(disk.files), old(disk.bin), renamedConfig, renamedBinaries)).bin
    ensures disk.dirs == old(disk.dirs)
  {
    PrefixesApart();
    if renamedConfig && NeuConfig in disk.files {
      disk.Rename(NeuConfig, SumConfig);
    }
    if renamedBinaries && disk.bin.Some? {
      var _ := disk.RenamePrefixed(Neutralino, Suman);
    }
  }

  /**
   * The command as written. `reactBuild` and `neuBuild` are the exit codes of
   * `npm run build` and of the tool's build; `assets` is the React build
   * output under its destination paths in `resources`. A failed React build
   * exits before any rename. A failed tool build calls `process.exit(1)`
   * inside the `try`, so the `finally` block does not run and the names are
   * left swapped.
   */
  method Build(disk: Disk, reactBuild: int, assets: map<Path, Content>, neuBuild: int) returns (outcome: Outcome)
    requires forall k :: k in assets ==> StartsWith(k, "resources/")
    modifies disk
    ensures disk.dirs == old(disk.dirs)
    ensures !old(disk.Exists("react-src")) || reactBuild != 0 ==>
      outcome == Exited(1) && disk.files == old(disk.files) && disk.bin == old(disk.bin)
    ensures old(disk.Exists("react-src")) && reactBuild == 0 && neuBuild != 0 ==>
      && outcome == Exited(1)
      && disk.files == AcquiredNames(old(disk.files) + assets, old(disk.bin)).files
      && disk.bin == AcquiredNames(old(disk.files) + assets, old(disk.bin)).bin
    ensures old(disk.Exists("react-src")) && reactBuild == 0 && neuBuild == 0 ==>
      && outcome == Returned
      && disk.files == RestoredNames(AcquiredNames(old(disk.files) + assets, old(disk.bin))).files
      && disk.bin == RestoredNames(AcquiredNames(old(disk.files) + assets, old(disk.bin))).bin
  {
    if !disk.Exists("react-src") {
      return Exited(1);
    }
    if reactBuild != 0 {
      return Exited(1);
    }
    disk.CopyIn(assets);
    var renamedConfig, renamedBinaries := AcquireNames(disk);
    if neuBuild != 0 {
      return Exited(1);
    }
    RestoreNames(disk, renamedConfig, renamedBinaries);
    outcome := Returned;
  }

  /**
   * The command as evidently intended: the `finally` block runs before the
   * failure is reported, so the names are restored on both outcomes of the
   * tool's build.
   */
  method BuildRestoringOnFailure(disk: Disk, reactBuild: int, assets: map<Path, Content>, neuBuild: int) returns (outcome: Outcome)
    requires forall k :: k in assets ==> StartsWith(k, "resources/")
    modifies disk
    ensures disk.dirs == old(disk.dirs)
    ensures !old(disk.Exists("react-src")) || reactBuild != 0 ==>
      outcome == Exited(1) && disk.files == old(disk.files) && disk.bin == old(disk.bin)
    ensures old(disk.Exists("react-src")) && reactBuild == 0 ==>
      && outcome == (if neuBuild == 0 then Returned else Exited(1))
      && disk.files == RestoredNames(AcquiredNames(old(disk.files) + assets, old(disk.bin))).files
      && disk.bin == RestoredNames(AcquiredNames(old(disk.files) + assets, old(disk.bin))).bin
  {
    if !disk.Exists("react-src") {
      return Exited(1);
    }
    if reactBuild != 0 {
      return Exited(1);
    }
    disk.CopyIn(assets);
    var renamedConfig, renamedBinaries := AcquireNames(disk);
    RestoreNames(disk, renamedConfig, renamedBinaries);
    outcome := if neuBuild == 0 then Returned else Exited(1);
  }
}
