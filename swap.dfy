/**
 * The guarded swap of the project's configuration file. The wrapped tool only
 * reads `neutralino.config.json`, so `sum.config.json` is renamed to that name
 * while the tool runs and renamed back afterwards. A flag records whether the
 * swap is in force; the restore runs only when the flag is set and the file is
 * still there, so a stale flag is a silent no-op.
 */
module ConfigSwap {
  import opened Disk

  const SumConfig: Path := "sum.config.json"
  const NeuConfig: Path := "neutralino.config.json"

  /** The project files together with the flag that records a swap in force. */
  datatype Swap = Swap(files: map<Path, Content>, renamed: bool)

  /** `a` and `b` agree on every path other than the two configuration names. */
  ghost predicate SameOtherwise(a: map<Path, Content>, b: map<Path, Content>) {
    forall p :: p != SumConfig && p != NeuConfig ==> (p in a <==> p in b) && (p in a ==> a[p] == b[p])
  }

  /**
   * The acquire step: when `sum.config.json` exists it now goes by
   * `neutralino.config.json` and the flag is set; otherwise nothing changes.
   */
  function Acquired(s: Swap): (r: Swap)
    ensures SumConfig in s.files ==>
      && r.renamed
      && SumConfig !in r.files
      && NeuConfig in r.files && r.files[NeuConfig] == s.files[SumConfig]
      && SameOtherwise(s.files, r.files)
    ensures SumConfig !in s.files ==> r == s
  {
    if SumConfig in s.files then Swap(Moved(s.files, SumConfig, NeuConfig), true) else s
  }

  /**
   * The restore step: when the flag is set and `neutralino.config.json`
   * exists it goes back to `sum.config.json` and the flag is cleared;
   * otherwise nothing changes.
   */
  function Released(s: Swap): (r: Swap)
    ensures s.renamed && NeuConfig in s.files ==>
      && !r.renamed
      && NeuConfig !in r.files
      && SumConfig in r.files && r.files[SumConfig] == s.files[NeuConfig]
      && SameOtherwise(s.files, r.files)
    ensures !(s.renamed && NeuConfig in s.files) ==> r == s
  {
    if s.renamed && NeuConfig in s.files then Swap(Moved(s.files, NeuConfig, SumConfig), false) else s
  }

  /** Restoring twice is the same as restoring once. */
  lemma ReleasedIdempotent(s: Swap)
    ensures Released(Released(s)) == Released(s)
  {
  }

  /** A second acquire without a restore in between loses nothing: it changes nothing. */
  lemma AcquiredIdempotent(s: Swap)
    ensures Acquired(Acquired(s)) == Acquired(s)
  {
  }

  /** After an acquire and a restore the flag is clear and `sum.config.json` holds what it held. */
  lemma ReleaseAfterAcquire(files: map<Path, Content>)
    ensures !Released(Acquired(Swap(files, false))).renamed
    ensures SumConfig in files ==>
      && SumConfig in Released(Acquired(Swap(files, false))).files
      && Released(Acquired(Swap(files, false))).files[SumConfig] == files[SumConfig]
      && NeuConfig !in Released(Acquired(Swap(files, false))).files
  {
  }

  /**
   * Acquire then restore gives back the files exactly when the two
   * configuration names did not both exist before.
   */
  lemma SwapRoundTrip(files: map<Path, Content>)
    ensures Released(Acquired(Swap(files, false))) == Swap(files, false)
        <==> !(SumConfig in files && NeuConfig in files)
  {
    if SumConfig in files && NeuConfig in files {
      assert NeuConfig !in Released(Acquired(Swap(files, false))).files;
    } else if SumConfig in files {
      MovedBack(files, SumConfig, NeuConfig);
    }
  }

  /** A `neutralino.config.json` that existed before the acquire is replaced by it and lost. */
  lemma SwapOverwritesExisting()
    ensures Released(Acquired(Swap(map[SumConfig := "a", NeuConfig := "b"], false)))
         == Swap(map[SumConfig := "a"], false)
  {
    var files := map[SumConfig := "a", NeuConfig := "b"];
    var back := Released(Acquired(Swap(files, false))).files;
    assert back.Keys == {SumConfig};
  }

  /**
   * The `renamed` flag of the run command and the `cleanup` closure that
   * every exit path calls, over the project directory.
   */
  class Guard {
    const disk: Disk
    var renamed: bool

    constructor (disk: Disk)
      ensures this.disk == disk && !renamed
    {
      this.disk := disk;
      renamed := false;
    }

    /** The files and the flag as one value. */
    function State(): Swap
      reads this, disk
    {
      Swap(disk.files, renamed)
    }

    /** Renames `sum.config.json` to `neutralino.config.json` when it exists and sets the flag. */
    method Acquire()
      modifies this, disk
      ensures State() == Acquired(old(State()))
      ensures disk.dirs == old(disk.dirs) && disk.bin == old(disk.bin)
    {
      if SumConfig in disk.files {
        disk.Rename(SumConfig, NeuConfig);
        renamed := true;
      }
    }

    /**
     * `cleanup`: renames `neutralino.config.json` back only when the flag is
     * set and the file exists, then clears the flag; never fails.
     */
    method Cleanup()
      modifies this, disk
      ensures State() == Released(old(State()))
      ensures disk.dirs == old(disk.dirs) && disk.bin == old(disk.bin)
    {
      if renamed && NeuConfig in disk.files {
        disk.Rename(NeuConfig, SumConfig);
        renamed := false;
      }
    }
  }
}
