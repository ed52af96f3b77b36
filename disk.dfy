/**
 * The project directory as the commands see it: regular files by their path
 * relative to the project root, the directories other than `bin/`, and the
 * entries of `bin/` (absent when there is no `bin/` directory). The renames
 * follow `fs.renameSync` on POSIX: a rename onto an existing name replaces it.
 */
module Disk {
  import opened Options
  import opened Text

  /** A '/'-separated path relative to the project root. */
  type Path = string
  /** The name of an entry of `bin/`. */
  type Name = string
  /** The content of a file, read and written as UTF-8 text. */
  type Content = string

  /** The map `m` with the entry at `src` moved to `dst`, replacing what `dst` held. */
  function Moved<V>(m: map<string, V>, src: string, dst: string): (r: map<string, V>)
    requires src in m
    ensures dst in r && r[dst] == m[src]
    ensures src != dst ==> src !in r
    ensures forall k :: k != src && k != dst ==> (k in r <==> k in m)
    ensures forall k :: k in r && k != dst ==> r[k] == m[k]
  {
    (m - {src})[dst := m[src]]
  }

  /** Moving an entry to a free name and back restores the map. */
  lemma MovedBack<V>(m: map<string, V>, src: string, dst: string)
    requires src in m && dst !in m
    ensures Moved(Moved(m, src, dst), dst, src) == m
  {
    var back := Moved(Moved(m, src, dst), dst, src);
    assert back.Keys == m.Keys;
  }

  /** Neither prefix is a prefix of the other, so no name can start with both. */
  predicate Apart(a: string, b: string) {
    !StartsWith(a, b) && !StartsWith(b, a)
  }

  /** A name built on prefix `to` never starts with a prefix apart from it. */
  lemma ApartNames(from: string, to: string, rest: string)
    requires Apart(from, to)
    ensures !StartsWith(to + rest, from)
  {
    if |from| <= |to| {
      assert (to + rest)[..|from|] == to[..|from|];
    } else if |from| <= |to + rest| {
      assert (to + rest)[..|from|][..|to|] == to;
    }
  }

  /** The names of `m` that start with `from`. */
  function Sources<V>(m: map<Name, V>, from: string): set<Name> {
    set n | n in m && StartsWith(n, from)
  }

  /** The name `n`, which starts with `from`, with that prefix replaced by `to`. */
  function Reprefixed(n: Name, from: string, to: string): (r: Name)
    requires StartsWith(n, from)
    ensures StartsWith(r, to) && r[|to|..] == n[|from|..]
    ensures from + r[|to|..] == n
  {
    assert n == n[..|from|] + n[|from|..];
    to + n[|from|..]
  }

  /** `k` is the new name of one of the entries in `moved`. */
  predicate IsTarget(k: Name, from: string, to: string, moved: set<Name>) {
    StartsWith(k, to) && from + k[|to|..] in moved
  }

  /** The new names of the entries in `moved`. */
  function Targets(moved: set<Name>, from: string, to: string): set<Name>
    requires forall n :: n in moved ==> StartsWith(n, from)
  {
    set n | n in moved :: Reprefixed(n, from, to)
  }

  /**
   * The directory `m` after the entries in `moved`, each starting with `from`,
   * have been renamed to start with `to` instead.
   */
  function Reprefix(m: map<Name, Content>, from: string, to: string, moved: set<Name>): map<Name, Content>
    requires moved <= m.Keys && forall n :: n in moved ==> StartsWith(n, from)
  {
    map k | k in (m.Keys - moved) + Targets(moved, from, to) ::
      if IsTarget(k, from, to, moved) then m[from + k[|to|..]] else m[k]
  }

  /** Before any rename the directory is as it was. */
  lemma ReprefixNothing(m: map<Name, Content>, from: string, to: string)
    ensures Reprefix(m, from, to, {}) == m
  {
    assert Reprefix(m, from, to, {}).Keys == m.Keys;
  }

  /** Which names a partly renamed directory holds, and what each holds. */
  lemma ReprefixAt(m: map<Name, Content>, from: string, to: string, moved: set<Name>, k: Name)
    requires moved <= m.Keys && forall n :: n in moved ==> StartsWith(n, from)
    ensures k in Reprefix(m, from, to, moved) <==> (k in m && k !in moved) || IsTarget(k, from, to, moved)
    ensures k in Reprefix(m, from, to, moved) && IsTarget(k, from, to, moved) ==>
      Reprefix(m, from, to, moved)[k] == m[from + k[|to|..]]
    ensures k in Reprefix(m, from, to, moved) && !IsTarget(k, from, to, moved) ==>
      Reprefix(m, from, to, moved)[k] == m[k]
  {
    if IsTarget(k, from, to, moved) {
      var n := from + k[|to|..];
      assert k == k[..|to|] + k[|to|..];
      assert Reprefixed(n, from, to) == k;
      assert k in Targets(moved, from, to);
    }
  }

  /**
   * The directory `m` after every entry starting with `from` has been renamed
   * to start with `to` instead.
   */
  function PrefixRenamed(m: map<Name, Content>, from: string, to: string): map<Name, Content>
  {
    Reprefix(m, from, to, Sources(m, from))
  }

  /**
   * Prefix renaming is complete and touches nothing else: each entry that
   * started with `from` appears under its new name with its content, no name
   * starting with `from` is left, every other entry keeps its name and content
   * unless a renamed entry landed on its name, and no other name appears.
   */
  lemma PrefixRenamedSpec(m: map<Name, Content>, from: string, to: string)
    requires Apart(from, to)
    ensures forall n :: n in m && StartsWith(n, from) ==>
      Reprefixed(n, from, to) in PrefixRenamed(m, from, to)
      && PrefixRenamed(m, from, to)[Reprefixed(n, from, to)] == m[n]
    ensures forall n :: n in m && !StartsWith(n, from) && !(StartsWith(n, to) && from + n[|to|..] in m) ==>
      n in PrefixRenamed(m, from, to) && PrefixRenamed(m, from, to)[n] == m[n]
    ensures forall n :: n in PrefixRenamed(m, from, to) ==> !StartsWith(n, from)
    ensures forall n :: n in PrefixRenamed(m, from, to) ==>
      (n in m && !StartsWith(n, from)) || (StartsWith(n, to) && from + n[|to|..] in m)
  {
    var src := Sources(m, from);
    var r := PrefixRenamed(m, from, to);
    forall n | n in m && StartsWith(n, from)
      ensures Reprefixed(n, from, to) in r && r[Reprefixed(n, from, to)] == m[n]
    {
      var t := Reprefixed(n, from, to);
      ReprefixAt(m, from, to, src, t);
    }
    forall n | n in m && !StartsWith(n, from) && !(StartsWith(n, to) && from + n[|to|..] in m)
      ensures n in r && r[n] == m[n]
    {
      ReprefixAt(m, from, to, src, n);
    }
    forall n | n in r
      ensures !StartsWith(n, from)
      ensures (n in m && !StartsWith(n, from)) || (StartsWith(n, to) && from + n[|to|..] in m)
    {
      ReprefixAt(m, from, to, src, n);
      if IsTarget(n, from, to, src) {
        ApartNames(from, to, n[|to|..]);
        assert n == to + n[|to|..];
      }
    }
  }

  /** One more rename of the prefix-renaming loop. */
  lemma ReprefixStep(m: map<Name, Content>, from: string, to: string, moved: set<Name>, n: Name)
    requires Apart(from, to)
    requires moved <= m.Keys && forall k :: k in moved ==> StartsWith(k, from)
    requires n in m && n !in moved && StartsWith(n, from)
    ensures n in Reprefix(m, from, to, moved)
    ensures Reprefix(m, from, to, moved + {n})
         == Moved(Reprefix(m, from, to, moved), n, Reprefixed(n, from, to))
  {
    var before := Reprefix(m, from, to, moved);
    var after := Reprefix(m, from, to, moved + {n});
    var target := Reprefixed(n, from, to);
    ReprefixAt(m, from, to, moved, n);
    ApartNames(from, to, n[|from|..]);
    assert !IsTarget(n, from, to, moved);
    var stepped := Moved(before, n, target);
    forall k
      ensures k in after <==> k in stepped
      ensures k in after ==> after[k] == stepped[k]
    {
      ReprefixAt(m, from, to, moved, k);
      ReprefixAt(m, from, to, moved + {n}, k);
      if k == target {
        assert IsTarget(k, from, to, moved + {n});
      } else if k == n {
        assert !IsTarget(k, from, to, moved + {n});
      }
    }
    assert after == stepped;
  }

  /** A name that starts with one prefix does not start with a prefix apart from it. */
  lemma ApartStart(k: Name, from: string, to: string)
    requires Apart(from, to) && StartsWith(k, from)
    ensures !StartsWith(k, to)
  {
    assert k == from + k[|from|..];
    ApartNames(to, from, k[|from|..]);
  }

  /** The round trip of a single name. */
  lemma RoundTripAt(m: map<Name, Content>, from: string, to: string, k: Name)
    requires Apart(from, to)
    requires forall n :: n in m ==> !StartsWith(n, to)
    ensures Apart(to, from)
    ensures k in PrefixRenamed(PrefixRenamed(m, from, to), to, from) <==> k in m
    ensures k in m ==> PrefixRenamed(PrefixRenamed(m, from, to), to, from)[k] == m[k]
  {
    var s1 := Sources(m, from);
    var there := PrefixRenamed(m, from, to);
    var s2 := Sources(there, to);
    ReprefixAt(there, to, from, s2, k);
    if StartsWith(k, from) {
      ApartStart(k, from, to);
      ReprefixAt(m, from, to, s1, k);
      var t := to + k[|from|..];
      assert k == from + k[|from|..];
      assert from + t[|to|..] == k;
      ReprefixAt(m, from, to, s1, t);
      ApartNames(from, to, k[|from|..]);
    } else {
      ReprefixAt(m, from, to, s1, k);
      if k in m {
        assert !StartsWith(k, to);
      }
    }
  }

  /**
   * Renaming the `from` entries to `to` and then the `to` entries back to
   * `from` restores the directory exactly when it had no `to` entries.
   */
  lemma PrefixRoundTrip(m: map<Name, Content>, from: string, to: string)
    requires Apart(from, to)
    ensures Apart(to, from)
    ensures PrefixRenamed(PrefixRenamed(m, from, to), to, from) == m
        <==> forall n :: n in m ==> !StartsWith(n, to)
  {
    var back := PrefixRenamed(PrefixRenamed(m, from, to), to, from);
    if forall n :: n in m ==> !StartsWith(n, to) {
      forall k
        ensures k in back <==> k in m
        ensures k in m ==> back[k] == m[k]
      {
        RoundTripAt(m, from, to, k);
      }
      assert back == m;
    } else {
      // the second rename leaves no name starting with `to`
      PrefixRenamedSpec(PrefixRenamed(m, from, to), to, from);
    }
  }

  /** `k` is `p` itself or lies inside the directory `p`. */
  predicate Under(k: Path, p: Path) {
    k == p || StartsWith(k, p + "/")
  }

  /** The files left once the tree at `p` is removed. */
  function Pruned(files: map<Path, Content>, p: Path): (r: map<Path, Content>)
    ensures forall k :: k in r <==> k in files && !Under(k, p)
    ensures forall k :: k in r ==> r[k] == files[k]
  {
    map k | k in files && !Under(k, p) :: files[k]
  }

  /** The regular files and the directories other than `bin/` of a project. */
  datatype Tree = Tree(files: map<Path, Content>, dirs: set<Path>)
  {
    /** `fs.existsSync(p)` for any `p` other than `bin`: a file or a directory is there. */
    predicate Has(p: Path) {
      p in files || p in dirs
    }
  }

  class Disk {
    var files: map<Path, Content>
    var dirs: set<Path>
    var bin: Option<map<Name, Content>>

    /**
     * `fs.existsSync` on a path of the project: a file or directory of the
     * tree, or `bin` when the `bin/` directory is present.
     */
    predicate Exists(p: Path)
      reads this
    {
      Tree(files, dirs).Has(p) || (p == "bin" && bin.Some?)
    }

    /** `fs.renameSync(src, dst)` on a regular file that exists. */
    method Rename(src: Path, dst: Path)
      requires src in files
      modifies this
      ensures files == Moved(old(files), src, dst)
      ensures dirs == old(dirs) && bin == old(bin)
    {
      files := Moved(files, src, dst);
    }

    /** `fs.writeFileSync(p, content)`: creates or replaces the file. */
    method Write(p: Path, content: Content)
      modifies this
      ensures files == old(files)[p := content]
      ensures dirs == old(dirs) && bin == old(bin)
    {
      files := files[p := content];
    }

    /** `shell.cp('-R', ...)` of a tree whose files, under their destination paths, are `tree`. */
    method CopyIn(tree: map<Path, Content>)
      modifies this
      ensures files == old(files) + tree
      ensures dirs == old(dirs) && bin == old(bin)
    {
      files := files + tree;
    }

    /** `shell.rm('-rf', p)`: removes the file or the directory tree at `p` (never `bin/`). */
    method RemoveTree(p: Path)
      requires p != "bin"
      modifies this
      ensures files == Pruned(old(files), p)
      ensures dirs == set d | d in old(dirs) && !Under(d, p)
      ensures bin == old(bin)
    {
      files := Pruned(files, p);
      dirs := set d | d in dirs && !Under(d, p);
    }

    /** `fs.unlinkSync(p)` on a regular file that exists. */
    method Unlink(p: Path)
      requires p in files
      modifies this
      ensures files == old(files) - {p}
      ensures dirs == old(dirs) && bin == old(bin)
    {
      files := files - {p};
    }

    /**
     * Renames every entry of `bin/` that starts with `from` so that it starts
     * with `to` instead, visiting the entries listed at the start in whatever
     * order the operating system lists them; `any` records whether an entry
     * matched.
     */
    method RenamePrefixed(from: string, to: string) returns (any: bool)
      requires bin.Some? && Apart(from, to)
      modifies this
      ensures bin == Some(PrefixRenamed(old(bin.value), from, to))
      ensures any <==> exists n :: n in old(bin.value) && StartsWith(n, from)
      ensures files == old(files) && dirs == old(dirs)
    {
      var start := bin.value;
      var todo := start.Keys;
      ReprefixNothing(start, from, to);
      ghost var moved: set<Name> := {};
      any := false;
      while todo != {}
        invariant todo <= start.Keys && moved <= start.Keys
        invariant moved == Sources(start, from) - todo
        invariant bin == Some(Reprefix(start, from, to, moved))
        invariant any <==> moved != {}
        invariant files == old(files) && dirs == old(dirs)
        decreases todo
      {
        var file :| file in todo;
        if StartsWith(file, from) {
          var newName := ReplaceFirst(file, from, to);
          ReplaceFirstOfPrefix(file, from, to);
          ReprefixStep(start, from, to, moved, file);
          bin := Some(Moved(bin.value, file, newName));
          moved := moved + {file};
          any := true;
        }
        todo := todo - {file};
      }
      assert moved == Sources(start, from);
      if exists n :: n in start && StartsWith(n, from) {
        var n :| n in start && StartsWith(n, from);
        assert n in moved;
      }
    }
  }
}
