/**
 * The `create` command (lib/commands/create.js): checks the project name and
 * the target directory, has the wrapped tool scaffold the project, rebrands
 * its files from Neutralino to sumjs, adds the React front end, rewrites the
 * configuration record, removes the files the project does not need, patches
 * the remaining text files, and renames the `neutralino-` binaries in `bin/`
 * to `suman-`.
 */
module CreateCommand {
  import opened Options
  import opened Text
  import opened Disk
  import opened ConfigSwap
  import opened Process
  import BuildCommand

  // ---------------------------------------------------------------- paths

  const ClientLib: Path := "resources/js/neutralino.js"
  const SumLib: Path := "resources/js/sum.js"
  const IndexHtml: Path := "resources/index.html"
  const AppTsx: Path := "react-src/src/App.tsx"
  const Gitignore: Path := ".gitignore"
  const MainJs: Path := "resources/js/main.js"
  const NeuTypings: Path := "resources/js/neutralino.d.ts"
  const SumTypings: Path := "resources/js/sum.d.ts"
  const StylesCss: Path := "resources/styles.css"

  /** The entries of the scaffold the project does not keep. */
  const Clutter: seq<Path> := [".github", "LICENSE", "README.md", "neutralinojs.log"]

  // --------------------------------------------------------- text rewrites

  /** `index.html`: the script name is rebranded; the second replace puts `Neutralino.init()` back as it was. */
  function IndexHtmlText(s: string): (r: string)
    ensures r == ReplaceFirst(s, "neutralino.js", "sum.js")
  {
    var once := ReplaceFirst(s, "neutralino.js", "sum.js");
    ReplaceFirstSelf(once, "Neutralino.init()");
    ReplaceFirst(once, "Neutralino.init()", "Neutralino.init()")
  }

  /** `.gitignore`: every `Neutralinojs` becomes `sumjs`, then the first `neutralino.js` becomes `sum.js`. */
  function GitignoreText(s: string): (r: string)
    ensures r == ReplaceFirst(Join(Split(s, "Neutralinojs"), "sumjs"), "neutralino.js", "sum.js")
    ensures !Contains(s, "Neutralinojs") && !Contains(s, "neutralino.js") ==> r == s
  {
    ReplaceAllIsSplitJoin(s, "Neutralinojs", "sumjs");
    ReplaceFirst(ReplaceAll(s, "Neutralinojs", "sumjs"), "neutralino.js", "sum.js")
  }

  /** `App.tsx`: the first `Vite + React` gains `+ SumJS`. */
  function AppTsxText(s: string): string {
    ReplaceFirst(s, "Vite + React", "Vite + React + SumJS")
  }

  /** The title is branded where it occurs, and a file without it is left alone. */
  lemma AppTsxBranded(s: string)
    ensures !Contains(s, "Vite + React") ==> AppTsxText(s) == s
    ensures Contains(s, "Vite + React") ==> Contains(AppTsxText(s), "Vite + React + SumJS")
  {
    if Contains(s, "Vite + React") {
      var i := IndexOf(s, "Vite + React").value;
      ReplaceFirstPlaces(s, "Vite + React", "Vite + React + SumJS", i);
      assert OccursAt(AppTsxText(s), "Vite + React + SumJS", i);
    }
  }

  const NeuExport: string := "export as namespace Neutralino;"
  const SumExport: string := "export as namespace Sumjs;"
  const NeuGlobal: string := "const Neutralino: any;"
  const SumGlobal: string := "const Sumjs: any;"

  /** The type definitions: the first namespace export and the first global declaration are renamed. */
  function TypingsText(s: string): string {
    ReplaceFirst(ReplaceFirst(s, NeuExport, SumExport), NeuGlobal, SumGlobal)
  }

  /** The old global declaration cannot start inside a namespace export: the export's only `c` is followed by `e`. */
  lemma GlobalNotInsideExport(t: string, a: string, i: nat, j: nat)
    requires a == NeuExport || a == SumExport
    requires OccursAt(t, a, i) && OccursAt(t, NeuGlobal, j)
    ensures !(i <= j < i + |a|)
  {
    if i <= j < i + |a| {
      CharAt(t, NeuGlobal, j, 0);
      CharAt(t, NeuGlobal, j, 1);
      CharAt(t, a, i, j - i);
      if j - i == 17 {
        CharAt(t, a, i, 18);
      }
      assert false;
    }
  }

  /** A namespace export cannot start inside the old global declaration: its only `e` is followed by `u`. */
  lemma ExportNotInsideGlobal(t: string, a: string, i: nat, j: nat)
    requires a == NeuExport || a == SumExport
    requires OccursAt(t, a, i) && OccursAt(t, NeuGlobal, j)
    ensures !(j < i < j + |NeuGlobal|)
  {
    if j < i < j + |NeuGlobal| {
      CharAt(t, a, i, 0);
      CharAt(t, a, i, 1);
      CharAt(t, NeuGlobal, j, i - j);
      if i - j == 7 {
        CharAt(t, NeuGlobal, j, 8);
      }
      assert false;
    }
  }

  /** A namespace export, old or new, never overlaps the old global declaration. */
  lemma DeclarationsApart(t: string, a: string, i: nat, j: nat)
    requires a == NeuExport || a == SumExport
    requires OccursAt(t, a, i) && OccursAt(t, NeuGlobal, j)
    ensures j + |NeuGlobal| <= i || i + |a| <= j
  {
    GlobalNotInsideExport(t, a, i, j);
    ExportNotInsideGlobal(t, a, i, j);
  }

  /** The old global declaration survives the namespace rename. */
  lemma GlobalSurvivesExport(s: string)
    requires Contains(s, NeuGlobal)
    ensures Contains(ReplaceFirst(s, NeuExport, SumExport), NeuGlobal)
  {
    if Contains(s, NeuExport) {
      var i := IndexOf(s, NeuExport).value;
      var j := IndexOf(s, NeuGlobal).value;
      DeclarationsApart(s, NeuExport, i, j);
      ReplaceFirstKeeps(s, NeuExport, SumExport, i, NeuGlobal, j);
      var k := if j + |NeuGlobal| <= i then j else j - |NeuExport| + |SumExport|;
      assert OccursAt(ReplaceFirst(s, NeuExport, SumExport), NeuGlobal, k);
    }
  }

  /** A namespace export comes out renamed. */
  lemma ExportRenamed(s: string)
    requires Contains(s, NeuExport)
    ensures Contains(TypingsText(s), SumExport)
  {
    var s1 := ReplaceFirst(s, NeuExport, SumExport);
    var i := IndexOf(s, NeuExport).value;
    ReplaceFirstPlaces(s, NeuExport, SumExport, i);
    if Contains(s1, NeuGlobal) {
      var j := IndexOf(s1, NeuGlobal).value;
      DeclarationsApart(s1, SumExport, i, j);
      ReplaceFirstKeeps(s1, NeuGlobal, SumGlobal, j, SumExport, i);
      var k := if i + |SumExport| <= j then i else i - |NeuGlobal| + |SumGlobal|;
      assert OccursAt(TypingsText(s), SumExport, k);
    } else {
      assert OccursAt(TypingsText(s), SumExport, i);
    }
  }

  /** A global declaration comes out renamed. */
  lemma GlobalRenamed(s: string)
    requires Contains(s, NeuGlobal)
    ensures Contains(TypingsText(s), SumGlobal)
  {
    var s1 := ReplaceFirst(s, NeuExport, SumExport);
    GlobalSurvivesExport(s);
    var j := IndexOf(s1, NeuGlobal).value;
    ReplaceFirstPlaces(s1, NeuGlobal, SumGlobal, j);
    assert OccursAt(TypingsText(s), SumGlobal, j);
  }

  /**
   * Type definitions with neither declaration are left alone; a namespace
   * export comes out as `export as namespace Sumjs;` and a global declaration
   * as `const Sumjs: any;`, whether or not the other one is present.
   */
  lemma TypingsBranded(s: string)
    ensures !Contains(s, NeuExport) && !Contains(s, NeuGlobal) ==> TypingsText(s) == s
    ensures Contains(s, NeuExport) ==> Contains(TypingsText(s), SumExport)
    ensures Contains(s, NeuGlobal) ==> Contains(TypingsText(s), SumGlobal)
  {
    if Contains(s, NeuExport) {
      ExportRenamed(s);
    }
    if Contains(s, NeuGlobal) {
      GlobalRenamed(s);
    }
  }

  /** The client library exposes its global under the new name as well. */
  function WithSumjsGlobal(s: string): (r: string)
    ensures s <= r && r[|s|..] == "\nwindow.Sumjs = window.Neutralino;"
  {
    s + "\nwindow.Sumjs = window.Neutralino;"
  }

  /** The minimal `main.js`, as the trimmed template literal. */
  const MinimalMainJs: string :=
    "// Initialize Sumjs\n"
    + "Sumjs.init();\n"
    + "\n"
    + "// Register event listeners\n"
    + "Sumjs.events.on(\"windowClose\", () => {\n"
    + "    Sumjs.app.exit();\n"
    + "});"

  /** The minimal `main.js` is the template literal trimmed: it neither starts nor ends with white space. */
  lemma MinimalMainJsTrimmed()
    ensures |MinimalMainJs| > 0
    ensures !IsTrimmed(MinimalMainJs[0]) && !IsTrimmed(MinimalMainJs[|MinimalMainJs| - 1])
  {
  }

  // ------------------------------------------------------ the config record

  datatype Cli = Cli(clientLibrary: Option<string>, binaryName: Option<string>)
  datatype Chrome = Chrome(args: Option<string>)
  datatype Window = Window(exitProcessOnClose: Option<bool>, icon: Option<string>)
  datatype Modes = Modes(chrome: Option<Chrome>, window: Option<Window>)
  datatype Logging = Logging(enabled: Option<bool>, writeToLogFile: Option<bool>)

  /** The fields of `sum.config.json` the command reads or writes; `None` is a missing field. */
  datatype Config = Config(
    applicationId: Option<string>,
    url: Option<string>,
    documentRoot: Option<string>,
    cli: Option<Cli>,
    modes: Option<Modes>,
    logging: Option<Logging>,
    nativeAllowList: Option<seq<string>>)

  const DevServerUrl: string := "http://localhost:5173"
  const DocumentRoot: string := "/resources/"
  const ClientLibrary: string := "/resources/js/sum.js"
  const ChromeArgs: string := "--user-agent=\"sumjs chrome mode\""
  const AppIcon: string := "/resources/icons/appIcon.png"

  /** The native APIs the React front end needs, in the order they are added. */
  const RequiredApis: seq<string> := ["app.*", "os.*", "window.*"]

  /** `if (!list.includes(e)) list.push(e)`. */
  function WithEntry<T(==)>(list: seq<T>, e: T): (r: seq<T>)
    ensures e in r && list <= r
    ensures e in list ==> r == list
    ensures |r| <= |list| + 1
  {
    if e in list then list else list + [e]
  }

  /** The list after each required entry has been added unless already there. */
  function Allowed<T(==)>(list: seq<T>, required: seq<T>): (r: seq<T>)
    ensures |r| <= |list| + |required|
    decreases |required|
  {
    if required == [] then list
    else Allowed(WithEntry(list, required[0]), required[1..])
  }

  /** The merged list holds exactly the entries of the list and of `required`. */
  lemma {:induction false} AllowedMembers<T>(list: seq<T>, required: seq<T>)
    decreases |required|
    ensures forall e :: e in Allowed(list, required) <==> e in list || e in required
  {
    if required != [] {
      AllowedMembers(WithEntry(list, required[0]), required[1..]);
      assert required == [required[0]] + required[1..];
    }
  }

  /** The entries of `required` that `list` lacks, in order. */
  function Missing<T(==)>(list: seq<T>, required: seq<T>): (r: seq<T>)
  {
    if required == [] then []
    else (if required[0] in list then [] else [required[0]]) + Missing(list, required[1..])
  }

  predicate NoDuplicates<T(==)>(s: seq<T>) {
    forall i, j :: 0 <= i < j < |s| ==> s[i] != s[j]
  }

  /** An entry that `required` does not mention does not change what it lacks. */
  lemma {:induction false} MissingIgnores<T>(list: seq<T>, e: T, required: seq<T>)
    requires e !in required
    ensures Missing(list + [e], required) == Missing(list, required)
  {
    if required != [] {
      MissingIgnores(list, e, required[1..]);
    }
  }

  /** The tail of a list without duplicates has none and lacks the head. */
  lemma NoDuplicatesTail<T>(s: seq<T>)
    requires s != [] && NoDuplicates(s)
    ensures NoDuplicates(s[1..]) && s[0] !in s[1..]
  {
    forall i, j | 0 <= i < j < |s| - 1
      ensures s[1..][i] != s[1..][j]
    {
      assert s[1..][i] == s[i + 1] && s[1..][j] == s[j + 1];
    }
    forall k | 0 <= k < |s| - 1
      ensures s[1..][k] != s[0]
    {
      assert s[1..][k] == s[k + 1];
    }
  }

  /** One step of the merge. */
  lemma AllowedUnfold<T>(list: seq<T>, e: T, rest: seq<T>)
    ensures Allowed(list, [e] + rest) == Allowed(WithEntry(list, e), rest)
  {
    assert ([e] + rest)[0] == e && ([e] + rest)[1..] == rest;
  }

  /** One step of the missing entries. */
  lemma MissingUnfold<T>(list: seq<T>, e: T, rest: seq<T>)
    ensures Missing(list, [e] + rest) == (if e in list then [] else [e]) + Missing(list, rest)
  {
    assert ([e] + rest)[0] == e && ([e] + rest)[1..] == rest;
  }

  /** The inductive step of `AllowedAppendsMissing` when the first required entry is already listed. */
  lemma AllowedStepKept<T>(list: seq<T>, e: T, rest: seq<T>)
    requires e in list
    requires Allowed(list, rest) == list + Missing(list, rest)
    ensures Allowed(list, [e] + rest) == list + Missing(list, [e] + rest)
  {
    AllowedUnfold(list, e, rest);
    MissingUnfold(list, e, rest);
    assert [] + Missing(list, rest) == Missing(list, rest);
  }

  /** Concatenation is associative. */
  lemma AppendAssoc<T>(a: seq<T>, b: seq<T>, c: seq<T>)
    ensures a + b + c == a + (b + c)
  {
  }

  /** The inductive step of `AllowedAppendsMissing` when the first required entry is new. */
  lemma AllowedStepAdded<T>(list: seq<T>, e: T, rest: seq<T>)
    requires e !in list && e !in rest
    requires Allowed(list + [e], rest) == list + [e] + Missing(list + [e], rest)
    ensures Allowed(list, [e] + rest) == list + Missing(list, [e] + rest)
  {
    AllowedUnfold(list, e, rest);
    assert WithEntry(list, e) == list + [e];
    MissingUnfold(list, e, rest);
    MissingIgnores(list, e, rest);
    AppendAssoc(list, [e], Missing(list, rest));
  }


  /** The merge keeps the list as it was and appends exactly the missing entries, in order. */
  lemma {:induction false} AllowedAppendsMissing<T>(list: seq<T>, required: seq<T>)
    requires NoDuplicates(required)
    decreases |required|
    ensures Allowed(list, required) == list + Missing(list, required)
  {
    if required != [] {
      var e := required[0];
      var rest := required[1..];
      assert required == [e] + rest;
      NoDuplicatesTail(required);
      AllowedAppendsMissing(WithEntry(list, e), rest);
      if e in list {
        AllowedStepKept(list, e, rest);
      } else {
        AllowedStepAdded(list, e, rest);
      }
    }
  }

  /** When every required entry is there already, the merge changes nothing. */
  lemma {:induction false} AllowedUnchanged<T>(list: seq<T>, required: seq<T>)
    requires forall e :: e in required ==> e in list
    ensures Allowed(list, required) == list
  {
    if required != [] {
      AllowedUnchanged(list, required[1..]);
    }
  }

  /** Running the merge a second time changes nothing. */
  lemma AllowedIdempotent<T>(list: seq<T>, required: seq<T>)
    ensures Allowed(Allowed(list, required), required) == Allowed(list, required)
  {
    AllowedMembers(list, required);
    AllowedUnchanged(Allowed(list, required), required);
  }

  /** A list without duplicates stays without duplicates. */
  lemma {:induction false} AllowedNoDuplicates<T>(list: seq<T>, required: seq<T>)
    requires NoDuplicates(list)
    decreases |required|
    ensures NoDuplicates(Allowed(list, required))
  {
    if required != [] {
      var next := WithEntry(list, required[0]);
      assert NoDuplicates(next);
      AllowedNoDuplicates(next, required[1..]);
    }
  }

  /** The allow list of a parsed record: a missing list counts as empty. */
  function AllowListOf(config: Config): seq<string> {
    if config.nativeAllowList.Some? then config.nativeAllowList.value else []
  }

  /**
   * The three `includes`/`push` steps are the merge with the required APIs,
   * which keeps the list as a prefix and adds every required entry.
   */
  lemma RequiredApisMerged(list: seq<string>)
    ensures WithEntry(WithEntry(WithEntry(list, "app.*"), "os.*"), "window.*") == Allowed(list, RequiredApis)
    ensures list <= Allowed(list, RequiredApis)
    ensures forall e :: e in RequiredApis ==> e in Allowed(list, RequiredApis)
  {
    assert RequiredApis[1..] == ["os.*", "window.*"];
    assert RequiredApis[1..][1..] == ["window.*"];
    assert RequiredApis[1..][1..][1..] == [];
    assert NoDuplicates(RequiredApis);
    AllowedAppendsMissing(list, RequiredApis);
    AllowedMembers(list, RequiredApis);
  }

  /** What the configuration step promises about the record it writes. */
  ghost predicate Configured(before: Config, after: Config, projectName: string) {
    && after.url == Some(DevServerUrl)
    && after.documentRoot == Some(DocumentRoot)
    && after.applicationId == Some("com.sumjs." + projectName)
    && (after.cli.Some? <==> before.cli.Some?)
    && (after.cli.Some? ==> after.cli.value == Cli(Some(ClientLibrary), Some(projectName)))
    && (after.modes.Some? <==> before.modes.Some?)
    && (after.modes.Some? ==>
         && (after.modes.value.chrome.Some? <==> before.modes.value.chrome.Some?)
         && (after.modes.value.chrome.Some? ==> after.modes.value.chrome.value == Chrome(Some(ChromeArgs)))
         && (after.modes.value.window.Some? <==> before.modes.value.window.Some?)
         && (after.modes.value.window.Some? ==> after.modes.value.window.value == Window(Some(true), Some(AppIcon))))
    && (after.logging.Some? <==> before.logging.Some?)
    && (after.logging.Some? ==> after.logging.value == Logging(Some(false), Some(false)))
    && after.nativeAllowList == Some(Allowed(AllowListOf(before), RequiredApis))
  }

  /**
   * The record updates of lib/commands/create.js, field by field: the fixed
   * fields are set, the `cli`, `modes.chrome`, `logging` and `modes.window`
   * objects are updated only when present, and the allow list keeps its
   * entries in order and gains the missing required ones.
   */
  method Configure(config: Config, projectName: string) returns (c: Config)
    ensures Configured(config, c, projectName)
    ensures AllowListOf(config) <= c.nativeAllowList.value
    ensures forall e :: e in RequiredApis ==> e in c.nativeAllowList.value
  {
    c := config.(url := Some(DevServerUrl), documentRoot := Some(DocumentRoot));
    if c.cli.Some? {
      c := c.(cli := Some(c.cli.value.(clientLibrary := Some(ClientLibrary), binaryName := Some(projectName))));
    }
    c := c.(applicationId := Some("com.sumjs." + projectName));
    if c.modes.Some? && c.modes.value.chrome.Some? {
      c := c.(modes := Some(c.modes.value.(chrome := Some(c.modes.value.chrome.value.(args := Some(ChromeArgs)))))) ;
    }
    if c.logging.Some? {
      c := c.(logging := Some(c.logging.value.(enabled := Some(false), writeToLogFile := Some(false))));
    }
    var list := AllowListOf(c);
    list := WithEntry(list, "app.*");
    list := WithEntry(list, "os.*");
    list := WithEntry(list, "window.*");
    RequiredApisMerged(AllowListOf(config));
    c := c.(nativeAllowList := Some(list));
    if c.modes.Some? && c.modes.value.window.Some? {
      var w := c.modes.value.window.value.(exitProcessOnClose := Some(true), icon := Some(AppIcon));
      c := c.(modes := Some(c.modes.value.(window := Some(w))));
    }
  }

  // ------------------------------------------------------- the file steps

  /** `f` applied to the file at `p`, when there is one. */
  function Rewritten(files: map<Path, Content>, p: Path, f: string -> string): (r: map<Path, Content>)
    ensures p in files ==> r == files[p := f(files[p])]
    ensures p !in files ==> r == files
  {
    if p in files then files[p := f(files[p])] else files
  }

  /** The file at `src` moved to `dst`, when there is one. */
  function MovedIfPresent(files: map<Path, Content>, src: Path, dst: Path): (r: map<Path, Content>)
    ensures src in files ==> r == Moved(files, src, dst)
    ensures src !in files ==> r == files
  {
    if src in files then Moved(files, src, dst) else files
  }

  /** The files after the branding step: two renames and the `index.html` rewrite. */
  function Branded(files: map<Path, Content>): map<Path, Content> {
    Rewritten(MovedIfPresent(MovedIfPresent(files, NeuConfig, SumConfig), ClientLib, SumLib), IndexHtml, IndexHtmlText)
  }

  /**
   * The branding step leaves no Neutralino-named configuration or client
   * library behind, keeps their contents under the new names, rewrites
   * `index.html`, and leaves every other file alone.
   */
  lemma BrandedSpec(files: map<Path, Content>)
    ensures NeuConfig !in files ==> (SumConfig in Branded(files) <==> SumConfig in files)
    ensures NeuConfig !in Branded(files) && ClientLib !in Branded(files)
    ensures NeuConfig in files ==>
              SumConfig in Branded(files) && Branded(files)[SumConfig] == files[NeuConfig]
    ensures ClientLib in files ==>
              SumLib in Branded(files) && Branded(files)[SumLib] == files[ClientLib]
    ensures IndexHtml in files ==>
              IndexHtml in Branded(files)
              && Branded(files)[IndexHtml] == ReplaceFirst(files[IndexHtml], "neutralino.js", "sum.js")
    ensures NeuConfig !in files && SumConfig in files ==> Branded(files)[SumConfig] == files[SumConfig]
    ensures ClientLib !in files && SumLib in files ==> Branded(files)[SumLib] == files[SumLib]
    ensures forall k :: k in files && k != NeuConfig && k != SumConfig && k != ClientLib && k != SumLib && k != IndexHtml ==>
              k in Branded(files) && Branded(files)[k] == files[k]
    ensures forall k :: k in Branded(files) ==> k in files || k == SumConfig || k == SumLib
  {
  }

  /** The renames and the `index.html` rewrite, each only when its file exists. */
  method ApplyBranding(disk: Disk)
    modifies disk
    ensures disk.files == Branded(old(disk.files))
    ensures disk.dirs == old(disk.dirs) && disk.bin == old(disk.bin)
  {
    if NeuConfig in disk.files {
      disk.Rename(NeuConfig, SumConfig);
    }
    if ClientLib in disk.files {
      disk.Rename(ClientLib, SumLib);
    }
    if IndexHtml in disk.files {
      disk.Write(IndexHtml, IndexHtmlText(disk.files[IndexHtml]));
    }
  }

  /** `t` with the tree at `p` removed, as `rm -rf` does. */
  function WithoutTree(t: Tree, p: Path): (r: Tree)
    ensures forall k :: k in r.files <==> k in t.files && !Under(k, p)
    ensures forall d :: d in r.dirs <==> d in t.dirs && !Under(d, p)
  {
    Tree(Pruned(t.files, p), set d | d in t.dirs && !Under(d, p))
  }

  /** `t` after the cleanup loop over `ps`: each entry that exists at its turn is removed with its tree. */
  function Cleared(t: Tree, ps: seq<Path>): Tree
    decreases |ps|
  {
    if ps == [] then t
    else
      var before := Cleared(t, ps[..|ps| - 1]);
      var p := ps[|ps| - 1];
      if before.Has(p) then WithoutTree(before, p) else before
  }

  /**
   * After the cleanup no entry of `ps` exists, nothing was added or changed,
   * and every file outside the removed trees is still there.
   */
  lemma {:induction false} ClearedSpec(t: Tree, ps: seq<Path>)
    decreases |ps|
    ensures forall i :: 0 <= i < |ps| ==> ps[i] !in Cleared(t, ps).files && ps[i] !in Cleared(t, ps).dirs
    ensures forall k :: k in Cleared(t, ps).files ==> k in t.files && Cleared(t, ps).files[k] == t.files[k]
    ensures Cleared(t, ps).dirs <= t.dirs
    ensures forall k :: k in t.files && (forall i :: 0 <= i < |ps| ==> !Under(k, ps[i])) ==> k in Cleared(t, ps).files
  {
    if ps != [] {
      var init := ps[..|ps| - 1];
      ClearedSpec(t, init);
      var p := ps[|ps| - 1];
      assert Under(p, p);
      forall i | 0 <= i < |ps| - 1
        ensures ps[i] == init[i]
      {
      }
    }
  }

  /** The cleanup loop: removes each clutter entry that exists, file or directory tree. */
  method RemoveClutter(disk: Disk)
    modifies disk
    ensures Tree(disk.files, disk.dirs) == Cleared(Tree(old(disk.files), old(disk.dirs)), Clutter)
    ensures disk.bin == old(disk.bin)
  {
    for n := 0 to |Clutter|
      invariant Tree(disk.files, disk.dirs) == Cleared(Tree(old(disk.files), old(disk.dirs)), Clutter[..n])
      invariant disk.bin == old(disk.bin)
    {
      var p := Clutter[n];
      assert p != "bin";
      if disk.Exists(p) {
        disk.RemoveTree(p);
      }
      assert Clutter[..n + 1][..n] == Clutter[..n];
    }
    assert Clutter[..|Clutter|] == Clutter;
  }

  /** A path whose first character no clutter entry starts with lies outside every removed tree. */
  lemma OutsideClutter(k: Path)
    requires |k| > 0 && k[0] != '.' && k[0] != 'L' && k[0] != 'R' && k[0] != 'n'
    ensures forall i :: 0 <= i < |Clutter| ==> !Under(k, Clutter[i])
  {
    forall i | 0 <= i < |Clutter|
      ensures !Under(k, Clutter[i])
    {
      var p := Clutter[i];
      assert p[0] == '.' || p[0] == 'L' || p[0] == 'R' || p[0] == 'n';
    }
  }

  /** The `App.tsx` and `.gitignore` rewrites, each only when its file exists. */
  function TextsPatched(files: map<Path, Content>): map<Path, Content> {
    Rewritten(Rewritten(files, AppTsx, AppTsxText), Gitignore, GitignoreText)
  }

  /** The `main.js`, `sum.js`, type definitions and `styles.css` steps, each only when its file exists. */
  function LibsPatched(files: map<Path, Content>): map<Path, Content> {
    var main := if MainJs in files then files[MainJs := MinimalMainJs] else files;
    var lib := Rewritten(main, SumLib, WithSumjsGlobal);
    var typed := if NeuTypings in lib then lib[SumTypings := TypingsText(lib[NeuTypings])] - {NeuTypings} else lib;
    if StylesCss in typed then typed[StylesCss := ""] else typed
  }

  /** The text rewrites change only the contents of `App.tsx` and `.gitignore`. */
  lemma TextsPatchedSpec(files: map<Path, Content>)
    ensures TextsPatched(files).Keys == files.Keys
    ensures forall k :: k in files && k != AppTsx && k != Gitignore ==> TextsPatched(files)[k] == files[k]
  {
  }

  /** Which paths the library steps leave, and with what content. */
  lemma LibsPatchedAt(files: map<Path, Content>, k: Path)
    ensures k in LibsPatched(files) <==> (k in files && k != NeuTypings) || (k == SumTypings && NeuTypings in files)
    ensures k in files && k != MainJs && k != SumLib && k != NeuTypings && k != SumTypings && k != StylesCss ==>
              LibsPatched(files)[k] == files[k]
    ensures k == SumTypings && NeuTypings in files ==> LibsPatched(files)[k] == TypingsText(files[NeuTypings])
    ensures k == StylesCss && StylesCss in files ==> LibsPatched(files)[k] == ""
    ensures k == MainJs && MainJs in files ==> LibsPatched(files)[k] == MinimalMainJs
    ensures k == SumLib && SumLib in files ==>
              LibsPatched(files)[k] == files[SumLib] + "\nwindow.Sumjs = window.Neutralino;"
  {
    var main := if MainJs in files then files[MainJs := MinimalMainJs] else files;
    var lib := Rewritten(main, SumLib, WithSumjsGlobal);
    assert main.Keys == files.Keys && lib.Keys == files.Keys;
    assert NeuTypings in files ==> lib[NeuTypings] == files[NeuTypings];
    var typed := if NeuTypings in lib then lib[SumTypings := TypingsText(lib[NeuTypings])] - {NeuTypings} else lib;
    assert StylesCss in typed <==> StylesCss in files;
  }

  /**
   * The library steps create no file except the renamed type definitions,
   * remove only the old type definitions, replace `main.js` by the minimal
   * script, append the global alias to `sum.js`, empty `styles.css`, and
   * leave every other file alone.
   */
  lemma LibsPatchedSpec(files: map<Path, Content>)
    ensures forall k :: k in LibsPatched(files) && k != SumTypings ==> k in files
    ensures forall k :: k in files && k != NeuTypings ==> k in LibsPatched(files)
    ensures forall k :: k in files && k != MainJs && k != SumLib && k != NeuTypings && k != SumTypings && k != StylesCss ==>
              LibsPatched(files)[k] == files[k]
    ensures NeuTypings !in LibsPatched(files)
    ensures NeuTypings in files ==>
              SumTypings in LibsPatched(files) && LibsPatched(files)[SumTypings] == TypingsText(files[NeuTypings])
    ensures StylesCss in files ==> StylesCss in LibsPatched(files) && LibsPatched(files)[StylesCss] == ""
    ensures MainJs in files ==> MainJs in LibsPatched(files) && LibsPatched(files)[MainJs] == MinimalMainJs
    ensures SumLib in files ==>
              SumLib in LibsPatched(files)
              && LibsPatched(files)[SumLib] == files[SumLib] + "\nwindow.Sumjs = window.Neutralino;"
  {
    forall k {
      LibsPatchedAt(files, k);
    }
  }

  /** The project after the configuration step, given the text of the rewritten configuration. */
  function Rebranded(t: Tree, configText: Content): Tree {
    var cleaned := Cleared(Tree(t.files[SumConfig := configText], t.dirs), Clutter);
    Tree(LibsPatched(TextsPatched(cleaned.files)), cleaned.dirs)
  }

  /** The rewritten configuration survives the rest of the configuration step. */
  lemma RebrandedConfig(t: Tree, configText: Content)
    ensures SumConfig in Rebranded(t, configText).files
    ensures Rebranded(t, configText).files[SumConfig] == configText
  {
    var written := Tree(t.files[SumConfig := configText], t.dirs);
    var cleaned := Cleared(written, Clutter);
    ClearedSpec(written, Clutter);
    OutsideClutter(SumConfig);
    assert SumConfig in cleaned.files && cleaned.files[SumConfig] == configText;
    TextsPatchedSpec(cleaned.files);
    LibsPatchedAt(TextsPatched(cleaned.files), SumConfig);
  }

  /** No clutter entry is left and no directory is created. */
  lemma RebrandedNoClutter(t: Tree, configText: Content)
    ensures forall i :: 0 <= i < |Clutter| ==>
              Clutter[i] !in Rebranded(t, configText).files && Clutter[i] !in Rebranded(t, configText).dirs
    ensures Rebranded(t, configText).dirs <= t.dirs
  {
    var written := Tree(t.files[SumConfig := configText], t.dirs);
    var cleaned := Cleared(written, Clutter);
    ClearedSpec(written, Clutter);
    OutsideClutter(SumTypings);
    TextsPatchedSpec(cleaned.files);
    forall i | 0 <= i < |Clutter|
      ensures Clutter[i] !in Rebranded(t, configText).files
    {
      LibsPatchedAt(TextsPatched(cleaned.files), Clutter[i]);
    }
  }

  /** The type definitions end up under their new name, rewritten. */
  lemma RebrandedTypings(t: Tree, configText: Content)
    ensures NeuTypings !in Rebranded(t, configText).files
    ensures NeuTypings in t.files ==>
              SumTypings in Rebranded(t, configText).files
              && Rebranded(t, configText).files[SumTypings] == TypingsText(t.files[NeuTypings])
  {
    var written := Tree(t.files[SumConfig := configText], t.dirs);
    var cleaned := Cleared(written, Clutter);
    ClearedSpec(written, Clutter);
    OutsideClutter(NeuTypings);
    assert NeuTypings in t.files ==> NeuTypings in cleaned.files && cleaned.files[NeuTypings] == t.files[NeuTypings];
    TextsPatchedSpec(cleaned.files);
    LibsPatchedAt(TextsPatched(cleaned.files), NeuTypings);
    LibsPatchedAt(TextsPatched(cleaned.files), SumTypings);
  }

  /** An existing `styles.css` ends up empty. */
  lemma RebrandedStyles(t: Tree, configText: Content)
    ensures StylesCss in t.files ==>
              StylesCss in Rebranded(t, configText).files && Rebranded(t, configText).files[StylesCss] == ""
  {
    var written := Tree(t.files[SumConfig := configText], t.dirs);
    var cleaned := Cleared(written, Clutter);
    ClearedSpec(written, Clutter);
    OutsideClutter(StylesCss);
    assert StylesCss in t.files ==> StylesCss in cleaned.files;
    TextsPatchedSpec(cleaned.files);
    LibsPatchedAt(TextsPatched(cleaned.files), StylesCss);
  }

  /** `.gitignore` lies outside every clutter tree, though it shares their first character. */
  lemma GitignoreOutsideClutter()
    ensures forall i :: 0 <= i < |Clutter| ==> !Under(Gitignore, Clutter[i])
  {
    forall i | 0 <= i < |Clutter|
      ensures !Under(Gitignore, Clutter[i])
    {
      var p := Clutter[i];
      assert p == ".github" || p[0] != '.';
      var n := if p == ".github" then 4 else 0;
      assert Gitignore[n] != p[n] && p[n] == (p + "/")[n];
    }
  }

  /** `App.tsx` and `.gitignore` end up rewritten. */
  lemma RebrandedTexts(t: Tree, configText: Content)
    ensures AppTsx in t.files ==>
              AppTsx in Rebranded(t, configText).files
              && Rebranded(t, configText).files[AppTsx] == AppTsxText(t.files[AppTsx])
    ensures Gitignore in t.files ==>
              Gitignore in Rebranded(t, configText).files
              && Rebranded(t, configText).files[Gitignore] == GitignoreText(t.files[Gitignore])
  {
    var written := Tree(t.files[SumConfig := configText], t.dirs);
    var cleaned := Cleared(written, Clutter);
    ClearedSpec(written, Clutter);
    OutsideClutter(AppTsx);
    GitignoreOutsideClutter();
    assert AppTsx in t.files ==> AppTsx in cleaned.files && cleaned.files[AppTsx] == t.files[AppTsx];
    assert Gitignore in t.files ==> Gitignore in cleaned.files && cleaned.files[Gitignore] == t.files[Gitignore];
    LibsPatchedAt(TextsPatched(cleaned.files), AppTsx);
    LibsPatchedAt(TextsPatched(cleaned.files), Gitignore);
  }

  /** A path the configuration block writes. */
  predicate WrittenByBlock(k: Path) {
    k in {SumConfig, AppTsx, Gitignore, MainJs, SumLib, NeuTypings, SumTypings, StylesCss}
  }

  /**
   * Every file outside the clutter trees that the block does not write keeps
   * its content, and the only names the block adds are `sum.config.json` and
   * the renamed type definitions.
   */
  lemma RebrandedFrame(t: Tree, configText: Content)
    ensures forall k :: k in t.files && !WrittenByBlock(k) && (forall i :: 0 <= i < |Clutter| ==> !Under(k, Clutter[i])) ==>
              k in Rebranded(t, configText).files && Rebranded(t, configText).files[k] == t.files[k]
    ensures forall k :: k in Rebranded(t, configText).files ==> k in t.files || k == SumConfig || k == SumTypings
  {
    var written := Tree(t.files[SumConfig := configText], t.dirs);
    var cleaned := Cleared(written, Clutter);
    ClearedSpec(written, Clutter);
    TextsPatchedSpec(cleaned.files);
    forall k | k in Rebranded(t, configText).files || k in t.files
      ensures k in Rebranded(t, configText).files ==> k in t.files || k == SumConfig || k == SumTypings
      ensures k in t.files && !WrittenByBlock(k) && (forall i :: 0 <= i < |Clutter| ==> !Under(k, Clutter[i])) ==>
                k in Rebranded(t, configText).files && Rebranded(t, configText).files[k] == t.files[k]
    {
      LibsPatchedAt(TextsPatched(cleaned.files), k);
    }
  }

  /** `main.js` ends up as the minimal script and `sum.js` gains the global alias. */
  lemma RebrandedScripts(t: Tree, configText: Content)
    ensures MainJs in t.files ==>
              MainJs in Rebranded(t, configText).files && Rebranded(t, configText).files[MainJs] == MinimalMainJs
    ensures SumLib in t.files ==>
              SumLib in Rebranded(t, configText).files
              && Rebranded(t, configText).files[SumLib] == t.files[SumLib] + "\nwindow.Sumjs = window.Neutralino;"
  {
    var written := Tree(t.files[SumConfig := configText], t.dirs);
    var cleaned := Cleared(written, Clutter);
    ClearedSpec(written, Clutter);
    OutsideClutter(MainJs);
    OutsideClutter(SumLib);
    assert MainJs in t.files ==> MainJs in cleaned.files;
    assert SumLib in t.files ==> SumLib in cleaned.files && cleaned.files[SumLib] == t.files[SumLib];
    TextsPatchedSpec(cleaned.files);
    LibsPatchedAt(TextsPatched(cleaned.files), MainJs);
    LibsPatchedAt(TextsPatched(cleaned.files), SumLib);
  }

  /**
   * What the configuration step leaves: the new configuration text, none of
   * the clutter, the type definitions under their new name, an empty
   * `styles.css`, the minimal `main.js`, the aliased `sum.js` and the
   * rewritten `App.tsx` and `.gitignore` when they existed; every other file
   * outside the clutter keeps its content, and no directory is created.
   */
  lemma RebrandedSpec(t: Tree, configText: Content)
    ensures SumConfig in Rebranded(t, configText).files
    ensures Rebranded(t, configText).files[SumConfig] == configText
    ensures forall i :: 0 <= i < |Clutter| ==>
              Clutter[i] !in Rebranded(t, configText).files && Clutter[i] !in Rebranded(t, configText).dirs
    ensures NeuTypings !in Rebranded(t, configText).files
    ensures NeuTypings in t.files ==>
              SumTypings in Rebranded(t, configText).files
              && Rebranded(t, configText).files[SumTypings] == TypingsText(t.files[NeuTypings])
    ensures StylesCss in t.files ==>
              StylesCss in Rebranded(t, configText).files && Rebranded(t, configText).files[StylesCss] == ""
    ensures MainJs in t.files ==>
              MainJs in Rebranded(t, configText).files && Rebranded(t, configText).files[MainJs] == MinimalMainJs
    ensures SumLib in t.files ==>
              SumLib in Rebranded(t, configText).files
              && Rebranded(t, configText).files[SumLib] == t.files[SumLib] + "\nwindow.Sumjs = window.Neutralino;"
    ensures AppTsx in t.files ==>
              AppTsx in Rebranded(t, configText).files
              && Rebranded(t, configText).files[AppTsx] == AppTsxText(t.files[AppTsx])
    ensures Gitignore in t.files ==>
              Gitignore in Rebranded(t, configText).files
              && Rebranded(t, configText).files[Gitignore] == GitignoreText(t.files[Gitignore])
    ensures forall k :: k in t.files && !WrittenByBlock(k) && (forall i :: 0 <= i < |Clutter| ==> !Under(k, Clutter[i])) ==>
              k in Rebranded(t, configText).files && Rebranded(t, configText).files[k] == t.files[k]
    ensures forall k :: k in Rebranded(t, configText).files ==> k in t.files || k == SumConfig || k == SumTypings
    ensures Rebranded(t, configText).dirs <= t.dirs
  {
    RebrandedTexts(t, configText);
    RebrandedFrame(t, configText);
    RebrandedScripts(t, configText);
    RebrandedConfig(t, configText);
    RebrandedNoClutter(t, configText);
    RebrandedTypings(t, configText);
    RebrandedStyles(t, configText);
  }

  /** The `App.tsx` and `.gitignore` rewrites. */
  method PatchTexts(disk: Disk)
    modifies disk
    ensures disk.files == TextsPatched(old(disk.files))
    ensures disk.dirs == old(disk.dirs) && disk.bin == old(disk.bin)
  {
    if AppTsx in disk.files {
      disk.Write(AppTsx, AppTsxText(disk.files[AppTsx]));
    }
    if Gitignore in disk.files {
      disk.Write(Gitignore, GitignoreText(disk.files[Gitignore]));
    }
  }

  /** The `main.js`, `sum.js`, type definitions and `styles.css` steps. */
  method PatchLibs(disk: Disk)
    modifies disk
    ensures disk.files == LibsPatched(old(disk.files))
    ensures disk.dirs == old(disk.dirs) && disk.bin == old(disk.bin)
  {
    if MainJs in disk.files {
      disk.Write(MainJs, MinimalMainJs);
    }
    if SumLib in disk.files {
      disk.Write(SumLib, WithSumjsGlobal(disk.files[SumLib]));
    }
    if NeuTypings in disk.files {
      var text := TypingsText(disk.files[NeuTypings]);
      disk.Write(SumTypings, text);
      disk.Unlink(NeuTypings);
    }
    if StylesCss in disk.files {
      disk.Write(StylesCss, "");
    }
  }

  /**
   * The configuration block after the record is parsed: the record is written
   * back, the clutter removed, the text files patched and the `neutralino-`
   * binaries renamed to `suman-`.
   */
  method ConfigureProject(disk: Disk, configText: Content)
    modifies disk
    ensures Tree(disk.files, disk.dirs) == Rebranded(Tree(old(disk.files), old(disk.dirs)), configText)
    ensures old(disk.bin).None? ==> disk.bin.None?
    ensures old(disk.bin).Some? ==> disk.bin == Some(PrefixRenamed(old(disk.bin).value, BuildCommand.Neutralino, BuildCommand.Suman))
  {
    disk.Write(SumConfig, configText);
    RemoveClutter(disk);
    PatchTexts(disk);
    if disk.bin.Some? {
      BuildCommand.PrefixesApart();
      var _ := disk.RenamePrefixed(BuildCommand.Neutralino, BuildCommand.Suman);
    }
    PatchLibs(disk);
  }

  /**
   * The whole command. `taken` holds the names already present in the working
   * directory, `neuCreate` and `viteCreate` the exit codes of the two
   * scaffolding tools, `disk` the project directory as the first tool leaves
   * it and `reactSrc` the files the second one writes; `parse` and `render`
   * stand for `JSON.parse` and `JSON.stringify`. `written` is the record
   * written back, when the configuration block ran.
   */
  method Create(projectName: string, taken: set<Name>, neuCreate: int, disk: Disk,
                viteCreate: int, reactSrc: map<Path, Content>,
                parse: Content -> Option<Config>, render: Config -> Content)
    returns (outcome: Outcome, written: Option<Config>)
    requires forall k :: k in reactSrc ==> StartsWith(k, "react-src/")
    modifies disk
    ensures projectName == [] || projectName in taken || neuCreate != 0 ==>
              && outcome == Exited(1) && written == None
              && disk.files == old(disk.files) && disk.dirs == old(disk.dirs) && disk.bin == old(disk.bin)
    ensures projectName != [] && projectName !in taken && neuCreate == 0 && viteCreate != 0 ==>
              && outcome == Exited(1) && written == None
              && disk.files == Branded(old(disk.files)) && disk.dirs == old(disk.dirs) && disk.bin == old(disk.bin)
    ensures projectName != [] && projectName !in taken && neuCreate == 0 && viteCreate == 0 ==>
              var scaffold := Branded(old(disk.files)) + reactSrc;
              && outcome == Returned
              && (written.Some? <==> SumConfig in scaffold && parse(scaffold[SumConfig]).Some?)
              && (written.Some? ==>
                    && Configured(parse(scaffold[SumConfig]).value, written.value, projectName)
                    && Tree(disk.files, disk.dirs) == Rebranded(Tree(scaffold, old(disk.dirs)), render(written.value))
                    && (old(disk.bin).Some? ==> disk.bin == Some(PrefixRenamed(old(disk.bin).value, BuildCommand.Neutralino, BuildCommand.Suman)))
                    && (old(disk.bin).None? ==> disk.bin.None?))
              && (written.None? ==> disk.files == scaffold && disk.dirs == old(disk.dirs) && disk.bin == old(disk.bin))
  {
    written := None;
    if projectName == [] || projectName in taken || neuCreate != 0 {
      return Exited(1), None;
    }
    ApplyBranding(disk);
    if viteCreate != 0 {
      return Exited(1), None;
    }
    disk.CopyIn(reactSrc);
    if SumConfig in disk.files {
      var parsed := parse(disk.files[SumConfig]);
      if parsed.Some? {
        var c := Configure(parsed.value, projectName);
        ConfigureProject(disk, render(c));
        written := Some(c);
      }
    }
    outcome := Returned;
  }
}
