# sumjs-cli commands, modelled in Dafny

sumjs-cli wraps the Neutralino desktop toolchain (`neu`) and a Vite/React
front end under its own names. Its three commands share one protocol. The
wrapped tool only recognises its own names (`neutralino.config.json`,
`neutralino-*` binaries), so the command temporarily renames the project's
files to them, runs the tool, and renames them back.

- `run` (lib/commands/run.js) swaps the configuration name, picks the platform
  binary in `bin/`, spawns it with the development flags, prints its standard
  output without the tool's `neu: INFO` lines, and restores the name on every
  way out. Those ways out are the `finally` block and the `exit`, `SIGINT` and
  `uncaughtException` handlers.
- `build` (lib/commands/build.js) builds the React front end and copies its
  output into `resources`. It swaps the configuration name and the `suman-`
  binary prefix, runs the tool's build, and restores both in a `finally` block.
- `create` (lib/commands/create.js) scaffolds a project with the tool and
  rebrands it:
  - renames files;
  - rewrites the configuration record;
  - removes clutter;
  - patches text files;
  - renames the `neutralino-` binaries to `suman-`.

The project is laid out module by module:

- `options.dfy`: `Option` and the process `Outcome` (returned, or exited with a code).
- `text.dfy`: the JavaScript string operations the commands use:
  - `replace` with a string pattern, which acts on the first occurrence;
  - `replace` with a global pattern;
  - `split` and `includes`;
  - the whitespace test of `trim`.
- `disk.dfy`: the project directory as a `Disk` object, with regular files,
  directories and the entries of `bin/`. Its methods are the file-system calls
  of the commands, and it includes the prefix-renaming loop over `bin/`. That
  loop visits entries in an unspecified order, as `readdirSync` does, and is
  proved against the specification `PrefixRenamed`.
- `swap.dfy`: the configuration-name swap as two specification functions.
  The `Guard` class is `run`'s `renamed` flag and its `cleanup` closure.
- `run.dfy`, `build.dfy`, `create.dfy`: the three commands.

Renames follow `fs.renameSync` on POSIX, so a rename onto an existing name
replaces that name. Subprocesses are represented by their exit codes, passed
in as parameters. `JSON.parse` and `JSON.stringify` are function parameters.

Notes on the code's behaviour, which the model follows:
- `run` resolves its wait on the child's `close` event and ignores the exit
  code, so a child that exits with a failure still ends the command normally
  (`Run` returns `Returned` for every `Closed(code)`).
- `run` passes five development flags (`DevArgs`).
- `run` swaps only the configuration name and never the binary prefix. It
  expects binaries already named `suman-`.
- The configuration round trip fails exactly when `sum.config.json` and
  `neutralino.config.json` both exist, because the rename replaces the latter
  (`SwapRoundTrip`, `SwapOverwritesExisting`).
- The `bin/` round trip of `build` fails exactly when `bin/` holds both a
  `suman-` and a `neutralino-` binary. The restore renames every `neutralino-`
  entry, including one that was there before (`PrefixRoundTrip`,
  `BuildRoundTrip`). `RoundTripNeedsNoNeutralinoEntry` shows such an entry,
  when its `suman-` name is free, coming out renamed to `suman-`.
- The binary renames run in a `forEach`, so a `renameSync` that throws stops
  the remaining renames. Rename failures are not modelled (see below).

## Model

| member | source | states |
|---|---|---|
| Text.StartsWith | lib/commands/build.js:52 | definition: `startsWith`, the text begins with the pattern; also the tests at build.js:77 and create.js:156 |
| Text.Contains | lib/commands/run.js:102 | definition: `includes`, the pattern occurs at some index of the text, the empty pattern included |
| Text.IndexOf | lib/commands/create.js:55 | `None` exactly when the pattern does not occur; otherwise the leftmost occurrence, which is where `replace` with a string pattern acts |
| Text.ReplaceFirst | lib/commands/create.js:55 | a text without the pattern is unchanged; otherwise the pattern's first occurrence is cut out and the replacement put in its place, with the text on both sides kept |
| Text.ReplaceFirstPlaces | lib/commands/create.js:138 | after the replacement, the new text stands at the old first occurrence, the text before and after it is kept, and the length changes by the difference |
| Text.ReplaceFirstKeeps | lib/commands/create.js:190-191 | an occurrence of another text that does not overlap the replaced one survives `replace`, in place before it and shifted by the change in length after it |
| Text.ReplaceFirstOfPrefix | lib/commands/build.js:52-53 | for a name that starts with the pattern, `replace` swaps exactly that prefix |
| Text.ReplaceFirstSelf | lib/commands/create.js:56 | replacing a pattern by itself leaves every text unchanged |
| Text.Split | lib/commands/run.js:99 | splitting yields at least one piece |
| Text.JoinSplit | lib/commands/run.js:99 | joining the pieces with the separator gives back the original text |
| Text.SplitPiecesLackSeparator | lib/commands/run.js:99-100 | no piece contains the separator |
| Text.ReplaceAll | lib/commands/create.js:146 | a text without the pattern is unchanged |
| Text.ReplaceAllIsSplitJoin | lib/commands/create.js:146 | a global replace equals splitting at the pattern and joining with the replacement |
| Text.ReplaceAllSelf | lib/commands/create.js:146 | a global replace of a pattern by itself changes nothing |
| Disk.Moved | lib/commands/build.js:42 | the moved content is at the destination, the source name is gone, and every other name keeps its content |
| Disk.MovedBack | lib/commands/build.js:41-71 | moving a file to a free name and back gives the original directory |
| Disk.Reprefixed | lib/commands/build.js:53 | the new name starts with the new prefix, has the old name's remainder, and determines the old name |
| Disk.ApartNames | lib/commands/build.js:77-78 | a name built on one prefix never starts with a prefix apart from it |
| Disk.ReprefixAt | lib/commands/build.js:50-57 | after renaming a set of entries: which names a partly renamed `bin/` holds, and what each holds |
| Disk.PrefixRenamed | lib/commands/build.js:50-57 | definition: `bin/` after every entry starting with the old prefix has been renamed to start with the new one; its properties are stated by `PrefixRenamedSpec` and `PrefixRoundTrip` |
| Disk.PrefixRenamedSpec | lib/commands/build.js:50-57 | every entry starting with the old prefix is renamed, with its content, to the new prefix; no name with the old prefix is left; every other entry keeps its name and content unless a renamed entry replaced it; no other name appears |
| Disk.PrefixRoundTrip | lib/commands/build.js:49-82 | renaming a prefix and then renaming it back restores `bin/` exactly when no entry had the second prefix before |
| Disk.Pruned | lib/commands/create.js:130 | the files left after `rm -rf` are those not at or under the path, with their contents |
| Disk.Tree.Has | lib/commands/create.js:129 | definition: `existsSync` on a path other than `bin`, true exactly when a regular file or a directory is there |
| Disk.Disk.Exists | lib/commands/run.js:11 | definition: `existsSync` on a project path, also at build.js:11 and 49 and create.js:129; a regular file or directory is seen through `Tree.Has` over `files` and `dirs`, and `bin` is seen through `bin.Some?` |
| Disk.Disk.Rename | lib/commands/build.js:42 | `renameSync` of a regular file: the files become `Moved` of the old ones; directories and `bin/` are unchanged |
| Disk.Disk.Write | lib/commands/create.js:57 | `writeFileSync`: the file holds the new content and nothing else changes |
| Disk.Disk.CopyIn | lib/commands/build.js:31 | `cp -R`: the copied files replace or join the existing ones |
| Disk.Disk.RemoveTree | lib/commands/create.js:130 | `rm -rf`: the files and directories at or under the path are removed |
| Disk.Disk.Unlink | lib/commands/create.js:193 | `unlinkSync`: the one file is removed |
| Disk.Disk.RenamePrefixed | lib/commands/build.js:49-58 | the `readdirSync`/`forEach` loop leaves `bin/` as `PrefixRenamed` of what it was, and reports whether any entry matched; files and directories are unchanged |
| ConfigSwap.Acquired | lib/commands/run.js:34-37 | when `sum.config.json` exists it moves, content and all, to `neutralino.config.json` and the flag is set; otherwise nothing changes; other files are untouched |
| ConfigSwap.Released | lib/commands/run.js:39-48 | only with the flag set and `neutralino.config.json` present is it moved back and the flag cleared; otherwise, such as with a stale flag, nothing changes |
| ConfigSwap.ReleasedIdempotent | lib/commands/run.js:39-48 | a second `cleanup` changes nothing |
| ConfigSwap.AcquiredIdempotent | lib/commands/run.js:34-37 | a second acquire changes nothing and loses nothing |
| ConfigSwap.ReleaseAfterAcquire | lib/commands/run.js:34-48 | after an acquire and a release the flag is clear and `sum.config.json` holds its original content |
| ConfigSwap.SwapRoundTrip | lib/commands/run.js:34-48 | acquire then release restores the files exactly when `sum.config.json` and `neutralino.config.json` did not both exist |
| ConfigSwap.SwapOverwritesExisting | lib/commands/run.js:35 | a pre-existing `neutralino.config.json` is replaced by the swap and lost |
| ConfigSwap.Guard.constructor | lib/commands/run.js:32 | the flag starts cleared |
| ConfigSwap.Guard.Acquire | lib/commands/run.js:34-37 | the files and the flag become `Acquired` of what they were |
| ConfigSwap.Guard.Cleanup | lib/commands/run.js:39-48 | the files and the flag become `Released` of what they were |
| RunCommand.BinaryName | lib/commands/run.js:66-76 | the platform/architecture table, both directions; an empty name exactly for unsupported platforms |
| RunCommand.BinaryNamesDistinct | lib/commands/run.js:70-76 | different supported platforms never share a binary |
| RunCommand.BinPath | lib/commands/run.js:78 | definition: `path.join(cwd, 'bin', name)` relative to the root, which is `bin` itself for the empty name and `bin/` followed by the name otherwise |
| RunCommand.BinPathInjective | lib/commands/run.js:78 | distinct names give distinct paths, and only the empty name gives the `bin` directory |
| RunCommand.BinPathOfUnsupported | lib/commands/run.js:66-80 | the path checked and spawned is the `bin` directory exactly when the platform is unsupported |
| RunCommand.LocateBinaryAsWritten | lib/commands/run.js:78-83 | the check passes exactly when `bin/` exists and the platform is unsupported or its binary is present |
| RunCommand.UnsupportedPlatformPassesCheck | lib/commands/run.js:66-83 | on an unsupported platform with an empty `bin/`, the check as written yields the directory `bin` as the binary |
| RunCommand.LocateBinary | lib/commands/run.js:78-83 | the corrected check passes exactly when the platform is supported and its binary is in `bin/` |
| RunCommand.LocateBinaryAgrees | lib/commands/run.js:70-83 | on supported platforms the two checks agree |
| RunCommand.DevArgs | lib/commands/run.js:86-92 | definition: the five development flags, in the source's order |
| Text.IsTrimmed | lib/commands/run.js:101 | definition: the white-space and line-terminator characters `String.prototype.trim` removes |
| Text.Blank | lib/commands/run.js:101 | definition: `!line.trim()`, every character of the line is one `trim` removes |
| RunCommand.Shown | lib/commands/run.js:101-102 | definition: a line is printed when it is not blank once trimmed and does not include `neu: INFO` |
| RunCommand.ShownLines | lib/commands/run.js:100-105 | the printed lines are exactly the non-blank lines without `neu: INFO`, each unchanged |
| RunCommand.ShownLinesAppend | lib/commands/run.js:100-105 | filtering distributes over concatenation, so printed lines keep their order |
| RunCommand.ShownLinesIdempotent | lib/commands/run.js:101-102 | filtering printed lines again removes nothing |
| RunCommand.StdoutLines | lib/commands/run.js:98-106 | a chunk prints exactly its `\n`-separated pieces that pass the filter, none containing a newline |
| RunCommand.Supervise | lib/commands/run.js:50-118 | from the binary check on, the files and flag end as `Released` of what they were on every way out (failed check, close, SIGINT, uncaught fault, then the `exit` handler); the child is spawned with `DevArgs` exactly when the check accepted a path; the outcome is `Returned` on close, exit 0 on SIGINT and exit 1 otherwise |
| RunCommand.Run | lib/commands/run.js:7-119 | as written: without `react-src` the command exits 1 and changes nothing. Otherwise the files end as release-after-acquire of what they were, which gives them back exactly when `sum.config.json` and `neutralino.config.json` did not both exist. A path is spawned exactly when `LocateBinaryAsWritten` accepts one, so an unsupported platform with `bin/` present spawns `bin` itself. Outcomes as in `Supervise` |
| RunCommand.RunFailingFast | lib/commands/run.js:66-83 | as intended: the same, except that a path is spawned exactly when `LocateBinary` accepts one, so only a supported platform's binary is ever spawned |
| BuildCommand.PrefixesApart | lib/commands/build.js:52-78 | neither `suman-` nor `neutralino-` is a prefix of the other |
| BuildCommand.AcquiredNames | lib/commands/build.js:37-58 | after the acquire steps, `renamedBinaries` is set exactly when a `suman-` entry existed, no `suman-` entry is left, and `renamedConfig` is set exactly when `sum.config.json` existed |
| BuildCommand.RestoredNames | lib/commands/build.js:67-83 | after the `finally` block, no `neutralino-` entry is left when binaries were renamed; otherwise `bin/` is unchanged |
| BuildCommand.PrefixRenamedNothing | lib/commands/build.js:49-57 | with no matching entry, the prefix rename changes nothing |
| BuildCommand.BuildRoundTrip | lib/commands/build.js:37-83 | acquire then restore gives back the files exactly when `sum.config.json` and `neutralino.config.json` did not both exist, and `bin/` exactly when it did not hold both a `suman-` and a `neutralino-` binary |
| BuildCommand.RoundTripNeedsNoNeutralinoEntry | lib/commands/build.js:73-82 | a `neutralino-` binary present before a build that renamed binaries comes out renamed to `suman-` |
| BuildCommand.AcquiredNamesDiffer | lib/commands/build.js:60-67 | the acquired state leaves `sum.config.json` and each `suman-` binary renamed away |
| BuildCommand.AcquireNames | lib/commands/build.js:37-58 | the in-place acquire steps leave the disk and the two flags as `AcquiredNames` |
| BuildCommand.RestoreNames | lib/commands/build.js:67-83 | the in-place `finally` block leaves the disk as `RestoredNames` |
| BuildCommand.Build | lib/commands/build.js:7-86 | with `react-src` missing or a failed React build, the command exits 1 and changes nothing. A failed tool build exits 1 with the names left acquired. A successful one returns with the names restored |
| BuildCommand.BuildRestoringOnFailure | lib/commands/build.js:60-83 | as intended: the names are restored whatever the tool's build returns |
| CreateCommand.IndexHtmlText | lib/commands/create.js:51-58 | the `index.html` rewrite equals replacing the first `neutralino.js` by `sum.js`, since the second replace is an identity |
| CreateCommand.GitignoreText | lib/commands/create.js:142-149 | the `.gitignore` rewrite equals split-at-`Neutralinojs`/join-with-`sumjs`, then the first `neutralino.js` to `sum.js`; a file with neither is unchanged |
| CreateCommand.AppTsxText | lib/commands/create.js:138 | definition: the first `Vite + React` gains `+ SumJS`; its properties are stated by `AppTsxBranded` |
| CreateCommand.AppTsxBranded | lib/commands/create.js:134-140 | a file without `Vite + React` is unchanged; otherwise it contains `Vite + React + SumJS` |
| CreateCommand.TypingsText | lib/commands/create.js:189-191 | definition: the first `export as namespace Neutralino;` and then the first `const Neutralino: any;` are renamed to `Sumjs`; its properties are stated by `TypingsBranded` |
| CreateCommand.DeclarationsApart | lib/commands/create.js:190-191 | a namespace export, old or new, and the old global declaration never overlap in any text |
| CreateCommand.GlobalSurvivesExport | lib/commands/create.js:190-191 | the namespace rename keeps an old global declaration in the text |
| CreateCommand.ExportRenamed | lib/commands/create.js:190-191 | type definitions with the old namespace export come out with `export as namespace Sumjs;` |
| CreateCommand.GlobalRenamed | lib/commands/create.js:190-191 | type definitions with the old global declaration come out with `const Sumjs: any;`, whether or not the namespace export is there |
| CreateCommand.TypingsBranded | lib/commands/create.js:188-194 | type definitions with neither declaration are unchanged; the namespace export comes out as `export as namespace Sumjs;` and the global declaration as `const Sumjs: any;`, alone or together |
| CreateCommand.MinimalMainJs | lib/commands/create.js:164-176 | definition: the template literal with its surrounding line breaks trimmed |
| CreateCommand.MinimalMainJsTrimmed | lib/commands/create.js:175 | the written `main.js` is non-empty and neither starts nor ends with a character `trim` removes |
| CreateCommand.WithSumjsGlobal | lib/commands/create.js:180-183 | definition of the `appendFileSync` step; the resulting `sum.js` is stated by `LibsPatchedSpec` and `RebrandedSpec` |
| CreateCommand.WithEntry | lib/commands/create.js:112 | the entry is present afterwards, the list is kept as a prefix, and nothing changes when it was already there |
| CreateCommand.Allowed | lib/commands/create.js:111-114 | the allow-list merge, one `includes`/`push` per required entry in order; it adds at most one entry per required one, and its meaning is stated by the lemmas below |
| CreateCommand.RequiredApisMerged | lib/commands/create.js:111-114 | the three `includes`/`push` steps are the merge with `app.*`, `os.*`, `window.*`: the old list is a prefix of the result, and every required API is in it |
| CreateCommand.AllowedMembers | lib/commands/create.js:111-114 | the merged allow list holds exactly the old entries and the required ones |
| CreateCommand.AllowedAppendsMissing | lib/commands/create.js:111-114 | the merge keeps the old list in order and appends exactly the missing required entries, in order |
| CreateCommand.AllowedUnchanged | lib/commands/create.js:111-114 | a list that already holds every required entry is unchanged |
| CreateCommand.AllowedIdempotent | lib/commands/create.js:111-114 | merging twice is merging once |
| CreateCommand.AllowedNoDuplicates | lib/commands/create.js:111-114 | a list without duplicates stays without duplicates |
| CreateCommand.Configure | lib/commands/create.js:84-120 | The fixed fields are set: url, document root, application id and allow list. `cli`, `modes.chrome`, `logging` and `modes.window` are updated exactly when present. The allow list keeps its entries and gains the required ones |
| CreateCommand.Branded | lib/commands/create.js:35-63 | definition: the configuration and client-library renames, each only when the file exists, then the `index.html` rewrite; its properties are stated by `BrandedSpec` |
| CreateCommand.BrandedSpec | lib/commands/create.js:35-63 | after branding, no `neutralino.config.json` or `neutralino.js` is left and their contents are under the new names; `index.html` has its first `neutralino.js` replaced; every other file keeps its name and content, and no name appears except `sum.config.json` and `sum.js` |
| CreateCommand.ApplyBranding | lib/commands/create.js:35-63 | the in-place branding leaves the files as `Branded` |
| CreateCommand.WithoutTree | lib/commands/create.js:130 | `rm -rf` on files and directories together |
| CreateCommand.Cleared | lib/commands/create.js:125-132 | definition: the project after the cleanup loop, each clutter entry that exists at its turn (`Tree.Has`) removed with its tree; its properties are stated by `ClearedSpec` |
| CreateCommand.ClearedSpec | lib/commands/create.js:125-132 | after the cleanup loop no clutter entry exists, nothing is added or changed, and every file outside the clutter trees remains |
| CreateCommand.RemoveClutter | lib/commands/create.js:125-132 | the `forEach` over the clutter list, removing each entry that exists, leaves the project as `Cleared` |
| CreateCommand.OutsideClutter | lib/commands/create.js:126 | paths that start differently from every clutter entry are not removed |
| CreateCommand.TextsPatched | lib/commands/create.js:134-149 | definition: the `App.tsx` and `.gitignore` rewrites, each only when the file exists; its properties are stated by `TextsPatchedSpec` |
| CreateCommand.LibsPatched | lib/commands/create.js:163-200 | definition: the `main.js`, `sum.js`, type-definition and `styles.css` steps in order, each only when its file exists; its properties are stated by `LibsPatchedSpec` |
| CreateCommand.TextsPatchedSpec | lib/commands/create.js:134-149 | the text rewrites change only the contents of `App.tsx` and `.gitignore` |
| CreateCommand.LibsPatchedSpec | lib/commands/create.js:163-200 | the library steps create only `sum.d.ts`, holding the patched `neutralino.d.ts`, which is gone afterwards. `main.js` becomes the minimal script, `sum.js` keeps its text and gains the `window.Sumjs` line at its end, `styles.css` becomes empty, and every other file is kept |
| CreateCommand.Rebranded | lib/commands/create.js:122-200 | definition: the configuration write, the cleanup, the text rewrites and the library steps, in the source's order; its properties are stated by `RebrandedSpec` |
| CreateCommand.RebrandedSpec | lib/commands/create.js:122-200 | after the configuration block, `sum.config.json` holds the new text. No clutter remains, the type definitions are under their new name, `styles.css` is empty, `main.js` is the minimal script, `sum.js` has gained the `window.Sumjs` line, and `App.tsx` and `.gitignore` are rewritten. Every other file outside the clutter keeps its content, no name appears but `sum.config.json` and `sum.d.ts`, and no directory is created |
| CreateCommand.GitignoreOutsideClutter | lib/commands/create.js:126-143 | `.gitignore` lies outside every clutter tree, `.github` included |
| CreateCommand.RebrandedTexts | lib/commands/create.js:134-149 | after the configuration block an existing `App.tsx` and `.gitignore` hold their rewritten texts |
| CreateCommand.RebrandedFrame | lib/commands/create.js:122-200 | after the configuration block every file outside the clutter trees that the block does not write keeps its content, and the only new names are `sum.config.json` and `sum.d.ts` |
| CreateCommand.RebrandedScripts | lib/commands/create.js:163-183 | after the configuration block an existing `main.js` is the minimal script and an existing `sum.js` has the `window.Sumjs` line appended to its text |
| CreateCommand.PatchTexts | lib/commands/create.js:134-149 | the in-place rewrites leave the files as `TextsPatched` |
| CreateCommand.PatchLibs | lib/commands/create.js:163-200 | the in-place steps leave the files as `LibsPatched` |
| CreateCommand.ConfigureProject | lib/commands/create.js:122-200 | the block leaves the project as `Rebranded` and `bin/` with every `neutralino-` entry renamed to `suman-` |
| CreateCommand.Create | lib/commands/create.js:8-224 | An empty name, an existing directory or a failed scaffold exits 1 without changes. A failed React scaffold exits 1 after branding. Otherwise the configuration block runs exactly when `sum.config.json` exists and parses; it writes back a `Configured` record. The command returns normally |

## Left out

- Subprocesses are opaque: `npm run dev`, `npm run build`, `neu build`, `neu create`, `npm create vite` and the spawned binary are represented by exit codes or by how they end. `npm install` in `create` only reports its result, so it is not modelled.
- The five-second warm-up wait in `run`, and the moment at which a signal arrives. `Run` assumes any interrupt or fault comes after the spawn.
- Handler registration (`process.on`) is not modelled. The effect of each handler is modelled as the `Cleanup` call it makes.
- Standard error passthrough, spinners, and logger and console output.
- `run`'s output filter works on one `data` chunk at a time; a line split across two chunks is not modelled.
- `fs.renameSync`, `readFileSync` and similar calls that throw: lock or permission failures, and the `try`/`catch` blocks that only log them. A directory standing where a file is expected, such as a directory named `sum.config.json`, is outside the model. The file steps test for regular files.
- JSON formatting and the keys of the configuration record the command does not touch. Parsing and rendering are parameters. A `nativeAllowList` that is present but not an array is not modelled.
- `create`'s target directory is checked by name against the entries of the working directory. Path normalisation of the project name is not modelled.
- `shell.cp -R` is modelled as adding the copied files, with their destination paths under `resources/` given. The files the React scaffold writes are given the same way, under `react-src/`. The directories these create are not added to the directory set.
- The project directory keeps files and directories in separate collections with no invariant tying a file to its parent directory, so `existsSync` of a directory such as `react-src` sees only the directory set.
- lib/utils/neu.js, lib/utils/config.js, lib/utils/logger.js and bin/sum.js are not part of this model.

## Findings

| source | as written | input that shows it | evidently intended | confidence | as-written member | corrected member |
|---|---|---|---|---|---|---|
| lib/commands/run.js:66-83 | on an unsupported platform the binary name stays `''`, `path.join(cwd, 'bin', '')` is the `bin` directory, and `existsSync` accepts it; `Run` then spawns `bin` | platform `freebsd` with a `bin/` directory present | fail with "Binary not found" on unsupported platforms | not executed | RunCommand.LocateBinaryAsWritten | RunCommand.LocateBinary |
| lib/commands/build.js:60-67 | `process.exit(1)` inside the `try` ends the process before the `finally` block; `build` registers no exit handler | `sum.config.json` and `bin/suman-linux_x64` present, `neu build` exits 1 | the configuration and binaries are renamed back on failure as well | not executed | BuildCommand.Build | BuildCommand.BuildRestoringOnFailure |
