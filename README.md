# dc: a verified model of the devcontainer cookbook CLI

`dc` copies a ready-made devcontainer recipe (`node`, `python`, `go`, `fullstack`,
`playwright`) into a project directory. `dc use <recipe> <dir>` runs through these steps:

1. It checks the recipe name and the recipe's directory.
2. It creates the target directory and refuses if `<dir>/.devcontainer` already exists.
3. It copies the recipe's `.devcontainer` tree.
4. It re-assigns the `forwardPorts` of `devcontainer.json`, so that no two forwarded
   ports clash.
5. It copies the recipe's `README.md` to `DEVCONTAINER.md`.
6. It installs `validate.sh` with mode `755`.

`dc list` prints each recipe with a one-line description taken from its README.

This project models that program in Dafny and proves properties of the model. The modules:

- `Wrappers`: `Option` and `Result`.
- `Ports` (imperative where the tool is): the next-free-port search as a `while` loop and
  the left-to-right pass over a port list. The search is proved against the function
  `NextFree`, the smallest free port at or above the start. The pass is proved against
  the function `Allocate`, which threads the used set through the list.
- `Config`: the parsed `devcontainer.json` document and `adjustPorts` on it.
- `FileSystem`: a filesystem as a map from paths to entries, plus a `Disk` class whose
  methods are the node `fs` calls the tool makes. The contracts state each call's error
  cases and say exactly how the map changes.
- `Materializer`: `copyDirectory` as a recursive method over the `Disk`. It is proved to
  change nothing outside its target, beyond the directories created on the way to it.
  On success the target holds the source's tree over
  whatever was there before. A copy of a directory into a missing target that can be
  created, apart from the source, always succeeds, and then reproduces the source exactly.
- `Workflow`: `copyRecipe` as its sequence of guarded steps over the `Disk`. The proof
  covers the order of the checks and that every refusal leaves the disk unchanged. It
  also covers the whole layout a successful run leaves behind, and conditions on the
  disk under which a run succeeds.
- `Listing`: the description rule of `listRecipes`, modelled on JavaScript's `split`,
  `find`, `indexOf` and `trim`. It keeps the quirk where a README without an
  `## Overview` line shows its first line.
- `Cli`: the argument router and the exit status of each outcome.

Nothing here is executed: the model is checked by the Dafny verifier only.

## Model

| member | source | states |
|---|---|---|
| `Ports.NextFree` | cli/dc.js:51-57 | the result is at or above the start, is not used, and every port between the start and it is used: the smallest free port at or above the start |
| `Ports.FindNextAvailablePort` | cli/dc.js:51-57 | the probing loop returns the smallest free port at or above `startPort`; it terminates because the used set is finite |
| `Ports.MapPort` | cli/dc.js:64-71 | the `map` callback: a port that is not used is kept, a used one becomes the next free port |
| `Ports.Allocate` | cli/dc.js:63-72 | the assignment keeps the length of the list, and the final used set is the initial set plus exactly the assigned ports |
| `Ports.AllocateAt` | cli/dc.js:63-72 | output position `i` is the next free port at or above input position `i`, taken against the initial set plus the ports assigned to positions before `i` |
| `Ports.AllocatePosition` | cli/dc.js:64-71 | each output port is at or above its request and free at its turn; it equals the request exactly when the request was free at its turn; every port passed over was taken |
| `Ports.AllocateAvoidsUsed` | cli/dc.js:64-70 | no output port was in the initial used set |
| `Ports.AllocateDistinct` | cli/dc.js:64-70 | the output ports are pairwise distinct |
| `Ports.AllocateGrowsUsed` | cli/dc.js:67-70 | the used set only grows; what it gains is exactly the output ports |
| `Ports.AllocateKeepsFreeDistinct` | cli/dc.js:70-71 | distinct requests that are all free up front are kept unchanged |
| `Ports.DuplicateRequestExample` | cli/dc.js:51-72 | `[3000, 3000]` against an empty set becomes `[3000, 3001]`, and the set becomes `{3000, 3001}` |
| `Ports.CascadingCollisionExample` | cli/dc.js:51-72 | `[8080]` against `{8080, 8081, 8082}` becomes `[8083]` |
| `Ports.AdjustPortList` | cli/dc.js:63-73 | the loop over `forwardPorts`, which adds each assigned port to the set in place, yields exactly `Allocate`'s ports and final set |
| `Ports.PassIsAllocate` | cli/dc.js:63-72 | the left-to-right pass from any position, with the ports already assigned in front, agrees with `Allocate` on the rest of the list |
| `Config.HasPortList` | cli/dc.js:62 | the guard of the rewrite, as a definition: the document is an object whose `forwardPorts` is an array, the empty array included; an object without `forwardPorts`, or whose `forwardPorts` is not an array, fails the guard, and so does every non-null value that is not an object |
| `Config.Adjusted` | cli/dc.js:62-76 | without a port list the document is returned as parsed; with one, the result is an object with a port list, the same keys, every key but `forwardPorts` unchanged, and the list replaced by `Allocate`'s ports |
| `Config.AdjustPorts` | cli/dc.js:59-77 | unparsable text and a `null` document fail and leave the set alone; success holds exactly for a non-null document; with a port list, the list is replaced by its allocation and the set grows by it; without one, the document and the set are unchanged; no key other than `forwardPorts` changes, appears or disappears |
| `Config.AdjustedPortsDistinct` | cli/dc.js:62-73 | in a rewritten document the port list keeps its length, each port is at or above the one it replaces, avoids the used set, and all ports differ |
| `FileSystem.Disk.Exists` | cli/dc.js:87 | the environment, as a definition: `existsSync` is true exactly when the path has an entry |
| `FileSystem.Disk.IsDirectory` | cli/dc.js:155-157 | the environment, as a definition: `statSync(p).isDirectory()` is true exactly for a directory entry |
| `FileSystem.Disk.MkdirRecursive` | cli/dc.js:148 | `mkdirSync(p, { recursive: true })` fails with `ENOTDIR` when a file lies on the way to `p` and with `EEXIST` when `p` is a file, and then changes nothing; otherwise it adds exactly the missing directories on the way |
| `FileSystem.Disk.ReadDir` | cli/dc.js:151 | the environment, as a definition: `readdirSync`: `ENOENT` for a missing path (`ENOTDIR` instead when a file lies on the way to it), `ENOTDIR` for a file, otherwise exactly the names of the entries below |
| `FileSystem.Disk.ReadFile` | cli/dc.js:115 | the environment, as a definition: `readFileSync`: `ENOENT` for a missing path (`ENOTDIR` instead when a file lies on the way to it), `EISDIR` for a directory, otherwise the file's content |
| `FileSystem.Disk.WriteFile` | cli/dc.js:117 | `writeFileSync` fails with `EISDIR` on a directory, `ENOENT` when the parent is missing (`ENOTDIR` instead when a file lies on the way to it) and `ENOTDIR` when the parent is a file, and then changes nothing; otherwise only the written path changes, and an existing file keeps its mode |
| `FileSystem.Disk.CopyFile` | cli/dc.js:160 | `copyFileSync` fails with `ENOENT` when the source or the destination's parent is missing (`ENOTDIR` instead when a file lies on the way to it), `EISDIR` when either end is a directory and `ENOTDIR` when the destination's parent is a file, and then changes nothing; otherwise the destination becomes the source file, mode included, and nothing else changes |
| `FileSystem.Disk.Chmod` | cli/dc.js:133 | `chmodSync` fails only on a missing path; on a file only its mode changes |
| `Materializer.CopyDirectory` | cli/dc.js:146-163 | nothing outside the target changes except the directories created on the way to it; a missing target that `mkdirSync` refuses fails with its error and changes nothing; a source that is not a directory is an error; on success every path below the target holds what `Copied` prescribes (source files over existing entries, existing entries kept, missing directories created); a directory copied into a missing target that `mkdirSync` can create, apart from it, always succeeds |
| `Materializer.CopyEntry` | cli/dc.js:152-162 | one name of the listing: a subdirectory is copied recursively, a file with `copyFileSync`; only the entry's target subtree changes, and on success it holds the copy; into an existing directory that lacks the name, it always succeeds |
| `Materializer.CopyIntoAbsent` | cli/dc.js:146-163 | when the target does not exist, the copy is exactly the source tree |
| `Workflow.CopyRecipe` | cli/dc.js:79-135 | an unknown name, a missing recipe directory and an existing `.devcontainer` are refused (each exactly when it applies, in that order) and leave the disk unchanged; a target that cannot be created stops the run unchanged; nothing outside the target changes, beyond the directories created on the way to it; on success the target holds the recipe's `.devcontainer` tree with `devcontainer.json` re-assigned against an empty set, `DEVCONTAINER.md` replaced by the recipe's README when it has one, and `.devcontainer/validate.sh` replaced by the recipe's script with mode `755` when it has one; every other path holds what it held before, or, inside the new `.devcontainer`, what the recipe's tree holds; the run succeeds when the recipe is known and `Installable` (its `.devcontainer` a directory, `devcontainer.json` absent or a non-null document, `README.md` and `validate.sh` absent or files, no directory `.devcontainer/validate.sh`), the target lies apart from it, `mkdirSync` accepts it, and it has no `.devcontainer` and no directory `DEVCONTAINER.md` |
| `Workflow.Install` | cli/dc.js:110-135 | after the checks: the copy then the writes, each failure being an I/O or configuration error; on success the layout is that of `CopyRecipe`; it succeeds for an `Installable` recipe into a directory apart from it with no directory `DEVCONTAINER.md` |
| `Workflow.Finish` | cli/dc.js:113-135 | the three writes after the copy leave `Finished`'s layout: the rewritten configuration, the guide and the executable script, each only when its source exists; apart from the recipe, it succeeds exactly when the configuration, if any, is a non-null document and each copy whose source exists can run |
| `Workflow.RewriteConfig` | cli/dc.js:113-118 | it succeeds exactly when the file is missing or parses to a non-null document; on success exactly that file changes, to its port-adjusted document; a failure changes nothing |
| `Workflow.CopyIfPresent` | cli/dc.js:121-126 | the README copy: skipped when the source is missing; otherwise it succeeds exactly when `copyFileSync` can, and then only the destination changes |
| `Workflow.InstallScript` | cli/dc.js:129-135 | the script copy: skipped when the source is missing; otherwise the destination becomes the source file with mode `755`, and nothing else changes |
| `Listing.DescriptionOf` | cli/dc.js:41-43 | the description of a README's lines has no white space at either end, and holds no line break when no line does |
| `Listing.Description` | cli/dc.js:41-43 | the description of a README's text is a single line with no white space at either end |
| `Listing.Split` | cli/dc.js:41 | `split('\n')` returns at least one part, no part holds a line break, and joining the parts with line breaks restores the text |
| `Listing.SplitJoin` | cli/dc.js:41 | splitting lines that were joined with line breaks gives those lines back |
| `Listing.SplitFirst` | cli/dc.js:41-42 | the first part is the text up to its first line break, or the whole text |
| `Listing.Find` | cli/dc.js:41 | `find` returns a line of the list that starts with `## Overview`, and returns `undefined` exactly when no line does |
| `Listing.IndexOf` | cli/dc.js:42 | `indexOf` returns the first position holding the value, or -1 exactly when no position does |
| `Listing.IndexOfFind` | cli/dc.js:41-42 | looking up `find`'s result gives the position of the first `## Overview` line, or -1 when there is none |
| `Listing.Trim` | cli/dc.js:43 | `trim` returns the stretch after the leading white space with no white space at either end, and everything cut off after it is white space; the result is empty exactly when the text is all white space |
| `Listing.TrimKeeps` | cli/dc.js:43 | text with no white space at its ends is unchanged |
| `Listing.TrimIdempotent` | cli/dc.js:43 | trimming twice is trimming once |
| `Listing.TrimExample` | cli/dc.js:43 | `"  Go toolchain  "` trims to `"Go toolchain"` |
| `Listing.DescriptionAfterHeading` | cli/dc.js:41-43 | with an `## Overview` line, the description is the next line trimmed, or empty when that heading is the last line |
| `Listing.DescriptionWithoutHeading` | cli/dc.js:41-43 | without one, `indexOf` gives -1, so the description is the README's first line trimmed |
| `Listing.DescriptionTrimmed` | cli/dc.js:43 | a description never has white space at either end |
| `Listing.RecipeDescription` | cli/dc.js:39-46 | a recipe without a README shows `DevContainer recipe`; one with a README shows the description of its lines as `split('\n')` cuts them, a single trimmed line |
| `Listing.OverviewExample` | cli/dc.js:41-43 | the four lines `# Go`, `## Overview`, `  Go toolchain  ` and an empty last line describe the recipe as `Go toolchain` |
| `Listing.NoHeadingExample` | cli/dc.js:41-43 | the lines `# Python`, `Tools` give the description `# Python` |
| `Cli.Dispatch` | cli/dc.js:166-194 | no command, an empty one, `help`, `--help` or `-h` shows the help; `list` lists; `use` with a non-empty recipe and directory runs `copyRecipe` with them, and `use` with either missing or empty is refused; any other word is an unknown command |
| `Cli.ExitStatus` | cli/dc.js:169-196 | the status is 0 or 1, and it is 0 exactly for help, a `list` whose README reads succeeded and a `use` whose `copyRecipe` succeeded |
| `Cli.ExtraArgumentsIgnored` | cli/dc.js:179-183 | words after `use <recipe> <directory>` do not change what runs |

## Left out

- JSON text: `JSON.parse` and `JSON.stringify(config, null, 2)` are not modelled. A configuration is either a parsed document or text the parser rejects, and the rewritten file holds the document, not its pretty-printed text.
- `Config.Value`: anywhere in the document, numbers are integers and arrays hold integers only. A `devcontainer.json` with a fractional number, or with an array of strings such as an extensions list, cannot be represented. `Config.AdjustPorts` and `Config.Adjusted`, key preservation included, are stated only for documents that can.
- Ports are unbounded integers with no range check. In the tool they are JavaScript numbers, which are exact only up to 2^53. From 2^53 on, `port++` at cli/dc.js:54 rounds to an even neighbour. At some values it stays put, and the search loops forever. At others it skips an integer. `Ports.Allocate` always returns the next integer. That precision limit is not modelled.
- Console output is left out: the help text (lines 10-31), the progress and error messages, and the `padEnd(15)` formatting of `listRecipes`.
- `process.exit` is left out. Refusals and exceptions become `Result` failures, and `Cli.ExitStatus` maps them to a status.
- The unused `execSync` import is not modelled.
- `path.join` normalisation and `path.resolve` are not modelled. Paths are sequences of names, the recipes directory is a parameter, and the target is taken as already resolved.
- The order of `readdirSync` is not modelled. `Materializer.CopyDirectory` takes the names in any order, so the partial state left by a failed copy is not pinned down beyond what stays unchanged.
- Directory permissions, the umask, symbolic links, timestamps, owners and concurrent changes to the disk are not modelled. A new file gets mode `0o644`, and `chmodSync` only records a file's mode.
- `statSync` is modelled only as the directory test `copyDirectory` makes on an entry it knows exists.
- The `usedPorts` `Set` is modelled as a value passed in and returned, not as a shared mutable object. Its only caller passes a fresh set and drops it afterwards.
- The loop of `listRecipes` over the five recipes and the README read it makes are not modelled. `Listing.RecipeDescription` takes the README's content, or its absence, as a parameter. Whether every read succeeded is the outcome `Cli.ExitStatus` takes for `list`. A `README.md` that is a directory or cannot be read throws at cli/dc.js:40, and the process exits with 1.
- `Workflow.CopyRecipe`: the layout after success is stated when the target and the recipe's directory lie apart. When one lies inside the other, the model still proves the checks, the refusals and that nothing outside the target changes beyond the directories created on the way to it, but not the layout.
- `Workflow.CopyRecipe`: a run may pass the three checks (a known recipe, its directory present, no `.devcontainer` in the target) and have a `targetDir/.devcontainer` that `mkdirSync` could create. For such a run it requires that the target is not the recipe's `.devcontainer` and does not lie inside it. There the tool's `copyDirectory` keeps copying its own output into ever deeper paths, until the system refuses a path as too long. The model's paths have no length limit, so those runs are not modelled. A run that a check refuses carries no such requirement. Neither does a target at or below a file of the recipe, which `mkdirSync` refuses with nothing changed.
- `Workflow.CopyRecipe`, `Workflow.Install`: the conditions stated for success are sufficient, not necessary. The model does not state at which copy or write a run that breaks them stops. `Workflow.Finish` states its condition both ways.
- `Materializer.CopyDirectory`: a missing target that `mkdirSync` refuses is accepted wherever it lies, and the copy then fails at once with nothing changed. Any other target must not lie strictly inside the source. There the copy feeds on itself until the system refuses a path as too long, and the model's paths have no length limit. The two must also lie apart whenever the source exists. This second bound is a simplification of the proof, not a case where the tool fails to end. It excludes three runs, which are not modelled:
  - a source `T/x` copied into its ancestor `T`, a run the tool finishes;
  - a directory copied onto itself;
  - a copy into an existing file inside the source, which fails at its first entry.

  Every other case of the tool is covered, including a missing source, a file as the source and an existing target.
