/**
 * `copyRecipe`: the `dc use <recipe> <directory>` workflow. It checks the recipe name,
 * the recipe directory, the target and its `.devcontainer`, in that order, then copies
 * the recipe's `.devcontainer` tree, rewrites the ports of its `devcontainer.json`
 * against an empty set, copies the recipe's README to `DEVCONTAINER.md` and installs
 * its `validate.sh` as an executable.
 */
module Workflow {
  import opened Wrappers
  import opened FileSystem
  import Config
  import Materializer

  /** The closed list of recipe names the tool accepts. */
  const AvailableRecipes: seq<string> := ["node", "python", "go", "fullstack", "playwright"]

  const DevcontainerDir: string := ".devcontainer"
  const ConfigFile: string := "devcontainer.json"
  const ReadmeFile: string := "README.md"
  const GuideFile: string := "DEVCONTAINER.md"
  const ValidateScript: string := "validate.sh"

  /** Why `copyRecipe` stops: one of its four checks, or an `fs` call or `adjustPorts` that throws. */
  datatype RecipeError =
    | UnknownRecipe
    | RecipeDirectoryMissing
    | AlreadyConfigured
    | IoError(errno: Errno)
    | InvalidConfig(cause: Config.ConfigError)

  /** A `devcontainer.json` entry `adjustPorts` accepts: a file holding a non-null JSON document. */
  predicate Rewritable(e: Entry) {
    e.File? && e.content.Json? && e.content.doc != Config.Null
  }

  /**
   * A recipe `copyRecipe` can install without an error: its `.devcontainer` is a
   * directory, its `devcontainer.json`, if any, a file `adjustPorts` accepts, its
   * `README.md` and `validate.sh`, if any, files, and its `.devcontainer` holds no
   * directory named `validate.sh` for the script to be copied over.
   */
  predicate Installable(t: Tree, recipePath: Path) {
    && IsDir(t, recipePath + [DevcontainerDir])
    && (recipePath + [DevcontainerDir, ConfigFile] in t ==>
          Rewritable(t[recipePath + [DevcontainerDir, ConfigFile]]))
    && (recipePath + [ReadmeFile] in t ==> IsFile(t, recipePath + [ReadmeFile]))
    && (recipePath + [ValidateScript] in t ==> IsFile(t, recipePath + [ValidateScript]))
    && !IsDir(t, recipePath + [DevcontainerDir, ValidateScript])
  }

  /** A `devcontainer.json` after the rewrite: the same file, its ports adjusted against an empty set. */
  function PortsAdjusted(e: Entry): Entry {
    if Rewritable(e) then File(Config.Json(Config.Adjusted(e.content.doc, {})), e.mode) else e
  }

  /** A file after `chmodSync(path, '755')`. */
  function MadeExecutable(e: Entry): Entry {
    if e.File? then File(e.content, ExecutableMode) else e
  }

  /**
   * What the disk holds at `p` once `copyDirectory` has copied the recipe's `.devcontainer`
   * into a `targetDir` that lies apart from the recipe: below `targetDir/.devcontainer`
   * the recipe's tree; elsewhere what was there, plus the directories on the way to
   * `targetDir`.
   */
  function Staged(t: Tree, recipePath: Path, targetDir: Path, p: Path): Option<Entry> {
    var dc := targetDir + [DevcontainerDir];
    if IsPrefix(dc, p) then At(t, recipePath + [DevcontainerDir] + p[|dc|..])
    else if p in t then At(t, p)
    else if IsPrefix(p, targetDir) then Some(Directory)
    else None
  }

  /**
   * What a successful `copyRecipe` leaves at `p`: the staged copy, with `devcontainer.json`
   * rewritten, the README copied to `DEVCONTAINER.md` and `validate.sh` installed with
   * mode `0o755`, each only when the recipe has that file.
   */
  function InstalledAt(t: Tree, recipePath: Path, targetDir: Path, p: Path): Option<Entry> {
    var dc := targetDir + [DevcontainerDir];
    if p == targetDir + [GuideFile] && recipePath + [ReadmeFile] in t then
      At(t, recipePath + [ReadmeFile])
    else if p == dc + [ValidateScript] && recipePath + [ValidateScript] in t then
      Some(MadeExecutable(t[recipePath + [ValidateScript]]))
    else if p == dc + [ConfigFile] && recipePath + [DevcontainerDir, ConfigFile] in t then
      Some(PortsAdjusted(t[recipePath + [DevcontainerDir, ConfigFile]]))
    else
      Staged(t, recipePath, targetDir, p)
  }

  /**
   * What the three writes after the copy leave at `p`, given the disk `t` right after the
   * copy: `devcontainer.json` rewritten, the README copied to `DEVCONTAINER.md` and
   * `validate.sh` installed, each only when its source exists.
   */
  function Finished(t: Tree, recipePath: Path, targetDir: Path, p: Path): Option<Entry> {
    var dc := targetDir + [DevcontainerDir];
    if p == targetDir + [GuideFile] && recipePath + [ReadmeFile] in t then
      At(t, recipePath + [ReadmeFile])
    else if p == dc + [ValidateScript] && recipePath + [ValidateScript] in t then
      Some(MadeExecutable(t[recipePath + [ValidateScript]]))
    else if p == dc + [ConfigFile] && dc + [ConfigFile] in t then
      Some(PortsAdjusted(t[dc + [ConfigFile]]))
    else
      At(t, p)
  }

  /**
   * `copyRecipe(recipe, targetDir)`, with the recipes directory as a parameter. A run that
   * passes the checks and can create `targetDir/.devcontainer` must not copy into the
   * recipe's own `.devcontainer` or below it: there the tool's `copyDirectory` copies its
   * own output until the paths grow too long for the system.
   */
  method CopyRecipe(disk: Disk, recipesDir: Path, recipe: string, targetDir: Path)
    returns (r: Result<(), RecipeError>)
    requires disk.Valid()
    requires && recipe in AvailableRecipes
             && recipesDir + [recipe] in disk.entries
             && targetDir + [DevcontainerDir] !in disk.entries
             && MkdirError(disk.entries, targetDir + [DevcontainerDir]).None? ==>
               !IsPrefix(recipesDir + [recipe, DevcontainerDir], targetDir)
    modifies disk
    ensures disk.Valid()
    // Nothing outside the target changes, beyond the directories created on the way to it.
    ensures Materializer.OnlyInside(old(disk.entries), disk.entries, targetDir)
    // The checks, in order; each fails before anything is changed.
    ensures r == Failure(UnknownRecipe) <==> recipe !in AvailableRecipes
    ensures r == Failure(RecipeDirectoryMissing) <==>
              recipe in AvailableRecipes && recipesDir + [recipe] !in old(disk.entries)
    ensures r == Failure(AlreadyConfigured) <==>
              && recipe in AvailableRecipes
              && recipesDir + [recipe] in old(disk.entries)
              && targetDir + [DevcontainerDir] in old(disk.entries)
    ensures r == Failure(UnknownRecipe) || r == Failure(RecipeDirectoryMissing)
            || r == Failure(AlreadyConfigured) ==>
              disk.entries == old(disk.entries)
    // A target that cannot be created stops the run before anything else.
    ensures && recipe in AvailableRecipes
            && recipesDir + [recipe] in old(disk.entries)
            && targetDir !in old(disk.entries)
            && MkdirError(old(disk.entries), targetDir).Some? ==>
              && r == Failure(IoError(MkdirError(old(disk.entries), targetDir).value))
              && disk.entries == old(disk.entries)
    // The layout of a successful run.
    ensures r.Success? && Disjoint(targetDir, recipesDir + [recipe]) ==>
              && IsDir(old(disk.entries), recipesDir + [recipe, DevcontainerDir])
              && (recipesDir + [recipe, DevcontainerDir, ConfigFile] in old(disk.entries) ==>
                    Rewritable(old(disk.entries)[recipesDir + [recipe, DevcontainerDir, ConfigFile]]))
              && forall p :: At(disk.entries, p)
                             == InstalledAt(old(disk.entries), recipesDir + [recipe], targetDir, p)
    // A known recipe that can be installed, into a target apart from it that exists or can
    // be created and has neither a `.devcontainer` nor a directory named `DEVCONTAINER.md`:
    // the run succeeds.
    ensures && recipe in AvailableRecipes
            && Disjoint(targetDir, recipesDir + [recipe])
            && Installable(old(disk.entries), recipesDir + [recipe])
            && MkdirError(old(disk.entries), targetDir).None?
            && targetDir + [DevcontainerDir] !in old(disk.entries)
            && !IsDir(old(disk.entries), targetDir + [GuideFile]) ==>
              r.Success?
  {
    if recipe !in AvailableRecipes {
      return Failure(UnknownRecipe);
    }
    var recipePath := recipesDir + [recipe];
    PrefixOfPresent(disk.entries, recipePath + [DevcontainerDir], recipePath);
    PrefixOfConcat(recipePath, [DevcontainerDir]);
    if !disk.Exists(recipePath) {
      return Failure(RecipeDirectoryMissing);
    }
    ghost var t0 := disk.entries;
    if !disk.Exists(targetDir) {
      AbsentBelow(t0, targetDir, [DevcontainerDir]);
      var err := disk.MkdirRecursive(targetDir);
      if err.Some? {
        return Failure(IoError(err.value));
      }
      Materializer.MkdirOnlyInside(t0, targetDir);
    }
    var targetDevcontainer := targetDir + [DevcontainerDir];
    ghost var t1 := disk.entries;
    MkdirKeepsDevcontainer(t0, t1, targetDir);
    MkdirKeepsFiles(t0, t1, targetDir, targetDevcontainer);
    if disk.Exists(targetDevcontainer) {
      return Failure(AlreadyConfigured);
    }
    assert recipePath + [DevcontainerDir] == recipesDir + [recipe, DevcontainerDir];
    if Disjoint(targetDir, recipePath) {
      ReadyAfterMkdir(t0, t1, recipePath, targetDir);
    }
    r := Install(disk, recipePath, targetDir);
    Materializer.OnlyInsideTrans(t0, t1, disk.entries, targetDir);
    if r.Success? && Disjoint(targetDir, recipePath) {
      LayoutFromStart(t0, t1, disk.entries, recipesDir, recipe, targetDir);
    }
  }

  /**
   * The steps of `copyRecipe` after its checks: copy the recipe's `.devcontainer` into the
   * existing target, then finish the installation. The first step that fails stops the run.
   */
  method Install(disk: Disk, recipePath: Path, targetDir: Path) returns (r: Result<(), RecipeError>)
    requires disk.Valid()
    requires targetDir in disk.entries && targetDir + [DevcontainerDir] !in disk.entries
    requires || !IsPrefix(recipePath + [DevcontainerDir], targetDir)
             || MkdirError(disk.entries, targetDir + [DevcontainerDir]).Some?
    modifies disk
    ensures disk.Valid()
    ensures Materializer.OnlyInside(old(disk.entries), disk.entries, targetDir)
    ensures r.Failure? ==> r.error.IoError? || r.error.InvalidConfig?
    ensures r.Success? && Disjoint(targetDir, recipePath) ==>
              && IsDir(old(disk.entries), recipePath + [DevcontainerDir])
              && (recipePath + [DevcontainerDir, ConfigFile] in old(disk.entries) ==>
                    Rewritable(old(disk.entries)[recipePath + [DevcontainerDir, ConfigFile]]))
              && forall p :: At(disk.entries, p) == InstalledAt(old(disk.entries), recipePath, targetDir, p)
    // An installable recipe, into a directory apart from it with no directory named
    // `DEVCONTAINER.md`: the run succeeds.
    ensures && Disjoint(targetDir, recipePath)
            && IsDir(old(disk.entries), targetDir)
            && Installable(old(disk.entries), recipePath)
            && !IsDir(old(disk.entries), targetDir + [GuideFile]) ==>
              r.Success?
  {
    ghost var t1 := disk.entries;
    var targetDevcontainer := targetDir + [DevcontainerDir];
    var sourceDevcontainer := recipePath + [DevcontainerDir];
    if !IsPrefix(sourceDevcontainer, targetDir) {
      CopyArguments(t1, sourceDevcontainer, targetDir);
    }
    if IsDir(t1, targetDir) {
      MkdirChildSucceeds(t1, targetDir, DevcontainerDir);
    }
    var err := Materializer.CopyDirectory(disk, sourceDevcontainer, targetDevcontainer);
    ghost var t2 := disk.entries;
    Materializer.OnlyInsideWiden(t1, t2, targetDir, DevcontainerDir);
    if err.Some? {
      return Failure(IoError(err.value));
    }
    if Disjoint(targetDir, recipePath) {
      DevcontainersApart(recipePath, targetDir);
      StagedLayout(t1, t1, t2, recipePath, targetDir);
      if IsDir(t1, targetDir) && Installable(t1, recipePath) && !IsDir(t1, targetDir + [GuideFile]) {
        FinishReady(t1, t2, recipePath, targetDir);
      }
    }
    r := Finish(disk, recipePath, targetDir);
    Materializer.OnlyInsideTrans(t1, t2, disk.entries, targetDir);
    if r.Success? && Disjoint(targetDir, recipePath) {
      StagedFinished(t1, t2, recipePath, targetDir);
    }
  }

  /**
   * The writes after the copy: rewrite `devcontainer.json`, copy the README to
   * `DEVCONTAINER.md`, install `validate.sh`.
   */
  method Finish(disk: Disk, recipePath: Path, targetDir: Path) returns (r: Result<(), RecipeError>)
    requires disk.Valid()
    modifies disk
    ensures disk.Valid()
    ensures Materializer.OnlyInside(old(disk.entries), disk.entries, targetDir)
    ensures r.Failure? ==> r.error.IoError? || r.error.InvalidConfig?
    ensures r.Success? && Disjoint(targetDir, recipePath) ==>
              && (var config := targetDir + [DevcontainerDir] + [ConfigFile];
                  config in old(disk.entries) ==> Rewritable(old(disk.entries)[config]))
              && forall p :: At(disk.entries, p) == Finished(old(disk.entries), recipePath, targetDir, p)
    // Apart from the recipe, it succeeds exactly when each write can be made: the
    // configuration, if any, parses to a document, and each copy whose source exists
    // can run.
    ensures Disjoint(targetDir, recipePath) ==>
              (r.Success? <==>
                 && (var config := targetDir + [DevcontainerDir] + [ConfigFile];
                     config in old(disk.entries) ==> Rewritable(old(disk.entries)[config]))
                 && (recipePath + [ReadmeFile] in old(disk.entries) ==>
                       CopyFileError(old(disk.entries), recipePath + [ReadmeFile], targetDir + [GuideFile]).None?)
                 && (recipePath + [ValidateScript] in old(disk.entries) ==>
                       CopyFileError(old(disk.entries), recipePath + [ValidateScript],
                                     targetDir + [DevcontainerDir] + [ValidateScript]).None?))
  {
    ghost var t2 := disk.entries;
    var targetDevcontainer := targetDir + [DevcontainerDir];
    r := RewriteConfig(disk, targetDevcontainer + [ConfigFile]);
    ghost var t3 := disk.entries;
    Materializer.OnlyInsideWiden(t2, t3, targetDevcontainer, ConfigFile);
    Materializer.OnlyInsideWiden(t2, t3, targetDir, DevcontainerDir);
    if r.Failure? {
      return;
    }
    if Disjoint(targetDir, recipePath) {
      WritesApart(recipePath, targetDir);
      var config := targetDevcontainer + [ConfigFile];
      if config in t2 {
        CopyFileErrorKept(t2, config, t3[config], recipePath + [ReadmeFile], targetDir + [GuideFile]);
        CopyFileErrorKept(t2, config, t3[config], recipePath + [ValidateScript], targetDevcontainer + [ValidateScript]);
      }
    }

    r := CopyIfPresent(disk, recipePath + [ReadmeFile], targetDir + [GuideFile]);
    ghost var t4 := disk.entries;
    Materializer.OnlyInsideWiden(t3, t4, targetDir, GuideFile);
    Materializer.OnlyInsideTrans(t2, t3, t4, targetDir);
    if r.Failure? {
      return;
    }
    if Disjoint(targetDir, recipePath) && recipePath + [ReadmeFile] in t3 {
      var guide := targetDir + [GuideFile];
      CopyFileErrorKept(t3, guide, t4[guide], recipePath + [ValidateScript], targetDevcontainer + [ValidateScript]);
    }

    r := InstallScript(disk, recipePath + [ValidateScript], targetDevcontainer + [ValidateScript]);
    Materializer.OnlyInsideWiden(t4, disk.entries, targetDevcontainer, ValidateScript);
    Materializer.OnlyInsideWiden(t4, disk.entries, targetDir, DevcontainerDir);
    Materializer.OnlyInsideTrans(t2, t4, disk.entries, targetDir);
    if r.Failure? {
      return;
    }

    if Disjoint(targetDir, recipePath) {
      FinalSteps(t2, t3, t4, disk.entries, recipePath, targetDir);
    }
  }

  /**
   * Rewrite `devcontainer.json`, if present: read it, let `adjustPorts` re-assign its ports
   * against a fresh empty set, and write the result back over it.
   */
  method RewriteConfig(disk: Disk, path: Path) returns (r: Result<(), RecipeError>)
    requires disk.Valid()
    modifies disk
    ensures disk.Valid()
    ensures Materializer.OnlyInside(old(disk.entries), disk.entries, path)
    ensures r.Success? <==> path !in old(disk.entries) || Rewritable(old(disk.entries)[path])
    ensures r.Success? && path in old(disk.entries) ==>
              disk.entries == old(disk.entries)[path := PortsAdjusted(old(disk.entries)[path])]
    ensures r.Success? && path !in old(disk.entries) ==> disk.entries == old(disk.entries)
    ensures r.Failure? ==> disk.entries == old(disk.entries)
    ensures r.Failure? ==> r.error.IoError? || r.error.InvalidConfig?
  {
    if disk.Exists(path) {
      var read := disk.ReadFile(path);
      if read.Failure? {
        return Failure(IoError(read.error));
      }
      var adjusted, usedAfter := Config.AdjustPorts(read.value, {});
      if adjusted.Failure? {
        return Failure(InvalidConfig(adjusted.error));
      }
      ParentIsDir(disk.entries, path);
      var err := disk.WriteFile(path, adjusted.value);
      assert err.None?;
      Materializer.UpdateOnlyInside(old(disk.entries), path, disk.entries[path], path);
    }
    r := Success(());
  }

  /** Copy `src` to `dst` with `copyFileSync` when `src` exists. */
  method CopyIfPresent(disk: Disk, src: Path, dst: Path) returns (r: Result<(), RecipeError>)
    requires disk.Valid()
    modifies disk
    ensures disk.Valid()
    ensures Materializer.OnlyInside(old(disk.entries), disk.entries, dst)
    ensures r.Success? <==> src !in old(disk.entries) || CopyFileError(old(disk.entries), src, dst).None?
    ensures r.Success? && src in old(disk.entries) ==>
              disk.entries == old(disk.entries)[dst := old(disk.entries)[src]]
    ensures r.Success? && src !in old(disk.entries) ==> disk.entries == old(disk.entries)
    ensures r.Failure? ==> disk.entries == old(disk.entries)
    ensures r.Failure? ==> r.error.IoError? || r.error.InvalidConfig?
  {
    if disk.Exists(src) {
      var err := disk.CopyFile(src, dst);
      if err.Some? {
        return Failure(IoError(err.value));
      }
      Materializer.UpdateOnlyInside(old(disk.entries), dst, disk.entries[dst], dst);
    }
    r := Success(());
  }

  /** Copy the validation script when the recipe has one, then `chmodSync(dst, '755')`. */
  method InstallScript(disk: Disk, src: Path, dst: Path) returns (r: Result<(), RecipeError>)
    requires disk.Valid()
    modifies disk
    ensures disk.Valid()
    ensures Materializer.OnlyInside(old(disk.entries), disk.entries, dst)
    ensures r.Success? <==> src !in old(disk.entries) || CopyFileError(old(disk.entries), src, dst).None?
    ensures r.Success? && src in old(disk.entries) ==>
              disk.entries == old(disk.entries)[dst := MadeExecutable(old(disk.entries)[src])]
    ensures r.Success? && src !in old(disk.entries) ==> disk.entries == old(disk.entries)
    ensures r.Failure? ==> disk.entries == old(disk.entries)
    ensures r.Failure? ==> r.error.IoError? || r.error.InvalidConfig?
  {
    if disk.Exists(src) {
      var err := disk.CopyFile(src, dst);
      if err.Some? {
        return Failure(IoError(err.value));
      }
      var chmodErr := disk.Chmod(dst, ExecutableMode);
      assert chmodErr.None?;
      assert disk.entries == old(disk.entries)[dst := MadeExecutable(old(disk.entries)[src])];
      Materializer.UpdateOnlyInside(old(disk.entries), dst, disk.entries[dst], dst);
    }
    r := Success(());
  }

  /** Creating the target does not create its `.devcontainer`. */
  lemma MkdirKeepsDevcontainer(t0: Tree, t1: Tree, targetDir: Path)
    requires WellFormed(t0)
    requires t1 == (if targetDir in t0 then t0 else t0 + NewDirs(t0, targetDir))
    ensures targetDir in t1
    ensures targetDir + [DevcontainerDir] in t1 <==> targetDir + [DevcontainerDir] in t0
  {
    AncestryIsPrefix(targetDir, targetDir);
    assert targetDir[..|targetDir|] == targetDir;
    AncestryIsPrefix(targetDir + [DevcontainerDir], targetDir);
  }

  /** Creating the target adds only directories, so `mkdirSync` fails below it as before. */
  lemma MkdirKeepsFiles(t0: Tree, t1: Tree, targetDir: Path, p: Path)
    requires t1 == (if targetDir in t0 then t0 else t0 + NewDirs(t0, targetDir))
    ensures MkdirError(t1, p) == MkdirError(t0, p)
  {
    assert forall q :: IsFile(t1, q) == IsFile(t0, q);
  }

  /** A target `mkdirSync` accepts is a directory once it has run. */
  lemma MkdirMakesDirectory(t0: Tree, t1: Tree, targetDir: Path)
    requires t1 == (if targetDir in t0 then t0 else t0 + NewDirs(t0, targetDir))
    requires MkdirError(t0, targetDir).None?
    ensures IsDir(t1, targetDir)
  {
    AncestryIsPrefix(targetDir, targetDir);
    assert targetDir[..|targetDir|] == targetDir;
  }

  /**
   * Creating the target changes neither whether the recipe can be installed nor whether
   * a directory named `DEVCONTAINER.md` lies in the target.
   */
  lemma ReadyAfterMkdir(t0: Tree, t1: Tree, recipePath: Path, targetDir: Path)
    requires Disjoint(targetDir, recipePath)
    requires t1 == (if targetDir in t0 then t0 else t0 + NewDirs(t0, targetDir))
    ensures MkdirError(t0, targetDir).None? ==> IsDir(t1, targetDir)
    ensures Installable(t1, recipePath) == Installable(t0, recipePath)
    ensures IsDir(t1, targetDir + [GuideFile]) == IsDir(t0, targetDir + [GuideFile])
  {
    if MkdirError(t0, targetDir).None? {
      MkdirMakesDirectory(t0, t1, targetDir);
    }
    RecipeSideKept(t0, t1, recipePath, targetDir, [DevcontainerDir]);
    RecipeSideKept(t0, t1, recipePath, targetDir, [DevcontainerDir, ConfigFile]);
    RecipeSideKept(t0, t1, recipePath, targetDir, [ReadmeFile]);
    RecipeSideKept(t0, t1, recipePath, targetDir, [ValidateScript]);
    RecipeSideKept(t0, t1, recipePath, targetDir, [DevcontainerDir, ValidateScript]);
    AncestryIsPrefix(targetDir + [GuideFile], targetDir);
  }

  /** Once `targetDir/.devcontainer` is known absent, `copyDirectory`'s precondition holds. */
  lemma CopyArguments(t: Tree, source: Path, targetDir: Path)
    requires WellFormed(t) && targetDir + [DevcontainerDir] !in t
    requires !IsPrefix(source, targetDir)
    ensures !IsPrefix(source, targetDir + [DevcontainerDir]) || source == targetDir + [DevcontainerDir]
    ensures Disjoint(source, targetDir + [DevcontainerDir]) || source !in t
  {
    var dc := targetDir + [DevcontainerDir];
    PrefixOfShorterImplies(source, targetDir, DevcontainerDir);
    if IsPrefix(dc, source) {
      assert source == dc + source[|dc|..];
      AbsentBelow(t, dc, source[|dc|..]);
    }
  }

  /** After `copyDirectory` into the absent `targetDir/.devcontainer`, the disk is the staged copy. */
  lemma StagedLayout(t0: Tree, t1: Tree, t2: Tree, recipePath: Path, targetDir: Path)
    requires WellFormed(t0) && WellFormed(t1)
    requires Disjoint(targetDir, recipePath)
    requires t1 == (if targetDir in t0 then t0 else t0 + NewDirs(t0, targetDir))
    requires targetDir + [DevcontainerDir] !in t1
    requires IsDir(t1, recipePath + [DevcontainerDir])
    requires Materializer.OnlyInside(t1, t2, targetDir + [DevcontainerDir])
    requires Materializer.CopiedInto(t1, t2, recipePath + [DevcontainerDir], targetDir + [DevcontainerDir])
    ensures forall p :: At(t2, p) == Staged(t0, recipePath, targetDir, p)
  {
    var dc := targetDir + [DevcontainerDir];
    var source := recipePath + [DevcontainerDir];
    assert targetDir in t1 by {
      AncestryIsPrefix(targetDir, targetDir);
      assert targetDir[..|targetDir|] == targetDir;
    }
    Materializer.CopyIntoAbsent(t1, source, dc);
    forall p
      ensures At(t2, p) == Staged(t0, recipePath, targetDir, p)
    {
      if IsPrefix(dc, p) {
        var q := p[|dc|..];
        assert p == dc + q;
        assert source + q == recipePath + ([DevcontainerDir] + q);
        Materializer.InsideSourceIsOutside(recipePath, targetDir, [DevcontainerDir] + q);
        AncestryIsPrefix(source + q, targetDir);
      } else {
        AncestryIsPrefix(p, targetDir);
        PrefixOfPresent(t1, targetDir, p);
        PrefixOfPresent(t0, targetDir, p);
        PrefixOfShorterImplies(p, targetDir, DevcontainerDir);
      }
    }
  }

  /** Creating the target changes nothing inside a recipe that lies apart from it. */
  lemma RecipeSideKept(t0: Tree, t1: Tree, recipePath: Path, targetDir: Path, x: Path)
    requires Disjoint(targetDir, recipePath)
    requires t1 == (if targetDir in t0 then t0 else t0 + NewDirs(t0, targetDir))
    ensures At(t1, recipePath + x) == At(t0, recipePath + x)
  {
    Materializer.InsideSourceIsOutside(recipePath, targetDir, x);
    AncestryIsPrefix(recipePath + x, targetDir);
  }

  /** The layout a run installs is the same whether it is read before or after the target is created. */
  lemma InstalledAfterMkdir(t0: Tree, t1: Tree, recipePath: Path, targetDir: Path)
    requires WellFormed(t0)
    requires Disjoint(targetDir, recipePath)
    requires t1 == (if targetDir in t0 then t0 else t0 + NewDirs(t0, targetDir))
    ensures IsDir(t1, recipePath + [DevcontainerDir]) == IsDir(t0, recipePath + [DevcontainerDir])
    ensures At(t1, recipePath + [DevcontainerDir, ConfigFile]) == At(t0, recipePath + [DevcontainerDir, ConfigFile])
    ensures forall p :: InstalledAt(t1, recipePath, targetDir, p) == InstalledAt(t0, recipePath, targetDir, p)
  {
    RecipeSideKept(t0, t1, recipePath, targetDir, [DevcontainerDir]);
    RecipeSideKept(t0, t1, recipePath, targetDir, [DevcontainerDir, ConfigFile]);
    RecipeSideKept(t0, t1, recipePath, targetDir, [ReadmeFile]);
    RecipeSideKept(t0, t1, recipePath, targetDir, [ValidateScript]);
    var dc := targetDir + [DevcontainerDir];
    forall p
      ensures Staged(t1, recipePath, targetDir, p) == Staged(t0, recipePath, targetDir, p)
    {
      if IsPrefix(dc, p) {
        assert recipePath + [DevcontainerDir] + p[|dc|..] == recipePath + ([DevcontainerDir] + p[|dc|..]);
        RecipeSideKept(t0, t1, recipePath, targetDir, [DevcontainerDir] + p[|dc|..]);
      } else {
        AncestryIsPrefix(p, targetDir);
        PrefixOfPresent(t0, targetDir, p);
      }
    }
  }

  /** The layout `Install` states, read from the disk before the target was created. */
  lemma LayoutFromStart(t0: Tree, t1: Tree, t5: Tree, recipesDir: Path, recipe: string, targetDir: Path)
    requires WellFormed(t0)
    requires Disjoint(targetDir, recipesDir + [recipe])
    requires t1 == (if targetDir in t0 then t0 else t0 + NewDirs(t0, targetDir))
    requires var recipePath := recipesDir + [recipe];
             && IsDir(t1, recipePath + [DevcontainerDir])
             && (recipePath + [DevcontainerDir, ConfigFile] in t1 ==>
                   Rewritable(t1[recipePath + [DevcontainerDir, ConfigFile]]))
             && forall p :: At(t5, p) == InstalledAt(t1, recipePath, targetDir, p)
    ensures IsDir(t0, recipesDir + [recipe, DevcontainerDir])
    ensures recipesDir + [recipe, DevcontainerDir, ConfigFile] in t0 ==>
              Rewritable(t0[recipesDir + [recipe, DevcontainerDir, ConfigFile]])
    ensures forall p :: At(t5, p) == InstalledAt(t0, recipesDir + [recipe], targetDir, p)
  {
    var recipePath := recipesDir + [recipe];
    assert recipePath + [DevcontainerDir] == recipesDir + [recipe, DevcontainerDir];
    assert recipePath + [DevcontainerDir, ConfigFile] == recipesDir + [recipe, DevcontainerDir, ConfigFile];
    InstalledAfterMkdir(t0, t1, recipePath, targetDir);
  }

  /** A path inside the recipe is none of the paths a run into a target apart from it writes. */
  lemma RecipeApart(recipePath: Path, targetDir: Path, x: Path)
    requires Disjoint(targetDir, recipePath)
    ensures !IsPrefix(targetDir + [DevcontainerDir], recipePath + x)
    ensures !IsPrefix(recipePath + x, targetDir)
    ensures recipePath + x != targetDir + [GuideFile]
    ensures recipePath + x != targetDir + [DevcontainerDir] + [ConfigFile]
    ensures recipePath + x != targetDir + [DevcontainerDir] + [ValidateScript]
  {
    var dc := targetDir + [DevcontainerDir];
    Materializer.InsideSourceIsOutside(recipePath, targetDir, x);
    PrefixOfConcat(targetDir, [DevcontainerDir]);
    PrefixTransImplies(targetDir, dc, recipePath + x);
    PrefixOfConcat(targetDir, [GuideFile]);
    PrefixOfConcat(dc, [ConfigFile]);
    PrefixTransImplies(targetDir, dc, dc + [ConfigFile]);
    PrefixOfConcat(dc, [ValidateScript]);
    PrefixTransImplies(targetDir, dc, dc + [ValidateScript]);
  }

  /**
   * The paths the three writes after the copy touch: each write leaves the paths the
   * later copies read, write and write into alone.
   */
  lemma WritesApart(recipePath: Path, targetDir: Path)
    requires Disjoint(targetDir, recipePath)
    ensures var dc := targetDir + [DevcontainerDir];
            var config := dc + [ConfigFile];
            var guide := targetDir + [GuideFile];
            var script := dc + [ValidateScript];
            && Parent(guide) == targetDir && Parent(script) == dc
            && config != recipePath + [ReadmeFile] && config != guide && config != targetDir
            && config != recipePath + [ValidateScript] && config != script && config != dc
            && guide != recipePath + [ValidateScript] && guide != script && guide != dc
            && !IsPrefix(config, recipePath + [ReadmeFile]) && !IsPrefix(config, recipePath + [ValidateScript])
            && !IsPrefix(guide, recipePath + [ValidateScript])
  {
    var dc := targetDir + [DevcontainerDir];
    RecipeApart(recipePath, targetDir, [ReadmeFile]);
    RecipeApart(recipePath, targetDir, [ValidateScript]);
    PrefixOfConcat(dc, [ConfigFile]);
    PrefixTransImplies(dc, dc + [ConfigFile], recipePath + [ReadmeFile]);
    PrefixTransImplies(dc, dc + [ConfigFile], recipePath + [ValidateScript]);
    Materializer.InsideSourceIsOutside(recipePath, targetDir, [ValidateScript]);
    PrefixOfConcat(targetDir, [GuideFile]);
    PrefixTransImplies(targetDir, targetDir + [GuideFile], recipePath + [ValidateScript]);
    assert (dc + [ConfigFile])[|dc|] == ConfigFile && (dc + [ValidateScript])[|dc|] == ValidateScript;
    assert (targetDir + [GuideFile])[|targetDir|] == GuideFile && dc[|targetDir|] == DevcontainerDir;
    assert Parent(targetDir + [GuideFile]) == targetDir;
    assert Parent(dc + [ValidateScript]) == dc;
  }

  /**
   * Over the staged copy of an installable recipe into a directory with no directory
   * named `DEVCONTAINER.md`, each of the three writes can be made.
   */
  lemma FinishReady(t1: Tree, t2: Tree, recipePath: Path, targetDir: Path)
    requires Disjoint(targetDir, recipePath)
    requires IsDir(t1, targetDir) && Installable(t1, recipePath) && !IsDir(t1, targetDir + [GuideFile])
    requires forall p :: At(t2, p) == Staged(t1, recipePath, targetDir, p)
    ensures var config := targetDir + [DevcontainerDir] + [ConfigFile];
            config in t2 ==> Rewritable(t2[config])
    ensures recipePath + [ReadmeFile] in t2 ==>
              CopyFileError(t2, recipePath + [ReadmeFile], targetDir + [GuideFile]).None?
    ensures recipePath + [ValidateScript] in t2 ==>
              CopyFileError(t2, recipePath + [ValidateScript], targetDir + [DevcontainerDir] + [ValidateScript]).None?
  {
    var dc := targetDir + [DevcontainerDir];
    var guide := targetDir + [GuideFile];
    var script := dc + [ValidateScript];
    StagedFinished(t1, t2, recipePath, targetDir);
    WritesApart(recipePath, targetDir);
    assert recipePath + [DevcontainerDir] + [ConfigFile] == recipePath + [DevcontainerDir, ConfigFile];
    // The sources of the two copies keep what the recipe holds.
    RecipeApart(recipePath, targetDir, [ReadmeFile]);
    RecipeApart(recipePath, targetDir, [ValidateScript]);
    assert At(t2, recipePath + [ReadmeFile]) == Staged(t1, recipePath, targetDir, recipePath + [ReadmeFile]);
    assert At(t2, recipePath + [ValidateScript]) == Staged(t1, recipePath, targetDir, recipePath + [ValidateScript]);
    // The destination of the guide, and its parent.
    assert At(t2, guide) == Staged(t1, recipePath, targetDir, guide);
    assert !IsPrefix(dc, guide) by { assert guide[|targetDir|] != dc[|targetDir|]; }
    assert !IsPrefix(guide, targetDir);
    assert At(t2, targetDir) == Staged(t1, recipePath, targetDir, targetDir);
    assert !IsPrefix(dc, targetDir);
    // The destination of the script, and its parent.
    assert At(t2, script) == Staged(t1, recipePath, targetDir, script);
    assert script[..|dc|] == dc && script[|dc|..] == [ValidateScript];
    assert recipePath + [DevcontainerDir] + [ValidateScript] == recipePath + [DevcontainerDir, ValidateScript];
    assert At(t2, dc) == Staged(t1, recipePath, targetDir, dc);
    assert dc[..|dc|] == dc && dc[|dc|..] == [];
    assert recipePath + [DevcontainerDir] + [] == recipePath + [DevcontainerDir];
  }

  /** The two `.devcontainer` directories of a run into a target apart from the recipe differ. */
  lemma DevcontainersApart(recipePath: Path, targetDir: Path)
    requires Disjoint(targetDir, recipePath)
    ensures recipePath + [DevcontainerDir] != targetDir + [DevcontainerDir]
  {
    RecipeApart(recipePath, targetDir, [DevcontainerDir]);
    PrefixOfConcat(targetDir, [DevcontainerDir]);
  }

  /** The three writes after the copy, one after the other, leave `Finished`. */
  lemma FinalSteps(t2: Tree, t3: Tree, t4: Tree, t5: Tree, recipePath: Path, targetDir: Path)
    requires Disjoint(targetDir, recipePath)
    requires var config := targetDir + [DevcontainerDir] + [ConfigFile];
             t3 == (if config in t2 then t2[config := PortsAdjusted(t2[config])] else t2)
    requires var readme := recipePath + [ReadmeFile];
             t4 == (if readme in t3 then t3[targetDir + [GuideFile] := t3[readme]] else t3)
    requires var script := recipePath + [ValidateScript];
             t5 == (if script in t4
                    then t4[targetDir + [DevcontainerDir] + [ValidateScript] := MadeExecutable(t4[script])]
                    else t4)
    ensures forall p :: At(t5, p) == Finished(t2, recipePath, targetDir, p)
  {
    RecipeApart(recipePath, targetDir, [ReadmeFile]);
    RecipeApart(recipePath, targetDir, [ValidateScript]);
    assert |targetDir + [GuideFile]| != |targetDir + [DevcontainerDir] + [ConfigFile]|;
  }

  /** `Finished` over the staged copy is the installed layout. */
  lemma StagedFinished(t0: Tree, t2: Tree, recipePath: Path, targetDir: Path)
    requires Disjoint(targetDir, recipePath)
    requires forall p :: At(t2, p) == Staged(t0, recipePath, targetDir, p)
    ensures var config := targetDir + [DevcontainerDir] + [ConfigFile];
            At(t2, config) == At(t0, recipePath + [DevcontainerDir, ConfigFile])
    ensures forall p :: Finished(t2, recipePath, targetDir, p) == InstalledAt(t0, recipePath, targetDir, p)
  {
    var dc := targetDir + [DevcontainerDir];
    var config := dc + [ConfigFile];
    assert config[..|dc|] == dc && config[|dc|..] == [ConfigFile];
    assert recipePath + [DevcontainerDir] + [ConfigFile] == recipePath + [DevcontainerDir, ConfigFile];
    assert At(t2, config) == At(t0, recipePath + [DevcontainerDir, ConfigFile]);
    RecipeApart(recipePath, targetDir, [ReadmeFile]);
    RecipeApart(recipePath, targetDir, [ValidateScript]);
    assert At(t2, recipePath + [ReadmeFile]) == At(t0, recipePath + [ReadmeFile]);
    assert At(t2, recipePath + [ValidateScript]) == At(t0, recipePath + [ValidateScript]);
  }
}
