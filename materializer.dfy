/**
 * `copyDirectory`: copy a directory tree into a target directory, creating the target
 * first when it is missing, recursing into subdirectories and copying files one by one.
 */
module Materializer {
  import opened Wrappers
  import opened FileSystem

  /** The entries strictly below `p`: the measure that shrinks as the copy recurses. */
  function Below(t: Tree, p: Path): set<Path> {
    set q | q in t && IsPrefix(p, q) && q != p
  }

  /**
   * What a successful `copyDirectory(source, target)` leaves at `target + q`, given the
   * tree before the copy: a file of the source replaces whatever was there; any other
   * entry already at the target stays; a directory of the source that the target lacks
   * is created, and so is the target itself; elsewhere nothing appears.
   */
  function Copied(t: Tree, source: Path, target: Path, q: Path): Option<Entry> {
    if IsFile(t, source + q) then At(t, source + q)
    else if target + q in t then At(t, target + q)
    else if source + q in t || q == [] then Some(Directory)
    else None
  }

  /**
   * Outside `target`, `after` keeps every entry of `before` and adds nothing but
   * directories on the way to `target`.
   */
  ghost predicate OnlyInside(before: Tree, after: Tree, target: Path) {
    && (forall p :: p in before && !IsPrefix(target, p) ==> p in after && after[p] == before[p])
    && (forall p :: p in after && !IsPrefix(target, p) ==>
          p in before || (IsPrefix(p, target) && after[p] == Directory))
  }

  /** Below `target`, `after` holds the copy of `source` made over `before`. */
  ghost predicate CopiedInto(before: Tree, after: Tree, source: Path, target: Path) {
    forall q :: At(after, target + q) == Copied(before, source, target, q)
  }

  /** Below `target + [n]`, nothing has changed yet. */
  ghost predicate Untouched(before: Tree, after: Tree, target: Path, n: string) {
    forall q :: At(after, target + [n] + q) == At(before, target + [n] + q)
  }

  lemma OnlyInsideTrans(a: Tree, b: Tree, c: Tree, target: Path)
    requires OnlyInside(a, b, target) && OnlyInside(b, c, target)
    ensures OnlyInside(a, c, target)
  {
  }

  /** `mkdirSync(target, { recursive: true })` adds only directories on the way to `target`. */
  lemma MkdirOnlyInside(t: Tree, target: Path)
    ensures OnlyInside(t, t + NewDirs(t, target), target)
  {
    forall p | p in t + NewDirs(t, target) && p !in t
      ensures IsPrefix(p, target)
    {
      AncestryIsPrefix(p, target);
    }
  }

  /** Writing one entry inside `target` is a change inside `target`. */
  lemma UpdateOnlyInside(t: Tree, p: Path, e: Entry, target: Path)
    requires IsPrefix(target, p)
    ensures OnlyInside(t, t[p := e], target)
  {
  }

  /** A change inside `target + [n]` is a change inside `target`. */
  lemma OnlyInsideWiden(a: Tree, b: Tree, target: Path, n: string)
    requires OnlyInside(a, b, target + [n])
    ensures OnlyInside(a, b, target)
  {
    PrefixOfConcat(target, [n]);
    forall p | IsPrefix(target + [n], p)
      ensures IsPrefix(target, p)
    {
      PrefixTrans(target, target + [n], p);
    }
    forall p | IsPrefix(p, target + [n]) && p != target + [n]
      ensures IsPrefix(p, target)
    {
      PrefixOfShorter(p, target, n);
    }
  }

  /** A path inside `source` is neither inside `target` nor on the way to it. */
  lemma InsideSourceIsOutside(source: Path, target: Path, x: Path)
    requires Disjoint(source, target)
    ensures !IsPrefix(target, source + x) && !IsPrefix(source + x, target)
  {
    PrefixOfConcat(source, x);
    if IsPrefix(target, source + x) {
      PrefixCases(target, source, x);
    }
    if IsPrefix(source + x, target) {
      PrefixTrans(source, source + x, target);
    }
  }

  /** Paths in two different children of `target` lie apart. */
  lemma SiblingsApart(target: Path, n: string, m: string, q: Path)
    requires n != m
    ensures !IsPrefix(target + [n], target + [m] + q)
    ensures !IsPrefix(target + [m] + q, target + [n])
  {
    var p := target + [m] + q;
    assert p[|target|] == m;
    assert (target + [n])[|target|] == n;
    PrefixAgreesAt(target + [n], p, |target|);
    PrefixAgreesAt(p, target + [n], |target|);
  }

  lemma DisjointExtend(source: Path, target: Path, n: string)
    requires Disjoint(source, target)
    ensures Disjoint(source + [n], target + [n])
  {
    PrefixOfConcat(source, [n]);
    PrefixOfConcat(target, [n]);
    if IsPrefix(source + [n], target + [n]) {
      PrefixTrans(source, source + [n], target + [n]);
      PrefixOfShorter(source, target, n);
    }
    if IsPrefix(target + [n], source + [n]) {
      PrefixTrans(target, target + [n], source + [n]);
      PrefixOfShorter(target, source, n);
    }
  }

  /** The measure shrinks on the way into a child of the source. */
  lemma BelowShrinks(t0: Tree, d: Tree, source: Path, target: Path, n: string)
    requires Disjoint(source, target) && OnlyInside(t0, d, target)
    requires source + [n] in t0
    ensures |Below(d, source + [n])| < |Below(t0, source)|
  {
    var child := source + [n];
    forall p | p in Below(d, child)
      ensures p in Below(t0, source) - {child}
    {
      assert p == source + p[|source|..];
      InsideSourceIsOutside(source, target, p[|source|..]);
      assert p[..|source|] == child[..|source|];
    }
    assert child[..|source|] == source;
    assert child in Below(t0, source);
    SubsetCard(Below(d, child), Below(t0, source) - {child});
  }

  lemma SubsetCard<T>(a: set<T>, b: set<T>)
    requires a <= b
    ensures |a| <= |b|
  {
    assert b == a + (b - a);
  }

  /** `Copied` for a child, read from the child's own paths. */
  lemma CopiedChild(t: Tree, source: Path, target: Path, n: string, q: Path)
    requires source + [n] in t
    ensures Copied(t, source, target, [n] + q) == Copied(t, source + [n], target + [n], q)
  {
    assert source + ([n] + q) == source + [n] + q;
    assert target + ([n] + q) == target + [n] + q;
    assert [n] + q != [];
    if q == [] {
      assert source + [n] + q == source + [n];
    }
  }

  /** A child copied over a state that agrees with `t0` on both sides is the child copied over `t0`. */
  lemma CopiedRebase(t0: Tree, d: Tree, e: Tree, source: Path, target: Path, n: string)
    requires Disjoint(source, target) && OnlyInside(t0, d, target)
    requires Untouched(t0, d, target, n)
    requires CopiedInto(d, e, source + [n], target + [n])
    ensures CopiedInto(t0, e, source + [n], target + [n])
  {
    forall q
      ensures At(e, target + [n] + q) == Copied(t0, source + [n], target + [n], q)
    {
      assert source + [n] + q == source + ([n] + q);
      InsideSourceIsOutside(source, target, [n] + q);
      assert At(d, source + [n] + q) == At(t0, source + [n] + q);
      assert At(d, target + [n] + q) == At(t0, target + [n] + q);
    }
  }

  /** A change confined to `target + [n]` does not disturb a sibling `m`. */
  lemma SiblingKept(d: Tree, e: Tree, target: Path, n: string, m: string)
    requires n != m && OnlyInside(d, e, target + [n])
    ensures forall q :: At(e, target + [m] + q) == At(d, target + [m] + q)
  {
    forall q
      ensures At(e, target + [m] + q) == At(d, target + [m] + q)
    {
      SiblingsApart(target, n, m, q);
    }
  }

  /** A file copied into `target + [n]` is the child copied over the state before. */
  lemma FileChildCopied(d: Tree, source: Path, target: Path, n: string)
    requires WellFormed(d) && IsFile(d, source + [n])
    ensures CopiedInto(d, d[target + [n] := d[source + [n]]], source + [n], target + [n])
    ensures OnlyInside(d, d[target + [n] := d[source + [n]]], target + [n])
  {
    var e := d[target + [n] := d[source + [n]]];
    PrefixOfConcat(target + [n], []);
    assert target + [n] + [] == target + [n];
    forall q
      ensures At(e, target + [n] + q) == Copied(d, source + [n], target + [n], q)
    {
      if q == [] {
        assert target + [n] + q == target + [n];
        assert source + [n] + q == source + [n];
      } else {
        NothingBelowFile(d, source + [n], q);
        assert target + [n] + q != target + [n];
      }
    }
  }

  /** Entries below the source are never added while copying into a target apart from it. */
  lemma BelowKept(t0: Tree, d: Tree, source: Path, target: Path)
    requires Disjoint(source, target) && OnlyInside(t0, d, target)
    ensures |Below(d, source)| <= |Below(t0, source)|
  {
    forall p | p in Below(d, source)
      ensures p in Below(t0, source)
    {
      assert p == source + p[|source|..];
      InsideSourceIsOutside(source, target, p[|source|..]);
    }
    SubsetCard(Below(d, source), Below(t0, source));
  }

  /** The finished copy: every child of the source is copied and no other child is touched. */
  lemma AllChildrenCopied(t0: Tree, c: Tree, source: Path, target: Path, done: set<string>)
    requires WellFormed(t0) && !IsFile(t0, source)
    requires done == Children(t0, source)
    requires At(c, target) == (if target in t0 then Some(t0[target]) else Some(Directory))
    requires forall n :: n in done ==> CopiedInto(t0, c, source + [n], target + [n])
    requires forall n :: n !in done ==> Untouched(t0, c, target, n)
    ensures CopiedInto(t0, c, source, target)
  {
    forall q
      ensures At(c, target + q) == Copied(t0, source, target, q)
    {
      if q == [] {
        assert target + q == target && source + q == source;
      } else {
        var n, rest := q[0], q[1..];
        assert q == [n] + rest;
        ChildCase(t0, c, source, target, n, rest, n in done);
      }
    }
  }

  /** One path below the target, in the child `n`, copied or untouched. */
  lemma ChildCase(t0: Tree, c: Tree, source: Path, target: Path, n: string, rest: Path, copied: bool)
    requires WellFormed(t0)
    requires copied <==> n in Children(t0, source)
    requires copied ==> CopiedInto(t0, c, source + [n], target + [n])
    requires !copied ==> Untouched(t0, c, target, n)
    ensures At(c, target + ([n] + rest)) == Copied(t0, source, target, [n] + rest)
  {
    assert target + ([n] + rest) == target + [n] + rest;
    assert source + ([n] + rest) == source + [n] + rest;
    ChildrenSpec(t0, source, n);
    if copied {
      CopiedChild(t0, source, target, n, rest);
    } else {
      AbsentBelow(t0, source + [n], rest);
    }
  }

  /** Into a target that does not exist, the copy is exactly the source tree. */
  lemma CopyIntoAbsent(t: Tree, source: Path, target: Path)
    requires WellFormed(t) && IsDir(t, source) && target !in t
    ensures forall q :: Copied(t, source, target, q) == At(t, source + q)
  {
    forall q
      ensures Copied(t, source, target, q) == At(t, source + q)
    {
      assert source + [] == source;
      AbsentBelow(t, target, q);
    }
  }

  /**
   * The state of the copy loop after the children in `done` are copied: nothing outside
   * the target has changed beyond directories on the way to it, the target itself is as
   * the initial `mkdirSync` left it, the children in `done` are copied and the others
   * are untouched.
   */
  ghost predicate LoopState(t0: Tree, c: Tree, source: Path, target: Path, done: set<string>) {
    && OnlyInside(t0, c, target)
    && At(c, target) == (if target in t0 then Some(t0[target]) else Some(Directory))
    && (forall n :: n in done ==> CopiedInto(t0, c, source + [n], target + [n]))
    && (forall n :: n !in done ==> Untouched(t0, c, target, n))
  }

  /** The loop starts from the state `mkdirSync` leaves, and the source is still as it was. */
  lemma LoopStart(t0: Tree, t1: Tree, source: Path, target: Path)
    requires !IsPrefix(source, target) || source == target
    requires t1 == (if target in t0 then t0 else t0 + NewDirs(t0, target))
    ensures LoopState(t0, t1, source, target, {})
    ensures source != target ==> IsDir(t1, source) == IsDir(t0, source)
    ensures IsFile(t1, source) == IsFile(t0, source)
    ensures Children(t1, source) == Children(t0, source)
  {
    forall n
      ensures n in Children(t1, source) <==> n in Children(t0, source)
    {
      ChildrenSpec(t1, source, n);
      ChildrenSpec(t0, source, n);
      ChildNotOnTheWay(source, target, n);
    }
    assert target[..|target|] == target;
    assert target in Ancestry(target);
    forall p | p in t1 && p !in t0
      ensures IsPrefix(p, target)
    {
      var i :| 0 <= i <= |target| && p == target[..i];
    }
    forall n, q
      ensures At(t1, target + [n] + q) == At(t0, target + [n] + q)
    {
      var p := target + [n] + q;
      assert p !in Ancestry(target) by {
        assert |p| > |target|;
      }
    }
  }

  /** A child of `source` is not on the way to `target` unless `target` lies inside `source`. */
  lemma ChildNotOnTheWay(source: Path, target: Path, n: string)
    requires !IsPrefix(source, target) || source == target
    ensures !IsPrefix(source + [n], target)
  {
    PrefixOfConcat(source, [n]);
    PrefixTransImplies(source, source + [n], target);
  }

  /** A directory with a child is present. */
  lemma ChildMeansPresent(t: Tree, source: Path, n: string)
    requires WellFormed(t) && n in Children(t, source)
    ensures source in t
  {
    ChildrenSpec(t, source, n);
    AncestorIsDir(t, source + [n], |source|);
    assert (source + [n])[..|source|] == source;
  }

  /** After a child is copied (a subdirectory by recursion, or a file), the loop state holds with it done. */
  lemma LoopStep(t0: Tree, d: Tree, e: Tree, source: Path, target: Path, done: set<string>, n: string)
    requires Disjoint(source, target)
    requires LoopState(t0, d, source, target, done) && n !in done
    requires OnlyInside(d, e, target + [n])
    requires CopiedInto(t0, e, source + [n], target + [n])
    ensures LoopState(t0, e, source, target, done + {n})
  {
    OnlyInsideWiden(d, e, target, n);
    OnlyInsideTrans(t0, d, e, target);
    PrefixOfConcat(target, [n]);
    assert |target + [n]| > |target|;
    forall m | m != n
      ensures forall q :: At(e, target + [m] + q) == At(d, target + [m] + q)
    {
      SiblingKept(d, e, target, n, m);
    }
  }

  /** Before child `n` is copied: it is still in place, and the measure has not grown. */
  lemma LoopBefore(t0: Tree, d: Tree, source: Path, target: Path, done: set<string>, n: string)
    requires Disjoint(source, target) && LoopState(t0, d, source, target, done)
    requires n in Children(t0, source)
    ensures source + [n] in d
    ensures |Below(d, source)| <= |Below(t0, source)|
  {
    ChildrenSpec(t0, source, n);
    InsideSourceIsOutside(source, target, [n]);
    BelowKept(t0, d, source, target);
  }

  /** After child `n` was copied, or its copy failed. */
  lemma LoopAfter(t0: Tree, d: Tree, e: Tree, source: Path, target: Path, done: set<string>,
                  n: string, ok: bool)
    requires Disjoint(source, target)
    requires LoopState(t0, d, source, target, done) && n !in done
    requires OnlyInside(d, e, target + [n])
    requires ok ==> CopiedInto(d, e, source + [n], target + [n])
    ensures OnlyInside(t0, e, target)
    ensures ok ==> LoopState(t0, e, source, target, done + {n})
  {
    OnlyInsideWiden(d, e, target, n);
    OnlyInsideTrans(t0, d, e, target);
    if ok {
      CopiedRebase(t0, d, e, source, target, n);
      LoopStep(t0, d, e, source, target, done, n);
    }
  }

  /** Into a target that was missing, every child not yet copied is still missing. */
  lemma FreshChild(t0: Tree, d: Tree, source: Path, target: Path, done: set<string>, n: string)
    requires WellFormed(t0) && target !in t0
    requires LoopState(t0, d, source, target, done) && n !in done
    ensures IsDir(d, target) && target + [n] !in d
  {
    AbsentBelow(t0, target, [n]);
    assert target + [n] + [] == target + [n];
  }

  /** Moving one name from the names still to copy to the names done keeps the split. */
  lemma MoveName(all: set<string>, done: set<string>, names: set<string>, n: string)
    requires done + names == all && done !! names && n in names
    ensures (done + {n}) + (names - {n}) == all && (done + {n}) !! (names - {n})
    ensures n !in done
  {
  }

  /**
   * `copyDirectory(source, target)`. A missing target that `mkdirSync` refuses is
   * accepted wherever it lies: the copy stops at its first step. Otherwise the target must
   * not lie strictly inside the source, where the recursion of the tool copies its own
   * output and goes on until the paths grow too long for the system, and a source that
   * overlaps the target in any other way must be absent: then the copy only creates the
   * target, or fails when it reads the source.
   */
  method CopyDirectory(disk: Disk, source: Path, target: Path) returns (err: Option<Errno>)
    requires disk.Valid()
    requires || (target !in disk.entries && MkdirError(disk.entries, target).Some?)
             || (&& (!IsPrefix(source, target) || source == target)
                 && (Disjoint(source, target) || source !in disk.entries))
    modifies disk
    ensures disk.Valid()
    ensures OnlyInside(old(disk.entries), disk.entries, target)
    // A missing target that cannot be created: `mkdirSync` throws and nothing changes.
    ensures target !in old(disk.entries) && MkdirError(old(disk.entries), target).Some? ==>
              err == MkdirError(old(disk.entries), target) && disk.entries == old(disk.entries)
    ensures !IsDir(old(disk.entries), source) && source != target ==> err.Some?
    ensures err.None? ==> CopiedInto(old(disk.entries), disk.entries, source, target)
    // A directory copied into a target that is missing and can be created: the copy succeeds.
    ensures && IsDir(old(disk.entries), source) && Disjoint(source, target)
            && target !in old(disk.entries) && MkdirError(old(disk.entries), target).None? ==>
              err.None?
    decreases |Below(disk.entries, source)|, 1
  {
    ghost var t0 := disk.entries;
    if !disk.Exists(target) {
      err := disk.MkdirRecursive(target);
      if err.Some? {
        return;
      }
    }
    LoopStart(t0, disk.entries, source, target);

    var files := disk.ReadDir(source);
    if files.Failure? {
      return Some(files.error);
    }
    var names := files.value;
    ghost var done: set<string> := {};
    while names != {}
      invariant disk.Valid()
      invariant done + names == Children(t0, source) && done !! names
      invariant LoopState(t0, disk.entries, source, target, done)
      decreases names
    {
      var file :| file in names;
      ghost var d := disk.entries;
      ChildMeansPresent(t0, source, file);
      LoopBefore(t0, d, source, target, done, file);
      if target !in t0 {
        FreshChild(t0, d, source, target, done, file);
      }
      err := CopyEntry(disk, source, target, file);
      MoveName(Children(t0, source), done, names, file);
      LoopAfter(t0, d, disk.entries, source, target, done, file, err.None?);
      if err.Some? {
        return;
      }
      done := done + {file};
      names := names - {file};
    }
    AllChildrenCopied(t0, disk.entries, source, target, done);
    err := None;
  }

  /**
   * The `forEach` callback of `copyDirectory`: a subdirectory of the source is copied
   * by recursion, anything else with `copyFileSync`.
   */
  method CopyEntry(disk: Disk, source: Path, target: Path, file: string) returns (err: Option<Errno>)
    requires disk.Valid()
    requires Disjoint(source, target) && source + [file] in disk.entries
    modifies disk
    ensures disk.Valid()
    ensures OnlyInside(old(disk.entries), disk.entries, target + [file])
    ensures err.None? ==>
              CopiedInto(old(disk.entries), disk.entries, source + [file], target + [file])
    // Into an existing directory that lacks the name, the copy succeeds.
    ensures IsDir(old(disk.entries), target) && target + [file] !in old(disk.entries) ==> err.None?
    decreases |Below(disk.entries, source)|, 0
  {
    var sourcePath := source + [file];
    var targetPath := target + [file];
    if disk.IsDirectory(sourcePath) {
      DisjointExtend(source, target, file);
      BelowShrinks(disk.entries, disk.entries, source, target, file);
      if IsDir(disk.entries, target) && targetPath !in disk.entries {
        MkdirChildSucceeds(disk.entries, target, file);
      }
      err := CopyDirectory(disk, sourcePath, targetPath);
    } else {
      ghost var d := disk.entries;
      FileChildCopied(d, source, target, file);
      assert Parent(targetPath) == target;
      err := disk.CopyFile(sourcePath, targetPath);
    }
  }
}
