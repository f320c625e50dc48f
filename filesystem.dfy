/**
 * An abstract filesystem: a map from absolute paths (sequences of names) to entries,
 * and the handful of node `fs` calls the tool makes on it.
 *
 * Symbolic links, timestamps, owners and directory permissions are not modelled; a
 * file carries its content and its permission bits.
 */
module FileSystem {
  import opened Wrappers
  import Config

  type Path = seq<string>

  datatype Entry = Directory | File(content: Config.Content, mode: nat)

  /** The error codes the modelled calls can fail with. */
  datatype Errno = ENOENT | ENOTDIR | EISDIR | EEXIST

  type Tree = map<Path, Entry>

  /** `0o755`, the mode `chmodSync(path, '755')` sets. */
  const ExecutableMode: nat := 493

  /** `0o644`: the mode of a file `writeFileSync` creates, under the usual umask `0o022`. */
  const NewFileMode: nat := 420

  predicate IsPrefix(p: Path, q: Path) {
    |p| <= |q| && q[..|p|] == p
  }

  /** Neither path lies inside the other. */
  predicate Disjoint(p: Path, q: Path) {
    !IsPrefix(p, q) && !IsPrefix(q, p)
  }

  function Parent(p: Path): Path
    requires p != []
  {
    p[..|p| - 1]
  }

  /** What the tree holds at `p`, if anything. */
  function At(t: Tree, p: Path): Option<Entry> {
    if p in t then Some(t[p]) else None
  }

  predicate IsDir(t: Tree, p: Path) {
    p in t && t[p].Directory?
  }

  predicate IsFile(t: Tree, p: Path) {
    p in t && t[p].File?
  }

  /** The root is a directory and every other entry sits in a directory. */
  ghost predicate WellFormed(t: Tree) {
    IsDir(t, []) && forall p, n :: p + [n] in t ==> IsDir(t, p)
  }

  /** The names `readdirSync(p)` lists. */
  function Children(t: Tree, p: Path): set<string> {
    set q | q in t && |q| == |p| + 1 && IsPrefix(p, q) :: q[|p|]
  }

  lemma ChildrenSpec(t: Tree, p: Path, n: string)
    ensures n in Children(t, p) <==> p + [n] in t
  {
    if p + [n] in t {
      var q := p + [n];
      assert q[..|p|] == p && q[|p|] == n;
    }
    if n in Children(t, p) {
      var q :| q in t && |q| == |p| + 1 && IsPrefix(p, q) && q[|p|] == n;
      assert q == p + [n];
    }
  }

  /** The strict prefixes and the path itself: what `mkdirSync(p, { recursive: true })` walks. */
  function Ancestry(p: Path): set<Path> {
    set i | 0 <= i <= |p| :: p[..i]
  }

  /** The directories `mkdirSync(p, { recursive: true })` adds. */
  function NewDirs(t: Tree, p: Path): Tree {
    map q | q in Ancestry(p) && q !in t :: Directory
  }

  /** Why `mkdirSync(p, { recursive: true })` fails, if it does. */
  function MkdirError(t: Tree, p: Path): Option<Errno> {
    if exists i :: 0 <= i < |p| && IsFile(t, p[..i]) then Some(ENOTDIR)
    else if IsFile(t, p) then Some(EEXIST)
    else None
  }

  /** The error for a missing `p`: `ENOTDIR` when a file lies on the way to it, `ENOENT` otherwise. */
  function MissingError(t: Tree, p: Path): Errno {
    if exists i :: 0 <= i < |p| && IsFile(t, p[..i]) then ENOTDIR else ENOENT
  }

  /** Why `copyFileSync(src, dst)` fails, if it does. */
  function CopyFileError(t: Tree, src: Path, dst: Path): Option<Errno> {
    if src !in t then Some(MissingError(t, src))
    else if dst == [] || IsDir(t, dst) then Some(EISDIR)
    else if Parent(dst) !in t then Some(MissingError(t, Parent(dst)))
    else if IsFile(t, Parent(dst)) then Some(ENOTDIR)
    else if t[src].Directory? then Some(EISDIR)
    else None
  }

  /** Why `writeFileSync(p, ...)` fails, if it does. */
  function WriteFileError(t: Tree, p: Path): Option<Errno> {
    if p == [] || IsDir(t, p) then Some(EISDIR)
    else if Parent(p) !in t then Some(MissingError(t, Parent(p)))
    else if IsFile(t, Parent(p)) then Some(ENOTDIR)
    else None
  }

  /** Every proper ancestor of an entry of a well-formed tree is a directory. */
  lemma {:induction false} AncestorIsDir(t: Tree, p: Path, i: nat)
    requires WellFormed(t) && p in t && i < |p|
    ensures IsDir(t, p[..i])
    decreases |p| - i
  {
    if i == |p| - 1 {
      assert p == p[..i] + [p[i]];
    } else {
      AncestorIsDir(t, p, i + 1);
      assert p[..i + 1][..i] == p[..i];
      AncestorIsDir(t, p[..i + 1], i);
    }
  }

  /** Nothing lies below an absent path of a well-formed tree. */
  lemma AbsentBelow(t: Tree, p: Path, q: Path)
    requires WellFormed(t) && p !in t
    ensures p + q !in t
  {
    if q == [] {
      assert p + q == p;
    } else {
      assert (p + q)[..|p|] == p;
      if p + q in t {
        AncestorIsDir(t, p + q, |p|);
      }
    }
  }

  /** Nothing lies below a file of a well-formed tree. */
  lemma NothingBelowFile(t: Tree, p: Path, q: Path)
    requires WellFormed(t) && IsFile(t, p) && q != []
    ensures p + q !in t
  {
    assert (p + q)[..|p|] == p;
    if p + q in t {
      AncestorIsDir(t, p + q, |p|);
    }
  }

  /** A path whose prefix lies inside `p` lies inside `p`, or contains it. */
  lemma PrefixCases(p: Path, s: Path, x: Path)
    requires IsPrefix(p, s + x)
    ensures IsPrefix(p, s) || IsPrefix(s, p)
  {
    if |p| <= |s| {
      assert (s + x)[..|p|] == s[..|p|];
    } else {
      assert p[..|s|] == (s + x)[..|p|][..|s|];
    }
  }

  lemma PrefixOfConcat(a: Path, x: Path)
    ensures IsPrefix(a, a + x)
  {
    assert (a + x)[..|a|] == a;
  }

  lemma PrefixTrans(a: Path, b: Path, c: Path)
    requires IsPrefix(a, b) && IsPrefix(b, c)
    ensures IsPrefix(a, c)
  {
    assert c[..|a|] == c[..|b|][..|a|];
  }

  lemma PrefixTransImplies(a: Path, b: Path, c: Path)
    ensures IsPrefix(a, b) && IsPrefix(b, c) ==> IsPrefix(a, c)
  {
    if IsPrefix(a, b) && IsPrefix(b, c) {
      PrefixTrans(a, b, c);
    }
  }

  /** A prefix of `b + [n]` no longer than `b` is a prefix of `b`. */
  lemma PrefixOfShorter(a: Path, b: Path, n: string)
    requires IsPrefix(a, b + [n]) && |a| <= |b|
    ensures IsPrefix(a, b)
  {
    assert b[..|a|] == (b + [n])[..|a|];
  }

  lemma PrefixOfShorterImplies(a: Path, b: Path, n: string)
    ensures IsPrefix(a, b + [n]) && |a| <= |b| ==> IsPrefix(a, b)
  {
    if IsPrefix(a, b + [n]) && |a| <= |b| {
      PrefixOfShorter(a, b, n);
    }
  }

  /** The paths `mkdirSync(p, { recursive: true })` walks are exactly the prefixes of `p`. */
  lemma AncestryIsPrefix(q: Path, p: Path)
    ensures q in Ancestry(p) <==> IsPrefix(q, p)
  {
    if IsPrefix(q, p) {
      assert q == p[..|q|];
    }
  }

  /** Every prefix of an entry of a well-formed tree is an entry. */
  lemma PrefixOfPresent(t: Tree, p: Path, q: Path)
    requires WellFormed(t)
    ensures p in t && IsPrefix(q, p) ==> q in t
  {
    if p in t && IsPrefix(q, p) {
      if |q| < |p| {
        AncestorIsDir(t, p, |q|);
      } else {
        assert p[..|p|] == p;
      }
    }
  }

  lemma PrefixAgreesAt(a: Path, b: Path, i: nat)
    requires i < |a| && i < |b|
    ensures IsPrefix(a, b) ==> a[i] == b[i]
  {
    if IsPrefix(a, b) {
      assert b[..|a|][i] == b[i];
    }
  }

  /** The parent of an entry of a well-formed tree is a directory. */
  lemma ParentIsDir(t: Tree, p: Path)
    requires WellFormed(t) && p in t && p != []
    ensures IsDir(t, Parent(p))
  {
    assert p == Parent(p) + [p[|p| - 1]];
  }

  /**
   * A write at `p` leaves `copyFileSync(src, dst)` as it was, when `p` is not the
   * destination and lies neither on the way to the source nor on the way to the
   * destination's parent.
   */
  lemma CopyFileErrorKept(t: Tree, p: Path, e: Entry, src: Path, dst: Path)
    requires dst != [] && p != dst && !IsPrefix(p, src) && !IsPrefix(p, Parent(dst))
    ensures src in t[p := e] <==> src in t
    ensures CopyFileError(t[p := e], src, dst) == CopyFileError(t, src, dst)
  {
    assert forall i :: 0 <= i < |src| ==> src[..i] != p;
    assert forall i :: 0 <= i < |Parent(dst)| ==> Parent(dst)[..i] != p;
    assert MissingError(t[p := e], src) == MissingError(t, src);
    assert MissingError(t[p := e], Parent(dst)) == MissingError(t, Parent(dst));
  }

  /** A missing child of an existing directory can always be created. */
  lemma MkdirChildSucceeds(t: Tree, p: Path, n: string)
    requires WellFormed(t) && IsDir(t, p) && p + [n] !in t
    ensures MkdirError(t, p + [n]).None?
  {
    forall i | 0 <= i < |p + [n]|
      ensures !IsFile(t, (p + [n])[..i])
    {
      assert (p + [n])[..i] == p[..i];
      if i < |p| {
        AncestorIsDir(t, p, i);
      } else {
        assert p[..i] == p;
      }
    }
  }

  /** Putting a file at a path that is not a directory, inside an existing directory, keeps the tree well formed. */
  lemma UpdateKeepsWellFormed(t: Tree, p: Path, e: Entry)
    requires WellFormed(t) && e.File? && p != [] && !IsDir(t, p) && IsDir(t, Parent(p))
    ensures WellFormed(t[p := e])
  {
    forall q, n | q + [n] in t[p := e]
      ensures IsDir(t[p := e], q)
    {
      if q + [n] == p {
        assert (q + [n])[..|q|] == q;
        assert q == Parent(p);
      } else {
        assert q + [n] in t;
        assert IsDir(t, q);
      }
    }
  }

  /**
   * The disk: the state every `fs` call reads and changes. Each method is one call of
   * node's synchronous `fs` API; each failure leaves the disk as it was.
   */
  class Disk {
    var entries: Tree

    ghost predicate Valid()
      reads this
    {
      WellFormed(entries)
    }

    constructor (initial: Tree)
      requires WellFormed(initial)
      ensures Valid() && entries == initial
    {
      entries := initial;
    }

    /** `existsSync(p)`. */
    function Exists(p: Path): (b: bool)
      reads this
      ensures b <==> p in entries
    {
      p in entries
    }

    /** `statSync(p).isDirectory()` on a path known to exist. */
    function IsDirectory(p: Path): (b: bool)
      reads this
      requires p in entries
      ensures b <==> entries[p] == Directory
    {
      entries[p].Directory?
    }

    /** `mkdirSync(p, { recursive: true })`: create every missing directory on the way to `p`. */
    method MkdirRecursive(p: Path) returns (err: Option<Errno>)
      requires Valid()
      modifies this
      ensures Valid()
      ensures err == MkdirError(old(entries), p)
      ensures err.None? ==> entries == old(entries) + NewDirs(old(entries), p)
      ensures err.Some? ==> entries == old(entries)
    {
      err := MkdirError(entries, p);
      if err.None? {
        ghost var t := entries;
        entries := entries + NewDirs(entries, p);
        forall q, n | q + [n] in entries
          ensures IsDir(entries, q)
        {
          if q + [n] !in t {
            var i :| 0 <= i <= |p| && q + [n] == p[..i];
            assert (q + [n])[..|q|] == q;
            assert q == p[..i - 1];
            assert q in Ancestry(p);
            assert !IsFile(t, p[..i - 1]);
          } else {
            assert IsDir(t, q);
          }
        }
      }
    }

    /** `readdirSync(p)`: the names of the entries of a directory. */
    method ReadDir(p: Path) returns (r: Result<set<string>, Errno>)
      ensures p !in entries ==> r == Failure(MissingError(entries, p))
      ensures IsFile(entries, p) ==> r == Failure(ENOTDIR)
      ensures IsDir(entries, p) ==> r == Success(Children(entries, p))
    {
      if p !in entries {
        r := Failure(MissingError(entries, p));
      } else if entries[p].File? {
        r := Failure(ENOTDIR);
      } else {
        r := Success(Children(entries, p));
      }
    }

    /** `readFileSync(p, 'utf8')`. */
    method ReadFile(p: Path) returns (r: Result<Config.Content, Errno>)
      ensures p !in entries ==> r == Failure(MissingError(entries, p))
      ensures IsDir(entries, p) ==> r == Failure(EISDIR)
      ensures IsFile(entries, p) ==> r == Success(entries[p].content)
    {
      if p !in entries {
        r := Failure(MissingError(entries, p));
      } else if entries[p].Directory? {
        r := Failure(EISDIR);
      } else {
        r := Success(entries[p].content);
      }
    }

    /** `writeFileSync(p, content)`: an existing file keeps its mode, a new one gets `NewFileMode`. */
    method WriteFile(p: Path, content: Config.Content) returns (err: Option<Errno>)
      requires Valid()
      modifies this
      ensures Valid()
      ensures err == WriteFileError(old(entries), p)
      ensures err.None? ==>
                entries == old(entries)[p := File(content,
                             if IsFile(old(entries), p) then old(entries)[p].mode else NewFileMode)]
      ensures err.Some? ==> entries == old(entries)
    {
      err := WriteFileError(entries, p);
      if err.None? {
        var mode := if IsFile(entries, p) then entries[p].mode else NewFileMode;
        entries := entries[p := File(content, mode)];
        UpdateKeepsWellFormed(old(entries), p, File(content, mode));
      }
    }

    /** `copyFileSync(src, dst)`: the destination becomes a copy of the source file, mode included. */
    method CopyFile(src: Path, dst: Path) returns (err: Option<Errno>)
      requires Valid()
      modifies this
      ensures Valid()
      ensures err == CopyFileError(old(entries), src, dst)
      ensures err.None? ==> entries == old(entries)[dst := old(entries)[src]]
      ensures err.Some? ==> entries == old(entries)
    {
      err := CopyFileError(entries, src, dst);
      if err.None? {
        entries := entries[dst := entries[src]];
        UpdateKeepsWellFormed(old(entries), dst, old(entries)[src]);
      }
    }

    /** `chmodSync(p, mode)`: only a file's mode is recorded. */
    method Chmod(p: Path, mode: nat) returns (err: Option<Errno>)
      requires Valid()
      modifies this
      ensures Valid()
      ensures err.None? <==> p in old(entries)
      ensures err.Some? ==> err == Some(MissingError(old(entries), p)) && entries == old(entries)
      ensures IsFile(old(entries), p) ==>
                entries == old(entries)[p := File(old(entries)[p].content, mode)]
      ensures !IsFile(old(entries), p) ==> entries == old(entries)
    {
      if p !in entries {
        return Some(MissingError(entries, p));
      }
      err := None;
      if entries[p].File? {
        entries := entries[p := File(entries[p].content, mode)];
        ParentIsDir(old(entries), p);
        UpdateKeepsWellFormed(old(entries), p, File(old(entries)[p].content, mode));
      }
    }
  }
}
