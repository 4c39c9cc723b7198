/** The filesystem the synchronizer works on: files name inodes, so a hard
    link is a second name for the same inode. */
module FileSystem {
  import opened Paths

  type Inode = nat

  /** A snapshot of the filesystem: which paths are files (and their inode)
      and which are directories. The root "/" (`[]`) always exists. */
  datatype Tree = Tree(files: map<Path, Inode>, dirs: set<Path>)

  /** pathlib's `exists()`. */
  predicate Exists(t: Tree, p: Path)
  {
    p == [] || p in t.files || p in t.dirs
  }

  /** Every file and directory sits inside an existing directory. */
  ghost predicate WellFormed(t: Tree)
  {
    && (forall p :: p in t.files && |p| > 1 ==> Parent(p) in t.dirs)
    && (forall p :: p in t.dirs && |p| > 1 ==> Parent(p) in t.dirs)
  }

  /** The entries `iterdir()` lists for `d`. */
  function Children(t: Tree, d: Path): set<Path>
  {
    set c | c in t.files.Keys + t.dirs && IsChild(c, d)
  }

  /** Some file lies anywhere below `d`. */
  predicate HasFileBelow(files: map<Path, Inode>, d: Path)
  {
    exists f :: f in files && Below(f, d)
  }

  /** The tree after `mkdir(p, parents=True, exist_ok=True)`. */
  function MkDirs(t: Tree, p: Path): (r: Tree)
    ensures r.files == t.files && t.dirs <= r.dirs
    ensures p != [] ==> p in r.dirs
    ensures WellFormed(t) ==> WellFormed(r)
  {
    var r := Tree(t.files, t.dirs + Prefixes(p));
    assert p != [] ==> p == p[..|p|];
    assert forall q :: q in Prefixes(p) && |q| > 1 ==> Parent(q) in Prefixes(p) by {
      forall q | q in Prefixes(p) && |q| > 1 ensures Parent(q) in Prefixes(p) {
        var k :| 1 <= k <= |p| && q == p[..k];
        assert Parent(q) == p[..k - 1];
      }
    }
    r
  }

  /** In a well-formed tree every ancestor of an entry is a directory. */
  lemma {:induction false} AncestorsAreDirs(t: Tree, p: Path, k: nat)
    requires WellFormed(t)
    requires p in t.files || p in t.dirs
    requires 1 <= k < |p|
    ensures p[..k] in t.dirs
    decreases |p| - k
  {
    var q := Parent(p);
    assert q in t.dirs;
    if k < |q| {
      AncestorsAreDirs(t, q, k);
      assert q[..k] == p[..k];
    } else {
      assert q == p[..k];
    }
  }

  /** The entry directly inside `d` on the way to a file below `d` is that
      file or a directory above it. */
  lemma ChildTowards(t: Tree, f: Path, d: Path)
    requires WellFormed(t)
    requires f in t.files && Below(f, d)
    ensures IsChild(f[..|d| + 1], d)
    ensures f[..|d| + 1] == f || (f[..|d| + 1] in t.dirs && Below(f, f[..|d| + 1]))
  {
    var c := f[..|d| + 1];
    assert c[..|d|] == d;
    if |f| == |d| + 1 {
      assert c == f;
    } else {
      AncestorsAreDirs(t, f, |d| + 1);
      assert f[..|c|] == c;
    }
  }

  /** The filesystem as a mutable object: the operating-system calls the
      script makes, each with the precondition under which the call
      succeeds. */
  class Disk {
    var files: map<Path, Inode>
    var dirs: set<Path>

    ghost predicate Valid()
      reads this
    {
      WellFormed(State())
    }

    function State(): Tree
      reads this
    {
      Tree(files, dirs)
    }

    predicate IsFile(p: Path)
      reads this
    {
      p in files
    }

    predicate IsDir(p: Path)
      reads this
    {
      p in dirs
    }

    predicate PathExists(p: Path)
      reads this
    {
      Exists(State(), p)
    }

    /** `not any(p.iterdir())` */
    predicate IsEmptyDir(p: Path)
      reads this
    {
      Children(State(), p) == {}
    }

    constructor (files: map<Path, Inode>, dirs: set<Path>)
      requires WellFormed(Tree(files, dirs))
      ensures Valid() && State() == Tree(files, dirs)
    {
      this.files := files;
      this.dirs := dirs;
    }

    /** `p.mkdir(parents=True, exist_ok=True)` */
    method MakeDirs(p: Path)
      requires Valid()
      modifies this
      ensures Valid() && State() == MkDirs(old(State()), p)
    {
      dirs := MkDirs(State(), p).dirs;
    }

    /** `os.link(src, dst)`: `dst` becomes a second name for `src`'s inode. */
    method Link(src: Path, dst: Path)
      requires Valid()
      requires src in files && !PathExists(dst)
      requires |dst| == 1 || Parent(dst) in dirs
      modifies this
      ensures Valid()
      ensures files == old(files)[dst := old(files)[src]] && dirs == old(dirs)
    {
      files := files[dst := files[src]];
    }

    /** `os.remove(p)` */
    method Remove(p: Path)
      requires Valid() && p in files
      modifies this
      ensures Valid()
      ensures files == old(files) - {p} && dirs == old(dirs)
    {
      files := files - {p};
    }

    /** `p.rmdir()`: only an empty directory can be removed. */
    method Rmdir(p: Path)
      requires Valid() && p in dirs && IsEmptyDir(p)
      modifies this
      ensures Valid()
      ensures files == old(files) && dirs == old(dirs) - {p}
    {
      forall q | q in files.Keys + dirs && |q| > 1 && Parent(q) == p
        ensures q in Children(State(), p)
      {
        assert q[..|p|] == Parent(q);
      }
      dirs := dirs - {p};
    }
  }
}
