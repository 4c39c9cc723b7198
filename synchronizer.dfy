/** The synchronizer as it runs: the loops of `link_documents_to_dst`,
    `link_file` and `remove_stale_files_and_empty_dirs` over a `Disk`,
    each proved to compute what `Reconcile` specifies. */
module Synchronizer {
  import opened Wrappers
  import opened Paths
  import opened FileSystem
  import opened Documents
  import opened Layout
  import opened Reconcile

  /** The greatest path of a non-empty set in pathlib's order. */
  method MaxPath(s: set<Path>) returns (m: Path)
    requires s != {}
    ensures m in s
    ensures forall p :: p in s && p != m ==> PathLess(p, m)
  {
    m :| m in s;
    var rest := s - {m};
    while rest != {}
      invariant rest <= s && m in s && m !in rest
      invariant forall p :: p in s && p !in rest && p != m ==> PathLess(p, m)
      decreases |rest|
    {
      var p :| p in rest;
      if PathLess(m, p) {
        forall q | q in s && q !in rest && q != m
          ensures PathLess(q, p)
        {
          PathLessTransitive(q, m, p);
        }
        m := p;
      } else if p != m {
        PathLessTotal(p, m);
      }
      rest := rest - {p};
    }
  }

  /** `sorted(paths, reverse=True)` */
  method SortDescending(s: set<Path>) returns (order: seq<Path>)
    ensures forall p :: p in s <==> p in order
    ensures forall i, j :: 0 <= i < j < |order| ==> PathLess(order[j], order[i])
  {
    order := [];
    var rest := s;
    while rest != {}
      invariant rest <= s
      invariant forall p :: p in s ==> (p in rest <==> p !in order)
      invariant forall p :: p in order ==> p in s
      invariant forall i, j :: 0 <= i < j < |order| ==> PathLess(order[j], order[i])
      invariant forall i, p :: 0 <= i < |order| && p in rest ==> PathLess(p, order[i])
      decreases |rest|
    {
      var m := MaxPath(rest);
      forall i, p | 0 <= i < |order| && p in rest - {m}
        ensures PathLess(p, order[i])
      { }
      order := order + [m];
      rest := rest - {m};
    }
  }

  /** `link_file(src, dst, dry_run, linked_files)`: fails with the source
      path when the source is missing (`FileNotFoundError`); otherwise links
      onto a free destination, warns about an occupied one, and returns
      the linked set with the destination added. */
  method LinkFile(fs: Disk, src: Path, dst: Path, dryRun: bool, linked: set<Path>)
      returns (r: Result<set<Path>, Path>, warning: Option<Warning>)
    requires fs.Valid()
    requires !dryRun ==> |dst| <= 1 || Parent(dst) in fs.dirs
    modifies fs
    ensures fs.Valid()
    ensures src !in old(fs.files) ==> r == Failure(src) && fs.State() == old(fs.State())
    ensures src in old(fs.files) ==>
              var p := LinkInto(Progress(old(fs.State()), linked, []), src, dst, dryRun);
              && r == Success(p.linked)
              && fs.State() == p.tree
              && p.log == (if warning.Some? then [warning.value] else [])
  {
    warning := None;
    if !fs.IsFile(src) {
      return Failure(src), None;
    }
    if !dryRun {
      if !fs.PathExists(dst) {
        fs.Link(src, dst);
      } else {
        warning := Some(DestinationExists(src, dst));
      }
    }
    r := Success(linked + {dst});
  }

  /** The first loop of `remove_stale_files_and_empty_dirs`. */
  method RemoveStaleFiles(fs: Disk, stale: set<Path>, dryRun: bool)
    requires fs.Valid()
    requires stale <= fs.files.Keys
    modifies fs
    ensures fs.Valid() && fs.dirs == old(fs.dirs)
    ensures fs.files == if dryRun then old(fs.files) else old(fs.files) - stale
  {
    var todo := stale;
    while todo != {}
      invariant todo <= stale
      invariant fs.Valid() && fs.dirs == old(fs.dirs)
      invariant fs.files == if dryRun then old(fs.files) else old(fs.files) - (stale - todo)
      decreases |todo|
    {
      var f :| f in todo;
      if !dryRun {
        fs.Remove(f);
      }
      todo := todo - {f};
    }
  }

  /** In a strictly descending order, an entry below another comes first. */
  lemma BelowComesFirst(order: seq<Path>, i: int, j: int)
    requires forall a, b :: 0 <= a < b < |order| ==> PathLess(order[b], order[a])
    requires 0 <= i < |order| && 0 <= j < |order|
    requires Below(order[i], order[j])
    ensures i < j
  {
    AncestorSortsFirst(order[i], order[j]);
    if j < i {
      PathLessAsymmetric(order[j], order[i]);
    }
  }

  /** While directories are visited children first, a directory reached by
      the loop is empty exactly when no file lies below it. */
  lemma EmptyWhenNoFileBelow(t: Tree, cur: set<Path>, root: Path, order: seq<Path>, k: int)
    requires WellFormed(t) && cur <= t.dirs
    requires forall a, b :: 0 <= a < b < |order| ==> PathLess(order[b], order[a])
    requires forall p :: (p in t.files || p in t.dirs) && Below(p, root) <==> p in order
    requires 0 <= k < |order| && Below(order[k], root)
    requires forall j :: 0 <= j < k && order[j] in t.dirs ==> (order[j] in cur <==> HasFileBelow(t.files, order[j]))
    requires forall x :: x in t.dirs && x !in order[..k] ==> x in cur
    ensures Children(Tree(t.files, cur), order[k]) == {} <==> !HasFileBelow(t.files, order[k])
  {
    if HasFileBelow(t.files, order[k]) {
      VisitedDirKeepsChild(t, cur, root, order, k);
    } else {
      VisitedDirHasNoChild(t, cur, root, order, k);
    }
  }

  /** A directory with a file below it keeps the child leading to that file. */
  lemma VisitedDirKeepsChild(t: Tree, cur: set<Path>, root: Path, order: seq<Path>, k: int)
    requires WellFormed(t)
    requires forall a, b :: 0 <= a < b < |order| ==> PathLess(order[b], order[a])
    requires forall p :: (p in t.files || p in t.dirs) && Below(p, root) <==> p in order
    requires 0 <= k < |order| && Below(order[k], root)
    requires forall j :: 0 <= j < k && order[j] in t.dirs ==> (order[j] in cur <==> HasFileBelow(t.files, order[j]))
    requires HasFileBelow(t.files, order[k])
    ensures Children(Tree(t.files, cur), order[k]) != {}
  {
    var d := order[k];
    var f :| f in t.files && Below(f, d);
    ChildTowards(t, f, d);
    var c := f[..|d| + 1];
    if c != f {
      assert HasFileBelow(t.files, c);
      BelowTransitive(c, d, root);
      var j :| 0 <= j < |order| && order[j] == c;
      BelowComesFirst(order, j, k);
    }
    assert c in Children(Tree(t.files, cur), d);
  }

  /** A directory with no file below it has no child left: its child files
      would be files below it, and its child directories were removed. */
  lemma VisitedDirHasNoChild(t: Tree, cur: set<Path>, root: Path, order: seq<Path>, k: int)
    requires cur <= t.dirs
    requires forall a, b :: 0 <= a < b < |order| ==> PathLess(order[b], order[a])
    requires forall p :: (p in t.files || p in t.dirs) && Below(p, root) <==> p in order
    requires 0 <= k < |order| && Below(order[k], root)
    requires forall j :: 0 <= j < k && order[j] in t.dirs ==> (order[j] in cur <==> HasFileBelow(t.files, order[j]))
    requires !HasFileBelow(t.files, order[k])
    ensures Children(Tree(t.files, cur), order[k]) == {}
  {
    var d := order[k];
    forall c | c in Children(Tree(t.files, cur), d) ensures false {
      assert Below(c, d);
      if c !in t.files {
        assert c in t.dirs;
        BelowTransitive(c, d, root);
        var j :| 0 <= j < |order| && order[j] == c;
        BelowComesFirst(order, j, k);
        var f :| f in t.files && Below(f, c);
        BelowTransitive(f, c, d);
      }
    }
  }

  /** One visit of the directory loop keeps its invariant: every visited
      directory is present exactly when a file lies below it, and every
      unvisited one is still present. */
  lemma VisitKeepsInvariant(t: Tree, cur: set<Path>, order: seq<Path>, k: int, removed: bool)
    requires forall a, b :: 0 <= a < b < |order| ==> PathLess(order[b], order[a])
    requires 0 <= k < |order|
    requires forall j :: 0 <= j < k && order[j] in t.dirs ==> (order[j] in cur <==> HasFileBelow(t.files, order[j]))
    requires forall x :: x in t.dirs && x !in order[..k] ==> x in cur
    requires removed <==> order[k] in cur && !HasFileBelow(t.files, order[k])
    ensures var next := if removed then cur - {order[k]} else cur;
            && (forall j :: 0 <= j < k + 1 && order[j] in t.dirs ==> (order[j] in next <==> HasFileBelow(t.files, order[j])))
            && (forall x :: x in t.dirs && x !in order[..k + 1] ==> x in next)
  {
    var d := order[k];
    var next := if removed then cur - {d} else cur;
    forall j | 0 <= j < k ensures order[j] != d {
      PathLessIrreflexive(d);
    }
    assert order[..k + 1] == order[..k] + [d];
  }

  /** The second loop of `remove_stale_files_and_empty_dirs`: visit every
      entry below the root in reverse sorted order and remove each empty
      directory. */
  method RemoveEmptyDirs(fs: Disk, root: Path, dryRun: bool)
    requires fs.Valid()
    modifies fs
    ensures fs.Valid() && fs.files == old(fs.files)
    ensures fs.dirs == if dryRun then old(fs.dirs) else PrunedDirs(old(fs.State()), root)
  {
    var entries := set p | p in fs.files.Keys + fs.dirs && Below(p, root);
    var order := SortDescending(entries);
    ghost var t := fs.State();
    assert forall p :: (p in t.files || p in t.dirs) && Below(p, root) <==> p in order;
    var k := 0;
    while k < |order|
      invariant 0 <= k <= |order|
      invariant fs.Valid() && fs.files == t.files && fs.dirs <= t.dirs
      invariant dryRun ==> fs.dirs == t.dirs
      invariant !dryRun ==> forall x :: x in t.dirs && x !in order[..k] ==> x in fs.dirs
      invariant !dryRun ==> forall j :: 0 <= j < k && order[j] in t.dirs ==>
                                         (order[j] in fs.dirs <==> HasFileBelow(t.files, order[j]))
    {
      var d := order[k];
      var removed := fs.IsDir(d) && fs.IsEmptyDir(d) && d != root;
      if !dryRun {
        EmptyWhenNoFileBelow(t, fs.dirs, root, order, k);
        VisitKeepsInvariant(t, fs.dirs, order, k, removed);
        if removed {
          fs.Rmdir(d);
        }
      }
      k := k + 1;
    }
    assert order[..k] == order;
    assert !dryRun ==> fs.dirs == PrunedDirs(t, root) by {
      if !dryRun {
        forall x | x in t.dirs && Below(x, root) ensures (x in fs.dirs <==> HasFileBelow(t.files, x)) {
          var j :| 0 <= j < |order| && order[j] == x;
        }
      }
    }
  }

  /** `remove_stale_files_and_empty_dirs(existing, linked, root, dry_run)`:
      remove every snapshot file that was not linked, then every directory
      below the root left empty. */
  method RemoveStaleFilesAndEmptyDirs(fs: Disk, existing: set<Path>, linked: set<Path>, root: Path, dryRun: bool)
    requires fs.Valid()
    requires existing - linked <= fs.files.Keys
    modifies fs
    ensures fs.Valid()
    ensures var swept := Tree(old(fs.files) - (existing - linked), old(fs.dirs));
            fs.State() == if dryRun then old(fs.State()) else Tree(swept.files, PrunedDirs(swept, root))
    ensures !dryRun ==> forall d :: d in fs.dirs && Below(d, root) ==> Children(fs.State(), d) != {}
  {
    var stale := existing - linked;
    RemoveStaleFiles(fs, stale, dryRun);
    ghost var swept := fs.State();
    RemoveEmptyDirs(fs, root, dryRun);
    if !dryRun {
      PrunedLeavesNoEmptyDir(swept, root);
    }
  }

  /** One iteration of the per-document loop of `link_documents_to_dst`. */
  method LinkDocument(fs: Disk, e: Target, dryRun: bool, linked: set<Path>, log: seq<Warning>)
      returns (linked': set<Path>, log': seq<Warning>)
    requires fs.Valid()
    modifies fs
    ensures fs.Valid()
    ensures Progress(fs.State(), linked', log') == LinkStep(Progress(old(fs.State()), linked, log), e, dryRun)
  {
    if !dryRun {
      fs.MakeDirs(Parent(e.dest));
    }
    linked', log' := linked, log;
    if fs.IsFile(e.archive) {
      var r, w := LinkFile(fs, e.archive, e.dest, dryRun, linked);
      linked' := r.value;
      if w.Some? {
        log' := log + [w.value];
      }
    } else if fs.IsFile(e.originals) {
      var r, w := LinkFile(fs, e.originals, e.dest, dryRun, linked);
      linked' := r.value;
      if w.Some? {
        log' := log + [w.value];
      }
    } else {
      log' := log + [MissingSource(e.docId, e.archive, e.originals)];
    }
  }

  /** The per-document loop of `link_documents_to_dst`. */
  method LinkAll(fs: Disk, ts: seq<Target>, dryRun: bool) returns (linked: set<Path>, log: seq<Warning>)
    requires fs.Valid()
    modifies fs
    ensures fs.Valid()
    ensures Progress(fs.State(), linked, log) == LinkPhase(old(fs.State()), ts, dryRun)
  {
    ghost var t0 := fs.State();
    linked, log := {}, [];
    var i := 0;
    while i < |ts|
      invariant 0 <= i <= |ts|
      invariant fs.Valid()
      invariant Progress(fs.State(), linked, log) == LinkPhase(t0, ts[..i], dryRun)
    {
      linked, log := LinkDocument(fs, ts[i], dryRun, linked, log);
      assert ts[..i + 1][..i] == ts[..i];
      i := i + 1;
    }
    assert ts[..i] == ts;
  }

  /** The body of `link_documents_to_dst` over the documents' targets: make
      the destination root, snapshot the PDFs below it, link every
      document, then sweep. */
  method Synchronize(fs: Disk, ts: seq<Target>, root: Path, dryRun: bool) returns (report: Report)
    requires fs.Valid()
    modifies fs
    ensures fs.Valid()
    ensures (fs.State(), report) == Sync(old(fs.State()), ts, root, dryRun)
    ensures !dryRun ==> forall d :: d in fs.dirs && Below(d, root) ==> Children(fs.State(), d) != {}
  {
    ghost var t := fs.State();
    if !dryRun {
      fs.MakeDirs(root);
    }
    ghost var t0 := fs.State();
    assert t0 == if dryRun then t else MkDirs(t, root);
    var existing := set f | f in fs.files.Keys && Below(f, root) && EndsWith(f[|f| - 1], ".pdf");
    assert existing == PdfFilesBelow(t0.files, root);
    var linked, log := LinkAll(fs, ts, dryRun);
    ghost var p := LinkPhase(t0, ts, dryRun);
    assert p == Progress(fs.State(), linked, log);
    LinkPhaseFiles(t0, ts, dryRun);
    RemoveStaleFilesAndEmptyDirs(fs, existing, linked, root, dryRun);
    report := Report(linked, existing - linked, log);
  }

  /** `link_documents_to_dst`: the filesystem and the report are exactly
      those `Sync` specifies for the documents' targets; afterwards (outside
      a dry run) no directory below the root is empty. */
  method LinkDocumentsToDst(fs: Disk, src: Path, root: Path, docs: seq<Hydrated>, dryRun: bool, folderTags: set<int>)
      returns (report: Report)
    requires fs.Valid()
    modifies fs
    ensures fs.Valid()
    ensures (fs.State(), report) == Sync(old(fs.State()), Targets(docs, src, root, folderTags), root, dryRun)
    ensures !dryRun ==> forall d :: d in fs.dirs && Below(d, root) ==> Children(fs.State(), d) != {}
  {
    report := Synchronize(fs, Targets(docs, src, root, folderTags), root, dryRun);
  }
}
