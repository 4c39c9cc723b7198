/** The decisions and effects of one synchronization run, as functions of
    the filesystem before it (`link_documents_to_dst`, `link_file` and
    `remove_stale_files_and_empty_dirs`), and what they guarantee. */
module Reconcile {
  import opened Wrappers
  import opened Paths
  import opened FileSystem
  import opened Documents
  import opened Layout

  /** What one document asks of the synchronizer: its destination and its
      two candidate source files. */
  datatype Target = Target(docId: int, dest: Path, archive: Path, originals: Path)

  function TargetOf(h: Hydrated, src: Path, root: Path, folderTags: set<int>): Target
  {
    Target(h.doc.id, DestinationPath(h, folderTags, root), ArchivePath(src, h.doc.id), OriginalsPath(src, h.doc.id))
  }

  function Targets(docs: seq<Hydrated>, src: Path, root: Path, folderTags: set<int>): seq<Target>
  {
    seq(|docs|, i requires 0 <= i < |docs| => TargetOf(docs[i], src, root, folderTags))
  }

  /** The documents' targets: no destination is any document's source
      path, and every destination lies below the root. */
  lemma TargetsKeepSourcesApart(docs: seq<Hydrated>, src: Path, root: Path, folderTags: set<int>)
    ensures SourcesAreNotDestinations(Targets(docs, src, root, folderTags))
    ensures forall i :: 0 <= i < |docs| ==> Below(Targets(docs, src, root, folderTags)[i].dest, root)
  {
    var ts := Targets(docs, src, root, folderTags);
    forall i, j | 0 <= i < |ts| && 0 <= j < |ts|
      ensures ts[i].dest != ts[j].archive && ts[i].dest != ts[j].originals
    {
      DestinationIsNoSource(docs[i], folderTags, root, src, docs[j].doc.id);
    }
  }

  /** The warnings the run logs. */
  datatype Warning =
    | MissingSource(docId: int, archive: Path, originals: Path)
    | DestinationExists(src: Path, dest: Path)

  /** The synchronizer's working state during the link phase. */
  datatype Progress = Progress(tree: Tree, linked: set<Path>, log: seq<Warning>)

  datatype Report = Report(linked: set<Path>, stale: set<Path>, log: seq<Warning>)

  /** The source file a document is linked from: the archived copy if
      there is one, otherwise the original. */
  function SourceOf(files: map<Path, Inode>, e: Target): (s: Option<Path>)
    ensures s.None? <==> e.archive !in files && e.originals !in files
    ensures e.archive in files ==> s == Some(e.archive)
    ensures e.archive !in files && e.originals in files ==> s == Some(e.originals)
  {
    if e.archive in files then Some(e.archive)
    else if e.originals in files then Some(e.originals)
    else None
  }

  /** `link_file(src, dst, dry_run, linked_files)` once `src` is known to
      exist: link only onto a free destination, record the destination in
      every case. */
  function LinkInto(p: Progress, src: Path, dst: Path, dryRun: bool): Progress
    requires src in p.tree.files
  {
    if dryRun then Progress(p.tree, p.linked + {dst}, p.log)
    else if Exists(p.tree, dst) then Progress(p.tree, p.linked + {dst}, p.log + [DestinationExists(src, dst)])
    else Progress(Tree(p.tree.files[dst := p.tree.files[src]], p.tree.dirs), p.linked + {dst}, p.log)
  }

  /** One iteration of the per-document loop: make the parent directory,
      then link from the archive copy, else from the original, else warn. */
  function LinkStep(p: Progress, e: Target, dryRun: bool): Progress
  {
    var t := if dryRun then p.tree else MkDirs(p.tree, Parent(e.dest));
    match SourceOf(t.files, e)
    case Some(s) => LinkInto(Progress(t, p.linked, p.log), s, e.dest, dryRun)
    case None => Progress(t, p.linked, p.log + [MissingSource(e.docId, e.archive, e.originals)])
  }

  /** The link phase over the documents in order. */
  function LinkPhase(t: Tree, ts: seq<Target>, dryRun: bool): Progress
  {
    if ts == [] then Progress(t, {}, [])
    else LinkStep(LinkPhase(t, ts[..|ts| - 1], dryRun), ts[|ts| - 1], dryRun)
  }

  /** The snapshot `set(dst_path.rglob("*.pdf"))`, restricted to files:
      the PDF files below the root. */
  function PdfFilesBelow(files: map<Path, Inode>, root: Path): (s: set<Path>)
    ensures s <= files.Keys
  {
    set f | f in files && Below(f, root) && EndsWith(f[|f| - 1], ".pdf")
  }

  /** `set(dst_path.rglob("*.pdf"))` as written: every entry below the root
      whose name ends in ".pdf", directories included. */
  function RglobPdf(t: Tree, root: Path): (s: set<Path>)
    ensures PdfFilesBelow(t.files, root) <= s
    ensures s - PdfFilesBelow(t.files, root) <= t.dirs
  {
    set p | p in t.files.Keys + t.dirs && Below(p, root) && EndsWith(p[|p| - 1], ".pdf")
  }

  /** A tree a first run leaves for one document of type "Invoice.pdf":
      its type directory's name ends in ".pdf". */
  function InvoicePdfTree(): Tree
  {
    Tree(map[["dst", "Invoice.pdf", "2024-01", "2024-01-15 ACME Bill.pdf"] := 7],
         {["dst"], ["dst", "Invoice.pdf"], ["dst", "Invoice.pdf", "2024-01"]})
  }

  /** With the snapshot as written, the next run counts the type
      directory as a stale file, though `os.remove` cannot remove it. */
  lemma PdfNamedDirectoryIsStale()
    ensures var t := InvoicePdfTree();
            var linked := {["dst", "Invoice.pdf", "2024-01", "2024-01-15 ACME Bill.pdf"]};
            && ["dst", "Invoice.pdf"] in RglobPdf(t, ["dst"]) - linked
            && ["dst", "Invoice.pdf"] !in t.files
            && PdfFilesBelow(t.files, ["dst"]) - linked == {}
  {
    var t := InvoicePdfTree();
    var d: Path := ["dst", "Invoice.pdf"];
    assert Below(d, ["dst"]) && d[|d| - 1] == "Invoice.pdf";
    assert EndsWith("Invoice.pdf", ".pdf");
    var f: Path := ["dst", "Invoice.pdf", "2024-01", "2024-01-15 ACME Bill.pdf"];
    assert t.files.Keys == {f};
  }

  /** The directories left once every directory below the root that holds
      no file at any depth has been removed. */
  function PrunedDirs(t: Tree, root: Path): set<Path>
  {
    set d | d in t.dirs && (!Below(d, root) || HasFileBelow(t.files, d))
  }

  /** A whole run: make the root, snapshot the existing PDFs, link every
      document, then (unless dry-running) sweep. */
  function Sync(t: Tree, ts: seq<Target>, root: Path, dryRun: bool): (Tree, Report)
  {
    var t0 := if dryRun then t else MkDirs(t, root);
    var existing := PdfFilesBelow(t0.files, root);
    var p := LinkPhase(t0, ts, dryRun);
    if dryRun then (p.tree, Report(p.linked, existing - p.linked, p.log))
    else Sweep(p, existing, root)
  }

  /** The end of a real run: remove `existing - linked`, then the
      directories below the root left empty. */
  function Sweep(p: Progress, existing: set<Path>, root: Path): (Tree, Report)
  {
    var stale := existing - p.linked;
    var files := p.tree.files - stale;
    (Tree(files, PrunedDirs(Tree(files, p.tree.dirs), root)), Report(p.linked, stale, p.log))
  }

  /** The destinations of the documents whose source file exists. */
  function LinkedDestinations(files: map<Path, Inode>, ts: seq<Target>): set<Path>
  {
    set i | 0 <= i < |ts| && SourceOf(files, ts[i]).Some? :: ts[i].dest
  }

  /** Every directory the link phase makes sure of for the documents. */
  function ParentDirs(ts: seq<Target>): set<Path>
  {
    set i, q | 0 <= i < |ts| && q in Prefixes(Parent(ts[i].dest)) :: q
  }

  /** The directories after a run's `mkdir` calls. */
  function SyncDirs(t: Tree, ts: seq<Target>, root: Path): set<Path>
  {
    t.dirs + Prefixes(root) + ParentDirs(ts)
  }

  predicate SourcesAreNotDestinations(ts: seq<Target>)
  {
    forall i, j :: 0 <= i < |ts| && 0 <= j < |ts| ==> ts[i].dest != ts[j].archive && ts[i].dest != ts[j].originals
  }

  // ---------------------------------------------------------------------
  // One step of the link phase

  /** A step keeps every file, and adds at most the document's destination,
      as a link to its source. */
  lemma LinkStepFiles(p: Progress, e: Target, dryRun: bool)
    ensures var r := LinkStep(p, e, dryRun).tree;
            && (forall f :: f in p.tree.files ==> f in r.files && r.files[f] == p.tree.files[f])
            && (forall f :: f in r.files && f !in p.tree.files ==>
                  f == e.dest && SourceOf(p.tree.files, e).Some? && r.files[f] == p.tree.files[SourceOf(p.tree.files, e).value])
            && p.tree.dirs <= r.dirs
  {
    var t := if dryRun then p.tree else MkDirs(p.tree, Parent(e.dest));
    assert t.files == p.tree.files && p.tree.dirs <= t.dirs;
  }

  /** A step records the destination exactly when the source exists. */
  lemma LinkStepLinked(p: Progress, e: Target, dryRun: bool)
    ensures LinkStep(p, e, dryRun).linked == p.linked + (if SourceOf(p.tree.files, e).Some? then {e.dest} else {})
  {
    var t := if dryRun then p.tree else MkDirs(p.tree, Parent(e.dest));
    assert t.files == p.tree.files;
  }

  /** Outside a dry run, a step whose source exists leaves something at the
      destination, and a step whose destination is taken adds no file. */
  lemma LinkStepReaches(p: Progress, e: Target)
    ensures SourceOf(p.tree.files, e).Some? ==> Exists(LinkStep(p, e, false).tree, e.dest)
    ensures Exists(p.tree, e.dest) ==> LinkStep(p, e, false).tree.files == p.tree.files
  {
    var t := MkDirs(p.tree, Parent(e.dest));
    assert t.files == p.tree.files && p.tree.dirs <= t.dirs;
  }

  // ---------------------------------------------------------------------
  // The link phase

  /** A dry run's link phase changes nothing. */
  lemma {:induction false} LinkPhaseDryRunPure(t: Tree, ts: seq<Target>)
    ensures LinkPhase(t, ts, true).tree == t
  {
    if ts != [] {
      LinkPhaseDryRunPure(t, ts[..|ts| - 1]);
    }
  }

  /** Linking never removes or overwrites a file, never removes a
      directory, and adds files only at destinations. */
  lemma {:induction false} LinkPhaseFiles(t: Tree, ts: seq<Target>, dryRun: bool)
    ensures var r := LinkPhase(t, ts, dryRun).tree;
            && (forall p :: p in t.files ==> p in r.files && r.files[p] == t.files[p])
            && (forall p :: p in r.files && p !in t.files ==> exists i :: 0 <= i < |ts| && ts[i].dest == p)
            && t.dirs <= r.dirs
  {
    if ts != [] {
      var front := ts[..|ts| - 1];
      var e := ts[|ts| - 1];
      LinkPhaseFiles(t, front, dryRun);
      var q := LinkPhase(t, front, dryRun);
      LinkStepFiles(q, e, dryRun);
      var r := LinkPhase(t, ts, dryRun).tree;
      assert r == LinkStep(q, e, dryRun).tree;
      forall p | p in r.files && p !in t.files
        ensures exists i :: 0 <= i < |ts| && ts[i].dest == p
      {
        if p in q.tree.files {
          var i :| 0 <= i < |front| && front[i].dest == p;
          assert ts[i] == front[i];
        } else {
          assert ts[|ts| - 1].dest == p;
        }
      }
    }
  }

  /** Whether a document's source exists cannot change while linking, as no
      destination is a source path. */
  lemma SourceUnchanged(t: Tree, ts: seq<Target>, dryRun: bool, e: Target)
    requires forall i :: 0 <= i < |ts| ==> ts[i].dest != e.archive && ts[i].dest != e.originals
    ensures SourceOf(LinkPhase(t, ts, dryRun).tree.files, e) == SourceOf(t.files, e)
    ensures var s := SourceOf(t.files, e); s.Some? ==> LinkPhase(t, ts, dryRun).tree.files[s.value] == t.files[s.value]
  {
    LinkPhaseFiles(t, ts, dryRun);
  }

  /** Appending a document adds its destination to the linked set exactly
      when its source exists. */
  lemma LinkedDestinationsSnoc(files: map<Path, Inode>, ts: seq<Target>)
    requires ts != []
    ensures LinkedDestinations(files, ts) ==
            LinkedDestinations(files, ts[..|ts| - 1]) + (if SourceOf(files, ts[|ts| - 1]).Some? then {ts[|ts| - 1].dest} else {})
  {
    var front := ts[..|ts| - 1];
    forall i | 0 <= i < |front| ensures ts[i] == front[i] { }
  }

  /** The linked set is the destinations of exactly the documents whose
      source exists before the run, whether or not it is a dry run. */
  lemma {:induction false} LinkPhaseLinked(t: Tree, ts: seq<Target>, dryRun: bool)
    requires SourcesAreNotDestinations(ts)
    ensures LinkPhase(t, ts, dryRun).linked == LinkedDestinations(t.files, ts)
  {
    if ts != [] {
      var front := ts[..|ts| - 1];
      var e := ts[|ts| - 1];
      assert SourcesAreNotDestinations(front);
      LinkPhaseLinked(t, front, dryRun);
      SourceUnchanged(t, front, dryRun, e);
      LinkStepLinked(LinkPhase(t, front, dryRun), e, dryRun);
      LinkedDestinationsSnoc(t.files, ts);
    }
  }

  /** Every file the link phase creates is a hard link: it shares the
      inode of the source of the first document, in order, that has it as
      destination and whose source exists (the first writer wins). */
  lemma {:induction false} LinkPhaseNewLinks(t: Tree, ts: seq<Target>, dryRun: bool)
    requires SourcesAreNotDestinations(ts)
    ensures var r := LinkPhase(t, ts, dryRun).tree;
            forall p :: p in r.files && p !in t.files ==>
              exists i :: 0 <= i < |ts| && ts[i].dest == p && SourceOf(t.files, ts[i]).Some?
                          && r.files[p] == t.files[SourceOf(t.files, ts[i]).value]
                          && forall j :: 0 <= j < i && ts[j].dest == p ==> SourceOf(t.files, ts[j]).None?
  {
    if dryRun {
      LinkPhaseDryRunPure(t, ts);
    } else if ts != [] {
      var front := ts[..|ts| - 1];
      assert SourcesAreNotDestinations(front);
      LinkPhaseNewLinks(t, front, false);
      var r := LinkPhase(t, ts, false).tree;
      forall p | p in r.files && p !in t.files
        ensures exists i :: 0 <= i < |ts| && ts[i].dest == p && SourceOf(t.files, ts[i]).Some?
                            && r.files[p] == t.files[SourceOf(t.files, ts[i]).value]
                            && forall j :: 0 <= j < i && ts[j].dest == p ==> SourceOf(t.files, ts[j]).None?
      {
        NewLinkStep(t, ts, p);
      }
    }
  }

  /** The last document of the link phase keeps the first-writer link of
      every earlier new file, and a file it adds has no earlier writer. */
  lemma NewLinkStep(t: Tree, ts: seq<Target>, p: Path)
    requires ts != [] && SourcesAreNotDestinations(ts)
    requires var front := ts[..|ts| - 1]; var q := LinkPhase(t, front, false).tree;
             forall p :: p in q.files && p !in t.files ==>
               exists i :: 0 <= i < |front| && front[i].dest == p && SourceOf(t.files, front[i]).Some?
                           && q.files[p] == t.files[SourceOf(t.files, front[i]).value]
                           && forall j :: 0 <= j < i && front[j].dest == p ==> SourceOf(t.files, front[j]).None?
    requires p in LinkPhase(t, ts, false).tree.files && p !in t.files
    ensures var r := LinkPhase(t, ts, false).tree;
            exists i :: 0 <= i < |ts| && ts[i].dest == p && SourceOf(t.files, ts[i]).Some?
                        && r.files[p] == t.files[SourceOf(t.files, ts[i]).value]
                        && forall j :: 0 <= j < i && ts[j].dest == p ==> SourceOf(t.files, ts[j]).None?
  {
    var front := ts[..|ts| - 1];
    var e := ts[|ts| - 1];
    var q := LinkPhase(t, front, false);
    if p in q.tree.files {
      KeptLinkStep(t, ts, p);
    } else {
      FreshLinkHasNoEarlierWriter(t, ts, p);
      assert LinkPhase(t, ts, false).tree == LinkStep(q, e, false).tree;
      assert SourcesAreNotDestinations(front);
      SourceUnchanged(t, front, false, e);
      LinkStepFiles(q, e, false);
    }
  }

  /** A file that an earlier document added keeps its first-writer link. */
  lemma KeptLinkStep(t: Tree, ts: seq<Target>, p: Path)
    requires ts != []
    requires var front := ts[..|ts| - 1]; var q := LinkPhase(t, front, false).tree;
             forall p :: p in q.files && p !in t.files ==>
               exists i :: 0 <= i < |front| && front[i].dest == p && SourceOf(t.files, front[i]).Some?
                           && q.files[p] == t.files[SourceOf(t.files, front[i]).value]
                           && forall j :: 0 <= j < i && front[j].dest == p ==> SourceOf(t.files, front[j]).None?
    requires p in LinkPhase(t, ts[..|ts| - 1], false).tree.files && p !in t.files
    ensures var r := LinkPhase(t, ts, false).tree;
            exists i :: 0 <= i < |ts| && ts[i].dest == p && SourceOf(t.files, ts[i]).Some?
                        && r.files[p] == t.files[SourceOf(t.files, ts[i]).value]
                        && forall j :: 0 <= j < i && ts[j].dest == p ==> SourceOf(t.files, ts[j]).None?
  {
    var front := ts[..|ts| - 1];
    var q := LinkPhase(t, front, false);
    LinkStepFiles(q, ts[|ts| - 1], false);
    assert LinkPhase(t, ts, false).tree.files[p] == q.tree.files[p];
    var i :| 0 <= i < |front| && front[i].dest == p && SourceOf(t.files, front[i]).Some?
             && q.tree.files[p] == t.files[SourceOf(t.files, front[i]).value]
             && forall j :: 0 <= j < i && front[j].dest == p ==> SourceOf(t.files, front[j]).None?;
    assert forall j :: 0 <= j < i ==> ts[j] == front[j];
    assert ts[i] == front[i];
  }

  /** A file the last document adds is its destination, and no earlier
      document with that destination has a source. */
  lemma FreshLinkHasNoEarlierWriter(t: Tree, ts: seq<Target>, p: Path)
    requires ts != []
    requires p in LinkPhase(t, ts, false).tree.files && p !in LinkPhase(t, ts[..|ts| - 1], false).tree.files
    ensures p == ts[|ts| - 1].dest
    ensures forall j :: 0 <= j < |ts| - 1 && ts[j].dest == p ==> SourceOf(t.files, ts[j]).None?
  {
    var front := ts[..|ts| - 1];
    var e := ts[|ts| - 1];
    var q := LinkPhase(t, front, false);
    assert LinkPhase(t, ts, false).tree == LinkStep(q, e, false).tree;
    LinkStepFiles(q, e, false);
    LinkPhaseComplete(t, front);
    LinkStepReaches(q, e);
    assert !Exists(q.tree, p);
    forall j | 0 <= j < |front| && ts[j].dest == p
      ensures SourceOf(t.files, ts[j]).None?
    {
      assert ts[j] == front[j];
    }
  }

  /** Outside a dry run, every document whose source exists ends the link
      phase with something at its destination, and its destination
      recorded as linked. */
  lemma {:induction false} LinkPhaseComplete(t: Tree, ts: seq<Target>)
    ensures var r := LinkPhase(t, ts, false);
            forall i :: 0 <= i < |ts| && SourceOf(t.files, ts[i]).Some? ==> Exists(r.tree, ts[i].dest) && ts[i].dest in r.linked
  {
    if ts != [] {
      var front := ts[..|ts| - 1];
      var e := ts[|ts| - 1];
      LinkPhaseComplete(t, front);
      LinkPhaseFiles(t, front, false);
      var q := LinkPhase(t, front, false);
      LinkStepFiles(q, e, false);
      LinkStepLinked(q, e, false);
      LinkStepReaches(q, e);
      var r := LinkPhase(t, ts, false);
      assert r == LinkStep(q, e, false);
      assert q.tree.files.Keys <= r.tree.files.Keys && q.tree.dirs <= r.tree.dirs && q.linked <= r.linked;
      forall i | 0 <= i < |ts| && SourceOf(t.files, ts[i]).Some?
        ensures Exists(r.tree, ts[i].dest) && ts[i].dest in r.linked
      {
        if i < |front| {
          assert ts[i] == front[i];
        } else {
          assert SourceOf(q.tree.files, e).Some?;
        }
      }
    }
  }

  /** Outside a dry run, when every document whose source exists already
      has something at its destination, the link phase creates no file. */
  lemma {:induction false} LinkPhaseNoNewFiles(t: Tree, ts: seq<Target>)
    requires forall i :: 0 <= i < |ts| && SourceOf(t.files, ts[i]).Some? ==> Exists(t, ts[i].dest)
    ensures LinkPhase(t, ts, false).tree.files == t.files
  {
    if ts != [] {
      var front := ts[..|ts| - 1];
      LinkPhaseNoNewFiles(t, front);
      LinkPhaseFiles(t, front, false);
      var q := LinkPhase(t, front, false);
      var e := ts[|ts| - 1];
      if SourceOf(t.files, e).Some? {
        assert Exists(q.tree, e.dest);
        LinkStepReaches(q, e);
      } else {
        LinkStepFiles(q, e, false);
        assert LinkStep(q, e, false).tree.files.Keys == t.files.Keys;
      }
    }
  }

  /** Outside a dry run, the directories after the link phase are the old
      ones plus every document's parent chain. */
  lemma {:induction false} LinkPhaseDirs(t: Tree, ts: seq<Target>)
    ensures LinkPhase(t, ts, false).tree.dirs == t.dirs + ParentDirs(ts)
  {
    if ts != [] {
      var front := ts[..|ts| - 1];
      var e := ts[|ts| - 1];
      LinkPhaseDirs(t, front);
      LinkStepDirs(LinkPhase(t, front, false), e);
      ParentDirsSnoc(ts);
    }
  }

  /** One step makes sure of the document's parent chain and of nothing else. */
  lemma LinkStepDirs(p: Progress, e: Target)
    ensures LinkStep(p, e, false).tree.dirs == p.tree.dirs + Prefixes(Parent(e.dest))
  {
    var t := MkDirs(p.tree, Parent(e.dest));
    assert t.dirs == p.tree.dirs + Prefixes(Parent(e.dest));
    match SourceOf(t.files, e)
    case Some(src) =>
      assert LinkInto(Progress(t, p.linked, p.log), src, e.dest, false).tree.dirs == t.dirs;
    case None =>
  }

  lemma ParentDirsSnoc(ts: seq<Target>)
    requires ts != []
    ensures ParentDirs(ts) == ParentDirs(ts[..|ts| - 1]) + Prefixes(Parent(ts[|ts| - 1].dest))
  {
    var front := ts[..|ts| - 1];
    var last := Prefixes(Parent(ts[|ts| - 1].dest));
    forall q | q in ParentDirs(ts) ensures q in ParentDirs(front) + last {
      var i :| 0 <= i < |ts| && q in Prefixes(Parent(ts[i].dest));
      if i < |front| {
        assert ts[i] == front[i];
      }
    }
    forall q | q in ParentDirs(front) + last ensures q in ParentDirs(ts) {
      if q in ParentDirs(front) {
        var i :| 0 <= i < |front| && q in Prefixes(Parent(front[i].dest));
        assert ts[i] == front[i];
      } else {
        var i := |ts| - 1;
        assert q in Prefixes(Parent(ts[i].dest));
      }
    }
  }

  // ---------------------------------------------------------------------
  // A whole run

  /** A dry run leaves the filesystem exactly as it was. */
  lemma SyncDryRunPure(t: Tree, ts: seq<Target>, root: Path)
    ensures Sync(t, ts, root, true).0 == t
  {
    LinkPhaseDryRunPure(t, ts);
  }

  /** The run's decisions, in closed form: the linked set is the
      destinations of the documents whose source exists, the stale set is
      every PDF below the root at the start that is not linked. Both are
      the same for a dry run and a real one. */
  lemma SyncDecisions(t: Tree, ts: seq<Target>, root: Path, dryRun: bool)
    requires SourcesAreNotDestinations(ts)
    ensures Sync(t, ts, root, dryRun).1.linked == LinkedDestinations(t.files, ts)
    ensures Sync(t, ts, root, dryRun).1.stale == PdfFilesBelow(t.files, root) - LinkedDestinations(t.files, ts)
  {
    var t0 := if dryRun then t else MkDirs(t, root);
    LinkPhaseLinked(t0, ts, dryRun);
  }

  /** Outside a dry run: a PDF below the root that no document claims is
      gone afterwards; every other file is still there with its inode. */
  lemma SyncSweep(t: Tree, ts: seq<Target>, root: Path)
    ensures var (r, report) := Sync(t, ts, root, false);
            && (forall f :: f in PdfFilesBelow(t.files, root) && f !in report.linked ==> f !in r.files)
            && (forall f :: f in t.files && (f !in PdfFilesBelow(t.files, root) || f in report.linked) ==>
                               f in r.files && r.files[f] == t.files[f])
  {
    LinkPhaseFiles(MkDirs(t, root), ts, false);
  }

  /** A document whose source is missing does not protect its destination:
      a PDF already there that no other document claims is removed as
      stale. */
  lemma SyncMissingSourceIsStale(t: Tree, ts: seq<Target>, root: Path, i: int)
    requires SourcesAreNotDestinations(ts)
    requires 0 <= i < |ts| && SourceOf(t.files, ts[i]).None?
    requires ts[i].dest in PdfFilesBelow(t.files, root)
    requires forall j :: 0 <= j < |ts| && ts[j].dest == ts[i].dest ==> SourceOf(t.files, ts[j]).None?
    ensures ts[i].dest in Sync(t, ts, root, false).1.stale
    ensures ts[i].dest !in Sync(t, ts, root, false).0.files
  {
    SyncDecisions(t, ts, root, false);
    SyncSweep(t, ts, root);
  }

  /** Outside a dry run, a document whose source exists has a file at its
      destination afterwards, unless a directory sits there. */
  lemma SyncComplete(t: Tree, ts: seq<Target>, root: Path)
    ensures var r := Sync(t, ts, root, false).0;
            forall i :: (0 <= i < |ts| && SourceOf(t.files, ts[i]).Some? && ts[i].dest != [] &&
                         ts[i].dest !in SyncDirs(t, ts, root)) ==> ts[i].dest in r.files
  {
    var t0 := MkDirs(t, root);
    LinkPhaseComplete(t0, ts);
    LinkPhaseDirs(t0, ts);
  }

  /** Outside a dry run, every file the run adds is a hard link to the
      source of a document whose destination it is. */
  lemma SyncLinksShareInode(t: Tree, ts: seq<Target>, root: Path)
    requires SourcesAreNotDestinations(ts)
    ensures var r := Sync(t, ts, root, false).0;
            forall p :: p in r.files && p !in t.files ==>
              exists i :: 0 <= i < |ts| && ts[i].dest == p && SourceOf(t.files, ts[i]).Some?
                          && r.files[p] == t.files[SourceOf(t.files, ts[i]).value]
                          && forall j :: 0 <= j < i && ts[j].dest == p ==> SourceOf(t.files, ts[j]).None?
  {
    LinkPhaseNewLinks(MkDirs(t, root), ts, false);
  }

  /** A file already at a destination is kept as it is, even when it is not
      a link to the document's current source: the run never refreshes a
      destination whose source was replaced. */
  lemma SyncKeepsExistingDestination(t: Tree, ts: seq<Target>, root: Path, i: int)
    requires SourcesAreNotDestinations(ts)
    requires 0 <= i < |ts| && SourceOf(t.files, ts[i]).Some? && ts[i].dest in t.files
    ensures ts[i].dest in Sync(t, ts, root, false).1.linked
    ensures ts[i].dest in Sync(t, ts, root, false).0.files
    ensures Sync(t, ts, root, false).0.files[ts[i].dest] == t.files[ts[i].dest]
  {
    SyncDecisions(t, ts, root, false);
    assert ts[i].dest in LinkedDestinations(t.files, ts);
    SyncSweep(t, ts, root);
  }

  /** After pruning a well-formed tree no directory below the root is
      empty, and the root itself is kept. */
  lemma PrunedLeavesNoEmptyDir(t: Tree, root: Path)
    requires WellFormed(t)
    ensures var r := Tree(t.files, PrunedDirs(t, root));
            && WellFormed(r)
            && (root in t.dirs ==> root in r.dirs)
            && forall d :: d in r.dirs && Below(d, root) ==> Children(r, d) != {}
  {
    var r := Tree(t.files, PrunedDirs(t, root));
    forall p | (p in r.files || p in r.dirs) && |p| > 1
      ensures Parent(p) in r.dirs
    {
      assert Parent(p) in t.dirs;
      if Below(Parent(p), root) {
        if p in r.files {
          assert Below(p, Parent(p));
        } else {
          var f :| f in t.files && Below(f, p);
          assert Below(p, Parent(p));
          BelowTransitive(f, p, Parent(p));
        }
      }
    }
    forall d | d in r.dirs && Below(d, root)
      ensures Children(r, d) != {}
    {
      var f :| f in t.files && Below(f, d);
      var c := f[..|d| + 1];
      assert c[..|d|] == d && IsChild(c, d);
      if |f| == |d| + 1 {
        assert c == f;
      } else {
        AncestorsAreDirs(t, f, |d| + 1);
        assert f[..|c|] == c;
        BelowTransitive(c, d, root);
      }
      assert c in Children(r, d);
    }
  }

  lemma SourceOfAgrees(f: map<Path, Inode>, g: map<Path, Inode>, e: Target)
    requires e.archive in f <==> e.archive in g
    requires e.originals in f <==> e.originals in g
    ensures SourceOf(f, e) == SourceOf(g, e)
  {
  }

  /** The files a real run leaves: the link phase's files minus the stale
      ones. */
  lemma SyncFiles(t: Tree, ts: seq<Target>, root: Path)
    ensures Sync(t, ts, root, false).0.files ==
            LinkPhase(MkDirs(t, root), ts, false).tree.files - (PdfFilesBelow(t.files, root) - LinkPhase(MkDirs(t, root), ts, false).linked)
    ensures Sync(t, ts, root, false).0.dirs ==
            PrunedDirs(Tree(Sync(t, ts, root, false).0.files, LinkPhase(MkDirs(t, root), ts, false).tree.dirs), root)
  {
  }

  /** A first run leaves every document's source as it was, given that no
      source lies below the root. */
  lemma FirstRunSources(t: Tree, ts: seq<Target>, root: Path)
    requires SourcesAreNotDestinations(ts)
    requires forall i :: 0 <= i < |ts| ==> !Below(ts[i].archive, root) && !Below(ts[i].originals, root)
    ensures forall i :: 0 <= i < |ts| ==> SourceOf(Sync(t, ts, root, false).0.files, ts[i]) == SourceOf(t.files, ts[i])
  {
    var t0 := MkDirs(t, root);
    LinkPhaseFiles(t0, ts, false);
    SyncFiles(t, ts, root);
    var files1 := Sync(t, ts, root, false).0.files;
    forall i | 0 <= i < |ts| ensures SourceOf(files1, ts[i]) == SourceOf(t.files, ts[i]) {
      SourceOfAgrees(files1, t.files, ts[i]);
    }
  }

  /** A first run leaves a file at the destination of every document whose
      source exists, given that no directory sits there. */
  lemma FirstRunLinks(t: Tree, ts: seq<Target>, root: Path)
    requires SourcesAreNotDestinations(ts)
    requires forall i :: 0 <= i < |ts| ==> ts[i].dest != [] && ts[i].dest !in SyncDirs(t, ts, root)
    ensures forall i :: 0 <= i < |ts| && SourceOf(t.files, ts[i]).Some? ==> ts[i].dest in Sync(t, ts, root, false).0.files
  {
    var t0 := MkDirs(t, root);
    LinkPhaseLinked(t0, ts, false);
    SyncComplete(t, ts, root);
  }

  /** A first run leaves no PDF below the root that no document claims. */
  lemma FirstRunNoUnclaimed(t: Tree, ts: seq<Target>, root: Path)
    requires SourcesAreNotDestinations(ts)
    ensures PdfFilesBelow(Sync(t, ts, root, false).0.files, root) <= LinkedDestinations(t.files, ts)
  {
    var t0 := MkDirs(t, root);
    var p1 := LinkPhase(t0, ts, false);
    var linked := LinkedDestinations(t.files, ts);
    LinkPhaseLinked(t0, ts, false);
    LinkPhaseNewLinks(t0, ts, false);
    SyncFiles(t, ts, root);
    var files1 := Sync(t, ts, root, false).0.files;
    forall f | f in PdfFilesBelow(files1, root) ensures f in linked {
      if f !in t.files {
        var i :| 0 <= i < |ts| && ts[i].dest == f && SourceOf(t.files, ts[i]).Some?
                 && p1.tree.files[f] == t.files[SourceOf(t.files, ts[i]).value];
      }
    }
  }

  /** The directories a first run leaves are the pruned result of its
      `mkdir` calls. */
  lemma FirstRunDirs(t: Tree, ts: seq<Target>, root: Path)
    ensures var t1 := Sync(t, ts, root, false).0;
            t1.dirs == PrunedDirs(Tree(t1.files, SyncDirs(t, ts, root)), root)
  {
    LinkPhaseDirs(MkDirs(t, root), ts);
    SyncFiles(t, ts, root);
  }

  /** Pruning again after re-adding directories that were there before the
      first pruning gives the first pruning's result. */
  lemma PruneAgain(files: map<Path, Inode>, dirs: set<Path>, m: set<Path>, root: Path)
    ensures var once := PrunedDirs(Tree(files, dirs + m), root);
            PrunedDirs(Tree(files, once + m), root) == once
  {
  }

  /** A run over a tree where every document whose source exists already
      has its file, no PDF below the root is unclaimed, and the directories
      are already pruned, changes nothing and finds nothing stale. */
  lemma RerunChangesNothing(t: Tree, ts: seq<Target>, root: Path, d: set<Path>)
    requires SourcesAreNotDestinations(ts)
    requires forall i :: 0 <= i < |ts| && SourceOf(t.files, ts[i]).Some? ==> ts[i].dest in t.files
    requires PdfFilesBelow(t.files, root) <= LinkedDestinations(t.files, ts)
    requires t.dirs == PrunedDirs(Tree(t.files, d + (Prefixes(root) + ParentDirs(ts))), root)
    ensures Sync(t, ts, root, false).0 == t
    ensures Sync(t, ts, root, false).1.stale == {}
    ensures Sync(t, ts, root, false).1.linked == LinkedDestinations(t.files, ts)
  {
    var m := Prefixes(root) + ParentDirs(ts);
    var t0 := MkDirs(t, root);
    SettledLinkPhase(t0, ts);
    LinkPhaseDirs(t0, ts);
    var p := LinkPhase(t0, ts, false);
    SettledSweep(p, PdfFilesBelow(t.files, root), root, t, d, m);
  }

  /** The sweep over a settled tree removes nothing, and pruning again after
      the same `mkdir` calls gives the same directories. */
  lemma SettledSweep(p: Progress, existing: set<Path>, root: Path, t: Tree, d: set<Path>, m: set<Path>)
    requires p.tree == Tree(t.files, t.dirs + m)
    requires existing <= p.linked
    requires t.dirs == PrunedDirs(Tree(t.files, d + m), root)
    ensures Sweep(p, existing, root) == (t, Report(p.linked, {}, p.log))
  {
    assert existing - p.linked == {};
    assert t.files - {} == t.files;
    PruneAgain(t.files, d, m, root);
  }

  /** On a tree where every document whose source exists already has its
      file, the link phase adds no file and links every such document. */
  lemma SettledLinkPhase(t: Tree, ts: seq<Target>)
    requires SourcesAreNotDestinations(ts)
    requires forall i :: 0 <= i < |ts| && SourceOf(t.files, ts[i]).Some? ==> ts[i].dest in t.files
    ensures LinkPhase(t, ts, false).tree.files == t.files
    ensures LinkPhase(t, ts, false).linked == LinkedDestinations(t.files, ts)
  {
    LinkPhaseNoNewFiles(t, ts);
    LinkPhaseLinked(t, ts, false);
  }

  /** Running twice is running once: with sources outside the destination
      tree and no directory in a destination's place, a second run with the
      same documents leaves the filesystem as the first one left it, and
      finds nothing stale. */
  lemma SyncIdempotent(t: Tree, ts: seq<Target>, root: Path)
    requires SourcesAreNotDestinations(ts)
    requires forall i :: 0 <= i < |ts| ==> !Below(ts[i].archive, root) && !Below(ts[i].originals, root)
    requires forall i :: 0 <= i < |ts| ==> ts[i].dest != [] && ts[i].dest !in SyncDirs(t, ts, root)
    ensures var t1 := Sync(t, ts, root, false).0;
            && Sync(t1, ts, root, false).0 == t1
            && Sync(t1, ts, root, false).1.stale == {}
            && Sync(t1, ts, root, false).1.linked == Sync(t, ts, root, false).1.linked
  {
    var t1 := Sync(t, ts, root, false).0;
    FirstRunSources(t, ts, root);
    FirstRunLinks(t, ts, root);
    FirstRunNoUnclaimed(t, ts, root);
    FirstRunDirs(t, ts, root);
    SyncDecisions(t, ts, root, false);
    assert LinkedDestinations(t1.files, ts) == LinkedDestinations(t.files, ts);
    assert SyncDirs(t, ts, root) == t.dirs + (Prefixes(root) + ParentDirs(ts));
    RerunChangesNothing(t1, ts, root, t.dirs);
  }
}
